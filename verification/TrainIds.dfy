// The mapping from points in time to train ids: the reference a device got with its
// last time tick, and Device::getTimestamp on top of it.

module TrainIds {
  import opened TimeArithmetic

  // What a time server sends: the id that starts at (sec, frac), and the period in
  // microseconds until the next one.
  datatype TickRef = TickRef(id: nat, sec: nat, frac: nat, period: nat) {
    function Epoch(): Epoch {
      TimeArithmetic.Epoch.Epoch(sec, frac)
    }

    ghost predicate Valid() {
      period > 0 && Epoch().Canonical()
    }

    // The period in attoseconds
    ghost function Span(): nat {
      period * ATTOS_PER_MICRO
    }

    // The attosecond at which train n nominally starts, (n - id) periods after the
    // reference; trains before the reference start before it.
    ghost function Start(n: int): int {
      Epoch().Attos() + Multiple(n - id, Span())
    }
  }

  // k * span, by repeated addition
  ghost function Multiple(k: int, span: nat): int
    decreases if k < 0 then -k else k
  {
    if k == 0 then 0
    else if k > 0 then Multiple(k - 1, span) + span
    else Multiple(k + 1, span) - span
  }

  lemma {:induction false} MultipleIsProduct(k: int, span: nat)
    ensures Multiple(k, span) == k * span
    decreases if k < 0 then -k else k
  {
    if k > 0 {
      MultipleIsProduct(k - 1, span);
    } else if k < 0 {
      MultipleIsProduct(k + 1, span);
    }
  }

  function PeriodsBetween(ref: TickRef, epoch: Epoch): nat
    requires ref.Valid() && epoch.Canonical()
  {
    Elapsed(epoch, ref.Epoch()).WholeMicros() / ref.period
  }

  // Device::getTimestamp, with the result 0 for a past that would need a negative id
  function TrainIdAt(ref: TickRef, epoch: Epoch): nat
    requires ref.period > 0 ==> ref.Valid()
    requires epoch.Canonical()
  {
    if ref.period == 0 then 0
    else
      var periods := PeriodsBetween(ref, epoch);
      if !epoch.Before(ref.Epoch()) then ref.id + periods
      else if ref.id >= periods + 1 then ref.id - periods - 1
      else 0
  }

  // The stamp that the server's ticker assigns to a train at or after its reference
  function TickStamp(ref: TickRef, newId: nat): Epoch
    requires newId >= ref.id
  {
    PeriodSplitIsExact(ref.period);
    ref.Epoch().Plus(PeriodDuration(ref.period).Times(newId - ref.id))
  }

  // The time part of Device
  class DeviceClock {
    var timeId: nat
    var timeSec: nat
    var timeFrac: nat
    var timePeriod: nat  // 0 until the first tick

    constructor ()
      ensures Reference() == TickRef(0, 0, 0, 0)
    {
      timeId, timeSec, timeFrac, timePeriod := 0, 0, 0, 0;
    }

    function Reference(): TickRef
      reads this
    {
      TickRef(timeId, timeSec, timeFrac, timePeriod)
    }

    method SlotTimeTick(id: nat, sec: nat, frac: nat, period: nat)
      modifies this
      ensures Reference() == TickRef(id, sec, frac, period)
    {
      timeId := id;
      timeSec := sec;
      timeFrac := frac;
      timePeriod := period;
    }

    method GetTimestamp(epoch: Epoch) returns (stamp: (Epoch, nat))
      requires Reference().Valid() || timePeriod == 0
      requires epoch.Canonical()
      ensures stamp.0 == epoch
      ensures timePeriod == 0 ==> stamp.1 == 0
      ensures timePeriod > 0 ==> Brackets(Reference(), epoch.Attos(), stamp.1)
      ensures stamp.1 == TrainIdAt(Reference(), epoch)
    {
      var id := 0;
      if timePeriod > 0 {
        var epochLastReceived := Epoch.Epoch(timeSec, timeFrac);
        var duration := Elapsed(epoch, epochLastReceived);
        var nPeriods := duration.WholeMicros() / timePeriod;
        if !epoch.Before(epochLastReceived) {
          id := timeId + nPeriods;
        } else if timeId >= nPeriods + 1 {
          id := timeId - nPeriods - 1;
        }
        TrainIdBrackets(Reference(), epoch);
      }
      stamp := (epoch, id);
    }
  }

  // What an id says about a point in time: from the reference on, the train has started
  // and the next has not; before the reference a train owns the end of its period
  // instead of the start, and 0 stands for everything at or before the start of id 0's
  // successor.
  ghost predicate Brackets(ref: TickRef, attos: nat, id: nat) {
    if attos >= ref.Epoch().Attos() then ref.Start(id) <= attos < ref.Start(id + 1)
    else if id > 0 then ref.Start(id) < attos <= ref.Start(id + 1)
    else attos <= ref.Start(1)
  }

  lemma PeriodsBetweenIsFloor(ref: TickRef, epoch: Epoch)
    requires ref.Valid() && epoch.Canonical()
    ensures var t, e := ref.Epoch().Attos(), epoch.Attos();
            && ref.Span() > 0
            && PeriodsBetween(ref, epoch) == (if e < t then t - e else e - t) / ref.Span()
            && (epoch.Before(ref.Epoch()) <==> e < t)
  {
    BeforeIsAttosOrder(epoch, ref.Epoch());
    ElapsedIsExact(epoch, ref.Epoch());
    var d := Elapsed(epoch, ref.Epoch());
    WholeMicrosIsFloor(d);
    FloorOfFloor(d.Attos(), ATTOS_PER_MICRO, ref.period);
  }

  // Every id returned brackets the point in time it was asked for.
  lemma TrainIdBrackets(ref: TickRef, epoch: Epoch)
    requires ref.Valid() && epoch.Canonical()
    ensures Brackets(ref, epoch.Attos(), TrainIdAt(ref, epoch))
  {
    PeriodsBetweenIsFloor(ref, epoch);
    var t, e, span := ref.Epoch().Attos(), epoch.Attos(), ref.Span();
    var q: int := PeriodsBetween(ref, epoch);
    if e >= t {
      FloorBounds(e - t, span);
      StartAtOffset(ref, q);
      StartAtOffset(ref, q + 1);
    } else {
      FloorBounds(t - e, span);
      StartAtOffset(ref, -q);
      StartAtOffset(ref, -q - 1);
      if ref.id < q + 1 {
        StartIsMonotone(ref, ref.id - q, 1);
      }
    }
  }

  lemma StartAtOffset(ref: TickRef, k: int)
    ensures ref.Start(ref.id + k) == ref.Epoch().Attos() + k * ref.Span()
    ensures k < 0 ==> k * ref.Span() == -(-k * ref.Span())
  {
    assert ref.id + k - ref.id == k;
    MultipleIsProduct(k, ref.Span());
  }

  lemma StartIsMonotone(ref: TickRef, m: int, n: int)
    requires m <= n
    ensures ref.Start(m) <= ref.Start(n)
  {
    StartAtOffset(ref, m - ref.id);
    StartAtOffset(ref, n - ref.id);
    OffsetIsMonotone(m - ref.id, n - ref.id, ref.Span());
  }

  lemma StartsAdvance(ref: TickRef, n: int)
    ensures ref.Start(n + 1) == ref.Start(n) + ref.Span()
  {
    StartAtOffset(ref, n + 1 - ref.id);
    StartAtOffset(ref, n - ref.id);
  }

  lemma OffsetIsMonotone(a: int, b: int, span: nat)
    requires a <= b
    ensures a * span <= b * span
  {}

  // The bracket leaves no choice: getTimestamp is the only function that meets it.
  lemma BracketsDetermineTheId(ref: TickRef, attos: nat, m: nat, n: nat)
    requires ref.Valid()
    requires Brackets(ref, attos, m) && Brackets(ref, attos, n)
    ensures m == n
  {
    if m < n {
      StartIsMonotone(ref, m + 1, n);
      StartIsMonotone(ref, 1, n);
    } else if n < m {
      StartIsMonotone(ref, n + 1, m);
      StartIsMonotone(ref, 1, m);
    }
  }

  // A later point in time never gets a smaller id, across the reference as well.
  lemma TrainIdIsMonotone(ref: TickRef, a: Epoch, b: Epoch)
    requires ref.Valid() && a.Canonical() && b.Canonical()
    requires !b.Before(a)
    ensures TrainIdAt(ref, a) <= TrainIdAt(ref, b)
  {
    BeforeIsAttosOrder(b, a);
    TrainIdBrackets(ref, a);
    TrainIdBrackets(ref, b);
    var m, n := TrainIdAt(ref, a), TrainIdAt(ref, b);
    StartAtOffset(ref, 0);
    if n < m {
      StartIsMonotone(ref, n + 1, m);
      StartIsMonotone(ref, 1, m);
      if m > ref.id { StartIsMonotone(ref, ref.id, m); } else { StartIsMonotone(ref, m, ref.id); }
      if n >= ref.id { StartIsMonotone(ref, ref.id, n); } else { StartIsMonotone(ref, n + 1, ref.id); }
    }
  }

  // No drift: the stamp of a train is the nominal start of that train, to the attosecond,
  // however far it is away from the reference.
  lemma TickStampIsNominalStart(ref: TickRef, newId: nat)
    requires ref.Valid() && newId >= ref.id
    ensures TickStamp(ref, newId).Canonical()
    ensures TickStamp(ref, newId).Attos() == ref.Start(newId)
  {
    var period := PeriodDuration(ref.period);
    PeriodSplitIsExact(ref.period);
    TimesIsExact(period, newId - ref.id);
    PlusIsExact(ref.Epoch(), period.Times(newId - ref.id));
    StartAtOffset(ref, newId - ref.id);
    Reassociate(ref.Span(), newId - ref.id);
  }

  lemma Reassociate(x: int, y: int)
    ensures x * y == y * x
  {}

  // Server and device agree: a device that holds the reference from which the server's
  // ticker computed a stamp maps that stamp back to the train.
  lemma DeviceAgreesWithServer(ref: TickRef, newId: nat)
    requires ref.Valid() && newId >= ref.id
    ensures TickStamp(ref, newId).Canonical()
    ensures TrainIdAt(ref, TickStamp(ref, newId)) == newId
  {
    var stamp := TickStamp(ref, newId);
    TickStampIsNominalStart(ref, newId);
    TrainIdBrackets(ref, stamp);
    StartIsMonotone(ref, ref.id, newId);
    StartAtOffset(ref, 0);
    StartsAdvance(ref, newId);
    BracketsDetermineTheId(ref, stamp.Attos(), TrainIdAt(ref, stamp), newId);
  }

  // Two references describe the same schedule: the later one is j periods on.
  ghost predicate Consistent(first: TickRef, later: TickRef) {
    && first.Valid() && later.Valid()
    && later.id >= first.id
    && later.period == first.period
    && later.Epoch().Attos() == first.Start(later.id)
  }

  lemma SameStarts(first: TickRef, later: TickRef, n: int)
    requires Consistent(first, later)
    ensures later.Start(n) == first.Start(n)
  {
    StartAtOffset(first, later.id - first.id);
    StartAtOffset(first, n - first.id);
    StartAtOffset(later, n - later.id);
    Distributes(later.id - first.id, n - later.id, first.Span());
  }

  lemma Distributes(a: int, b: int, span: nat)
    ensures a * span + b * span == (a + b) * span
  {}

  // A point in time that a train starts at: both neighbours could claim it.
  ghost predicate OnBoundary(ref: TickRef, attos: nat) {
    exists n: nat :: ref.Start(n) == attos
  }

  // When re-synchronising with a consistent tick moves an id: exactly for the train
  // starts from the first tick up to before the later one, but for the start of id 0.
  lemma ResyncMovesExactlyTheBoundaries(first: TickRef, later: TickRef, epoch: Epoch)
    requires Consistent(first, later) && epoch.Canonical()
    ensures var e := epoch.Attos();
            var moved := && first.Epoch().Attos() <= e < later.Epoch().Attos()
                         && OnBoundary(first, e) && (first.id > 0 || e > first.Epoch().Attos());
            TrainIdAt(later, epoch) == if moved then TrainIdAt(first, epoch) - 1 else TrainIdAt(first, epoch)
  {
    var e := epoch.Attos();
    var m, n := TrainIdAt(first, epoch), TrainIdAt(later, epoch);
    TrainIdBrackets(first, epoch);
    TrainIdBrackets(later, epoch);
    SameStarts(first, later, n);
    SameStarts(first, later, n + 1);
    SameStarts(first, later, 1);
    StartIsMonotone(first, first.id, later.id);
    if e >= later.Epoch().Attos() || e < first.Epoch().Attos() {
      BracketsDetermineTheId(first, e, m, n);
    } else {
      BetweenTheTicks(first, e, m, n);
      if OnBoundary(first, e) { ZeroOnlyAtTheReference(first, e, m); }
    }
  }

  // From the reference on, id 0 starts at no other boundary than a reference of id 0.
  lemma ZeroOnlyAtTheReference(first: TickRef, e: nat, m: nat)
    requires first.Valid() && first.Epoch().Attos() <= e && OnBoundary(first, e)
    requires first.Start(m) <= e < first.Start(m + 1)
    ensures m > 0 <==> first.id > 0 || e > first.Epoch().Attos()
  {
    var k: nat :| first.Start(k) == e;
    StartIsInjective(first, m, k);
    StartAtOffset(first, 0);
    if m == 0 && first.id > 0 {
      StartIsMonotone(first, 1, first.id);
    } else if m > 0 && first.id == 0 {
      StartsAdvance(first, 0);
      StartIsMonotone(first, 1, m);
    }
  }

  // Between the ticks the first reference looks forward and the later one backward.
  lemma BetweenTheTicks(first: TickRef, e: nat, m: nat, n: nat)
    requires first.Valid()
    requires first.Start(m) <= e < first.Start(m + 1)
    requires if n > 0 then first.Start(n) < e <= first.Start(n + 1) else e <= first.Start(1)
    ensures n == if OnBoundary(first, e) && m > 0 then m - 1 else m
  {
    if k: nat :| first.Start(k) == e {
      StartIsInjective(first, m, k);
      assert OnBoundary(first, e);
    } else {
      assert !OnBoundary(first, e);
    }
    if n > m {
      StartIsMonotone(first, m + 1, n);
    } else if n + 1 < m {
      StartsAdvance(first, n + 1);
      StartsAdvance(first, 1);
      StartIsMonotone(first, n + 2, m);
      StartIsMonotone(first, 2, m);
    }
  }

  // A point in time lies in one forward period only.
  lemma StartIsInjective(ref: TickRef, m: nat, k: nat)
    requires ref.Valid()
    requires ref.Start(m) <= ref.Start(k) < ref.Start(m + 1)
    ensures m == k
  {
    if k < m {
      StartsAdvance(ref, k);
      StartIsMonotone(ref, k + 1, m);
    } else if m < k {
      StartIsMonotone(ref, m + 1, k);
    }
  }

  // A stamp that was computed from an earlier reference, at a device that already has the
  // later one: exactly for trains before the later tick the device is one id behind.
  lemma LateStampIsOneBehind(first: TickRef, later: TickRef, newId: nat)
    requires Consistent(first, later) && newId >= first.id
    ensures TickStamp(first, newId).Canonical()
    ensures TrainIdAt(later, TickStamp(first, newId)) ==
            if 0 < newId < later.id then newId - 1 else newId
  {
    var stamp := TickStamp(first, newId);
    TickStampIsNominalStart(first, newId);
    DeviceAgreesWithServer(first, newId);
    ResyncMovesExactlyTheBoundaries(first, later, stamp);
    StartAtOffset(first, 0);
    if newId < later.id {
      StartsAdvance(first, newId);
      StartIsMonotone(first, newId + 1, later.id);
    } else {
      StartIsMonotone(first, later.id, newId);
    }
    if newId > first.id {
      StartsAdvance(first, first.id);
      StartIsMonotone(first, first.id + 1, newId);
    }
  }

  // The other way round there is no difference: a device that still has an earlier
  // consistent reference agrees with every stamp computed from a later one.
  lemma StampAtEarlierReference(first: TickRef, later: TickRef, newId: nat)
    requires Consistent(first, later) && newId >= later.id
    ensures TickStamp(later, newId).Canonical()
    ensures TrainIdAt(first, TickStamp(later, newId)) == newId
  {
    var stamp := TickStamp(later, newId);
    TickStampIsNominalStart(later, newId);
    DeviceAgreesWithServer(later, newId);
    StartIsMonotone(later, later.id, newId);
    StartAtOffset(later, 0);
    BeforeIsAttosOrder(stamp, later.Epoch());
    ResyncKeepsTheFuture(first, later, stamp);
  }

  // Agreement from then on: after a consistent tick nothing at or after it changes.
  lemma ResyncKeepsTheFuture(first: TickRef, later: TickRef, epoch: Epoch)
    requires Consistent(first, later) && epoch.Canonical()
    requires !epoch.Before(later.Epoch())
    ensures TrainIdAt(later, epoch) == TrainIdAt(first, epoch)
  {
    BeforeIsAttosOrder(epoch, later.Epoch());
    ResyncMovesExactlyTheBoundaries(first, later, epoch);
  }
}
