// The time ticker of the device server as one uninterrupted thread sees it: recording
// an external tick, catching up with missed ids, and re-arming the timer.

module Ticker {
  import opened TimeArithmetic
  import opened TrainIds

  const BACKLOG_MICROS: nat := 600_000_000  // 10 minutes

  // One round of Device::onTimeUpdate calls
  datatype Hook = Hook(id: nat, stamp: Epoch, period: nat)

  // A wait for the timer: the id its handler is bound to, and when it expires
  datatype Wait = Wait(newId: nat, deadline: nat)

  function Max(a: nat, b: nat): nat {
    if a < b then b else a
  }

  function Min(a: nat, b: nat): nat {
    if a < b then a else b
  }

  function Backlog(period: nat): nat
    requires period > 0
  {
    BACKLOG_MICROS / period
  }

  // The id from which the catch-up loop counts upwards
  function CatchUpStart(last: nat, newId: nat, backlog: nat): nat
    requires newId >= 1
  {
    var start := if last == 0 then newId - 1 else last;
    if newId > start + backlog then newId - backlog else start
  }

  // The ids after `from` up to `to`
  ghost function IdsAfter(from: nat, to: nat): seq<nat> {
    seq(if from < to then to - from else 0, i requires 0 <= i => from + 1 + i)
  }

  // How many ids one tick owes to the devices: all that were missed, but no more than
  // fit into the backlog, and a single one for the first tick ever
  function BurstLength(last: nat, newId: nat, backlog: nat): (n: nat)
    requires newId >= 1
    ensures n <= newId && n <= backlog
  {
    if last == 0 then Min(1, backlog)
    else if newId <= last then 0
    else Min(newId - last, backlog)
  }

  // The `length` consecutive ids that end with newId
  ghost function LastIds(newId: nat, length: nat): seq<nat>
    requires length <= newId
  {
    seq(length, i requires 0 <= i < length => newId - length + 1 + i)
  }

  ghost function Burst(last: nat, newId: nat, period: nat): seq<nat>
    requires newId >= 1 && period > 0
  {
    LastIds(newId, BurstLength(last, newId, Backlog(period)))
  }

  ghost function HooksFor(ids: seq<nat>, stamp: Epoch, period: nat): seq<Hook> {
    seq(|ids|, i requires 0 <= i < |ids| => Hook(ids[i], stamp, period))
  }

  function Deadline(ref: TickRef, newId: nat): nat
    requires newId >= ref.id
  {
    TickStamp(ref, newId).Plus(PeriodDuration(ref.period)).Nanos()
  }

  // What the server remembers of an external tick: the local clock stands in for a
  // time server without a clock (sec == 0).
  function RecordedReference(id: nat, sec: nat, frac: nat, period: nat, now: Epoch): TickRef {
    if sec == 0 then TickRef(id, now.sec, now.frac, period) else TickRef(id, sec, frac, period)
  }

  // The safeguards and the loop together post exactly the burst that is owed.
  lemma CatchUpIsTheBurst(last: nat, newId: nat, period: nat)
    requires newId >= 1 && period > 0
    ensures IdsAfter(CatchUpStart(last, newId, Backlog(period)), newId) == Burst(last, newId, period)
  {}

  // One burst never covers more than ten minutes.
  lemma BurstCoversAtMostTheBacklog(last: nat, newId: nat, period: nat)
    requires newId >= 1 && period > 0
    ensures |Burst(last, newId, period)| * period <= BACKLOG_MICROS
  {
    var n := |Burst(last, newId, period)|;
    FloorBounds(BACKLOG_MICROS, period);
    ProductIsMonotone(n, Backlog(period), period);
  }

  // An id that became due is skipped exactly if it lies the whole backlog or more behind,
  // or before the first tick.
  lemma SkippedExactlyBeyondBacklog(last: nat, newId: nat, period: nat, id: nat)
    requires newId >= 1 && period > 0
    requires last < id <= newId
    ensures id !in Burst(last, newId, period)
            <==> id + Backlog(period) <= newId || (last == 0 && id < newId)
  {
    var n := BurstLength(last, newId, Backlog(period));
    if id + n > newId {
      assert Burst(last, newId, period)[id - (newId - n + 1)] == id;
    }
  }

  // Exactly which ids a tick posts: those not yet reached of which no more than ten minutes
  // worth of ids have become due since, and only the new one at the first tick.
  lemma BurstIsTheLastTenMinutes(last: nat, newId: nat, period: nat, id: nat)
    requires newId >= 1 && period > 0
    ensures id in Burst(last, newId, period) <==>
            last < id <= newId && (last > 0 || id == newId) && (newId - id + 1) * period <= 600_000_000
  {
    var n := BurstLength(last, newId, Backlog(period));
    FloorBounds(BACKLOG_MICROS, period);
    if id <= newId {
      var behind := newId - id + 1;
      if behind <= Backlog(period) {
        ProductIsMonotone(behind, Backlog(period), period);
      } else {
        ProductIsMonotone(Backlog(period) + 1, behind, period);
      }
      if behind <= n {
        assert Burst(last, newId, period)[n - behind] == id;
      }
    }
  }

  // The exact range of periods for which devices hear about due ids at all
  lemma SilentExactlyForHugePeriods(last: nat, newId: nat, period: nat)
    requires period > 0 && newId > last
    ensures Burst(last, newId, period) == [] <==> period > BACKLOG_MICROS
  {
    FloorBounds(BACKLOG_MICROS, period);
    if Backlog(period) == 0 {
      assert period > BACKLOG_MICROS;
    } else {
      ProductIsMonotone(1, Backlog(period), period);
    }
  }

  // The timer is set for the nominal start of the next train (in the nanoseconds it
  // resolves), independent of when and how often it ran since the reference.
  lemma DeadlineIsNextNominalStart(ref: TickRef, newId: nat)
    requires ref.Valid() && newId >= ref.id
    ensures 0 <= ref.Start(newId + 1)
    ensures Deadline(ref, newId) == ref.Start(newId + 1) / ATTOS_PER_NANO
    ensures Deadline(ref, newId) == TickStamp(ref, newId + 1).Nanos()
  {
    TickStampIsNominalStart(ref, newId);
    TickStampIsNominalStart(ref, newId + 1);
    PeriodSplitIsExact(ref.period);
    PlusIsExact(TickStamp(ref, newId), PeriodDuration(ref.period));
    StartsAdvance(ref, newId);
    NanosIsFloor(TickStamp(ref, newId + 1));
    NanosIsFloor(TickStamp(ref, newId).Plus(PeriodDuration(ref.period)));
  }

  // ----- 64-bit arithmetic -----

  // CatchUpStart as computed on unsigned 64-bit numbers
  function CatchUpStart64(last: nat, newId: nat, backlog: nat): nat {
    var start := if last == 0 then (newId - 1) % TWO_TO_THE_64 else last;
    if newId > (start + backlog) % TWO_TO_THE_64 then (newId - backlog) % TWO_TO_THE_64 else start
  }

  // For ids from 1 on nothing wraps.
  lemma NoWrapFromOneOn(last: nat, newId: nat, backlog: nat)
    requires 1 <= newId < TWO_TO_THE_64
    requires last + backlog < TWO_TO_THE_64 && newId + backlog <= TWO_TO_THE_64
    ensures CatchUpStart64(last, newId, backlog) == CatchUpStart(last, newId, backlog)
  {}

  // A first tick with id 0 wraps: afterwards the loop has nothing to do for exactly the
  // ids below the backlog, while a first tick with id 1 starts at once.
  lemma FirstIdZeroStalls(newId: nat, backlog: nat)
    requires 1 <= backlog <= BACKLOG_MICROS && newId < TWO_TO_THE_64
    ensures var start := CatchUpStart64(0, 0, backlog);
            CatchUpStart64(start, newId, backlog) >= newId <==> newId < backlog
    ensures CatchUpStart64(0, 1, backlog) < 1
  {}

  // ----- server and devices, from the tick that arrives to the id a device sees -----

  // The server keeps what RecordedReference says, but forwards the raw tick. For an id n
  // from that of the tick on, a device maps the server's stamp back to n for every tick
  // with seconds; for one without, exactly if the local clock that replaces them is less
  // than a period after the raw fraction (or before it, for id 0).
  lemma ForwardedTickAgrees(id: nat, sec: nat, frac: nat, period: nat, now: Epoch, n: nat)
    requires period > 0 && frac < ATTOS_PER_SECOND && now.Canonical() && n >= id
    ensures var server := RecordedReference(id, sec, frac, period, now);
            var device := TickRef(id, sec, frac, period);
            && server.Valid() && device.Valid() && TickStamp(server, n).Canonical()
            && (TrainIdAt(device, TickStamp(server, n)) == n <==>
                  || sec != 0
                  || (frac <= now.Attos() < frac + device.Span())
                  || (n == 0 && now.Attos() < frac))
  {
    var server := RecordedReference(id, sec, frac, period, now);
    var device := TickRef(id, sec, frac, period);
    TickStampIsNominalStart(server, n);
    if sec != 0 {
      DeviceAgreesWithServer(device, n);
    } else {
      var stamp := TickStamp(server, n);
      StartAtOffset(server, n - id);
      StartAtOffset(device, n - id);
      StartAtOffset(device, 0);
      StartsAdvance(device, n);
      StartIsMonotone(device, id, n);
      TrainIdBrackets(device, stamp);
      if Brackets(device, stamp.Attos(), n) {
        BracketsDetermineTheId(device, stamp.Attos(), TrainIdAt(device, stamp), n);
      }
    }
  }

  // A tick for id 1 without seconds, at a server whose clock says one minute after the
  // epoch: with a period of 100 ms the device takes train 1 for train 601.
  lemma TickWithoutSecondsDisagrees()
    ensures var server := RecordedReference(1, 0, 0, 100_000, Epoch.Epoch(60, 0));
            TrainIdAt(TickRef(1, 0, 0, 100_000), TickStamp(server, 1)) == 601
  {
    var server := RecordedReference(1, 0, 0, 100_000, Epoch.Epoch(60, 0));
    var device := TickRef(1, 0, 0, 100_000);
    var stamp := TickStamp(server, 1);
    TickStampIsNominalStart(server, 1);
    StartAtOffset(server, 0);
    StartAtOffset(device, 600);
    StartAtOffset(device, 601);
    TrainIdBrackets(device, stamp);
    BracketsDetermineTheId(device, stamp.Attos(), TrainIdAt(device, stamp), 601);
  }

  // The ticker's part of the device server
  class DeviceServerTicker {
    var timeId: nat
    var timeSec: nat
    var timeFrac: nat
    var timePeriod: nat
    var noTimeTickYet: bool
    var timeIdLastTick: nat
    var waits: seq<Wait>        // pending waits of the timer
    var aborted: nat            // handlers posted with an error code
    var forwarded: seq<TickRef> // external ticks as passed on to devices
    var hooks: seq<Hook>        // onTimeUpdate calls as posted to devices

    constructor ()
      ensures Valid() && noTimeTickYet && timeIdLastTick == 0
      ensures waits == [] && hooks == [] && forwarded == [] && aborted == 0
      ensures Reference() == TickRef(0, 0, 0, 1)
    {
      timeId, timeSec, timeFrac, timePeriod := 0, 0, 0, 1;
      noTimeTickYet, timeIdLastTick := true, 0;
      waits, aborted, forwarded, hooks := [], 0, [], [];
    }

    ghost predicate Valid()
      reads this
    {
      Reference().Valid()
    }

    function Reference(): TickRef
      reads this
    {
      TickRef(timeId, timeSec, timeFrac, timePeriod)
    }

    // The first lock section of slotTimeTick; `now` is the local clock
    method RecordTick(id: nat, sec: nat, frac: nat, period: nat, now: Epoch) returns (firstCall: bool)
      requires period > 0 && now.Canonical()
      modifies `timeId, `timeSec, `timeFrac, `timePeriod, `noTimeTickYet
      ensures !noTimeTickYet && firstCall == old(noTimeTickYet)
      ensures Valid() <==> sec == 0 || frac < ATTOS_PER_SECOND
      ensures Reference() == RecordedReference(id, sec, frac, period, now)
    {
      timeId := id;
      timeSec := sec;
      timeFrac := frac;
      if sec == 0 {
        timeSec := now.sec;
        timeFrac := now.frac;
      }
      timePeriod := period;
      firstCall := noTimeTickYet;
      noTimeTickYet := false;
    }

    method CancelTimer() returns (cancelled: nat)
      modifies `waits, `aborted
      ensures waits == [] && cancelled == |old(waits)| && aborted == old(aborted) + cancelled
    {
      cancelled := |waits|;
      aborted := aborted + cancelled;
      waits := [];
    }

    method SlotTimeTick(id: nat, sec: nat, frac: nat, period: nat, now: Epoch)
      requires Valid() && id >= 1 && frac < ATTOS_PER_SECOND && now.Canonical()
      modifies this
      ensures Valid()
      ensures period == 0 ==> unchanged(this)
      ensures period > 0 ==>
                && !noTimeTickYet
                && Reference() == RecordedReference(id, sec, frac, period, now)
                && forwarded == old(forwarded) + [TickRef(id, sec, frac, period)]
      // The ticker chain is (re)started exactly if there was none yet or the timer could
      // still be cancelled.
      ensures period > 0 && (old(noTimeTickYet) || old(waits) != []) ==>
                && hooks == old(hooks) + HooksFor(Burst(old(timeIdLastTick), id, period), Reference().Epoch(), period)
                && timeIdLastTick == Max(old(timeIdLastTick), id)
                && waits == [Wait(id + 1, Deadline(Reference(), id))]
      ensures period > 0 && !(old(noTimeTickYet) || old(waits) != []) ==>
                && hooks == old(hooks) && timeIdLastTick == old(timeIdLastTick) && waits == []
    {
      if period == 0 {
        return;
      }
      var firstCall := RecordTick(id, sec, frac, period, now);
      forwarded := forwarded + [TickRef(id, sec, frac, period)];
      var cancelled := CancelTimer();
      if cancelled > 0 || firstCall {
        TimeTick(false, id);
        TickStampIsNominalStart(Reference(), id);
        StartAtOffset(Reference(), 0);
        BeforeIsAttosOrder(TickStamp(Reference(), id), Reference().Epoch());
      }
    }

    // The safeguards and the loop of timeTick
    method CatchUp(newId: nat, stamp: Epoch, period: nat)
      requires newId >= 1 && period > 0
      modifies `timeIdLastTick, `hooks
      ensures hooks == old(hooks) + HooksFor(Burst(old(timeIdLastTick), newId, period), stamp, period)
      ensures timeIdLastTick == Max(old(timeIdLastTick), newId)
      ensures forall i :: |old(hooks)| <= i < |hooks| ==> hooks[i].stamp == stamp && hooks[i].period == period
    {
      if timeIdLastTick == 0 {
        timeIdLastTick := newId - 1;
      }
      var backlog := BACKLOG_MICROS / period;
      if newId > timeIdLastTick + backlog {
        timeIdLastTick := newId - backlog;
      }
      ghost var start := timeIdLastTick;
      CatchUpIsTheBurst(old(timeIdLastTick), newId, period);
      while timeIdLastTick < newId
        invariant start <= timeIdLastTick <= Max(start, newId)
        invariant hooks == old(hooks) + HooksFor(IdsAfter(start, timeIdLastTick), stamp, period)
      {
        timeIdLastTick := timeIdLastTick + 1;
        hooks := hooks + [Hook(timeIdLastTick, stamp, period)];
      }
    }

    method TimeTick(error: bool, newId: nat)
      requires Valid() && newId >= 1
      modifies `timeIdLastTick, `waits, `aborted, `hooks
      ensures error ==> unchanged(this)
      ensures !error ==>
                var id := Max(newId, timeId);
                && hooks == old(hooks) + HooksFor(Burst(old(timeIdLastTick), id, timePeriod),
                                                  TickStamp(Reference(), id), timePeriod)
                && timeIdLastTick == Max(old(timeIdLastTick), id)
                && waits == [Wait(id + 1, Deadline(Reference(), id))]
                && aborted == old(aborted) + |old(waits)|
    {
      if error {
        return;
      }
      var ref := Reference();
      var tickId := newId;
      if tickId < ref.id {
        tickId := ref.id;
      }
      var stamp := TickStamp(ref, tickId);

      CatchUp(tickId, stamp, ref.period);
      stamp := stamp.Plus(PeriodDuration(ref.period));
      aborted := aborted + |waits|;
      waits := [];
      waits := waits + [Wait(tickId + 1, stamp.Nanos())];
    }
  }
}
