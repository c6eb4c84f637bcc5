// Which id each round of the ticker is for, under concurrency.

module TickerIds {
  import opened TimeArithmetic
  import opened TrainIds
  import opened Ticker
  import opened TickerProtocol

  ghost predicate IsLarger(x: nat, a: nat, b: nat) {
    x >= a && x >= b && (x == a || x == b)
  }

  // The id that a body starts with: that of the tick whose call started it, or the one
  // after the last completed round
  ghost predicate StartsWith(id: nat, cause: Cause, rounds: seq<Round>, recorded: seq<TickRef>) {
    match cause
    case ByCall(n) => n < |recorded| && id == recorded[n].id
    case ByTimer => rounds != [] && id == rounds[|rounds| - 1].newId + 1
  }

  // The id that it ticks for: never behind the reference that it uses
  ghost predicate IsFor(newId: nat, ref: TickRef, cause: Cause, rounds: seq<Round>, recorded: seq<TickRef>) {
    exists id :: StartsWith(id, cause, rounds, recorded) && IsLarger(newId, ref.id, id)
  }

  ghost predicate NextIsDue(id: nat, rounds: seq<Round>) {
    rounds != [] && id == rounds[|rounds| - 1].newId + 1
  }

  ghost predicate BodyIsDue(b: Body, rounds: seq<Round>, recorded: seq<TickRef>) {
    match b
    case Begun(newId, cause) => StartsWith(newId, cause, rounds, recorded)
    case CatchingUp(newId, ref, _, cause) => IsFor(newId, ref, cause, rounds, recorded)
    case Rearming(nextId) => NextIsDue(nextId, rounds)
  }

  ghost predicate TokensDue(s: State) {
    && (forall i :: 0 <= i < |s.waits| ==> NextIsDue(s.waits[i], s.rounds))
    && (forall i :: 0 <= i < |s.ready| ==> NextIsDue(s.ready[i], s.rounds))
    && (forall t :: t in s.bodies ==> BodyIsDue(s.bodies[t], s.rounds, s.recorded))
    && (forall c :: c in s.calls ==> StartsWith(s.calls[c].id, ByCall(s.calls[c].number), s.rounds, s.recorded))
  }

  ghost predicate RoundIsDue(rounds: seq<Round>, k: nat, recorded: seq<TickRef>)
    requires k < |rounds|
  {
    IsFor(rounds[k].newId, rounds[k].ref, rounds[k].cause, rounds[..k], recorded)
  }

  ghost predicate RoundsDue(s: State) {
    forall k :: 0 <= k < |s.rounds| ==> RoundIsDue(s.rounds, k, s.recorded)
  }

  lemma MoreRecorded(s: State, recorded: seq<TickRef>)
    requires TokensDue(s) && RoundsDue(s) && s.recorded <= recorded
    ensures forall t :: t in s.bodies ==> BodyIsDue(s.bodies[t], s.rounds, recorded)
    ensures forall c :: c in s.calls ==> StartsWith(s.calls[c].id, ByCall(s.calls[c].number), s.rounds, recorded)
    ensures forall k :: 0 <= k < |s.rounds| ==> RoundIsDue(s.rounds, k, recorded)
  {
    forall t | t in s.bodies
      ensures BodyIsDue(s.bodies[t], s.rounds, recorded)
    {
      assert BodyIsDue(s.bodies[t], s.rounds, s.recorded);
      if s.bodies[t].CatchingUp? {
        ForMoreRecorded(s.bodies[t].newId, s.bodies[t].ref, s.bodies[t].cause, s.rounds, s.recorded, recorded);
      }
    }
    forall k | 0 <= k < |s.rounds|
      ensures RoundIsDue(s.rounds, k, recorded)
    {
      assert RoundIsDue(s.rounds, k, s.recorded);
      ForMoreRecorded(s.rounds[k].newId, s.rounds[k].ref, s.rounds[k].cause, s.rounds[..k], s.recorded, recorded);
    }
  }

  lemma ForMoreRecorded(newId: nat, ref: TickRef, cause: Cause, rounds: seq<Round>, recorded: seq<TickRef>, more: seq<TickRef>)
    requires IsFor(newId, ref, cause, rounds, recorded) && recorded <= more
    ensures IsFor(newId, ref, cause, rounds, more)
  {
    var id :| StartsWith(id, cause, rounds, recorded) && IsLarger(newId, ref.id, id);
    assert StartsWith(id, cause, rounds, more);
  }

  lemma TickKeepsDue(s: State, e: Event)
    requires WellFormed(s) && Enabled(s, e) && e.TickArrives?
    requires TokensDue(s) && RoundsDue(s)
    ensures TokensDue(Apply(s, e)) && RoundsDue(Apply(s, e))
  {
    if e.period > 0 {
      var s' := Apply(s, e);
      MoreRecorded(s, s'.recorded);
      assert s'.recorded[|s.recorded|].id == e.id;
    }
  }

  // Steps of slot calls, the timer and handlers pass the ids on.
  lemma HandoverKeepsDue(s: State, e: Event)
    requires WellFormed(s) && SingleToken(s) && Enabled(s, e) && !e.TickArrives? && !StepsBody(e)
    requires TokensDue(s) && RoundsDue(s)
    ensures TokensDue(Apply(s, e)) && RoundsDue(Apply(s, e))
  {
    var s' := Apply(s, e);
    HandoverKeepsRest(s, e);
    forall t | t in s'.bodies
      ensures BodyIsDue(s'.bodies[t], s'.rounds, s'.recorded)
    {
      NewBodyIsDue(s, e, t);
    }
  }

  lemma HandoverKeepsRest(s: State, e: Event)
    requires WellFormed(s) && SingleToken(s) && Enabled(s, e) && !e.TickArrives? && !StepsBody(e)
    requires TokensDue(s)
    ensures var s' := Apply(s, e);
            && s'.rounds == s.rounds && s'.recorded == s.recorded
            && (forall i :: 0 <= i < |s'.waits| ==> NextIsDue(s'.waits[i], s.rounds))
            && (forall i :: 0 <= i < |s'.ready| ==> NextIsDue(s'.ready[i], s.rounds))
            && (forall c :: c in s'.calls ==> StartsWith(s'.calls[c].id, ByCall(s'.calls[c].number), s.rounds, s.recorded))
  {
    var s' := Apply(s, e);
    HandoverKeepsCalls(s, e);
    forall c | c in s'.calls
      ensures StartsWith(s'.calls[c].id, ByCall(s'.calls[c].number), s.rounds, s.recorded)
    {
      assert StartsWith(s.calls[c].id, ByCall(s.calls[c].number), s.rounds, s.recorded);
    }
    forall w | w in s'.waits || w in s'.ready
      ensures NextIsDue(w, s.rounds)
    {
      assert w in s.waits || w in s.ready;
    }
  }

  lemma HandoverKeepsCalls(s: State, e: Event)
    requires WellFormed(s) && Enabled(s, e) && !e.TickArrives? && !StepsBody(e)
    ensures var s' := Apply(s, e);
            && s'.rounds == s.rounds && s'.recorded == s.recorded
            && (forall c :: c in s'.calls ==>
                  c in s.calls && s'.calls[c].id == s.calls[c].id && s'.calls[c].number == s.calls[c].number)
            && (forall w :: w in s'.waits ==> w in s.waits)
            && (forall w :: w in s'.ready ==> w in s.waits || w in s.ready)
  {}

  lemma NewBodyIsDue(s: State, e: Event, t: ThreadId)
    requires WellFormed(s) && SingleToken(s) && Enabled(s, e) && !e.TickArrives? && !StepsBody(e)
    requires TokensDue(s) && t in Apply(s, e).bodies
    ensures BodyIsDue(Apply(s, e).bodies[t], s.rounds, s.recorded)
  {
    var b := Apply(s, e).bodies[t];
    if t in s.bodies && s.bodies[t] == b {
      assert BodyIsDue(s.bodies[t], s.rounds, s.recorded);
    } else if e.CancelTimer? {
      assert b == Begun(s.calls[e.call].id, ByCall(s.calls[e.call].number));
    } else {
      assert b == Begun(s.ready[e.k], ByTimer);
    }
  }

  lemma BodyKeepsDue(s: State, e: Event)
    requires WellFormed(s) && SingleToken(s) && Enabled(s, e) && StepsBody(e)
    requires TokensDue(s) && RoundsDue(s)
    ensures TokensDue(Apply(s, e)) && RoundsDue(Apply(s, e))
  {
    var s', b := Apply(s, e), s.bodies[e.thread];
    AtMostOneBody(s, e.thread);
    assert BodyIsDue(b, s.rounds, s.recorded);
    match e
    case ReadReference(t) =>
      assert IsLarger(s'.bodies[t].newId, s.ref.id, b.newId);
    case SetExpiry(t) =>
      RoundCompletes(s, t);
    case _ =>
  }

  lemma RoundCompletes(s: State, t: ThreadId)
    requires WellFormed(s) && SingleToken(s) && Enabled(s, SetExpiry(t))
    requires TokensDue(s) && RoundsDue(s)
    ensures TokensDue(Apply(s, SetExpiry(t))) && RoundsDue(Apply(s, SetExpiry(t)))
  {
    var s', b := Apply(s, SetExpiry(t)), s.bodies[t];
    AtMostOneBody(s, t);
    assert BodyIsDue(b, s.rounds, s.recorded);
    assert NextIsDue(b.newId + 1, s'.rounds);
    forall k | 0 <= k < |s'.rounds|
      ensures RoundIsDue(s'.rounds, k, s'.recorded)
    {
      if k < |s.rounds| {
        assert RoundIsDue(s.rounds, k, s.recorded);
        assert s'.rounds[..k] == s.rounds[..k];
      } else {
        assert s'.rounds[..k] == s.rounds;
      }
    }
    forall c | c in s'.calls
      ensures StartsWith(s'.calls[c].id, ByCall(s'.calls[c].number), s'.rounds, s'.recorded)
    {
      assert StartsWith(s.calls[c].id, ByCall(s.calls[c].number), s.rounds, s.recorded);
    }
  }

  lemma {:induction false} ReachableDue(s: State, events: seq<Event>)
    requires Reachable(s, events)
    ensures TokensDue(s) && RoundsDue(s)
    decreases |events|
  {
    if events != [] {
      var n := |events| - 1;
      var p :| Reachable(p, events[..n]) && WellFormed(p) && Enabled(p, events[n]) && s == Apply(p, events[n]);
      ReachableInv(p, events[..n]);
      ReachableDue(p, events[..n]);
      if StepsBody(events[n]) {
        BodyKeepsDue(p, events[n]);
      } else if events[n].TickArrives? {
        TickKeepsDue(p, events[n]);
      } else {
        HandoverKeepsDue(p, events[n]);
      }
    }
  }

  // In every reachable state, whatever will tick next by the timer will do so for the id
  // after the last completed round.
  lemma TimerIsForTheNextId(s: State, events: seq<Event>)
    requires Reachable(s, events)
    ensures forall i :: 0 <= i < |s.waits| ==> NextIsDue(s.waits[i], s.rounds)
    ensures forall i :: 0 <= i < |s.ready| ==> NextIsDue(s.ready[i], s.rounds)
    ensures forall t :: t in s.bodies && s.bodies[t].Rearming? ==> NextIsDue(s.bodies[t].nextId, s.rounds)
  {
    ReachableDue(s, events);
    forall t | t in s.bodies && s.bodies[t].Rearming?
      ensures NextIsDue(s.bodies[t].nextId, s.rounds)
    {
      assert BodyIsDue(s.bodies[t], s.rounds, s.recorded);
    }
  }

  // Every round is for the larger of its reference's id and the id it was started with.
  lemma RoundsAreForTheirIds(s: State, events: seq<Event>, k: nat)
    requires Reachable(s, events) && k < |s.rounds|
    ensures RoundIsFor(s, k)
  {
    ReachableDue(s, events);
    DueRoundIsFor(s, k);
  }

  ghost predicate RoundIsFor(s: State, k: nat)
    requires k < |s.rounds|
  {
    var r := s.rounds[k];
    match r.cause
    case ByCall(n) => n < |s.recorded| && IsLarger(r.newId, r.ref.id, s.recorded[n].id)
    case ByTimer => k > 0 && IsLarger(r.newId, r.ref.id, s.rounds[k - 1].newId + 1)
  }

  lemma DueRoundIsFor(s: State, k: nat)
    requires RoundsDue(s) && k < |s.rounds|
    ensures RoundIsFor(s, k)
  {
    assert RoundIsDue(s.rounds, k, s.recorded);
    if k > 0 { assert s.rounds[..k][k - 1] == s.rounds[k - 1]; }
  }

  // ----- each tick starts at most one round -----

  ghost function CauseOf(b: Body): Cause {
    match b
    case Begun(_, cause) => cause
    case CatchingUp(_, _, _, cause) => cause
    case Rearming(_) => ByTimer
  }

  ghost predicate UsedByRound(rounds: seq<Round>, n: nat) {
    exists k :: 0 <= k < |rounds| && rounds[k].cause == ByCall(n)
  }

  ghost predicate UsedByBody(s: State, n: nat) {
    exists t :: t in s.bodies && CauseOf(s.bodies[t]) == ByCall(n)
  }

  ghost predicate CausesUsedOnce(s: State) {
    && (forall c :: c in s.calls ==> !UsedByRound(s.rounds, s.calls[c].number) && !UsedByBody(s, s.calls[c].number))
    && (forall n: nat :: UsedByBody(s, n) ==> !UsedByRound(s.rounds, n))
    && (forall j, k :: 0 <= j < k < |s.rounds| && s.rounds[j].cause == s.rounds[k].cause ==> s.rounds[j].cause == ByTimer)
  }

  lemma UsedAreRecorded(s: State, n: nat)
    requires TokensDue(s) && RoundsDue(s) && (UsedByRound(s.rounds, n) || UsedByBody(s, n))
    ensures n < |s.recorded|
  {
    if k :| 0 <= k < |s.rounds| && s.rounds[k].cause == ByCall(n) {
      assert RoundIsDue(s.rounds, k, s.recorded);
    }
    if t :| t in s.bodies && CauseOf(s.bodies[t]) == ByCall(n) {
      assert BodyIsDue(s.bodies[t], s.rounds, s.recorded);
    }
  }

  lemma OutsideKeepsCauses(s: State, e: Event)
    requires WellFormed(s) && SingleToken(s) && Enabled(s, e) && !StepsBody(e) && !e.CancelTimer?
    requires CausesUsedOnce(s) && TokensDue(s) && RoundsDue(s)
    ensures CausesUsedOnce(Apply(s, e))
  {
    var s' := Apply(s, e);
    assert s'.rounds == s.rounds;
    forall n: nat
      ensures UsedByBody(s', n) ==> UsedByBody(s, n)
    {
      if t :| t in s'.bodies && CauseOf(s'.bodies[t]) == ByCall(n) {
        assert t in s.bodies && s.bodies[t] == s'.bodies[t];
      }
    }
    forall c | c in s'.calls
      ensures !UsedByRound(s'.rounds, s'.calls[c].number) && !UsedByBody(s', s'.calls[c].number)
    {
      if c in s.calls && s'.calls[c].number == s.calls[c].number {
        assert !UsedByRound(s.rounds, s.calls[c].number) && !UsedByBody(s, s.calls[c].number);
      } else if UsedByRound(s.rounds, s'.calls[c].number) || UsedByBody(s, s'.calls[c].number) {
        UsedAreRecorded(s, s'.calls[c].number);
      }
    }
  }

  lemma CancelKeepsCauses(s: State, c: ThreadId)
    requires WellFormed(s) && SingleToken(s) && Enabled(s, CancelTimer(c)) && CallsNumbered(s)
    requires CausesUsedOnce(s)
    ensures CausesUsedOnce(Apply(s, CancelTimer(c)))
  {
    var s' := Apply(s, CancelTimer(c));
    forall n: nat
      ensures UsedByBody(s', n) ==> UsedByBody(s, n) || n == s.calls[c].number
    {
      if t :| t in s'.bodies && CauseOf(s'.bodies[t]) == ByCall(n) {
        assert t == c || (t in s.bodies && s.bodies[t] == s'.bodies[t]);
        if t == c && s'.bodies[t].CatchingUp? { assert t in s.bodies && s.bodies[t] == s'.bodies[t]; }
      }
    }
  }

  lemma BodyKeepsCauses(s: State, e: Event)
    requires WellFormed(s) && SingleToken(s) && Enabled(s, e) && StepsBody(e)
    requires CausesUsedOnce(s)
    ensures CausesUsedOnce(Apply(s, e))
  {
    var s', t := Apply(s, e), e.thread;
    AtMostOneBody(s, t);
    forall n: nat
      ensures UsedByBody(s', n) ==> UsedByBody(s, n) && s'.rounds == s.rounds
      ensures UsedByRound(s'.rounds, n) ==> UsedByRound(s.rounds, n) || UsedByBody(s, n)
    {
      if u :| u in s'.bodies && CauseOf(s'.bodies[u]) == ByCall(n) {
        assert u == t && CauseOf(s.bodies[t]) == ByCall(n);
      }
      if k :| 0 <= k < |s'.rounds| && s'.rounds[k].cause == ByCall(n) {
        assert k < |s.rounds| ==> s.rounds[k].cause == ByCall(n);
        assert k == |s.rounds| ==> CauseOf(s.bodies[t]) == ByCall(n);
      }
    }
    forall j, k | 0 <= j < k < |s'.rounds| && s'.rounds[j].cause == s'.rounds[k].cause
      ensures s'.rounds[j].cause == ByTimer
    {
      if k == |s.rounds| && s'.rounds[j].cause.ByCall? {
        assert UsedByRound(s.rounds, s'.rounds[j].cause.number) && UsedByBody(s, s'.rounds[j].cause.number);
      }
    }
  }

  lemma {:induction false} ReachableCauses(s: State, events: seq<Event>)
    requires Reachable(s, events)
    ensures CausesUsedOnce(s)
    decreases |events|
  {
    if events != [] {
      var n := |events| - 1;
      var p :| Reachable(p, events[..n]) && WellFormed(p) && Enabled(p, events[n]) && s == Apply(p, events[n]);
      ReachableInv(p, events[..n]);
      ReachableDue(p, events[..n]);
      ReachableForwards(p, events[..n]);
      ReachableCauses(p, events[..n]);
      if StepsBody(events[n]) {
        BodyKeepsCauses(p, events[n]);
      } else if events[n].CancelTimer? {
        CancelKeepsCauses(p, events[n].call);
      } else {
        OutsideKeepsCauses(p, events[n]);
      }
    }
  }

  // In every interleaving, no tick starts two rounds.
  lemma TicksStartOneRound(s: State, events: seq<Event>, j: nat, k: nat)
    requires Reachable(s, events) && j < k < |s.rounds|
    ensures s.rounds[j].cause == s.rounds[k].cause ==> s.rounds[j].cause == ByTimer
  {
    ReachableCauses(s, events);
  }

  // ----- the reference of a round -----

  // The reference is the tick recorded last, but for the clock if that has no seconds.
  ghost predicate Recalls(ref: TickRef, tick: TickRef) {
    ref.id == tick.id && ref.period == tick.period && (tick.sec != 0 ==> ref == tick)
  }

  ghost predicate ReferenceIsLast(s: State) {
    !s.noTickYet ==> s.recorded != [] && Recalls(s.ref, s.recorded[|s.recorded| - 1])
  }

  ghost predicate RecallsAny(ref: TickRef, recorded: seq<TickRef>) {
    exists i :: 0 <= i < |recorded| && Recalls(ref, recorded[i])
  }

  ghost predicate RoundsRecall(s: State) {
    && (forall t :: InLoop(s, t) ==> RecallsAny(s.bodies[t].ref, s.recorded))
    && (forall k :: 0 <= k < |s.rounds| ==> RecallsAny(s.rounds[k].ref, s.recorded))
  }

  lemma StepKeepsReference(s: State, e: Event)
    requires WellFormed(s) && Enabled(s, e) && ReferenceIsLast(s)
    ensures ReferenceIsLast(Apply(s, e))
  {}

  lemma RecallsMore(ref: TickRef, recorded: seq<TickRef>, more: seq<TickRef>)
    requires RecallsAny(ref, recorded) && recorded <= more
    ensures RecallsAny(ref, more)
  {
    var i :| 0 <= i < |recorded| && Recalls(ref, recorded[i]);
    assert more[i] == recorded[i];
  }

  lemma StepKeepsRecall(s: State, e: Event)
    requires Inv(s) && Enabled(s, e) && ReferenceIsLast(s) && RoundsRecall(s)
    ensures RoundsRecall(Apply(s, e))
  {
    var s' := Apply(s, e);
    RecordedGrows(s, e);
    forall t | InLoop(s', t)
      ensures RecallsAny(s'.bodies[t].ref, s'.recorded)
    {
      LoopRecalls(s, e, t);
    }
    forall k | 0 <= k < |s'.rounds|
      ensures RecallsAny(s'.rounds[k].ref, s'.recorded)
    {
      if k < |s.rounds| {
        assert s'.rounds[k] == s.rounds[k];
        RecallsMore(s.rounds[k].ref, s.recorded, s'.recorded);
      } else {
        assert InLoop(s, e.thread);
      }
    }
  }

  lemma LoopRecalls(s: State, e: Event, t: ThreadId)
    requires Inv(s) && Enabled(s, e) && ReferenceIsLast(s) && RoundsRecall(s)
    requires s.recorded <= Apply(s, e).recorded && InLoop(Apply(s, e), t)
    ensures RecallsAny(Apply(s, e).bodies[t].ref, Apply(s, e).recorded)
  {
    if e == ReadReference(t) {
      AtMostOneBody(s, t);
      assert Recalls(s.ref, s.recorded[|s.recorded| - 1]);
    } else {
      LoopKeepsReference(s, e, t);
      RecallsMore(s.bodies[t].ref, s.recorded, Apply(s, e).recorded);
    }
  }

  lemma LoopKeepsReference(s: State, e: Event, t: ThreadId)
    requires WellFormed(s) && Enabled(s, e) && InLoop(Apply(s, e), t) && e != ReadReference(t)
    ensures InLoop(s, t) && Apply(s, e).bodies[t].ref == s.bodies[t].ref
  {}

  lemma {:induction false} ReachableRecall(s: State, events: seq<Event>)
    requires Reachable(s, events)
    ensures ReferenceIsLast(s) && RoundsRecall(s)
    decreases |events|
  {
    if events != [] {
      var n := |events| - 1;
      var p :| Reachable(p, events[..n]) && WellFormed(p) && Enabled(p, events[n]) && s == Apply(p, events[n]);
      ReachableInv(p, events[..n]);
      ReachableRecall(p, events[..n]);
      StepKeepsReference(p, events[n]);
      StepKeepsRecall(p, events[n]);
    }
  }

  // A body uses the tick recorded last, and then ticks for the larger of that one's id and
  // the id that it began with.
  lemma BodyUsesTheLastTick(s: State, events: seq<Event>, t: ThreadId)
    requires Reachable(s, events) && Enabled(s, ReadReference(t))
    ensures WellFormed(s) && s.recorded != []
    ensures var b, last := Apply(s, ReadReference(t)).bodies[t], s.recorded[|s.recorded| - 1];
            b.CatchingUp? && Recalls(b.ref, last) && IsLarger(b.newId, last.id, s.bodies[t].newId)
  {
    ReachableInv(s, events);
    ReachableRecall(s, events);
    AtMostOneBody(s, t);
  }

  // What a hook tells a device: its id, the nominal start of the train whose tick posted it
  // by the reference used, and the period.
  lemma HooksTell(s: State, events: seq<Event>, k: nat)
    requires Reachable(s, events) && k < |s.hooks|
    ensures var h := s.hooks[k];
            && WellFormedPosted(h) && h.ref.Valid() && h.Hook().stamp.Canonical()
            && h.Hook().id == h.id && h.Hook().stamp.Attos() == h.ref.Start(h.newId)
            && h.Hook().period == h.ref.period
  {
    HooksFormed(s, events);
    HookReferencesValid(s, events);
    assert WellFormedPosted(s.hooks[k]);
    TickStampIsNominalStart(s.hooks[k].ref, s.hooks[k].newId);
  }

  ghost predicate ValidReferences(hooks: seq<Posted>) {
    forall k :: 0 <= k < |hooks| ==> hooks[k].ref.Valid()
  }

  lemma HookReferencesValid(s: State, events: seq<Event>)
    requires Reachable(s, events)
    ensures ValidReferences(s.hooks)
  {
    ReachableInv(s, events);
    RoundReferencesValid(s.rounds);
    if t :| InLoop(s, t) {
      assert LoopAccounted(s.bodies[t], s.last, s.hooks, s.rounds);
    }
  }

  lemma {:induction false} RoundReferencesValid(rounds: seq<Round>)
    requires Chained(rounds)
    ensures ValidReferences(AllHooks(rounds))
    decreases |rounds|
  {
    if rounds != [] {
      var n := |rounds| - 1;
      ChainedPrefix(rounds, n);
      RoundReferencesValid(rounds[..n]);
    }
  }

  // ----- after a single tick -----

  // If the time server has sent one tick only, the rounds count on from its id...
  lemma SingleTickRounds(s: State, events: seq<Event>, k: nat)
    requires Reachable(s, events) && |s.recorded| == 1 && k < |s.rounds|
    ensures s.rounds[k].newId == s.recorded[0].id + k
    ensures s.rounds[k].ref.period == s.recorded[0].period
  {
    RoundsKnown(s, events);
    RoundsCount(s, k);
  }

  lemma RoundsKnown(s: State, events: seq<Event>)
    requires Reachable(s, events)
    ensures RoundsDue(s) && CausesUsedOnce(s) && RoundsRecall(s)
  {
    ReachableRecall(s, events);
    ReachableDue(s, events);
    ReachableCauses(s, events);
  }

  lemma {:induction false} RoundsCount(s: State, k: nat)
    requires RoundsDue(s) && CausesUsedOnce(s) && RoundsRecall(s)
    requires |s.recorded| == 1 && k < |s.rounds|
    ensures s.rounds[k].newId == s.recorded[0].id + k
    ensures s.rounds[k].ref.period == s.recorded[0].period
    decreases k
  {
    assert RecallsAny(s.rounds[k].ref, s.recorded);
    DueRoundIsFor(s, k);
    if k > 0 {
      RoundsCount(s, k - 1);
      DueRoundIsFor(s, 0);
      assert s.rounds[0].cause == ByCall(0);
    }
  }

  // ... and devices hear of every id from it on, one by one, unless the period is above
  // ten minutes.
  lemma SingleTickHooks(s: State, events: seq<Event>)
    requires Reachable(s, events) && |s.recorded| == 1 && s.recorded[0].period <= 600_000_000
    requires forall t :: !InLoop(s, t)
    ensures |s.hooks| == |s.rounds|
    ensures forall j :: 0 <= j < |s.hooks| ==> s.hooks[j].id == s.recorded[0].id + j
  {
    TraceIsTheBursts(s, events);
    forall k | 0 <= k < |s.rounds|
      ensures Counts(s.rounds, k, s.recorded[0].id)
    {
      SingleTickRounds(s, events, k);
    }
    CountingHooks(s.rounds, s.recorded[0].id);
  }

  ghost predicate Counts(rounds: seq<Round>, k: nat, id: nat)
    requires k < |rounds|
  {
    rounds[k].newId == id + k && rounds[k].ref.period <= 600_000_000
  }

  lemma {:induction false} CountingHooks(rounds: seq<Round>, id: nat)
    requires Chained(rounds) && forall k :: 0 <= k < |rounds| ==> Counts(rounds, k, id)
    ensures |AllHooks(rounds)| == |rounds|
    ensures forall j :: 0 <= j < |rounds| ==> AllHooks(rounds)[j].id == id + j
    ensures rounds != [] ==> Reached(rounds) == id + |rounds| - 1
    decreases |rounds|
  {
    if rounds != [] {
      var n := |rounds| - 1;
      ChainedPrefix(rounds, n);
      forall k | 0 <= k < n
        ensures Counts(rounds[..n], k, id)
      {
        assert Counts(rounds, k, id);
      }
      CountingHooks(rounds[..n], id);
      assert Counts(rounds, n, id);
      OneHook(rounds[n]);
    }
  }

  lemma OneHook(r: Round)
    requires WellFormedRound(r) && r.ref.period <= 600_000_000 && (r.before == 0 || r.before + 1 == r.newId)
    ensures |RoundHooks(r)| == 1 && RoundHooks(r)[0].id == r.newId
  {
    var ids := Burst(r.before, r.newId, r.ref.period);
    BurstIsTheLastTenMinutes(r.before, r.newId, r.ref.period, r.newId);
    assert r.newId in ids;
  }
}
