// The time ticker under concurrency: a transition system over the lock sections of
// slotTimeTick, the timer, its handlers, and the stages of timeTick bodies. Any number of
// slot calls, waits, handlers and bodies may exist; the proof is that there is only ever
// one right to tick.

module TickerProtocol {
  import opened TimeArithmetic
  import opened TrainIds
  import opened Ticker

  type ThreadId = nat

  // A slotTimeTick call between its first lock section and its cancelling of the timer:
  // the number of the valid tick it brought, and whether it has forwarded that to devices
  datatype Call = Call(id: nat, firstCall: bool, number: nat, sent: bool)

  // What has started a timeTick body: a slot call, with the number of its tick, or the timer
  datatype Cause = ByCall(number: nat) | ByTimer

  // A timeTick body: entered; past its lock section and catching up; past expires_at
  datatype Body =
    | Begun(newId: nat, cause: Cause)
    | CatchingUp(newId: nat, ref: TickRef, before: nat, cause: Cause)
    | Rearming(nextId: nat)

  // What a completed catch-up was about: the reference used, the id reached before, the id
  // of the tick, and what had started it
  datatype Round = Round(ref: TickRef, before: nat, newId: nat, cause: Cause)

  // One onTimeUpdate call for `id`, stamped for the tick `newId` that posts it
  datatype Posted = Posted(id: nat, ref: TickRef, newId: nat) {
    ghost function Hook(): Hook
      requires newId >= ref.id
    {
      Ticker.Hook.Hook(id, TickStamp(ref, newId), ref.period)
    }
  }

  datatype State = State(
    ref: TickRef,
    noTickYet: bool,
    last: nat,                    // m_timeIdLastTick, not protected by any mutex
    calls: map<ThreadId, Call>,
    bodies: map<ThreadId, Body>,
    waits: seq<nat>,              // ids of the pending waits of the timer
    ready: seq<nat>,              // handlers posted after expiry
    aborted: nat,                 // handlers posted after cancelling
    hooks: seq<Posted>,
    rounds: seq<Round>,
    recorded: seq<TickRef>,       // the valid ticks as they arrived, in the order of recording
    forwarded: seq<nat>,          // their numbers, in the order in which devices got them
    destroyed: bool)

  const Init: State :=
    State(TickRef(0, 0, 0, 1), true, 0, map[], map[], [], [], 0, [], [], [], [], false)

  datatype Event =
    | TickArrives(call: ThreadId, id: nat, sec: nat, frac: nat, period: nat, now: Epoch)
    | Forward(call: ThreadId)
    | CancelTimer(call: ThreadId)
    | Expire
    | RunReady(k: nat, thread: ThreadId)
    | RunAborted
    | ReadReference(thread: ThreadId)
    | PostNext(thread: ThreadId)
    | SetExpiry(thread: ThreadId)
    | AsyncWait(thread: ThreadId)
    | Destroy

  ghost predicate Enabled(s: State, e: Event) {
    match e
    case TickArrives(c, id, sec, frac, period, now) =>
      !s.destroyed && c !in s.calls && c !in s.bodies && id >= 1 && frac < ATTOS_PER_SECOND && now.Canonical()
    case Forward(c) => c in s.calls && !s.calls[c].sent
    case CancelTimer(c) => c in s.calls && s.calls[c].sent
    case Expire => s.waits != []
    case RunReady(k, t) => k < |s.ready| && t !in s.bodies && t !in s.calls
    case RunAborted => s.aborted > 0
    case ReadReference(t) => t in s.bodies && s.bodies[t].Begun?
    case PostNext(t) => t in s.bodies && s.bodies[t].CatchingUp? && s.last < s.bodies[t].newId
    case SetExpiry(t) => t in s.bodies && s.bodies[t].CatchingUp? && s.last >= s.bodies[t].newId
    case AsyncWait(t) => t in s.bodies && s.bodies[t].Rearming?
    // The destructor runs when no call and no bound handler holds the server any more.
    case Destroy => !s.destroyed && s.calls == map[] && s.bodies == map[]
  }

  ghost function Apply(s: State, e: Event): State
    requires Enabled(s, e)
    requires WellFormed(s)
  {
    match e
    case TickArrives(c, id, sec, frac, period, now) =>
      if period == 0 then s
      else s.(ref := RecordedReference(id, sec, frac, period, now),
              recorded := s.recorded + [TickRef(id, sec, frac, period)],
              calls := s.calls[c := Call(id, s.noTickYet, |s.recorded|, false)],
              noTickYet := false)
    case Forward(c) =>
      s.(forwarded := s.forwarded + [s.calls[c].number],
         calls := s.calls[c := s.calls[c].(sent := true)])
    case CancelTimer(c) =>
      var call := s.calls[c];
      s.(calls := s.calls - {c},
         waits := [],
         aborted := s.aborted + |s.waits|,
         bodies := if |s.waits| > 0 || call.firstCall then s.bodies[c := Begun(call.id, ByCall(call.number))] else s.bodies)
    case Expire =>
      s.(ready := s.ready + s.waits, waits := [])
    case RunReady(k, t) =>
      // a handler outliving the server finds its weak pointer expired
      var rest := s.(ready := s.ready[..k] + s.ready[k + 1..]);
      if s.destroyed then rest else rest.(bodies := s.bodies[t := Begun(s.ready[k], ByTimer)])
    case RunAborted => s.(aborted := s.aborted - 1)
    case ReadReference(t) =>
      var newId := Max(s.bodies[t].newId, s.ref.id);
      s.(bodies := s.bodies[t := CatchingUp(newId, s.ref, s.last, s.bodies[t].cause)],
         last := CatchUpStart(s.last, newId, Backlog(s.ref.period)))
    case PostNext(t) =>
      var b := s.bodies[t];
      s.(last := s.last + 1,
         hooks := s.hooks + [Posted(s.last + 1, b.ref, b.newId)])
    case SetExpiry(t) =>
      var b := s.bodies[t];
      s.(aborted := s.aborted + |s.waits|,
         waits := [],
         rounds := s.rounds + [Round(b.ref, b.before, b.newId, b.cause)],
         bodies := s.bodies[t := Rearming(b.newId + 1)])
    case AsyncWait(t) => s.(waits := s.waits + [s.bodies[t].nextId], bodies := s.bodies - {t})
    case Destroy => s.(waits := [], aborted := s.aborted + |s.waits|, destroyed := true)
  }

  // Ids count from 1 and references are usable wherever they are stored.
  ghost predicate WellFormed(s: State) {
    && s.ref.Valid()
    && (forall c :: c in s.calls ==> s.calls[c].id >= 1)
    && (forall t :: t in s.bodies ==> WellFormedBody(s.bodies[t]))
    && (forall i :: 0 <= i < |s.waits| ==> s.waits[i] >= 1)
    && (forall i :: 0 <= i < |s.ready| ==> s.ready[i] >= 1)
  }

  ghost predicate WellFormedBody(b: Body) {
    match b
    case Begun(newId, _) => newId >= 1
    case CatchingUp(newId, ref, _, _) => newId >= 1 && ref.Valid() && newId >= ref.id
    case Rearming(nextId) => nextId >= 1
  }

  // ----- the single right to tick -----

  ghost function StartRights(s: State): set<ThreadId> {
    set c | c in s.calls && s.calls[c].firstCall
  }

  // Everything that is, or will become without further external cause, a timeTick body:
  // the first call on its way to it, a pending wait, a posted handler, a running body.
  ghost function Tokens(s: State): nat {
    |StartRights(s)| + |s.waits| + |s.ready| + |s.bodies|
  }

  ghost predicate SingleToken(s: State) {
    && (s.noTickYet ==> Tokens(s) == 0)
    && (!s.noTickYet && !s.destroyed ==> Tokens(s) == 1)
    && (s.destroyed ==> s.calls == map[] && s.bodies == map[] && s.waits == [])
  }

  // ----- what the devices hear -----

  ghost function Reached(rounds: seq<Round>): nat {
    if rounds == [] then 0
    else var r := rounds[|rounds| - 1]; Max(r.before, r.newId)
  }

  ghost predicate WellFormedRound(r: Round) {
    r.ref.Valid() && r.newId >= 1 && r.newId >= r.ref.id
  }

  // Each round starts where the previous one ended.
  ghost predicate Chained(rounds: seq<Round>) {
    forall i :: 0 <= i < |rounds| ==> WellFormedRound(rounds[i]) && rounds[i].before == Reached(rounds[..i])
  }

  ghost function PostsFor(ids: seq<nat>, ref: TickRef, newId: nat): seq<Posted> {
    seq(|ids|, i requires 0 <= i < |ids| => Posted(ids[i], ref, newId))
  }

  ghost function RoundHooks(r: Round): seq<Posted>
    requires WellFormedRound(r)
  {
    PostsFor(Burst(r.before, r.newId, r.ref.period), r.ref, r.newId)
  }

  ghost function AllHooks(rounds: seq<Round>): seq<Posted>
    requires Chained(rounds)
  {
    if rounds == [] then []
    else
      var n := |rounds| - 1;
      ChainedPrefix(rounds, n);
      AllHooks(rounds[..n]) + RoundHooks(rounds[n])
  }

  lemma ChainedPrefix(rounds: seq<Round>, n: nat)
    requires Chained(rounds) && n <= |rounds|
    ensures Chained(rounds[..n])
  {
    forall i | 0 <= i < n
      ensures WellFormedRound(rounds[..n][i]) && rounds[..n][i].before == Reached(rounds[..n][..i])
    {
      assert rounds[..n][..i] == rounds[..i];
    }
  }

  // The hooks of a body that is still in its loop
  ghost function PartialHooks(b: Body, last: nat): seq<Posted>
    requires b.CatchingUp? && WellFormedBody(b)
  {
    PostsFor(IdsAfter(CatchUpStart(b.before, b.newId, Backlog(b.ref.period)), last), b.ref, b.newId)
  }

  ghost predicate InLoop(s: State, t: ThreadId) {
    t in s.bodies && s.bodies[t].CatchingUp?
  }

  // All hooks ever posted are those of the completed rounds, then those of the body in
  // its loop if there is one.
  ghost predicate HooksAccounted(s: State) {
    && Chained(s.rounds)
    && (s.noTickYet ==> s.rounds == [])
    && (forall t :: InLoop(s, t) ==> LoopAccounted(s.bodies[t], s.last, s.hooks, s.rounds))
    && ((forall t :: !InLoop(s, t)) ==>
          s.last == Reached(s.rounds) && s.hooks == AllHooks(s.rounds))
  }

  ghost predicate LoopAccounted(b: Body, last: nat, hooks: seq<Posted>, rounds: seq<Round>)
    requires Chained(rounds)
  {
    && b.CatchingUp? && WellFormedBody(b)
    && b.before == Reached(rounds)
    && CatchUpStart(b.before, b.newId, Backlog(b.ref.period)) <= last <= Max(b.before, b.newId)
    && hooks == AllHooks(rounds) + PartialHooks(b, last)
  }

  ghost predicate Inv(s: State) {
    WellFormed(s) && SingleToken(s) && HooksAccounted(s)
  }

  // ----- every step keeps the invariant -----

  lemma InitInv()
    ensures Inv(Init)
  {
    assert StartRights(Init) == {};
  }

  lemma AtMostOneBody(s: State, t: ThreadId)
    requires SingleToken(s) && t in s.bodies
    ensures s.bodies.Keys == {t} && StartRights(s) == {} && s.waits == [] && s.ready == []
    ensures !s.noTickYet && !s.destroyed
  {
    assert |s.bodies| >= 1 by {
      assert s.bodies.Keys >= {t};
      assert |s.bodies.Keys - {t}| == |s.bodies.Keys| - 1;
    }
    assert |s.bodies.Keys - {t}| == |s.bodies.Keys| - 1;
    assert s.bodies.Keys - {t} == {};
  }

  lemma StepKeepsWellFormed(s: State, e: Event)
    requires WellFormed(s) && Enabled(s, e)
    ensures WellFormed(Apply(s, e))
  {}

  lemma TickArrivesKeepsToken(s: State, e: Event)
    requires WellFormed(s) && SingleToken(s) && e.TickArrives? && Enabled(s, e)
    ensures SingleToken(Apply(s, e))
  {
    var s' := Apply(s, e);
    if e.period != 0 {
      if s.noTickYet {
        assert StartRights(s) == {};
        assert StartRights(s') == {e.call};
      } else {
        assert StartRights(s') == StartRights(s);
      }
    }
  }

  lemma CancelTimerKeepsToken(s: State, c: ThreadId)
    requires WellFormed(s) && SingleToken(s) && Enabled(s, CancelTimer(c))
    ensures SingleToken(Apply(s, CancelTimer(c)))
  {
    var s' := Apply(s, CancelTimer(c));
    assert StartRights(s') == StartRights(s) - {c};
    if s.calls[c].firstCall {
      assert c in StartRights(s);
      assert |StartRights(s')| == |StartRights(s)| - 1;
    } else {
      assert StartRights(s') == StartRights(s);
    }
    if c in s.bodies {
      AtMostOneBody(s, c);
    }
  }

  lemma BodyStepKeepsToken(s: State, e: Event)
    requires WellFormed(s) && SingleToken(s) && Enabled(s, e)
    requires e.ReadReference? || e.PostNext? || e.SetExpiry? || e.AsyncWait?
    ensures SingleToken(Apply(s, e))
  {
    var s' := Apply(s, e);
    AtMostOneBody(s, e.thread);
    assert StartRights(s') == StartRights(s);
    if e.AsyncWait? {
      assert s'.bodies.Keys == {};
    } else {
      assert s'.bodies.Keys == {e.thread};
      assert |s'.bodies| == |s'.bodies.Keys|;
    }
  }

  lemma StepKeepsToken(s: State, e: Event)
    requires WellFormed(s) && SingleToken(s) && Enabled(s, e)
    ensures SingleToken(Apply(s, e))
  {
    var s' := Apply(s, e);
    match e
    case TickArrives(_, _, _, _, _, _) => TickArrivesKeepsToken(s, e);
    case Forward(c) =>
      assert StartRights(s') == StartRights(s);
      assert s'.calls.Keys == s.calls.Keys;
    case CancelTimer(c) => CancelTimerKeepsToken(s, c);
    case Expire => assert StartRights(s') == StartRights(s);
    case RunReady(k, t) => assert StartRights(s') == StartRights(s);
    case RunAborted => assert StartRights(s') == StartRights(s);
    case Destroy => assert StartRights(s') == StartRights(s);
    case _ => BodyStepKeepsToken(s, e);
  }

  lemma ReadReferenceKeepsHooks(s: State, t: ThreadId)
    requires Inv(s) && Enabled(s, ReadReference(t))
    ensures HooksAccounted(Apply(s, ReadReference(t)))
  {
    AtMostOneBody(s, t);
    assert forall u :: !InLoop(s, u);
    var s' := Apply(s, ReadReference(t));
    var b := s'.bodies[t];
    assert PartialHooks(b, s'.last) == [];
    assert InLoop(s', t);
  }

  lemma LoopGrows(b: Body, last: nat, hooks: seq<Posted>, rounds: seq<Round>)
    requires Chained(rounds) && LoopAccounted(b, last, hooks, rounds) && last < b.newId
    ensures var hook := Posted(last + 1, b.ref, b.newId);
            LoopAccounted(b, last + 1, hooks + [hook], rounds)
  {
    var hook := Posted(last + 1, b.ref, b.newId);
    assert PartialHooks(b, last + 1) == PartialHooks(b, last) + [hook];
  }

  lemma OnlyLoopAccounts(s: State, t: ThreadId)
    requires s.bodies.Keys == {t} && InLoop(s, t) && !s.noTickYet
    requires Chained(s.rounds) && LoopAccounted(s.bodies[t], s.last, s.hooks, s.rounds)
    ensures HooksAccounted(s)
  {}

  lemma PostNextKeepsHooks(s: State, t: ThreadId)
    requires WellFormed(s) && Enabled(s, PostNext(t))
    requires s.bodies.Keys == {t} && !s.noTickYet
    requires Chained(s.rounds) && LoopAccounted(s.bodies[t], s.last, s.hooks, s.rounds)
    ensures HooksAccounted(Apply(s, PostNext(t)))
  {
    LoopGrows(s.bodies[t], s.last, s.hooks, s.rounds);
    OnlyLoopAccounts(Apply(s, PostNext(t)), t);
  }

  lemma FinishedLoopIsTheRound(b: Body, last: nat)
    requires b.CatchingUp? && WellFormedBody(b)
    requires CatchUpStart(b.before, b.newId, Backlog(b.ref.period)) <= last
    requires b.newId <= last <= Max(b.before, b.newId)
    ensures PartialHooks(b, last) == RoundHooks(Round(b.ref, b.before, b.newId, b.cause))
    ensures last == Max(b.before, b.newId)
  {
    CatchUpIsTheBurst(b.before, b.newId, b.ref.period);
    var start := CatchUpStart(b.before, b.newId, Backlog(b.ref.period));
    assert IdsAfter(start, last) == IdsAfter(start, b.newId);
  }

  lemma SetExpiryKeepsHooks(s: State, t: ThreadId)
    requires Inv(s) && Enabled(s, SetExpiry(t))
    ensures HooksAccounted(Apply(s, SetExpiry(t)))
  {
    AtMostOneBody(s, t);
    var s' := Apply(s, SetExpiry(t));
    var b := s.bodies[t];
    assert InLoop(s, t);
    FinishedLoopIsTheRound(b, s.last);
    ChainedExtends(s.rounds, Round(b.ref, b.before, b.newId, b.cause));
    assert forall u :: !InLoop(s', u);
  }

  lemma ChainedExtends(rounds: seq<Round>, round: Round)
    requires Chained(rounds) && WellFormedRound(round) && round.before == Reached(rounds)
    ensures Chained(rounds + [round])
    ensures AllHooks(rounds + [round]) == AllHooks(rounds) + RoundHooks(round)
    ensures Reached(rounds + [round]) == Max(round.before, round.newId)
  {
    var more := rounds + [round];
    assert more[..|rounds|] == rounds;
    forall i | 0 <= i < |more|
      ensures WellFormedRound(more[i]) && more[i].before == Reached(more[..i])
    {
      if i < |rounds| {
        assert more[..i] == rounds[..i];
      }
    }
  }

  // Steps outside timeTick bodies do not touch what the bodies work on, although they may
  // start new ones.
  lemma OtherStepsKeepHooks(s: State, e: Event)
    requires Inv(s) && Enabled(s, e)
    requires !e.ReadReference? && !e.PostNext? && !e.SetExpiry?
    ensures HooksAccounted(Apply(s, e))
  {
    var s' := Apply(s, e);
    forall t
      ensures InLoop(s', t) <==> InLoop(s, t)
      ensures InLoop(s, t) ==> s'.bodies[t] == s.bodies[t]
    {
      OtherStepsKeepLoops(s, e, t);
    }
    assert s'.rounds == s.rounds && s'.last == s.last && s'.hooks == s.hooks;
  }

  lemma OtherStepsKeepLoops(s: State, e: Event, t: ThreadId)
    requires Inv(s) && Enabled(s, e)
    requires !e.ReadReference? && !e.PostNext? && !e.SetExpiry?
    ensures InLoop(Apply(s, e), t) <==> InLoop(s, t)
    ensures InLoop(s, t) ==> Apply(s, e).bodies[t] == s.bodies[t]
    ensures Apply(s, e).noTickYet ==> s.noTickYet
  {
    if t in s.bodies { AtMostOneBody(s, t); }
  }

  lemma StepKeepsInv(s: State, e: Event)
    requires Inv(s) && Enabled(s, e)
    ensures Inv(Apply(s, e))
  {
    StepKeepsWellFormed(s, e);
    StepKeepsToken(s, e);
    match e
    case ReadReference(t) => ReadReferenceKeepsHooks(s, t);
    case PostNext(t) => AtMostOneBody(s, t); assert InLoop(s, t); PostNextKeepsHooks(s, t);
    case SetExpiry(t) => SetExpiryKeepsHooks(s, t);
    case _ => OtherStepsKeepHooks(s, e);
  }

  // ----- whole runs -----

  // The states of a run: it starts in Init and each step is enabled.
  ghost predicate Reachable(s: State, events: seq<Event>)
    decreases |events|
  {
    if events == [] then s == Init
    else
      var n := |events| - 1;
      exists p :: Reachable(p, events[..n]) && WellFormed(p) && Enabled(p, events[n]) && s == Apply(p, events[n])
  }

  lemma {:induction false} ReachableInv(s: State, events: seq<Event>)
    requires Reachable(s, events)
    ensures Inv(s)
    decreases |events|
  {
    if events == [] {
      InitInv();
    } else {
      var n := |events| - 1;
      var p :| Reachable(p, events[..n]) && WellFormed(p) && Enabled(p, events[n]) && s == Apply(p, events[n]);
      ReachableInv(p, events[..n]);
      StepKeepsInv(p, events[n]);
    }
  }

  // Runs are not cut short by the model: whatever is enabled extends a run.
  lemma RunsExtend(s: State, events: seq<Event>, e: Event)
    requires Reachable(s, events) && Enabled(s, e)
    ensures WellFormed(s) && Reachable(Apply(s, e), events + [e])
  {
    ReachableInv(s, events);
    assert (events + [e])[..|events|] == events;
  }

  // One chain: before the first valid tick nothing can tick, afterwards exactly one
  // thing can, in every interleaving, as long as the server exists.
  lemma SingleTickerChain(s: State, events: seq<Event>)
    requires Reachable(s, events) && !s.destroyed
    ensures Tokens(s) == if s.noTickYet then 0 else 1
  {
    ReachableInv(s, events);
  }

  // ----- progress -----

  // How far the single right to tick is from the next completed round: what it is...
  ghost function Stage(s: State): nat {
    if s.waits != [] then 6
    else if exists c :: c in StartRights(s) && !s.calls[c].sent then 5
    else if StartRights(s) != {} || s.ready != [] then 4
    else if exists t :: t in s.bodies && s.bodies[t].Rearming? then 7
    else if exists t :: t in s.bodies && s.bodies[t].Begun? then 3
    else 2
  }

  // ... and how many ids are left for a body that catches up
  ghost function IdsLeft(s: State): nat {
    if t :| InLoop(s, t) then Max(s.last, s.bodies[t].newId) - s.last else 0
  }

  ghost predicate Closer(after: State, before: State) {
    Stage(after) < Stage(before) || (Stage(after) == Stage(before) && IdsLeft(after) < IdsLeft(before))
  }

  ghost predicate AsClose(after: State, before: State) {
    Stage(after) < Stage(before) || (Stage(after) == Stage(before) && IdsLeft(after) <= IdsLeft(before))
  }

  ghost predicate Ticking(s: State) {
    Inv(s) && !s.destroyed && !s.noTickYet
  }

  // The round of a body is completed when it sets the timer again.
  ghost predicate Advances(s: State, e: Event)
    requires WellFormed(s) && Enabled(s, e)
  {
    e.SetExpiry? || Closer(Apply(s, e), s)
  }

  ghost predicate StepsBody(e: Event) {
    e.ReadReference? || e.PostNext? || e.SetExpiry? || e.AsyncWait?
  }

  lemma StageOfBody(s: State, t: ThreadId)
    requires SingleToken(s) && t in s.bodies
    ensures Stage(s) == match s.bodies[t]
                        case Begun(_, _) => 3
                        case CatchingUp(_, _, _, _) => 2
                        case Rearming(_) => 7
    ensures InLoop(s, t) ==> IdsLeft(s) == Max(s.last, s.bodies[t].newId) - s.last
    ensures !InLoop(s, t) ==> IdsLeft(s) == 0
  {
    AtMostOneBody(s, t);
    assert forall u :: u in s.bodies <==> u == t;
  }

  lemma NoBody(s: State)
    requires Ticking(s) && s.bodies == map[]
    ensures IdsLeft(s) == 0
    ensures s.waits != [] ==> Stage(s) == 6
    ensures s.ready != [] ==> Stage(s) == 4
    ensures forall c :: c in StartRights(s) ==> Stage(s) == if s.calls[c].sent then 4 else 5
    ensures Stage(s) == 4 || Stage(s) == 5 || Stage(s) == 6
  {
    if c :| c in StartRights(s) {
      assert StartRights(s) - {c} == {} by {
        assert |StartRights(s) - {c}| == |StartRights(s)| - 1;
      }
    }
  }

  // The chain never dies: once ticks have arrived, a step that brings the next tick closer
  // or completes it is possible without any further tick from outside.
  lemma ChainNeverDies(s: State, events: seq<Event>) returns (e: Event)
    requires Reachable(s, events) && !s.destroyed && !s.noTickYet
    ensures Inv(s) && Enabled(s, e) && !e.TickArrives? && !e.Destroy?
    ensures Advances(s, e)
  {
    ReachableInv(s, events);
    e := StepTowardsRound(s);
  }

  // What a body does next brings its round closer or completes it.
  lemma BodyAdvances(s: State, e: Event, t: ThreadId)
    requires Ticking(s) && t in s.bodies && StepsBody(e) && e.thread == t && Enabled(s, e)
    ensures Advances(s, e)
  {
    var s' := Apply(s, e);
    StepKeepsToken(s, e);
    StageOfBody(s, t);
    if e.AsyncWait? {
      AtMostOneBody(s, t);
      assert s'.bodies == map[] && s'.waits != [];
    } else {
      StageOfBody(s', t);
    }
  }

  lemma NextStep(s: State) returns (e: Event)
    requires Ticking(s)
    ensures Enabled(s, e)
    ensures forall t :: t in s.bodies ==> StepsBody(e) && e.thread == t
    ensures s.bodies == map[] ==> StepsToken(s, e)
  {
    if t :| t in s.bodies {
      AtMostOneBody(s, t);
      assert forall u :: u in s.bodies <==> u == t;
      e := match s.bodies[t]
           case Begun(_, _) => ReadReference(t)
           case CatchingUp(newId, _, _, _) => if s.last < newId then PostNext(t) else SetExpiry(t)
           case Rearming(_) => AsyncWait(t);
    } else if c :| c in StartRights(s) {
      e := if s.calls[c].sent then CancelTimer(c) else Forward(c);
    } else if s.waits != [] {
      e := Expire;
    } else {
      assert StartRights(s) == {} && s.bodies.Keys == {};
      var t := FreshThread(s.calls.Keys + s.bodies.Keys);
      e := RunReady(0, t);
    }
  }

  // The steps of the token itself while there is no body
  ghost predicate StepsToken(s: State, e: Event) {
    || (e == Expire && s.waits != [])
    || (e.RunReady? && s.ready != [])
    || (e.Forward? && e.call in StartRights(s))
    || (e.CancelTimer? && e.call in StartRights(s))
  }

  // They bring it closer.
  lemma TokenMoves(s: State, e: Event)
    requires Ticking(s) && s.bodies == map[] && Enabled(s, e) && Inv(Apply(s, e)) && StepsToken(s, e)
    ensures Closer(Apply(s, e), s)
  {
    NoBody(s);
    if e.RunReady? || e.CancelTimer? {
      var t := if e.RunReady? then e.thread else e.call;
      assert Apply(s, e).bodies[t].Begun?;
      StageOfBody(Apply(s, e), t);
    } else {
      TokenMovesWithoutBody(s, e);
    }
  }

  lemma TokenMovesWithoutBody(s: State, e: Event)
    requires Ticking(s) && s.bodies == map[] && Enabled(s, e) && Inv(Apply(s, e)) && StepsToken(s, e)
    requires e.Expire? || e.Forward?
    ensures Closer(Apply(s, e), s)
  {
    var s' := Apply(s, e);
    NoBody(s);
    NoBody(s');
    if e.Forward? { assert e.call in StartRights(s'); }
  }

  lemma StaysTicking(s: State, e: Event)
    requires Ticking(s) && Enabled(s, e) && !e.Destroy?
    ensures Ticking(Apply(s, e))
    ensures |Apply(s, e).rounds| == |s.rounds| + if e.SetExpiry? then 1 else 0
  {
    StepKeepsInv(s, e);
  }

  lemma OthersLeaveBody(s: State, e: Event, t: ThreadId)
    requires Ticking(s) && Enabled(s, e) && t in s.bodies && !StepsBody(e)
    ensures Apply(s, e).bodies == s.bodies && Apply(s, e).last == s.last
  {
    AtMostOneBody(s, t);
    if e.CancelTimer? { assert e.call !in StartRights(s); }
  }

  lemma BodyIsNotSetBack(s: State, e: Event, t: ThreadId)
    requires Ticking(s) && Enabled(s, e) && !e.Destroy? && t in s.bodies && Ticking(Apply(s, e))
    ensures e.SetExpiry? || AsClose(Apply(s, e), s)
  {
    if StepsBody(e) {
      AtMostOneBody(s, t);
      BodyAdvances(s, e, t);
    } else {
      OthersLeaveBody(s, e, t);
      StageOfBody(s, t);
      StageOfBody(Apply(s, e), t);
    }
  }

  lemma TokenIsNotSetBack(s: State, e: Event)
    requires Ticking(s) && Enabled(s, e) && !e.Destroy? && s.bodies == map[] && Ticking(Apply(s, e))
    ensures AsClose(Apply(s, e), s)
  {
    var s' := Apply(s, e);
    NoBody(s);
    if t :| t in s'.bodies {
      StageOfBody(s', t);
      NewBodyHasBegun(s, e, t);
    } else {
      assert s'.bodies == map[];
      NoBody(s');
      TokenStays(s, e);
    }
  }

  lemma NewBodyHasBegun(s: State, e: Event, t: ThreadId)
    requires Ticking(s) && Enabled(s, e) && s.bodies == map[] && t in Apply(s, e).bodies
    ensures Apply(s, e).bodies[t].Begun?
  {}

  // A posted handler and a start right stay what they are until they become a body, except
  // that a start right forwards its tick.
  lemma TokenStays(s: State, e: Event)
    requires Ticking(s) && Enabled(s, e) && !e.Destroy? && s.bodies == Apply(s, e).bodies == map[]
    ensures s.waits == [] && s.ready != [] ==> Apply(s, e).ready != []
    ensures forall c :: c in StartRights(s) ==>
              c in StartRights(Apply(s, e)) && (s.calls[c].sent ==> Apply(s, e).calls[c].sent)
  {}

  // No step of anybody else, in particular no slot call, sets the next tick back.
  lemma NothingSetsBack(s: State, events: seq<Event>, e: Event)
    requires Reachable(s, events) && !s.destroyed && !s.noTickYet
    requires Enabled(s, e) && !e.Destroy?
    ensures Inv(s) && (e.SetExpiry? || AsClose(Apply(s, e), s))
  {
    ReachableInv(s, events);
    StaysTicking(s, e);
    if t :| t in s.bodies {
      BodyIsNotSetBack(s, e, t);
    } else {
      TokenIsNotSetBack(s, e);
    }
  }

  // Steps lead from one state to another.
  ghost predicate Lead(s: State, events: seq<Event>, s': State)
    decreases |events|
  {
    if events == [] then s' == s
    else WellFormed(s) && Enabled(s, events[0]) && Lead(Apply(s, events[0]), events[1..], s')
  }

  lemma LeadOn(s: State, e: Event, s1: State, rest: seq<Event>, s': State)
    requires Lead(s, [e], s1) && Lead(s1, rest, s')
    ensures Lead(s, [e] + rest, s')
  {
    assert ([e] + rest)[0] == [e][0] && ([e] + rest)[1..] == rest && [e][1..] == [];
  }

  lemma {:induction false} LeadKeepsReachable(s: State, events: seq<Event>, more: seq<Event>, s': State)
    requires Reachable(s, events) && Lead(s, more, s')
    ensures Reachable(s', events + more)
    decreases |more|
  {
    if more == [] {
      assert events + more == events;
    } else {
      RunsExtend(s, events, more[0]);
      assert events + more == (events + [more[0]]) + more[1..];
      LeadKeepsReachable(Apply(s, more[0]), events + [more[0]], more[1..], s');
    }
  }

  lemma StepTowardsRound(s: State) returns (e: Event)
    requires Ticking(s)
    ensures Enabled(s, e) && Ticking(Apply(s, e))
    ensures !e.TickArrives? && !e.Destroy? && Advances(s, e)
    ensures |Apply(s, e).rounds| == |s.rounds| + if e.SetExpiry? then 1 else 0
  {
    e := NextStep(s);
    StaysTicking(s, e);
    if t :| t in s.bodies {
      BodyAdvances(s, e, t);
    } else {
      assert s.bodies == map[];
      TokenMoves(s, e);
    }
  }

  lemma CloserState(s: State) returns (e: Event, s1: State)
    requires Ticking(s)
    ensures Lead(s, [e], s1) && Ticking(s1) && NothingFromOutside([e])
    ensures |s1.rounds| == |s.rounds| + if e.SetExpiry? then 1 else 0
    ensures e.SetExpiry? || Closer(s1, s)
  {
    e := StepTowardsRound(s);
    s1 := Apply(s, e);
    assert [e][1..] == [];
  }

  lemma {:induction false} RoundFollows(s: State) returns (s': State, more: seq<Event>)
    requires Ticking(s)
    ensures Lead(s, more, s') && |s'.rounds| == |s.rounds| + 1 && NothingFromOutside(more)
    decreases Stage(s), IdsLeft(s)
  {
    var e, s1 := CloserState(s);
    if e.SetExpiry? {
      s', more := s1, [e];
    } else {
      var rest;
      s', rest := RoundFollows(s1);
      more := [e] + rest;
      LeadOn(s, e, s1, rest, s');
    }
  }

  // So from every reachable state of a ticking server, a next round can be completed
  // without any tick from outside.
  lemma NextRoundIsPossible(s: State, events: seq<Event>) returns (s': State, more: seq<Event>)
    requires Reachable(s, events) && !s.destroyed && !s.noTickYet
    ensures Reachable(s', events + more) && |s'.rounds| == |s.rounds| + 1
    ensures NothingFromOutside(more)
  {
    ReachableInv(s, events);
    s', more := RoundFollows(s);
    LeadKeepsReachable(s, events, more, s');
  }

  ghost predicate NothingFromOutside(events: seq<Event>) {
    forall i :: 0 <= i < |events| ==> !events[i].TickArrives? && !events[i].Destroy?
  }

  lemma FreshThread(used: set<ThreadId>) returns (t: ThreadId)
    ensures t !in used && forall u :: u in used ==> u < t
  {
    if used == {} {
      t := 0;
    } else {
      var u :| u in used;
      var t' := FreshThread(used - {u});
      t := Max(t', u + 1);
      assert forall v :: v in used ==> v == u || v in used - {u};
    }
  }

  // Two timeTick bodies never overlap; m_timeIdLastTick needs no mutex.
  lemma BodiesNeverOverlap(s: State, events: seq<Event>, t: ThreadId, u: ThreadId)
    requires Reachable(s, events) && t in s.bodies && u in s.bodies
    ensures t == u && s.waits == [] && s.ready == []
  {
    ReachableInv(s, events);
    AtMostOneBody(s, t);
  }

  ghost predicate StrictlyIncreasing(hooks: seq<Posted>) {
    forall i, j :: 0 <= i < j < |hooks| ==> hooks[i].id < hooks[j].id
  }

  ghost predicate IdsWithin(hooks: seq<Posted>, low: nat, high: nat) {
    forall i :: 0 <= i < |hooks| ==> low < hooks[i].id <= high
  }

  lemma IncreasingConcat(a: seq<Posted>, b: seq<Posted>, low: nat, middle: nat, high: nat)
    requires StrictlyIncreasing(a) && IdsWithin(a, low, middle)
    requires StrictlyIncreasing(b) && IdsWithin(b, middle, high)
    requires low <= middle <= high
    ensures StrictlyIncreasing(a + b) && IdsWithin(a + b, low, high)
  {}

  lemma {:induction false} RoundsIncrease(rounds: seq<Round>)
    requires Chained(rounds)
    ensures StrictlyIncreasing(AllHooks(rounds)) && IdsWithin(AllHooks(rounds), 0, Reached(rounds))
    decreases |rounds|
  {
    if rounds != [] {
      var n := |rounds| - 1;
      ChainedPrefix(rounds, n);
      RoundsIncrease(rounds[..n]);
      var r := rounds[n];
      IncreasingConcat(AllHooks(rounds[..n]), RoundHooks(r), 0, r.before, Max(r.before, r.newId));
    }
  }

  // The ids that devices hear about strictly increase over a whole run, whatever ids,
  // jumps and resets the time server sends.
  lemma HookIdsStrictlyIncrease(s: State, events: seq<Event>)
    requires Reachable(s, events)
    ensures StrictlyIncreasing(s.hooks) && IdsWithin(s.hooks, 0, s.last)
  {
    ReachableInv(s, events);
    RoundsIncrease(s.rounds);
    if t :| InLoop(s, t) {
      LoopIncreases(s.bodies[t], s.last, s.hooks, s.rounds);
    }
  }

  lemma LoopIncreases(b: Body, last: nat, hooks: seq<Posted>, rounds: seq<Round>)
    requires Chained(rounds) && LoopAccounted(b, last, hooks, rounds)
    requires StrictlyIncreasing(AllHooks(rounds)) && IdsWithin(AllHooks(rounds), 0, Reached(rounds))
    ensures StrictlyIncreasing(hooks) && IdsWithin(hooks, 0, last)
  {
    IncreasingConcat(AllHooks(rounds), PartialHooks(b, last), 0, b.before, last);
  }

  // Between bodies, the trace is the sequence of bursts owed by the completed rounds.
  lemma TraceIsTheBursts(s: State, events: seq<Event>)
    requires Reachable(s, events)
    requires forall t :: !InLoop(s, t)
    ensures Chained(s.rounds) && s.hooks == AllHooks(s.rounds) && s.last == Reached(s.rounds)
  {
    ReachableInv(s, events);
  }

  // Every completed round handed out exactly the hooks of an uninterrupted catch-up, and
  // a device that holds the reference of the round maps their stamp back to its id.
  lemma RoundsActUninterrupted(s: State, events: seq<Event>, k: nat)
    requires Reachable(s, events) && k < |s.rounds|
    ensures WellFormedRound(s.rounds[k])
    ensures var r := s.rounds[k];
            var stamp := TickStamp(r.ref, r.newId);
            && stamp.Canonical()
            && TrainIdAt(r.ref, stamp) == r.newId
            && HooksFor(Burst(r.before, r.newId, r.ref.period), stamp, r.ref.period)
               == seq(|RoundHooks(r)|, i requires 0 <= i < |RoundHooks(r)| => RoundHooks(r)[i].Hook())
  {
    ReachableInv(s, events);
    DeviceAgreesWithServer(s.rounds[k].ref, s.rounds[k].newId);
  }

  // A body may post hooks from its reference while a device already holds a later tick,
  // which is recorded and forwarded at any time. If that tick is consistent, the device
  // sees the stamp of every hook one id behind, exactly if it belongs to a train before
  // the later tick.
  lemma HooksUnderLaterReference(s: State, events: seq<Event>, k: nat, held: TickRef)
    requires Reachable(s, events) && k < |s.hooks| && Consistent(s.hooks[k].ref, held)
    ensures var h := s.hooks[k];
            && WellFormedPosted(h) && h.Hook().stamp.Canonical()
            && TrainIdAt(held, h.Hook().stamp) == if h.newId < held.id then h.newId - 1 else h.newId
  {
    HooksFormed(s, events);
    LateStampIsOneBehind(s.hooks[k].ref, held, s.hooks[k].newId);
  }

  ghost predicate WellFormedPosted(h: Posted) {
    h.newId >= 1 && h.newId >= h.ref.id
  }

  lemma HooksFormed(s: State, events: seq<Event>)
    requires Reachable(s, events)
    ensures WellFormedHooks(s.hooks)
  {
    ReachableInv(s, events);
    RoundHooksFormed(s.rounds);
    if t :| InLoop(s, t) {
      assert LoopAccounted(s.bodies[t], s.last, s.hooks, s.rounds);
    }
  }

  ghost predicate WellFormedHooks(hooks: seq<Posted>) {
    forall i :: 0 <= i < |hooks| ==> WellFormedPosted(hooks[i])
  }

  lemma {:induction false} RoundHooksFormed(rounds: seq<Round>)
    requires Chained(rounds)
    ensures WellFormedHooks(AllHooks(rounds))
    decreases |rounds|
  {
    if rounds != [] {
      var n := |rounds| - 1;
      ChainedPrefix(rounds, n);
      RoundHooksFormed(rounds[..n]);
    }
  }

  // ----- which tick a device holds -----

  // A call whose tick the devices have not got yet
  ghost predicate Unsent(s: State, c: ThreadId) {
    c in s.calls && !s.calls[c].sent
  }

  ghost predicate CallsNumbered(s: State) {
    && (forall c :: c in s.calls ==> s.calls[c].number < |s.recorded|)
    && (forall c, d :: c in s.calls && d in s.calls && c != d ==> s.calls[c].number != s.calls[d].number)
    && (forall c :: c in s.calls ==> (s.calls[c].sent <==> s.calls[c].number in s.forwarded))
  }

  ghost predicate ForwardedOnce(s: State) {
    && (forall i :: 0 <= i < |s.forwarded| ==> s.forwarded[i] < |s.recorded|)
    && (forall i, j :: 0 <= i < j < |s.forwarded| ==> s.forwarded[i] != s.forwarded[j])
    && (forall n: nat :: n < |s.recorded| && n !in s.forwarded ==> exists c :: Unsent(s, c) && s.calls[c].number == n)
  }

  ghost predicate TouchesForwards(e: Event) {
    (e.TickArrives? && e.period > 0) || e.Forward? || e.CancelTimer?
  }

  lemma OthersLeaveForwards(s: State, e: Event)
    requires WellFormed(s) && SingleToken(s) && Enabled(s, e) && !TouchesForwards(e)
    ensures var s' := Apply(s, e);
            s'.calls == s.calls && s'.recorded == s.recorded && s'.forwarded == s.forwarded
  {}

  lemma StepKeepsNumbers(s: State, e: Event)
    requires WellFormed(s) && Enabled(s, e) && TouchesForwards(e)
    requires CallsNumbered(s) && ForwardedOnce(s)
    ensures CallsNumbered(Apply(s, e))
  {
    if e.TickArrives? {
      NewCallIsNumbered(s, e);
    } else if e.Forward? {
      SentCallIsNumbered(s, e.call);
    }
  }

  lemma NewCallIsNumbered(s: State, e: Event)
    requires WellFormed(s) && Enabled(s, e) && e.TickArrives? && e.period > 0
    requires CallsNumbered(s) && ForwardedOnce(s)
    ensures CallsNumbered(Apply(s, e))
  {
    var s' := Apply(s, e);
    assert |s.recorded| !in s.forwarded;
    assert forall c :: c in s'.calls && c != e.call ==> s'.calls[c] == s.calls[c];
  }

  lemma SentCallIsNumbered(s: State, c: ThreadId)
    requires WellFormed(s) && Enabled(s, Forward(c)) && CallsNumbered(s)
    ensures CallsNumbered(Apply(s, Forward(c)))
  {
    var s' := Apply(s, Forward(c));
    assert forall d :: d in s'.calls && d != c ==> s'.calls[d] == s.calls[d];
    assert forall n: nat :: n in s'.forwarded <==> n in s.forwarded || n == s.calls[c].number;
  }

  lemma StepForwardsOnce(s: State, e: Event)
    requires WellFormed(s) && Enabled(s, e) && TouchesForwards(e)
    requires CallsNumbered(s) && ForwardedOnce(s)
    ensures ForwardedOnce(Apply(s, e))
  {
    var s' := Apply(s, e);
    forall n: nat | n < |s'.recorded| && n !in s'.forwarded
      ensures exists c :: Unsent(s', c) && s'.calls[c].number == n
    {
      if n == |s.recorded| {
        assert Unsent(s', e.call);
      } else {
        var c :| Unsent(s, c) && s.calls[c].number == n;
        assert Unsent(s', c);
      }
    }
  }

  lemma StepKeepsForwards(s: State, e: Event)
    requires WellFormed(s) && SingleToken(s) && Enabled(s, e) && CallsNumbered(s) && ForwardedOnce(s)
    ensures CallsNumbered(Apply(s, e)) && ForwardedOnce(Apply(s, e))
  {
    if TouchesForwards(e) {
      StepKeepsNumbers(s, e);
      StepForwardsOnce(s, e);
    } else {
      OthersLeaveForwards(s, e);
      SameForwards(s, Apply(s, e));
    }
  }

  lemma SameForwards(s: State, s': State)
    requires s'.calls == s.calls && s'.recorded == s.recorded && s'.forwarded == s.forwarded
    ensures CallsNumbered(s) ==> CallsNumbered(s')
    ensures ForwardedOnce(s) ==> ForwardedOnce(s')
    ensures InOrder(s) ==> InOrder(s')
  {
    assert forall c :: Unsent(s', c) <==> Unsent(s, c);
    forall n: nat | ForwardedOnce(s) && n < |s'.recorded| && n !in s'.forwarded
      ensures exists c :: Unsent(s', c) && s'.calls[c].number == n
    {
      var c :| Unsent(s, c) && s.calls[c].number == n;
      assert Unsent(s', c);
    }
  }

  lemma {:induction false} ReachableForwards(s: State, events: seq<Event>)
    requires Reachable(s, events)
    ensures CallsNumbered(s) && ForwardedOnce(s)
    decreases |events|
  {
    if events != [] {
      var n := |events| - 1;
      var p :| Reachable(p, events[..n]) && WellFormed(p) && Enabled(p, events[n]) && s == Apply(p, events[n]);
      ReachableInv(p, events[..n]);
      ReachableForwards(p, events[..n]);
      StepKeepsForwards(p, events[n]);
    }
  }

  // In every interleaving, each valid tick reaches the devices exactly once, and exactly
  // those are still missing whose call has not yet forwarded them.
  lemma TicksAreForwardedOnce(s: State, events: seq<Event>, n: nat)
    requires Reachable(s, events) && n < |s.recorded|
    ensures n !in s.forwarded <==> exists c :: Unsent(s, c) && s.calls[c].number == n
    ensures forall i, j :: 0 <= i < j < |s.forwarded| ==> s.forwarded[i] != s.forwarded[j]
  {
    ReachableForwards(s, events);
  }

  // A valid tick arrives while another one is not yet forwarded.
  ghost predicate Overlaps(s: State, e: Event) {
    e.TickArrives? && e.period > 0 && exists c :: Unsent(s, c)
  }

  // The run keeps slot calls apart until they have forwarded their ticks.
  ghost predicate Separate(s: State, events: seq<Event>)
    decreases |events|
  {
    if events == [] then s == Init
    else
      var n := |events| - 1;
      exists p :: Separate(p, events[..n]) && WellFormed(p) && Enabled(p, events[n])
                  && !Overlaps(p, events[n]) && s == Apply(p, events[n])
  }

  ghost predicate InOrder(s: State) {
    && (forall i :: 0 <= i < |s.forwarded| ==> s.forwarded[i] == i)
    && |s.recorded| == |s.forwarded| + if exists c :: Unsent(s, c) then 1 else 0
  }

  // If slot calls do not overlap before they have forwarded, devices hold the tick that
  // the server recorded last, or the one before while that is being forwarded.
  lemma {:induction false} SeparateCallsStayInOrder(s: State, events: seq<Event>)
    requires Separate(s, events)
    ensures Reachable(s, events) && InOrder(s)
    decreases |events|
  {
    if events != [] {
      var n := |events| - 1;
      var p :| Separate(p, events[..n]) && WellFormed(p) && Enabled(p, events[n])
               && !Overlaps(p, events[n]) && s == Apply(p, events[n]);
      SeparateCallsStayInOrder(p, events[..n]);
      ReachableInv(p, events[..n]);
      ReachableForwards(p, events[..n]);
      StepStaysInOrder(p, events[n]);
    }
  }

  lemma StepStaysInOrder(s: State, e: Event)
    requires WellFormed(s) && SingleToken(s) && Enabled(s, e) && InOrder(s) && !Overlaps(s, e)
    requires CallsNumbered(s)
    ensures InOrder(Apply(s, e))
  {
    if e.Forward? {
      ForwardStaysInOrder(s, e.call);
    } else if TouchesForwards(e) {
      ArrivalStaysInOrder(s, e);
    } else {
      OthersLeaveForwards(s, e);
      SameForwards(s, Apply(s, e));
    }
  }

  lemma ForwardStaysInOrder(s: State, c: ThreadId)
    requires WellFormed(s) && Enabled(s, Forward(c)) && InOrder(s) && CallsNumbered(s)
    ensures InOrder(Apply(s, Forward(c)))
  {
    var s' := Apply(s, Forward(c));
    LastUnsent(s, c);
    forall d
      ensures !Unsent(s', d)
    {
      if Unsent(s, d) { LastUnsent(s, d); }
    }
  }

  lemma ArrivalStaysInOrder(s: State, e: Event)
    requires WellFormed(s) && Enabled(s, e) && InOrder(s) && !Overlaps(s, e)
    requires (e.TickArrives? && e.period > 0) || e.CancelTimer?
    ensures InOrder(Apply(s, e))
  {
    var s' := Apply(s, e);
    if e.CancelTimer? {
      assert forall d :: Unsent(s', d) <==> Unsent(s, d);
    } else {
      assert Unsent(s', e.call);
    }
  }

  lemma LastUnsent(s: State, c: ThreadId)
    requires InOrder(s) && CallsNumbered(s) && Unsent(s, c)
    ensures s.calls[c].number == |s.forwarded| && |s.recorded| == |s.forwarded| + 1
  {
    if s.calls[c].number < |s.forwarded| {
      AllBelowForwarded(s, s.calls[c].number);
    }
  }

  lemma AllBelowForwarded(s: State, n: nat)
    requires InOrder(s) && n < |s.forwarded|
    ensures n in s.forwarded
  {
    assert s.forwarded[n] == n;
  }

  const FirstTick: Event := TickArrives(0, 1, 1, 0, 1, Epoch.Epoch(0, 0))
  const SecondTick: Event := TickArrives(1, 2, 2, 0, 1, Epoch.Epoch(0, 0))

  const BothTicks: seq<Event> := [FirstTick, SecondTick]

  lemma FirstTickArrives() returns (s: State)
    ensures Reachable(s, [FirstTick]) && s.bodies == map[]
    ensures s.calls == map[0 := Call(1, true, 0, false)] && !s.noTickYet && !s.destroyed
    ensures s.recorded == [TickRef(1, 1, 0, 1)] && s.forwarded == []
  {
    assert Reachable(Init, []);
    RunsExtend(Init, [], FirstTick);
    s := Apply(Init, FirstTick);
    assert [] + [FirstTick] == [FirstTick];
  }

  lemma SecondTickArrives() returns (s: State)
    ensures Reachable(s, BothTicks)
    ensures s.calls == map[0 := Call(1, true, 0, false), 1 := Call(2, false, 1, false)]
    ensures s.recorded == [TickRef(1, 1, 0, 1), TickRef(2, 2, 0, 1)] && s.ref == s.recorded[1] && s.forwarded == []
  {
    var s1 := FirstTickArrives();
    RunsExtend(s1, [FirstTick], SecondTick);
    s := Apply(s1, SecondTick);
    assert [FirstTick] + [SecondTick] == BothTicks;
  }

  lemma SecondTickIsForwarded() returns (s: State)
    ensures Reachable(s, BothTicks + [Forward(1)])
    ensures s.calls == map[0 := Call(1, true, 0, false), 1 := Call(2, false, 1, true)]
    ensures s.recorded == [TickRef(1, 1, 0, 1), TickRef(2, 2, 0, 1)] && s.ref == s.recorded[1] && s.forwarded == [1]
  {
    var s2 := SecondTickArrives();
    RunsExtend(s2, BothTicks, Forward(1));
    s := Apply(s2, Forward(1));
  }

  // With overlapping calls, devices can end up with an older tick than the server.
  lemma OlderTickCanArriveLast() returns (s: State)
    ensures Reachable(s, BothTicks + [Forward(1)] + [Forward(0)])
    ensures s.recorded == [TickRef(1, 1, 0, 1), TickRef(2, 2, 0, 1)] && s.ref == s.recorded[1]
    ensures s.forwarded == [1, 0]
  {
    var s3 := SecondTickIsForwarded();
    RunsExtend(s3, BothTicks + [Forward(1)], Forward(0));
    s := Apply(s3, Forward(0));
  }

  // ----- what devices make of hooks, with a steady time server -----

  ghost predicate WithSeconds(ticks: seq<TickRef>) {
    forall i :: 0 <= i < |ticks| ==> ticks[i].sec != 0
  }

  // All ticks lie on one schedule, though they may come in any order and repeatedly.
  ghost predicate Steady(ticks: seq<TickRef>) {
    && WithSeconds(ticks)
    && forall i, j :: 0 <= i < |ticks| && 0 <= j < |ticks| ==>
         Consistent(ticks[i], ticks[j]) || Consistent(ticks[j], ticks[i])
  }

  // References in use are ticks as they arrived.
  ghost predicate ReferencesRecorded(s: State) {
    && (!s.noTickYet ==> s.ref in s.recorded)
    && (forall t :: InLoop(s, t) ==> s.bodies[t].ref in s.recorded)
    && (forall k :: 0 <= k < |s.hooks| ==> s.hooks[k].ref in s.recorded)
  }

  lemma StepKeepsReferences(s: State, e: Event)
    requires Inv(s) && Enabled(s, e) && WithSeconds(Apply(s, e).recorded)
    requires ReferencesRecorded(s)
    ensures ReferencesRecorded(Apply(s, e))
  {
    var s' := Apply(s, e);
    RecordedGrows(s, e);
    ReferenceStaysRecorded(s, e);
    forall t | InLoop(s', t)
      ensures s'.bodies[t].ref in s'.recorded
    {
      LoopReferenceIsRecorded(s, e, t);
    }
    if e.PostNext? {
      assert InLoop(s, e.thread);
    } else {
      assert s'.hooks == s.hooks;
    }
  }

  lemma RecordedGrows(s: State, e: Event)
    requires WellFormed(s) && Enabled(s, e)
    ensures s.recorded <= Apply(s, e).recorded
    ensures WithSeconds(Apply(s, e).recorded) ==> WithSeconds(s.recorded)
  {
    var s' := Apply(s, e);
    assert s.recorded <= s'.recorded;
    assert forall i :: 0 <= i < |s.recorded| ==> s.recorded[i] == s'.recorded[i];
  }

  lemma ReferenceStaysRecorded(s: State, e: Event)
    requires WellFormed(s) && Enabled(s, e) && WithSeconds(Apply(s, e).recorded)
    requires !s.noTickYet ==> s.ref in s.recorded
    ensures !Apply(s, e).noTickYet ==> Apply(s, e).ref in Apply(s, e).recorded
  {
    if e.TickArrives? && e.period > 0 {
      assert Apply(s, e).recorded[|s.recorded|].sec != 0;
    }
  }

  lemma LoopReferenceIsRecorded(s: State, e: Event, t: ThreadId)
    requires Inv(s) && Enabled(s, e) && ReferencesRecorded(s) && s.recorded <= Apply(s, e).recorded
    requires InLoop(Apply(s, e), t)
    ensures Apply(s, e).bodies[t].ref in Apply(s, e).recorded
  {
    if e == ReadReference(t) {
      AtMostOneBody(s, t);
    } else {
      assert InLoop(s, t);
    }
  }

  lemma {:induction false} ReachableReferences(s: State, events: seq<Event>)
    requires Reachable(s, events) && WithSeconds(s.recorded)
    ensures ReferencesRecorded(s)
    decreases |events|
  {
    if events != [] {
      var n := |events| - 1;
      var p :| Reachable(p, events[..n]) && WellFormed(p) && Enabled(p, events[n]) && s == Apply(p, events[n]);
      ReachableInv(p, events[..n]);
      RecordedGrows(p, events[n]);
      ReachableReferences(p, events[..n]);
      StepKeepsReferences(p, events[n]);
    }
  }

  // With a steady time server, whatever ticks were recorded and forwarded in whatever
  // order: a device that holds any tick forwarded so far sees the stamp of any hook under
  // the id of the hook's train, except that it is one id behind exactly if the tick it
  // holds is of a later train already.
  lemma HooksOfSteadyServer(s: State, events: seq<Event>, k: nat, n: nat)
    requires Reachable(s, events) && Steady(s.recorded)
    requires k < |s.hooks| && n in s.forwarded
    ensures n < |s.recorded|
    ensures var h, held := s.hooks[k], s.recorded[n];
            && WellFormedPosted(h) && h.Hook().stamp.Canonical()
            && TrainIdAt(held, h.Hook().stamp) == if h.newId < held.id then h.newId - 1 else h.newId
  {
    ReachableForwards(s, events);
    ReachableReferences(s, events);
    HooksFormed(s, events);
    var h, held := s.hooks[k], s.recorded[n];
    assert WellFormedPosted(h);
    if Consistent(h.ref, held) {
      HooksUnderLaterReference(s, events, k, held);
    } else {
      StampAtEarlierReference(held, h.ref, h.newId);
    }
  }
}
