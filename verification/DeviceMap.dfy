// The devices of a server: a transition system over the lock sections of concurrent
// DeviceServer::instantiate calls, slotDeviceGone and stopDeviceServer, on one map.

module DeviceMap {
  import opened Options

  type CallId = nat

  // A device object is identified by the instantiate call that created it; the map holds
  // a null pointer where an entry was created by operator[].
  datatype Entry = Entry(device: Option<CallId>, strand: bool)

  type Instances = map<string, Entry>

  datatype Failure =
    | KaraboException(message: string)
    | StdException(what: string)

  // The error message that instantiate collects
  function ErrorMessage(f: Failure): string {
    match f
    case KaraboException(message) => if message == "" then "Unknown failure" else message
    case StdException(what) => what
  }

  // ----- the lock sections -----

  // Throws (None) if the id is taken
  function TryInsert(m: Instances, id: string, device: CallId): Option<Instances> {
    if id in m then None else Some(m[id := Entry(Some(device), false)])
  }

  // m_deviceInstanceMap[deviceId].second = strand
  function AssignStrand(m: Instances, id: string): Instances {
    var entry := if id in m then m[id] else Entry(None, false);
    m[id := entry.(strand := true)]
  }

  function Erase(m: Instances, id: string): Instances {
    m - {id}
  }

  // ----- instantiate as one uninterrupted call -----

  datatype Course =
    | CreateThrows(failure: Failure)
    | InitThrows(failure: Failure)
    | Succeeds

  datatype Reply = Reply(call: CallId, ok: bool)

  class DeviceServerMap {
    var instances: Instances
    var threads: nat
    var replies: seq<Reply>

    constructor (threads: nat)
      ensures instances == map[] && this.threads == threads && replies == []
    {
      instances := map[];
      this.threads := threads;
      replies := [];
    }

    method Instantiate(call: CallId, id: string, course: Course)
      modifies this
      ensures threads == old(threads)
      ensures id in old(instances) && course != CreateThrows(StdException("")) ==>
                instances == old(instances) && replies == old(replies) + [Reply(call, false)]
      ensures id !in old(instances) && course.Succeeds? ==>
                && instances == old(instances)[id := Entry(Some(call), true)]
                && replies == old(replies) + [Reply(call, true)]
      ensures id !in old(instances) && !course.Succeeds? && course.failure != StdException("") ==>
                instances == old(instances) && replies == old(replies) + [Reply(call, false)]
      // A standard exception without any text is taken for success.
      ensures course == CreateThrows(StdException("")) ==>
                instances == old(instances) && replies == old(replies) + [Reply(call, true)]
      ensures id !in old(instances) && course == InitThrows(StdException("")) ==>
                && instances == old(instances)[id := Entry(Some(call), false)]
                && replies == old(replies) + [Reply(call, true)]
    {
      threads := threads + 1;
      var putInMap := false;
      var errorMsg := "";
      if course.CreateThrows? {
        errorMsg := ErrorMessage(course.failure);
      } else {
        var inserted := TryInsert(instances, id, call);
        if inserted.None? {
          errorMsg := "Device '" + id + "' already running/starting on this server.";
        } else {
          instances := inserted.value;
          putInMap := true;
          if course.InitThrows? {
            errorMsg := ErrorMessage(course.failure);
          } else {
            instances := AssignStrand(instances, id);
          }
        }
      }
      if errorMsg == "" {
        replies := replies + [Reply(call, true)];
      } else {
        if putInMap {
          instances := Erase(instances, id);
        }
        replies := replies + [Reply(call, false)];
      }
      threads := threads - 1;
    }

    method SlotDeviceGone(id: string)
      modifies `instances
      ensures instances == Erase(old(instances), id)
    {
      instances := Erase(instances, id);
    }

    method StopDeviceServer()
      modifies `instances
      ensures instances == map[]
    {
      instances := map[];
    }
  }

  // ----- interleaved calls -----

  // Where an instantiate call stands
  datatype Stage =
    | Entered                                  // creating the device
    | Inserted                                 // device is in the map and initialises itself
    | Initialised                              // before the strand is assigned
    | Caught(putInMap: bool)                   // an exception with a message was caught
    | Answering(ok: bool)
    | Answered

  datatype Call = Call(id: string, stage: Stage)

  datatype State = State(
    instances: Instances,
    calls: map<CallId, Call>,
    past: set<CallId>,         // calls that have left
    initialised: set<CallId>,  // devices whose initialisation succeeded
    started: set<CallId>,      // calls that assigned a strand
    silent: set<CallId>,       // calls that caught an exception without message
    replies: seq<Reply>,
    threads: int)              // event loop threads beyond the base count

  const Init: State := State(map[], map[], {}, {}, {}, {}, [], 0)

  datatype Event =
    | Enter(call: CallId, id: string)
    | CreateFails(call: CallId, failure: Failure)
    | Insert(call: CallId)
    | InitFails(call: CallId, failure: Failure)
    | InitSucceeds(call: CallId)
    | GiveStrand(call: CallId)
    | CleanUp(call: CallId)
    | Answer(call: CallId)
    | Leave(call: CallId)
    | Gone(id: string)
    | Stop

  ghost predicate At(s: State, c: CallId, stage: Stage) {
    c in s.calls && s.calls[c].stage == stage
  }

  ghost predicate Enabled(s: State, e: Event) {
    match e
    case Enter(c, _) => c !in s.calls && c !in s.past
    case CreateFails(c, _) => At(s, c, Entered)
    case Insert(c) => At(s, c, Entered)
    case InitFails(c, _) => At(s, c, Inserted)
    case InitSucceeds(c) => At(s, c, Inserted)
    case GiveStrand(c) => At(s, c, Initialised)
    case CleanUp(c) => c in s.calls && s.calls[c].stage.Caught?
    case Answer(c) => c in s.calls && s.calls[c].stage.Answering?
    case Leave(c) => At(s, c, Answered)
    case Gone(_) => true
    case Stop => true
  }

  ghost function Move(s: State, c: CallId, stage: Stage): State
    requires c in s.calls
  {
    s.(calls := s.calls[c := s.calls[c].(stage := stage)])
  }

  ghost function Catch(s: State, c: CallId, f: Failure, putInMap: bool): State
    requires c in s.calls
  {
    if ErrorMessage(f) == "" then Move(s, c, Answering(true)).(silent := s.silent + {c})
    else Move(s, c, Caught(putInMap))
  }

  ghost function Apply(s: State, e: Event): State
    requires Enabled(s, e)
  {
    match e
    case Enter(c, id) => s.(calls := s.calls[c := Call(id, Entered)], threads := s.threads + 1)
    case CreateFails(c, f) => Catch(s, c, f, false)
    case Insert(c) =>
      (match TryInsert(s.instances, s.calls[c].id, c)
       case None => Move(s, c, Caught(false))
       case Some(m) => Move(s, c, Inserted).(instances := m))
    case InitFails(c, f) => Catch(s, c, f, true)
    case InitSucceeds(c) => Move(s, c, Initialised).(initialised := s.initialised + {c})
    case GiveStrand(c) =>
      Move(s, c, Answering(true)).(instances := AssignStrand(s.instances, s.calls[c].id),
                                   started := s.started + {c})
    case CleanUp(c) =>
      var moved := Move(s, c, Answering(false));
      if s.calls[c].stage.putInMap then moved.(instances := Erase(s.instances, s.calls[c].id)) else moved
    case Answer(c) => Move(s, c, Answered).(replies := s.replies + [Reply(c, s.calls[c].stage.ok)])
    case Leave(c) => s.(calls := s.calls - {c}, past := s.past + {c}, threads := s.threads - 1)
    case Gone(id) => s.(instances := Erase(s.instances, id))
    case Stop => s.(instances := map[])
  }

  // From its insertion until its strand or its removal, an entry is the business of the
  // call that inserted it.
  ghost predicate Owns(s: State, c: CallId, id: string) {
    && c in s.calls && s.calls[c].id == id
    && (s.calls[c].stage == Inserted || s.calls[c].stage == Initialised || s.calls[c].stage == Caught(true))
  }

  // Nothing else removes an entry while a call owns it.
  ghost predicate Undisturbed(s: State, e: Event) {
    match e
    case Gone(id) => forall c :: !Owns(s, c, id)
    case Stop => forall c, id :: !Owns(s, c, id)
    case _ => true
  }

  // ----- replies and threads, over all runs -----

  ghost function Count(replies: seq<Reply>, c: CallId): nat {
    if replies == [] then 0
    else Count(replies[..|replies| - 1], c) + if replies[|replies| - 1].call == c then 1 else 0
  }

  // The call has replied.
  ghost predicate Done(s: State, c: CallId) {
    c in s.past || At(s, c, Answered)
  }

  ghost predicate ThreadsCounted(s: State) {
    s.threads == |s.calls| && s.past !! s.calls.Keys
  }

  ghost predicate RepliesCounted(s: State) {
    forall c :: Count(s.replies, c) == if Done(s, c) then 1 else 0
  }

  ghost predicate Positive(s: State, c: CallId) {
    c in s.started || c in s.silent
  }

  // What a call answers, or has answered, is what became of it.
  ghost predicate OutcomesTold(s: State) {
    && (forall r :: r in s.replies ==> Done(s, r.call) && r.ok == Positive(s, r.call))
    && (forall c :: c in s.calls && s.calls[c].stage.Answering? ==> s.calls[c].stage.ok == Positive(s, c))
    && (forall c :: Positive(s, c) ==>
          c in s.past || (c in s.calls && (s.calls[c].stage.Answering? || s.calls[c].stage.Answered?)))
  }

  ghost predicate Accounted(s: State) {
    ThreadsCounted(s) && RepliesCounted(s) && OutcomesTold(s)
  }

  lemma CallsChange(s: State, e: Event)
    requires Enabled(s, e)
    ensures var s' := Apply(s, e);
            match e
            case Enter(c, _) =>
              s'.calls.Keys == s.calls.Keys + {c} && s'.threads == s.threads + 1 && s'.past == s.past
            case Leave(c) =>
              s'.calls.Keys == s.calls.Keys - {c} && s'.threads == s.threads - 1 && s'.past == s.past + {c}
            case _ => s'.calls.Keys == s.calls.Keys && s'.threads == s.threads && s'.past == s.past
  {}

  lemma StepKeepsThreads(s: State, e: Event)
    requires ThreadsCounted(s) && Enabled(s, e)
    ensures ThreadsCounted(Apply(s, e))
  {
    var s' := Apply(s, e);
    CallsChange(s, e);
    KeysCount(s.calls);
    KeysCount(s'.calls);
  }

  lemma KeysCount(m: map<CallId, Call>)
    ensures |m| == |m.Keys|
  {}

  lemma DoneChanges(s: State, e: Event, c: CallId)
    requires ThreadsCounted(s) && Enabled(s, e)
    ensures Done(Apply(s, e), c) <==> Done(s, c) || (e.Answer? && c == e.call)
    ensures e.Answer? ==> !Done(s, e.call) && Apply(s, e).replies == s.replies + [Reply(e.call, s.calls[e.call].stage.ok)]
    ensures !e.Answer? ==> Apply(s, e).replies == s.replies
  {}

  lemma StepKeepsReplies(s: State, e: Event)
    requires ThreadsCounted(s) && RepliesCounted(s) && Enabled(s, e)
    ensures RepliesCounted(Apply(s, e))
  {
    var s' := Apply(s, e);
    forall c
      ensures Count(s'.replies, c) == if Done(s', c) then 1 else 0
    {
      DoneChanges(s, e, c);
      if e.Answer? {
        CountAppend(s.replies, Reply(e.call, s.calls[e.call].stage.ok), c);
      }
    }
  }

  lemma CountAppend(replies: seq<Reply>, r: Reply, c: CallId)
    ensures Count(replies + [r], c) == Count(replies, c) + if r.call == c then 1 else 0
  {
    assert (replies + [r])[..|replies|] == replies;
  }

  lemma PositiveChanges(s: State, e: Event, c: CallId)
    requires Enabled(s, e)
    ensures Positive(Apply(s, e), c) ==>
              || Positive(s, c)
              || (c in s.calls && !s.calls[c].stage.Answering? && !s.calls[c].stage.Answered?
                  && At(Apply(s, e), c, Answering(true)))
    ensures Positive(s, c) ==> Positive(Apply(s, e), c)
  {}

  lemma StepKeepsOutcomes(s: State, e: Event)
    requires ThreadsCounted(s) && OutcomesTold(s) && Enabled(s, e)
    ensures OutcomesTold(Apply(s, e))
  {
    var s' := Apply(s, e);
    forall r | r in s'.replies
      ensures Done(s', r.call) && r.ok == Positive(s', r.call)
    {
      DoneChanges(s, e, r.call);
      PositiveChanges(s, e, r.call);
      assert r in s.replies || (e.Answer? && r == Reply(e.call, s.calls[e.call].stage.ok));
    }
    forall c
      ensures c in s'.calls && s'.calls[c].stage.Answering? ==> s'.calls[c].stage.ok == Positive(s', c)
      ensures Positive(s', c) ==>
                c in s'.past || (c in s'.calls && (s'.calls[c].stage.Answering? || s'.calls[c].stage.Answered?))
    {
      PositiveChanges(s, e, c);
    }
  }

  lemma StepKeepsAccounted(s: State, e: Event)
    requires Accounted(s) && Enabled(s, e)
    ensures Accounted(Apply(s, e))
  {
    StepKeepsThreads(s, e);
    StepKeepsReplies(s, e);
    StepKeepsOutcomes(s, e);
  }

  // ----- the map, over undisturbed runs -----

  ghost predicate MapSound(s: State) {
    && (forall c, id :: Owns(s, c, id) ==> id in s.instances && s.instances[id] == Entry(Some(c), false))
    && (forall c, id :: Owns(s, c, id) && s.calls[c].stage == Initialised ==> c in s.initialised)
    && (forall id :: id in s.instances ==> EntrySound(s, id))
  }

  ghost predicate EntrySound(s: State, id: string)
    requires id in s.instances
  {
    var entry := s.instances[id];
    && entry.device.Some?
    && (entry.strand ==> entry.device.value in s.initialised)
    && (!entry.strand ==> Owns(s, entry.device.value, id) || entry.device.value in s.silent)
  }

  lemma {:induction false} StepKeepsMapSound(s: State, e: Event)
    requires MapSound(s) && Enabled(s, e) && Undisturbed(s, e)
    ensures MapSound(Apply(s, e))
  {
    var s' := Apply(s, e);
    forall c, id | Owns(s', c, id)
      ensures id in s'.instances && s'.instances[id] == Entry(Some(c), false)
      ensures s'.calls[c].stage == Initialised ==> c in s'.initialised
    {
      if !(e.Insert? && c == e.call) { assert Owns(s, c, id); }
      if e.GiveStrand? || (e.CleanUp? && s.calls[e.call].stage.putInMap) {
        assert Owns(s, e.call, s.calls[e.call].id);
      }
    }
    forall id | id in s'.instances
      ensures EntrySound(s', id)
    {
      EntryStaysSound(s, e, id);
    }
  }

  lemma EntryStaysSound(s: State, e: Event, id: string)
    requires MapSound(s) && Enabled(s, e) && Undisturbed(s, e)
    requires id in Apply(s, e).instances
    ensures EntrySound(Apply(s, e), id)
  {
    var s' := Apply(s, e);
    if id in s.instances {
      assert EntrySound(s, id);
    }
    if e.GiveStrand? {
      assert Owns(s, e.call, s.calls[e.call].id);
    }
    if e.Insert? && s.calls[e.call].id == id && id !in s.instances {
      assert Owns(s', e.call, id);
    }
    if e.CleanUp? && s.calls[e.call].stage.putInMap {
      assert Owns(s, e.call, s.calls[e.call].id);
    }
  }

  // ----- whole runs -----

  ghost predicate Legal(s: State, events: seq<Event>)
    decreases |events|
  {
    events == [] || (Enabled(s, events[0]) && Legal(Apply(s, events[0]), events[1..]))
  }

  ghost function After(s: State, events: seq<Event>): State
    requires Legal(s, events)
    decreases |events|
  {
    if events == [] then s else After(Apply(s, events[0]), events[1..])
  }

  ghost predicate AllUndisturbed(s: State, events: seq<Event>)
    requires Legal(s, events)
    decreases |events|
  {
    events == [] || (Undisturbed(s, events[0]) && AllUndisturbed(Apply(s, events[0]), events[1..]))
  }

  lemma {:induction false} RunKeepsAccounted(s: State, events: seq<Event>)
    requires Accounted(s) && Legal(s, events)
    ensures Accounted(After(s, events))
    decreases |events|
  {
    if events != [] {
      StepKeepsAccounted(s, events[0]);
      RunKeepsAccounted(Apply(s, events[0]), events[1..]);
    }
  }

  lemma {:induction false} RunKeepsMapSound(s: State, events: seq<Event>)
    requires MapSound(s) && Legal(s, events) && AllUndisturbed(s, events)
    ensures MapSound(After(s, events))
    decreases |events|
  {
    if events != [] {
      StepKeepsMapSound(s, events[0]);
      RunKeepsMapSound(Apply(s, events[0]), events[1..]);
    }
  }

  ghost predicate FailsSilently(events: seq<Event>, c: CallId) {
    CreateFails(c, StdException("")) in events || InitFails(c, StdException("")) in events
  }

  lemma {:induction false} OutcomeHistory(s: State, events: seq<Event>, c: CallId)
    requires Legal(s, events)
    ensures c in After(s, events).started <==> c in s.started || GiveStrand(c) in events
    ensures c in After(s, events).silent <==> c in s.silent || FailsSilently(events, c)
    decreases |events|
  {
    if events != [] {
      OutcomeHistory(Apply(s, events[0]), events[1..], c);
      assert events == [events[0]] + events[1..];
      OutcomeStep(s, events[0], c);
    }
  }

  lemma OutcomeStep(s: State, e: Event, c: CallId)
    requires Enabled(s, e)
    ensures c in Apply(s, e).started <==> c in s.started || e == GiveStrand(c)
    ensures c in Apply(s, e).silent <==> c in s.silent || FailsSilently([e], c)
  {}

  // Every call that has left has replied exactly once, positively exactly if it assigned a
  // strand or failed by a standard exception without text, and event loop threads equal
  // the base count plus the calls in flight at every moment.
  lemma OneReplyPerCall(events: seq<Event>, c: CallId)
    requires Legal(Init, events)
    ensures var s := After(Init, events);
            && s.threads == |s.calls|
            && (c in s.past ==> Count(s.replies, c) == 1)
            && Count(s.replies, c) <= 1
            && (forall r :: r in s.replies && r.call == c ==>
                  (r.ok <==> GiveStrand(c) in events || FailsSilently(events, c)))
  {
    RunKeepsAccounted(Init, events);
    OutcomeHistory(Init, events, c);
  }

  // In runs that remove no entry while a call owns it, an entry with a strand holds a
  // device, and that device is initialised: slotTimeTick never goes through a null pointer.
  lemma StrandMeansInitialised(events: seq<Event>, id: string)
    requires Legal(Init, events) && AllUndisturbed(Init, events)
    ensures var s := After(Init, events);
            id in s.instances && s.instances[id].strand ==>
              s.instances[id].device.Some? && s.instances[id].device.value in s.initialised
  {
    RunKeepsMapSound(Init, events);
    var s := After(Init, events);
    if id in s.instances { assert EntrySound(s, id); }
  }

  // ----- second starts -----

  ghost predicate Concerns(e: Event, c: CallId) {
    match e
    case Gone(_) => false
    case Stop => false
    case _ => e.call == c
  }

  // No event of call c touches the map.
  ghost predicate LeavesMapAlone(s: State, c: CallId, events: seq<Event>)
    requires Legal(s, events)
    decreases |events|
  {
    events == [] ||
    (&& (Concerns(events[0], c) ==> Apply(s, events[0]).instances == s.instances)
     && LeavesMapAlone(Apply(s, events[0]), c, events[1..]))
  }

  ghost predicate Rejected(s: State, c: CallId) {
    && !Positive(s, c)
    && (c in s.past || At(s, c, Caught(false)) || At(s, c, Answering(false)) || At(s, c, Answered))
  }

  lemma StepKeepsRejected(s: State, c: CallId, e: Event)
    requires Accounted(s) && Rejected(s, c) && Enabled(s, e)
    ensures Rejected(Apply(s, e), c)
    ensures Concerns(e, c) ==> Apply(s, e).instances == s.instances
  {
    PositiveChanges(s, e, c);
    CallsChange(s, e);
  }

  lemma {:induction false} RejectedStaysOut(s: State, c: CallId, events: seq<Event>)
    requires Accounted(s) && Rejected(s, c) && Legal(s, events)
    ensures LeavesMapAlone(s, c, events) && Rejected(After(s, events), c)
    decreases |events|
  {
    if events != [] {
      StepKeepsRejected(s, c, events[0]);
      StepKeepsAccounted(s, events[0]);
      RejectedStaysOut(Apply(s, events[0]), c, events[1..]);
    }
  }

  // Once a start finds its id in the map, nothing that its call ever does touches the map,
  // whatever happens in between, and it never replies positively.
  lemma SecondStartIsRejected(before: seq<Event>, c: CallId, later: seq<Event>)
    requires Legal(Init, before)
    requires var s := After(Init, before);
             At(s, c, Entered) && s.calls[c].id in s.instances && Legal(s, [Insert(c)] + later)
    ensures var s := After(Init, before);
            var end := After(s, [Insert(c)] + later);
            && LeavesMapAlone(s, c, [Insert(c)] + later)
            && (forall r :: r in end.replies && r.call == c ==> !r.ok)
            && (c in end.past ==> Count(end.replies, c) == 1)
  {
    var s := After(Init, before);
    var events := [Insert(c)] + later;
    RunKeepsAccounted(Init, before);
    StepKeepsAccounted(s, Insert(c));
    assert events[0] == Insert(c) && events[1..] == later;
    assert !Positive(s, c);
    RejectedStaysOut(Apply(s, Insert(c)), c, later);
    RunKeepsAccounted(s, events);
  }

  // ----- failed starts -----

  ghost predicate FailsWith(e: Event, c: CallId, f: Failure) {
    e == CreateFails(c, f) || e == InitFails(c, f)
  }

  // The call is on its way to a negative reply, or has given it.
  ghost predicate Failed(s: State, c: CallId) {
    && !Positive(s, c)
    && (c in s.past || (c in s.calls && (s.calls[c].stage.Caught? || s.calls[c].stage == Answering(false)
                                         || s.calls[c].stage.Answered?)))
  }

  lemma StepKeepsFailed(s: State, c: CallId, e: Event)
    requires Accounted(s) && Failed(s, c) && Enabled(s, e)
    ensures Failed(Apply(s, e), c)
    ensures forall id :: Uncleared(s, c, id) && e != CleanUp(c) ==> Uncleared(Apply(s, e), c, id)
  {
    PositiveChanges(s, e, c);
    CallsChange(s, e);
  }

  // The call has caught an exception after its insertion and not yet cleaned up.
  ghost predicate Uncleared(s: State, c: CallId, id: string) {
    At(s, c, Caught(true)) && s.calls[c].id == id
  }

  lemma {:induction false} FailedStaysFailed(s: State, c: CallId, events: seq<Event>, id: string)
    requires Accounted(s) && Failed(s, c) && Legal(s, events)
    ensures Failed(After(s, events), c)
    ensures Uncleared(s, c, id) && CleanUp(c) !in events ==> Uncleared(After(s, events), c, id)
    decreases |events|
  {
    if events != [] {
      assert events == [events[0]] + events[1..];
      StepKeepsFailed(s, c, events[0]);
      StepKeepsAccounted(s, events[0]);
      FailedStaysFailed(Apply(s, events[0]), c, events[1..], id);
    }
  }

  // A start that fails otherwise than by a standard exception without text never gets a
  // positive reply, in any interleaving. If its device was in the map, it replies only
  // after its clean-up, and that leaves no entry for the id.
  lemma LoudFailureIsReported(before: seq<Event>, c: CallId, e: Event, f: Failure, later: seq<Event>)
    requires Legal(Init, before) && Enabled(After(Init, before), e)
    requires FailsWith(e, c, f) && f != StdException("")
    requires Legal(Apply(After(Init, before), e), later)
    ensures var s := After(Init, before);
            var end := After(Apply(s, e), later);
            && (forall r :: r in end.replies && r.call == c ==> !r.ok)
            && (e.InitFails? && CleanUp(c) !in later ==>
                  && Enabled(end, CleanUp(c)) && Count(end.replies, c) == 0
                  && s.calls[c].id !in Apply(end, CleanUp(c)).instances)
  {
    var s := After(Init, before);
    var id, failed := s.calls[c].id, Apply(s, e);
    RunKeepsAccounted(Init, before);
    StepKeepsAccounted(s, e);
    assert ErrorMessage(f) != "";
    FailedStaysFailed(failed, c, later, id);
    RunKeepsAccounted(failed, later);
  }

  // ----- strands, in all runs -----

  // Exactly the devices of calls that are about to assign their strand, or have done so,
  // are initialised.
  ghost predicate PastInitialisation(s: State, c: CallId) {
    At(s, c, Initialised) || c in s.started
  }

  ghost predicate InitialisedKnown(s: State) {
    forall c :: c in s.initialised <==> PastInitialisation(s, c)
  }

  ghost predicate StrandsSound(s: State) {
    forall id :: id in s.instances && s.instances[id].strand ==> HoldsInitialised(s, id)
  }

  ghost predicate HoldsInitialised(s: State, id: string) {
    id in s.instances && s.instances[id].device.Some? && s.instances[id].device.value in s.initialised
  }

  // A strand is assigned to an entry that holds an initialised device.
  ghost predicate StrandFits(s: State, e: Event)
    requires Enabled(s, e)
  {
    e.GiveStrand? ==> HoldsInitialised(s, s.calls[e.call].id)
  }

  lemma StepKeepsInitialisedKnown(s: State, e: Event)
    requires InitialisedKnown(s) && Enabled(s, e)
    ensures InitialisedKnown(Apply(s, e))
  {
    var s' := Apply(s, e);
    forall c
      ensures c in s'.initialised <==> PastInitialisation(s', c)
    {
      assert c in s.initialised <==> PastInitialisation(s, c);
    }
  }

  // Assigning a strand is the only step that can break the entries.
  lemma StepKeepsStrandsSound(s: State, e: Event)
    requires StrandsSound(s) && Enabled(s, e)
    ensures StrandsSound(Apply(s, e)) <==> StrandFits(s, e)
    ensures e.GiveStrand? ==> (HoldsInitialised(Apply(s, e), s.calls[e.call].id) <==> StrandFits(s, e))
  {
    var s' := Apply(s, e);
    if e.GiveStrand? {
      assert s'.instances[s.calls[e.call].id].strand;
    }
    forall id | id in s'.instances && s'.instances[id].strand && !(e.GiveStrand? && id == s.calls[e.call].id)
      ensures HoldsInitialised(s', id)
    {
      assert id in s.instances && s'.instances[id] == s.instances[id];
      assert HoldsInitialised(s, id);
    }
  }

  ghost predicate AlwaysSound(s: State, events: seq<Event>)
    requires Legal(s, events)
    decreases |events|
  {
    StrandsSound(s) && (events == [] || AlwaysSound(Apply(s, events[0]), events[1..]))
  }

  ghost predicate AllStrandsFit(s: State, events: seq<Event>)
    requires Legal(s, events)
    decreases |events|
  {
    events == [] || (StrandFits(s, events[0]) && AllStrandsFit(Apply(s, events[0]), events[1..]))
  }

  lemma {:induction false} RunKeepsStrandsSound(s: State, events: seq<Event>)
    requires StrandsSound(s) && Legal(s, events)
    ensures AlwaysSound(s, events) <==> AllStrandsFit(s, events)
    decreases |events|
  {
    if events != [] {
      StepKeepsStrandsSound(s, events[0]);
      if StrandsSound(Apply(s, events[0])) {
        RunKeepsStrandsSound(Apply(s, events[0]), events[1..]);
      } else {
        assert !AlwaysSound(Apply(s, events[0]), events[1..]);
      }
    }
  }

  // ----- where the entries come from -----

  // The steps that remove an entry: slotDeviceGone, the stop, and the clean-up of a failed
  // start, whoever inserted what is there by then
  ghost predicate Removes(s: State, e: Event, id: string)
    requires Enabled(s, e)
  {
    match e
    case Gone(gone) => gone == id
    case Stop => true
    case CleanUp(c) => s.calls[c].id == id && s.calls[c].stage.putInMap
    case _ => false
  }

  // Call d puts its device into the map.
  ghost predicate Inserts(s: State, e: Event, id: string, d: CallId)
    requires Enabled(s, e)
  {
    e == Insert(d) && s.calls[d].id == id && id !in s.instances
  }

  ghost predicate NotRemoved(s: State, events: seq<Event>, id: string)
    requires Legal(s, events)
    decreases |events|
  {
    events == [] || (!Removes(s, events[0], id) && NotRemoved(Apply(s, events[0]), events[1..], id))
  }

  // Call d inserts its device, which is not removed since.
  ghost predicate Brings(s: State, events: seq<Event>, id: string, d: CallId)
    requires Legal(s, events)
    decreases |events|
  {
    events != [] &&
    var next, rest := Apply(s, events[0]), events[1..];
    (Inserts(s, events[0], id, d) && NotRemoved(next, rest, id)) || Brings(next, rest, id, d)
  }

  ghost predicate Holds(s: State, id: string, d: CallId) {
    id in s.instances && s.instances[id].device == Some(d)
  }

  // Exactly what an entry holds after any history: the device that was there and was not
  // removed, or the one inserted last after a removal.
  lemma {:induction false} EntryHistory(s: State, events: seq<Event>, id: string, d: CallId)
    requires Legal(s, events)
    ensures Holds(After(s, events), id, d) <==>
            (Holds(s, id, d) && NotRemoved(s, events, id)) || Brings(s, events, id, d)
    decreases |events|
  {
    if events != [] {
      EntryStep(s, events[0], id, d);
      EntryHistory(Apply(s, events[0]), events[1..], id, d);
    }
  }

  lemma EntryStep(s: State, e: Event, id: string, d: CallId)
    requires Enabled(s, e)
    ensures Holds(Apply(s, e), id, d) <==> (Holds(s, id, d) && !Removes(s, e, id)) || Inserts(s, e, id, d)
  {}

  lemma {:induction false} InitialisedHistory(s: State, events: seq<Event>, d: CallId)
    requires Legal(s, events)
    ensures d in After(s, events).initialised <==> d in s.initialised || InitSucceeds(d) in events
    decreases |events|
  {
    if events != [] {
      InitialisedHistory(Apply(s, events[0]), events[1..], d);
      assert events == [events[0]] + events[1..];
    }
  }

  ghost predicate PastInsertion(s: State, c: CallId) {
    c in s.past || (c in s.calls && s.calls[c].stage != Entered)
  }

  // From its insertion on, the entry of a call is its own exactly as long as no step
  // removes it, in every interleaving.
  lemma OwnEntryUnlessRemoved(before: seq<Event>, c: CallId, later: seq<Event>)
    requires Legal(Init, before)
    requires var s := After(Init, before);
             At(s, c, Entered) && s.calls[c].id !in s.instances && Legal(Apply(s, Insert(c)), later)
    ensures var s := After(Init, before);
            var inserted := Apply(s, Insert(c));
            Holds(After(inserted, later), s.calls[c].id, c) <==> NotRemoved(inserted, later, s.calls[c].id)
  {
    var s := After(Init, before);
    var id, inserted := s.calls[c].id, Apply(s, Insert(c));
    RunKeepsAccounted(Init, before);
    StepKeepsThreads(s, Insert(c));
    EntryHistory(inserted, later, id, c);
    InsertsOnce(inserted, later, id, c);
  }

  lemma {:induction false} InsertsOnce(s: State, events: seq<Event>, id: string, c: CallId)
    requires Legal(s, events) && PastInsertion(s, c) && ThreadsCounted(s)
    ensures !Brings(s, events, id, c)
    decreases |events|
  {
    if events != [] {
      StepKeepsThreads(s, events[0]);
      StaysPastInsertion(s, events[0], c);
      InsertsOnce(Apply(s, events[0]), events[1..], id, c);
    }
  }

  lemma StaysPastInsertion(s: State, e: Event, c: CallId)
    requires Enabled(s, e) && PastInsertion(s, c) && ThreadsCounted(s)
    ensures PastInsertion(Apply(s, e), c) && e != Insert(c)
  {}

  // The entry that call c assigns its strand to, after `events`: its own if that was not
  // removed since c inserted it, or else that of a later start which followed a removal
  // and has succeeded to initialise its device.
  ghost predicate StrandJustified(events: seq<Event>, c: CallId)
    requires Legal(Init, events) && At(After(Init, events), c, Initialised)
  {
    var id := After(Init, events).calls[c].id;
    || Brings(Init, events, id, c)
    || exists d :: d != c && Brings(Init, events, id, d) && InitSucceeds(d) in events
  }

  // After any history, also after strands went wrong before: exactly when a strand goes to
  // a non-null, initialised device.
  lemma StrandFindsDevice(events: seq<Event>, c: CallId)
    requires Legal(Init, events) && At(After(Init, events), c, Initialised)
    ensures var s := After(Init, events);
            && Apply(s, GiveStrand(c)).instances[s.calls[c].id].strand
            && (HoldsInitialised(Apply(s, GiveStrand(c)), s.calls[c].id) <==> StrandJustified(events, c))
  {
    var s := After(Init, events);
    var id := s.calls[c].id;
    RunKeepsInitialisedKnown(Init, events);
    assert c in s.initialised;
    InitialisedHistory(Init, events, c);
    forall d
      ensures Holds(s, id, d) <==> Brings(Init, events, id, d)
      ensures d in s.initialised <==> InitSucceeds(d) in events
    {
      EntryHistory(Init, events, id, d);
      InitialisedHistory(Init, events, d);
    }
  }

  // In any history, disturbed or not, entries with a strand always hold non-null and
  // initialised devices exactly if every strand is justified when it is assigned.
  lemma StrandsSoundExactlyIfJustified(events: seq<Event>)
    requires Legal(Init, events)
    ensures AlwaysSound(Init, events) <==> forall n :: 0 <= n < |events| ==> StepJustified(events, n)
  {
    RunKeepsStrandsSound(Init, events);
    AllStrandsFitByIndex(Init, events);
    forall n | 0 <= n < |events|
      ensures StepFits(Init, events, n) <==> StepJustified(events, n)
    {
      LegalPrefix(Init, events, n);
      if events[n].GiveStrand? {
        StrandFindsDevice(events[..n], events[n].call);
      }
    }
  }

  ghost predicate StepFits(s: State, events: seq<Event>, n: nat)
    requires Legal(s, events) && n < |events|
  {
    LegalPrefix(s, events, n);
    StrandFits(After(s, events[..n]), events[n])
  }

  ghost predicate StepJustified(events: seq<Event>, n: nat)
    requires Legal(Init, events) && n < |events|
  {
    LegalPrefix(Init, events, n);
    events[n].GiveStrand? ==> StrandJustified(events[..n], events[n].call)
  }

  lemma {:induction false} LegalPrefix(s: State, events: seq<Event>, n: nat)
    requires Legal(s, events) && n < |events|
    ensures Legal(s, events[..n]) && Enabled(After(s, events[..n]), events[n])
    decreases n
  {
    if n > 0 {
      assert events[..n][1..] == events[1..][..n - 1];
      LegalPrefix(Apply(s, events[0]), events[1..], n - 1);
    }
  }

  lemma {:induction false} AllStrandsFitByIndex(s: State, events: seq<Event>)
    requires Legal(s, events)
    ensures AllStrandsFit(s, events) <==> forall n :: 0 <= n < |events| ==> StepFits(s, events, n)
    decreases |events|
  {
    if events != [] {
      var next, rest := Apply(s, events[0]), events[1..];
      AllStrandsFitByIndex(next, rest);
      forall n | 0 < n < |events|
        ensures StepFits(s, events, n) <==> StepFits(next, rest, n - 1)
      {
        StepFitsShifts(s, events, n);
      }
      assert StepFits(s, events, 0) <==> StrandFits(s, events[0]);
      if forall n :: 0 <= n < |events| ==> StepFits(s, events, n) {
        forall n | 0 <= n < |rest|
          ensures StepFits(next, rest, n)
        {
          assert StepFits(s, events, n + 1);
        }
      }
    }
  }

  lemma StepFitsShifts(s: State, events: seq<Event>, n: nat)
    requires Legal(s, events) && 0 < n < |events|
    ensures StepFits(s, events, n) <==> StepFits(Apply(s, events[0]), events[1..], n - 1)
  {
    LegalPrefix(s, events, n);
    assert events[..n][0] == events[0] && events[..n][1..] == events[1..][..n - 1];
  }

  lemma {:induction false} RunKeepsInitialisedKnown(s: State, events: seq<Event>)
    requires InitialisedKnown(s) && Legal(s, events)
    ensures InitialisedKnown(After(s, events))
    decreases |events|
  {
    if events != [] {
      StepKeepsInitialisedKnown(s, events[0]);
      RunKeepsInitialisedKnown(Apply(s, events[0]), events[1..]);
    }
  }

  // ----- histories for what does not hold -----

  const Removal: seq<Event> := [Enter(0, "d"), Insert(0), Gone("d")]

  // A device removed during its own initialisation, which it may end without failing
  const Removed: State := Init.(calls := map[0 := Call("d", Inserted)], threads := 1)

  lemma RemovedWhileStarting()
    ensures Legal(Init, Removal) && After(Init, Removal) == Removed && !AllUndisturbed(Init, Removal)
  {
    var s1 := Apply(Init, Removal[0]);
    var s2 := Apply(s1, Removal[1]);
    assert Owns(s2, 0, "d");
    assert Apply(s2, Removal[2]).instances == map[];
    RunFrom(s2, Removal[2], []);
    RunFrom(s1, Removal[1], [Removal[2]]);
    RunFrom(Init, Removal[0], Removal[1..]);
  }

  // It leaves an entry with a strand and a null device behind.
  lemma RemovalDuringInitialisationLeavesNull()
    ensures var events := Removal + [InitSucceeds(0), GiveStrand(0)];
            && Legal(Init, events)
            && !AllUndisturbed(Init, events)
            && "d" in After(Init, events).instances
            && After(Init, events).instances["d"] == Entry(None, true)
  {
    RemovedWhileStarting();
    var rest := [InitSucceeds(0), GiveStrand(0)];
    RunFrom(Apply(Removed, rest[0]), rest[1], []);
    RunFrom(Removed, rest[0], [rest[1]]);
    RunsCompose(Init, Removal, rest);
  }

  const Restart: seq<Event> := [Enter(1, "d"), Insert(1)]

  const Restarted: State :=
    Removed.(instances := map["d" := Entry(Some(1), false)],
             calls := map[0 := Call("d", Inserted), 1 := Call("d", Inserted)], threads := 2)

  lemma RestartedMeanwhile()
    ensures Legal(Removed, Restart) && After(Removed, Restart) == Restarted
  {
    var s1 := Apply(Removed, Restart[0]);
    RunFrom(s1, Restart[1], []);
    RunFrom(Removed, Restart[0], [Restart[1]]);
  }

  // If a second start follows such a removal, the first one gives its strand to the second
  // device although that is still initialising itself.
  lemma StrandForUninitialisedDevice()
    ensures var events := Removal + (Restart + [InitSucceeds(0), GiveStrand(0)]);
            && Legal(Init, events)
            && "d" in After(Init, events).instances
            && After(Init, events).instances["d"] == Entry(Some(1), true)
            && At(After(Init, events), 1, Inserted) && 1 !in After(Init, events).initialised
  {
    RemovedWhileStarting();
    RestartedMeanwhile();
    var rest := [InitSucceeds(0), GiveStrand(0)];
    RunFrom(Apply(Restarted, rest[0]), rest[1], []);
    RunFrom(Restarted, rest[0], [rest[1]]);
    RunsCompose(Removed, Restart, rest);
    RunsCompose(Init, Removal, Restart + rest);
  }

  // A device whose creation fails without any text is reported as started.
  lemma SilentFailureIsReportedAsStarted()
    ensures var events := [Enter(0, "d"), CreateFails(0, StdException("")), Answer(0)];
            && Legal(Init, events)
            && After(Init, events).replies == [Reply(0, true)]
            && After(Init, events).instances == map[]
  {
    var e := [Enter(0, "d"), CreateFails(0, StdException("")), Answer(0)];
    var s1 := Apply(Init, e[0]);
    RunFrom(Apply(s1, e[1]), e[2], []);
    RunFrom(s1, e[1], [e[2]]);
    RunFrom(Init, e[0], e[1..]);
  }

  lemma {:induction false} RunsCompose(s: State, first: seq<Event>, second: seq<Event>)
    requires Legal(s, first) && Legal(After(s, first), second)
    ensures Legal(s, first + second) && After(s, first + second) == After(After(s, first), second)
    ensures AllUndisturbed(s, first + second) ==> AllUndisturbed(s, first)
    decreases |first|
  {
    if first == [] {
      assert first + second == second;
    } else {
      assert (first + second)[1..] == first[1..] + second;
      RunsCompose(Apply(s, first[0]), first[1..], second);
    }
  }

  lemma RunFrom(s: State, e: Event, rest: seq<Event>)
    requires Enabled(s, e) && Legal(Apply(s, e), rest)
    ensures var all := [e] + rest;
            && Legal(s, all)
            && After(s, all) == After(Apply(s, e), rest)
            && (AllUndisturbed(s, all) <==> Undisturbed(s, e) && AllUndisturbed(Apply(s, e), rest))
  {
    assert ([e] + rest)[1..] == rest;
  }
}
