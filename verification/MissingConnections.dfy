// The list of missing connections of an input channel, kept up to date by the status
// events of its connections.

module MissingConnections {

  datatype ConnectionStatus = DISCONNECTED | CONNECTING | CONNECTED | DISCONNECTING

  datatype StatusEvent = StatusEvent(output: string, status: ConnectionStatus) {
    predicate Transient() {
      status == CONNECTING || status == DISCONNECTING
    }
  }

  // std::find
  function IndexOf(v: seq<string>, x: string): (i: nat)
    ensures i <= |v|
    ensures i < |v| ==> v[i] == x
    ensures forall j :: 0 <= j < i ==> v[j] != x
  {
    if v == [] || v[0] == x then 0 else 1 + IndexOf(v[1..], x)
  }

  // setVectorUpdate with a single item: addIfNotIn and removeOne
  function AddIfNotIn(v: seq<string>, x: string): seq<string> {
    if IndexOf(v, x) == |v| then v + [x] else v
  }

  function RemoveOne(v: seq<string>, x: string): seq<string> {
    var i := IndexOf(v, x);
    if i < |v| then v[..i] + v[i + 1..] else v
  }

  function Tracked(missing: seq<string>, e: StatusEvent): seq<string> {
    if e.Transient() then missing
    else if e.status == DISCONNECTED then AddIfNotIn(missing, e.output)
    else RemoveOne(missing, e.output)
  }

  class InputChannelStatus {
    var missing: seq<string>

    // prepareInputChannel: all configured connections count as missing at first
    constructor (configured: seq<string>)
      ensures missing == configured
    {
      missing := configured;
    }

    method TrackConnection(e: StatusEvent)
      modifies this
      ensures missing == Tracked(old(missing), e)
      // Added at the end, or removed at the first place; transient events are ignored.
      ensures e.status == CONNECTING || e.status == DISCONNECTING ==> missing == old(missing)
      ensures e.status == DISCONNECTED ==>
                missing == if e.output in old(missing) then old(missing) else old(missing) + [e.output]
      ensures e.status == CONNECTED ==>
                if e.output in old(missing) then
                  exists i :: 0 <= i < |old(missing)| && old(missing)[i] == e.output && e.output !in old(missing)[..i]
                              && missing == old(missing)[..i] + old(missing)[i + 1..]
                else missing == old(missing)
    {
      if e.Transient() {
        return;
      }
      if e.status == DISCONNECTED {
        missing := AddIfNotIn(missing, e.output);
      } else {
        missing := RemoveOne(missing, e.output);
      }
    }
  }

  ghost function After(missing: seq<string>, events: seq<StatusEvent>): seq<string> {
    if events == [] then missing
    else Tracked(After(missing, events[..|events| - 1]), events[|events| - 1])
  }

  ghost predicate Distinct(v: seq<string>) {
    forall i, j :: 0 <= i < j < |v| ==> v[i] != v[j]
  }

  // Whether a connection should be reported: by its last event that says it is connected
  // or not, and as configured before the first one
  ghost predicate IsMissing(configured: seq<string>, events: seq<StatusEvent>, x: string) {
    if events == [] then x in configured
    else
      var last := events[|events| - 1];
      if last == StatusEvent(x, DISCONNECTED) then true
      else if last == StatusEvent(x, CONNECTED) then false
      else IsMissing(configured, events[..|events| - 1], x)
  }

  lemma RemoveOneFromDistinct(v: seq<string>, x: string)
    requires Distinct(v)
    ensures Distinct(RemoveOne(v, x))
    ensures forall y :: y in RemoveOne(v, x) <==> y in v && y != x
  {
    var i := IndexOf(v, x);
    if i < |v| {
      var r := RemoveOne(v, x);
      assert r == v[..i] + v[i + 1..];
      forall y
        ensures y in r <==> y in v && y != x
      {
        if y in v && y != x {
          var k :| 0 <= k < |v| && v[k] == y;
          assert if k < i then r[k] == y else r[k - 1] == y;
        }
      }
    }
  }

  // From a list without duplicates, the list stays without duplicates and tells exactly
  // the connections that are missing, over any sequence of events for any channels.
  lemma {:induction false} ListIsExact(configured: seq<string>, events: seq<StatusEvent>)
    requires Distinct(configured)
    ensures Distinct(After(configured, events))
    ensures forall x :: x in After(configured, events) <==> IsMissing(configured, events, x)
    decreases |events|
  {
    if events != [] {
      var n := |events| - 1;
      ListIsExact(configured, events[..n]);
      RemoveOneFromDistinct(After(configured, events[..n]), events[n].output);
    }
  }

  // What one first event that is not transient does
  lemma OneEvent(configured: seq<string>, x: string)
    ensures var events := [StatusEvent(x, CONNECTED)];
            After(configured, events) == RemoveOne(configured, x) && !IsMissing(configured, events, x)
  {
    var events := [StatusEvent(x, CONNECTED)];
    assert events[..0] == [];
  }

  lemma RemoveOneOfTwo(v: seq<string>, i: nat, j: nat)
    requires i < j < |v| && v[i] == v[j]
    ensures v[i] in RemoveOne(v, v[i])
  {
    var k := IndexOf(v, v[i]);
    assert k <= i;
    assert RemoveOne(v, v[i])[j - 1] == v[j];
  }

  // With a duplicate in the configuration, a single event already makes the list wrong.
  lemma DuplicateStaysMissing(configured: seq<string>) returns (x: string)
    requires !Distinct(configured)
    ensures var events := [StatusEvent(x, CONNECTED)];
            x in After(configured, events) && !IsMissing(configured, events, x)
  {
    var i, j :| 0 <= i < j < |configured| && configured[i] == configured[j];
    x := configured[i];
    OneEvent(configured, x);
    RemoveOneOfTwo(configured, i, j);
  }

  // So exactly the configurations without duplicates are tracked correctly.
  lemma ExactIffDistinct(configured: seq<string>)
    ensures Distinct(configured)
            <==> forall events: seq<StatusEvent>, x ::
                   x in After(configured, events) <==> IsMissing(configured, events, x)
  {
    if Distinct(configured) {
      forall events: seq<StatusEvent>, x
        ensures x in After(configured, events) <==> IsMissing(configured, events, x)
      {
        ListIsExact(configured, events);
      }
    } else {
      var x := DuplicateStaysMissing(configured);
    }
  }
}
