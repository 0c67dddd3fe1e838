/** Suppression of repeated metric alerts: MetricAlertTracker of src/alert/rules.rs. */
module Alerts {
  import opened Basics

  datatype Severity = Warning | Critical

  /** An alert of a poll; `detail` stands for everything that does not take part in the comparison. */
  datatype Event = Event(interfaceId: Option<int>, kind: string, severity: Severity, detail: string)

  datatype Key = Key(device: int, interfaceId: Option<int>, kind: string)

  datatype Poll = Poll(device: int, events: seq<Event>)

  type Active = map<Key, Severity>

  function KeyOf(device: int, e: Event): Key { Key(device, e.interfaceId, e.kind) }

  function Lookup(active: Active, key: Key): Option<Severity> { if key in active then Some(active[key]) else None }

  // ----- one poll -----

  /** The events whose severity is not the recorded one, in order. */
  function Changed(active: Active, poll: Poll): seq<Event>
    decreases |poll.events|
  {
    if poll.events == [] then []
    else
      var n := |poll.events| - 1;
      var e := poll.events[n];
      Changed(active, Poll(poll.device, poll.events[..n]))
      + if Lookup(active, KeyOf(poll.device, e)) != Some(e.severity) then [e] else []
  }

  /** The severity of the last event with this key. */
  function Recorded(poll: Poll, key: Key): Option<Severity>
    decreases |poll.events|
  {
    if poll.events == [] then None
    else
      var n := |poll.events| - 1;
      if KeyOf(poll.device, poll.events[n]) == key then Some(poll.events[n].severity)
      else Recorded(Poll(poll.device, poll.events[..n]), key)
  }

  /** What a poll leaves: its own records for its device, and everything about other devices. */
  ghost predicate Left(active: Active, poll: Poll, active': Active) {
    forall key: Key :: Lookup(active', key) == if key.device
      == poll.device then Recorded(poll, key) else Lookup(active, key)
  }

  class MetricAlertTracker {
    var active: Active

    constructor ()
      ensures active == map[]
    {
      active := map[];
    }

    method Transitions(poll: Poll) returns (changed: seq<Event>)
      modifies this
      ensures changed == Changed(old(active), poll)
      ensures Left(old(active), poll, active)
    {
      var next: Active := map[];
      changed := [];
      for i := 0 to |poll.events|
        invariant changed == Changed(active, Poll(poll.device, poll.events[..i]))
        invariant forall key: Key :: Lookup(next, key) == Recorded(Poll(poll.device, poll.events[..i]), key)
      {
        var event := poll.events[i];
        var key := KeyOf(poll.device, event);
        assert poll.events[..i + 1][..i] == poll.events[..i];
        if Lookup(active, key) != Some(event.severity) { changed := changed + [event]; }
        next := next[key := event.severity];
      }
      assert poll.events[..|poll.events|] == poll.events;
      forall key | key in next ensures key.device == poll.device { RecordedOwn(poll, key); }
      active := map key | key in active && key.device != poll.device :: active[key];
      active := active + next;
    }
  }

  /** A poll records nothing about other devices. */
  lemma {:induction false} RecordedOwn(poll: Poll, key: Key)
    requires Recorded(poll, key).Some?
    ensures key.device == poll.device
    decreases |poll.events|
  {
    var n := |poll.events| - 1;
    if KeyOf(poll.device, poll.events[n]) != key { RecordedOwn(Poll(poll.device, poll.events[..n]), key); }
  }

  /** The last event of a poll about this interface with this kind. */
  predicate IsLastFor(poll: Poll, interfaceId: Option<int>, kind: string, i: nat) {
    && i < |poll.events| && poll.events[i].interfaceId == interfaceId && poll.events[i].kind == kind
    && forall j :: i < j < |poll.events| ==> poll.events[j].interfaceId != interfaceId || poll.events[j].kind != kind
  }

  /** A record holds the severity of the last event of its own interface and kind; events of others never share it. */
  lemma {:induction false} RecordedExactly(poll: Poll, key: Key, severity: Severity)
    ensures Recorded(poll, key) == Some(severity)
       <==> key.device == poll.device
            && exists i: nat :: IsLastFor(poll, key.interfaceId, key.kind, i) && poll.events[i].severity == severity
    decreases |poll.events|
  {
    if poll.events != [] {
      var n := |poll.events| - 1;
      var init := Poll(poll.device, poll.events[..n]);
      RecordedExactly(init, key, severity);
      if KeyOf(poll.device, poll.events[n]) == key {
        assert IsLastFor(poll, key.interfaceId, key.kind, n);
      } else if key.device == poll.device {
        forall i: nat | i < n
          ensures IsLastFor(poll, key.interfaceId, key.kind, i) <==> IsLastFor(init, key.interfaceId, key.kind, i)
        {
          assert init.events[i] == poll.events[i];
        }
      }
    }
  }

  // ----- runs -----

  /** The alerts of every poll of a run, starting from no records; `states[n]` are the records before the n-th poll. */
  ghost predicate IsRun(polls: seq<Poll>, states: seq<Active>) {
    && |states| == |polls| + 1
    && states[0] == map[]
    && forall n :: 0 <= n < |polls| ==> Left(states[n], polls[n], states[n + 1])
  }

  /** The device's latest poll among the first n. */
  function LatestPoll(polls: seq<Poll>, n: nat, device: int): (m: Option<nat>)
    requires n <= |polls|
    ensures m.Some? ==> m.value < n && polls[m.value].device == device
    ensures forall k :: (if m.Some? then m.value + 1 else 0) <= k < n ==> polls[k].device != device
  {
    if n == 0 then None
    else if polls[n - 1].device == device then Some(n - 1) else LatestPoll(polls, n - 1, device)
  }

  /** What the device's previous poll recorded for the key. */
  function Previous(polls: seq<Poll>, n: nat, key: Key): Option<Severity>
    requires n <= |polls|
  {
    match LatestPoll(polls, n, key.device) case None => None case Some(m) => Recorded(polls[m], key)
  }

  lemma {:induction false} StateIsPrevious(polls: seq<Poll>, states: seq<Active>, n: nat, key: Key)
    requires IsRun(polls, states) && n <= |polls|
    ensures Lookup(states[n], key) == Previous(polls, n, key)
  {
    if n > 0 {
      StateIsPrevious(polls, states, n - 1, key);
      assert Left(states[n - 1], polls[n - 1], states[n]);
    }
  }

  /** The event differs from what its device's previous poll recorded; absence counts as different. */
  predicate IsNews(polls: seq<Poll>, n: nat, e: Event)
    requires n < |polls|
  {
    Previous(polls, n, KeyOf(polls[n].device, e)) != Some(e.severity)
  }

  /** The events of poll n that are news, among the first `count`. */
  function News(polls: seq<Poll>, n: nat, count: nat): seq<Event>
    requires n < |polls| && count <= |polls[n].events|
  {
    if count == 0 then []
    else
      var e := polls[n].events[count - 1];
      News(polls, n, count - 1) + if IsNews(polls, n, e) then [e] else []
  }

  /** In any interleaved run, each poll emits exactly its news, in order. */
  lemma EmittedIsNews(polls: seq<Poll>, states: seq<Active>, n: nat)
    requires IsRun(polls, states) && n < |polls|
    ensures Changed(states[n], polls[n]) == News(polls, n, |polls[n].events|)
  {
    EmittedPrefix(polls, states, n, |polls[n].events|);
    assert polls[n].events[..|polls[n].events|] == polls[n].events;
  }

  lemma {:induction false} EmittedPrefix(polls: seq<Poll>, states: seq<Active>, n: nat, count: nat)
    requires IsRun(polls, states) && n < |polls| && count <= |polls[n].events|
    ensures Changed(states[n], Poll(polls[n].device, polls[n].events[..count])) == News(polls, n, count)
    decreases count
  {
    if count > 0 {
      hide IsRun;
      EmittedPrefix(polls, states, n, count - 1);
      assert polls[n].events[..count][..count - 1] == polls[n].events[..count - 1];
      StateIsPrevious(polls, states, n, KeyOf(polls[n].device, polls[n].events[count - 1]));
    }
  }

  /** So an event is emitted if and only if it is news. */
  lemma {:induction false} NewsExactly(polls: seq<Poll>, n: nat, count: nat, e: Event)
    requires n < |polls| && count <= |polls[n].events|
    ensures e in News(polls, n, count) <==> e in polls[n].events[..count] && IsNews(polls, n, e)
  {
    if count > 0 {
      hide IsNews;
      NewsExactly(polls, n, count - 1, e);
      assert polls[n].events[..count] == polls[n].events[..count - 1] + [polls[n].events[count - 1]];
    }
  }

  // ----- other devices -----

  /** The polls of one device. */
  function Only(polls: seq<Poll>, device: int): seq<Poll> {
    if polls == [] then []
    else
      var n := |polls| - 1;
      Only(polls[..n], device) + if polls[n].device == device then [polls[n]] else []
  }

  /** The last of the device's polls, whichever way they are interleaved with others. */
  lemma {:induction false} LatestOfOnly(polls: seq<Poll>, device: int)
    ensures LatestPoll(polls, |polls|, device).None? <==> Only(polls, device) == []
    ensures LatestPoll(polls, |polls|, device).Some? ==>
              Only(polls, device)[|Only(polls, device)| - 1] == polls[LatestPoll(polls, |polls|, device).value]
    ensures forall i :: 0 <= i < |Only(polls, device)| ==> Only(polls, device)[i].device == device
  {
    if polls != [] {
      var n := |polls| - 1;
      LatestOfOnly(polls[..n], device);
      if polls[n].device != device { LatestPrefix(polls, n, n, device); }
    }
  }

  lemma {:induction false} LatestPrefix(polls: seq<Poll>, k: nat, n: nat, device: int)
    requires k <= n <= |polls|
    ensures LatestPoll(polls[..n], k, device) == LatestPoll(polls, k, device)
  {
    if k > 0 { LatestPrefix(polls, k - 1, n, device); }
  }

  /** What was recorded for a device is what its own polls alone would have recorded. */
  lemma PreviousIsOwn(polls: seq<Poll>, key: Key)
    ensures Previous(polls, |polls|, key) == Previous(Only(polls, key.device), |Only(polls, key.device)|, key)
  {
    LatestOfOnly(polls, key.device);
    var own := Only(polls, key.device);
    if own != [] { assert LatestPoll(own, |own|, key.device) == Some(|own| - 1); }
  }

  /** A device's next poll emits the same alerts in an interleaved run as after its own polls alone. */
  lemma OtherDevicesDoNotMatter(polls: seq<Poll>, states: seq<Active>, states': seq<Active>, poll: Poll)
    requires IsRun(polls, states) && IsRun(Only(polls, poll.device), states')
    ensures Changed(states[|polls|], poll) == Changed(states'[|Only(polls, poll.device)|], poll)
    decreases |poll.events|
  {
    var own := Only(polls, poll.device);
    forall e: Event
      ensures Lookup(states[|polls|], KeyOf(poll.device, e)) == Lookup(states'[|own|], KeyOf(poll.device, e))
    {
      var key := KeyOf(poll.device, e);
      StateIsPrevious(polls, states, |polls|, key);
      StateIsPrevious(own, states', |own|, key);
      PreviousIsOwn(polls, key);
    }
    SameRecordsSameChanges(states[|polls|], states'[|own|], poll);
  }

  lemma {:induction false} SameRecordsSameChanges(active: Active, active': Active, poll: Poll)
    requires forall e: Event :: Lookup(active, KeyOf(poll.device, e)) == Lookup(active', KeyOf(poll.device, e))
    ensures Changed(active, poll) == Changed(active', poll)
    decreases |poll.events|
  {
    if poll.events != [] {
      SameRecordsSameChanges(active, active', Poll(poll.device, poll.events[..|poll.events| - 1]));
    }
  }
}
