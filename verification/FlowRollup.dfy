/**
 * The roll-up thread and the listeners around the live ring, in every interleaving of their critical
 * sections (rollup_ring_once and run_listener in src/flow.rs).
 */
module FlowRollup {
  import opened Basics
  import opened FlowRing
  import opened FlowAggregate

  /**
   * `history` is everything ever pushed; the ring is `history[start..]`. The roll-up thread has read the
   * clock but not yet taken the lock when `cut` is set. `late` and `dropped` are the records it can no
   * longer collect: those stamped no later than the watermark when they were pushed, and those evicted first.
   */
  datatype State = State(
    history: seq<Entry>, start: nat, time: nat, watermark: nat, cut: Option<nat>,
    delivered: seq<nat>, batches: seq<seq<Flow>>, late: set<nat>, dropped: set<nat>)

  function Initial(now: nat): State { State([], 0, now, now, None, [], [], {}, {}) }

  datatype Event =
    | Push(now: nat, flow: Flow, size: nat)  // a listener: lock, read the clock, insert, evict
    | ReadClock(now: nat)                    // the roll-up thread: read the clock
    | Collect                                // the roll-up thread: lock, filter, move the watermark

  /** The ring positions from `i` on with a time stamp after `low` and up to `high`. */
  function Picked(history: seq<Entry>, i: nat, low: nat, high: nat): seq<nat>
    decreases |history| - i
  {
    if i >= |history| then []
    else (if low < history[i].at <= high then [i] else []) + Picked(history, i + 1, low, high)
  }

  function FlowsAt(history: seq<Entry>, picked: seq<nat>): seq<Flow>
    requires forall i :: i in picked ==> i < |history|
  {
    seq(|picked|, n requires 0 <= n < |picked| => assert picked[n] in picked; history[picked[n]].flow)
  }

  predicate Enabled(s: State, e: Event) {
    match e
    case Push(now, _, _) => s.time <= now
    case ReadClock(now) => s.cut.None? && s.time <= now
    case Collect => s.cut.Some?
  }

  function Apply(s: State, e: Event): State
    requires Enabled(s, e)
  {
    match e
    case Push(now, flow, size) =>
      var history := s.history + [Entry(now, flow, size)];
      var start := |history| - |Window(history, now)|;
      var late := if now <= s.watermark then {|s.history|} else {};
      s.(history := history, start := start, time := now, late := s.late + late,
         dropped := s.dropped + (set i: nat | s.start <= i < start && i < |history| && s.watermark < history[i].at))
    case ReadClock(now) => s.(cut := Some(now), time := now)
    case Collect =>
      var picked := Picked(s.history, s.start, s.watermark, s.cut.value);
      PickedInRange(s.history, s.start, s.watermark, s.cut.value);
      s.(watermark := s.cut.value, cut := None, delivered := s.delivered + picked,
         batches := s.batches + (if picked == [] then [] else [FlowsAt(s.history, picked)]))
  }

  predicate Legal(s: State, events: seq<Event>)
    decreases |events|
  {
    events == [] || (Enabled(s, events[0]) && Legal(Apply(s, events[0]), events[1..]))
  }

  function Run(s: State, events: seq<Event>): State
    requires Legal(s, events)
    decreases |events|
  {
    if events == [] then s else Run(Apply(s, events[0]), events[1..])
  }

  lemma {:induction false} PickedInRange(history: seq<Entry>, i: nat, low: nat, high: nat)
    ensures forall n :: n in Picked(history, i, low, high) <==> i <= n < |history| && low < history[n].at <= high
    decreases |history| - i
  {
    if i < |history| { PickedInRange(history, i + 1, low, high); }
  }

  predicate Distinct(s: seq<nat>) { forall i, j :: 0 <= i < j < |s| ==> s[i] != s[j] }

  lemma {:induction false} PickedDistinct(history: seq<Entry>, i: nat, low: nat, high: nat)
    ensures Distinct(Picked(history, i, low, high))
    decreases |history| - i
  {
    if i < |history| {
      PickedDistinct(history, i + 1, low, high);
      PickedInRange(history, i + 1, low, high);
      var more := Picked(history, i + 1, low, high);
      assert forall n :: 0 <= n < |more| ==> more[n] in more;
    }
  }

  // ----- invariant -----

  /** A record the roll-up thread will still find. */
  predicate Pending(s: State, i: nat) { s.start <= i < |s.history| && s.watermark < s.history[i].at }

  /** Each record is delivered, late, dropped or pending, and only one of these. */
  predicate Sorted(s: State, i: nat) {
    && (i in s.delivered <==> !(i in s.late) && !(i in s.dropped) && !Pending(s, i))
    && !(i in s.late && i in s.dropped) && !(i in s.late && Pending(s, i)) && !(i in s.dropped && Pending(s, i))
  }

  predicate TimesInOrder(s: State) {
    && s.watermark <= s.time && (s.cut.Some? ==> s.watermark <= s.cut.value <= s.time)
    && Chronological(s.history) && forall i :: 0 <= i < |s.history| ==> s.history[i].at <= s.time
  }

  /** The ring is the window that the last push left. */
  ghost predicate RingIsWindow(s: State) {
    && s.start <= |s.history|
    && exists before: nat :: before <= s.time && s.start == |s.history| - |Window(s.history, before)|
  }

  ghost predicate AccountsInRange(s: State) {
    && Distinct(s.delivered)
    && (forall i :: i in s.delivered || i in s.late ==> i < |s.history| && s.history[i].at <= s.watermark)
    && (forall i :: i in s.dropped ==> i < s.start)
  }

  ghost predicate Inv(s: State) {
    TimesInOrder(s) && RingIsWindow(s) && AccountsInRange(s) && forall i: nat :: i < |s.history| ==> Sorted(s, i)
  }

  lemma WindowMoves(history: seq<Entry>, e: Entry, before: nat, now: nat)
    requires before <= now
    ensures |history| - |Window(history, before)| <= |history| + 1 - |Window(history + [e], now)|
  {
    WindowSuffices(history, e, before, now);
  }

  lemma PushSorts(s: State, e: Event, i: nat)
    requires Inv(s) && e.Push? && Enabled(s, e) && i <= |s.history| && s.start <= Apply(s, e).start
    ensures Sorted(Apply(s, e), i)
  {
    PushShape(s, e, i);
    if i < |s.history| {
      assert Sorted(s, i) by { InvSorts(s, i); }
    } else {
      InvAccounts(s, i);
    }
    hide Apply; hide Inv; hide Window;
  }

  /** What a push does to the accounts of one record. */
  lemma PushShape(s: State, e: Event, i: nat)
    requires e.Push? && Enabled(s, e) && i <= |s.history|
    ensures var s' := Apply(s, e);
            && i < |s'.history| && s'.watermark == s.watermark && s'.delivered == s.delivered
            && s'.history[i].at == (if i < |s.history| then s.history[i].at else e.now)
            && (i in s'.late <==> i in s.late || (i == |s.history| && e.now <= s.watermark))
            && (i in s'.dropped <==> i in s.dropped || (s.start <= i < s'.start && s.watermark < s'.history[i].at))
  {
    hide Window;
  }

  lemma PushKeepsInv(s: State, now: nat, flow: Flow, size: nat)
    requires Inv(s) && s.time <= now
    ensures Inv(Apply(s, Push(now, flow, size)))
  {
    hide Window; hide Sorted; hide RingIsWindow; hide AccountsInRange;
    var s' := Apply(s, Push(now, flow, size));
    PushKeepsRing(s, now, flow, size);
    PushKeepsAccounts(s, now, flow, size);
    forall i: nat | i < |s'.history| ensures Sorted(s', i) {
      PushSorts(s, Push(now, flow, size), i);
    }
  }

  lemma PushKeepsRing(s: State, now: nat, flow: Flow, size: nat)
    requires RingIsWindow(s) && s.time <= now
    ensures var s' := Apply(s, Push(now, flow, size)); RingIsWindow(s') && s.start <= s'.start
  {
    hide Window;
    var s' := Apply(s, Push(now, flow, size));
    var before: nat :| before <= s.time && s.start == |s.history| - |Window(s.history, before)|;
    WindowMoves(s.history, Entry(now, flow, size), before, now);
    assert now <= s'.time && s'.start == |s'.history| - |Window(s'.history, now)|;
  }

  lemma PushKeepsAccounts(s: State, now: nat, flow: Flow, size: nat)
    requires AccountsInRange(s) && s.time <= now && s.start <= Apply(s, Push(now, flow, size)).start
    ensures AccountsInRange(Apply(s, Push(now, flow, size)))
  {
    hide Window;
  }

  lemma ReadKeepsInv(s: State, now: nat)
    requires Inv(s) && Enabled(s, ReadClock(now))
    ensures Inv(Apply(s, ReadClock(now)))
  {
    hide Window;
    var s' := Apply(s, ReadClock(now));
    var before: nat :| before <= s.time && s.start == |s.history| - |Window(s.history, before)|;
    assert before <= s'.time && s'.start == |s'.history| - |Window(s'.history, before)|;
    forall i: nat | i < |s.history| ensures Sorted(s', i) { assert Sorted(s, i); }
  }

  lemma CollectKeepsInv(s: State)
    requires Inv(s) && s.cut.Some?
    ensures Inv(Apply(s, Collect))
  {
    hide Window; hide Picked; hide Chronological; hide AccountsInRange; hide Sorted; hide RingIsWindow;
    var s' := Apply(s, Collect);
    PickedInRange(s.history, s.start, s.watermark, s.cut.value);
    CollectKeepsAccounts(s);
    assert RingIsWindow(s') by { RingOnly(s, s'); }
    forall i: nat | i < |s.history| ensures Sorted(s', i) { CollectSorts(s, i); }
  }

  lemma RingOnly(s: State, s': State)
    requires RingIsWindow(s) && s'.history == s.history && s'.start == s.start && s'.time == s.time
    ensures RingIsWindow(s')
  {
    hide Window;
  }

  lemma CollectSorts(s: State, i: nat)
    requires s.cut.Some? && s.watermark <= s.cut.value && i < |s.history| && Sorted(s, i)
    ensures Sorted(Apply(s, Collect), i)
  {
    hide Picked;
    PickedInRange(s.history, s.start, s.watermark, s.cut.value);
  }

  lemma CollectKeepsAccounts(s: State)
    requires AccountsInRange(s) && s.cut.Some? && s.watermark <= s.cut.value
    ensures AccountsInRange(Apply(s, Collect))
  {
    hide Picked;
    var picked := Picked(s.history, s.start, s.watermark, s.cut.value);
    PickedInRange(s.history, s.start, s.watermark, s.cut.value);
    PickedDistinct(s.history, s.start, s.watermark, s.cut.value);
    assert forall n :: 0 <= n < |picked| ==> picked[n] in picked;
    assert forall n :: 0 <= n < |s.delivered| ==> s.delivered[n] in s.delivered;
  }

  lemma StepKeepsInv(s: State, e: Event)
    requires Inv(s) && Enabled(s, e)
    ensures Inv(Apply(s, e))
  {
    hide Inv; hide Apply;
    match e
    case Push(now, flow, size) => PushKeepsInv(s, now, flow, size);
    case ReadClock(now) => ReadKeepsInv(s, now);
    case Collect => CollectKeepsInv(s);
  }

  lemma {:induction false} RunKeepsInv(s: State, events: seq<Event>)
    requires Inv(s) && Legal(s, events)
    ensures Inv(Run(s, events))
    decreases |events|
  {
    hide Inv; hide Apply;
    if events != [] {
      StepKeepsInv(s, events[0]);
      RunKeepsInv(Apply(s, events[0]), events[1..]);
    }
  }

  // ----- main results -----

  /**
   * After a push, the ring starts at the first record from which everything fits the limits; what it loses there, and
   * nothing else, is dropped, as far as the roll-up thread has not yet passed it.
   */
  lemma PushDropsExactly(s: State, now: nat, flow: Flow, size: nat)
    requires Inv(s) && s.time <= now
    ensures var s' := Apply(s, Push(now, flow, size));
            && FitsFrom(s'.history, now, s'.start) && (forall k :: 0 <= k < s'.start ==> !FitsFrom(s'.history, now, k))
            && forall i :: i in s'.dropped - s.dropped <==>
                 s.start <= i < s'.start && s.watermark < s'.history[i].at
  {
    hide Window; hide Bytes; hide Sorted; hide TimesInOrder; hide Distinct;
    WindowIsLongest(Apply(s, Push(now, flow, size)).history, now);
  }

  lemma EmptyWindow(now: nat)
    ensures Window([], now) == []
  {
  }

  lemma InitiallyInv(now: nat)
    ensures Inv(Initial(now))
  {
    hide Window;
    EmptyWindow(now);
    assert now <= Initial(now).time && Initial(now).start == |Initial(now).history| - |Window([], now)|;
  }

  lemma InvSorts(s: State, i: nat)
    requires Inv(s) && i < |s.history|
    ensures Sorted(s, i)
  {
    hide Window; hide Sorted; hide TimesInOrder; hide AccountsInRange; hide RingIsWindow;
  }

  lemma InvDistinct(s: State)
    requires Inv(s)
    ensures Distinct(s.delivered)
  {
    hide Window; hide Sorted; hide TimesInOrder; hide RingIsWindow; hide Distinct;
  }

  /** In every interleaving, no record is delivered twice. */
  lemma AtMostOnce(now: nat, events: seq<Event>)
    requires Legal(Initial(now), events)
    ensures Distinct(Run(Initial(now), events).delivered)
  {
    hide Inv; hide Run; hide Legal; hide Distinct;
    InitiallyInv(now);
    RunKeepsInv(Initial(now), events);
    InvDistinct(Run(Initial(now), events));
  }

  /**
   * In every interleaving, a record that the watermark has passed was delivered exactly if it was
   * neither evicted before its cut nor stamped too late when it was pushed.
   */
  lemma DeliveredExactly(now: nat, events: seq<Event>, i: nat)
    requires Legal(Initial(now), events) && i < |Run(Initial(now), events).history|
    ensures var s := Run(Initial(now), events);
            i in s.delivered <==> s.history[i].at <= s.watermark && i !in s.late && i !in s.dropped
  {
    hide Inv; hide Run; hide Legal; hide Window; hide AccountsInRange;
    InitiallyInv(now);
    RunKeepsInv(Initial(now), events);
    InvSorts(Run(Initial(now), events), i);
    InvAccounts(Run(Initial(now), events), i);
  }

  lemma InvAccounts(s: State, i: nat)
    requires Inv(s)
    ensures i in s.delivered || i in s.late ==> i < |s.history| && s.history[i].at <= s.watermark
    ensures i in s.dropped ==> i < s.start
  {
    hide Window; hide Sorted; hide TimesInOrder; hide RingIsWindow; hide Distinct;
  }

  /** The clock has moved on since the last cut whenever a listener pushes. */
  predicate ClockAdvances(s: State, events: seq<Event>)
    requires Legal(s, events)
    decreases |events|
  {
    events == [] ||
    ((events[0].Push? ==> s.watermark < events[0].now) && ClockAdvances(Apply(s, events[0]), events[1..]))
  }

  /** A record is late exactly when the clock had not moved on from the watermark at its push. */
  lemma {:induction false} LateExactly(s: State, events: seq<Event>)
    requires Legal(s, events) && Inv(s)
    ensures ClockAdvances(s, events) <==> Run(s, events).late == s.late
    ensures s.late <= Run(s, events).late
    decreases |events|
  {
    hide Inv; hide Apply;
    if events != [] {
      StepKeepsInv(s, events[0]);
      LateStep(s, events[0]);
      LateExactly(Apply(s, events[0]), events[1..]);
    }
  }

  lemma LateStep(s: State, e: Event)
    requires Inv(s) && Enabled(s, e)
    ensures var lateNow := e.Push? && e.now <= s.watermark;
            |s.history| !in s.late && Apply(s, e).late == s.late + if lateNow then {|s.history|} else {}
  {
    hide Window; hide Picked;
    NotYetLate(s);
  }

  lemma NotYetLate(s: State)
    requires Inv(s)
    ensures |s.history| !in s.late
  {
    hide Window; hide Sorted; hide TimesInOrder; hide RingIsWindow;
  }

  /** With an advancing clock, what is not evicted in time is delivered exactly once. */
  lemma ExactlyOnce(now: nat, events: seq<Event>, i: nat)
    requires Legal(Initial(now), events) && ClockAdvances(Initial(now), events)
    requires i < |Run(Initial(now), events).history|
    ensures var s := Run(Initial(now), events);
            Distinct(s.delivered) && (i in s.delivered <==> s.history[i].at <= s.watermark && i !in s.dropped)
  {
    hide Inv; hide Run; hide Legal; hide Distinct; hide ClockAdvances;
    InitiallyInv(now);
    LateExactly(Initial(now), events);
    AtMostOnce(now, events);
    DeliveredExactly(now, events, i);
  }

  /** Why the clock must advance: a push in the same instant as the cut, but after it, is never collected. */
  lemma TieLosesRecord(flow: Flow)
    ensures var events := [ReadClock(5), Collect, Push(5, flow, 0), ReadClock(6), Collect];
            Legal(Initial(0), events) && Run(Initial(0), events).delivered == [] && 0 in Run(Initial(0), events).late
  {
    hide Window; hide Picked; hide Run; hide Legal;
    var push := Push(5, flow, 0);
    var s1 := Apply(Initial(0), ReadClock(5));
    var s2 := Apply(s1, Collect);
    var s3 := Apply(s2, push);
    var s4 := Apply(s3, ReadClock(6));
    var s5 := Apply(s4, Collect);
    NothingPicked(s1.history, s1.start, 0, 5);
    NothingPicked(s4.history, s4.start, 5, 6);
    RunNothing(s5);
    assert [Collect] + [] == [Collect];
    RunCons(s4, Collect, []);
    RunCons(s3, ReadClock(6), [Collect]);
    RunCons(s2, push, [ReadClock(6)] + [Collect]);
    RunCons(s1, Collect, [push] + ([ReadClock(6)] + [Collect]));
    RunCons(Initial(0), ReadClock(5), [Collect] + ([push] + ([ReadClock(6)] + [Collect])));
    assert [ReadClock(5), Collect, push, ReadClock(6), Collect]
        == [ReadClock(5)] + ([Collect] + ([push] + ([ReadClock(6)] + [Collect])));
  }

  lemma NothingPicked(history: seq<Entry>, i: nat, low: nat, high: nat)
    requires forall n :: 0 <= n < |history| ==> history[n].at <= low
    ensures Picked(history, i, low, high) == []
    decreases |history| - i
  {
    if i < |history| { NothingPicked(history, i + 1, low, high); }
  }

  lemma RunNothing(s: State)
    ensures Legal(s, []) && Run(s, []) == s
  {
  }

  lemma RunCons(s: State, e: Event, rest: seq<Event>)
    requires Enabled(s, e) && Legal(Apply(s, e), rest)
    ensures Legal(s, [e] + rest) && Run(s, [e] + rest) == Run(Apply(s, e), rest)
  {
    hide Apply;
    assert ([e] + rest)[1..] == rest;
  }

  // ----- what reaches the table -----

  predicate Ledger(s: State) {
    (forall i :: i in s.delivered ==> i < |s.history|) && Flatten(s.batches) == FlowsAt(s.history, s.delivered)
  }

  lemma {:induction false} BatchesHoldDelivered(s: State, events: seq<Event>)
    requires Legal(s, events) && Inv(s) && Ledger(s)
    ensures Ledger(Run(s, events))
    decreases |events|
  {
    hide Inv; hide Apply; hide Ledger;
    if events != [] {
      StepKeepsInv(s, events[0]);
      StepKeepsLedger(s, events[0]);
      BatchesHoldDelivered(Apply(s, events[0]), events[1..]);
    }
  }

  lemma StepKeepsLedger(s: State, e: Event)
    requires Enabled(s, e) && Ledger(s)
    ensures Ledger(Apply(s, e))
  {
    hide Window;
    match e
    case Push(now, flow, size) =>
      var s' := Apply(s, e);
      assert FlowsAt(s'.history, s'.delivered) == FlowsAt(s.history, s.delivered) by {
        assert forall n :: 0 <= n < |s.delivered| ==> s.delivered[n] in s.delivered;
      }
    case ReadClock(_) =>
    case Collect =>
      var picked := Picked(s.history, s.start, s.watermark, s.cut.value);
      PickedInRange(s.history, s.start, s.watermark, s.cut.value);
      var s' := Apply(s, e);
      if picked == [] {
        assert s'.delivered == s.delivered && s'.batches == s.batches;
      } else {
        assert s'.batches[..|s'.batches| - 1] == s.batches;
        assert FlowsAt(s.history, s.delivered + picked) == FlowsAt(s.history, s.delivered) + FlowsAt(s.history, picked);
      }
  }

  /**
   * End to end: after any interleaving, and with any order of the writes within each batch, the table holds per minute
   * and protocol the exact totals of the records handed over, each counted once, if and only if all these totals are
   * signed 64-bit numbers. One row is exact if and only if its total is and each batch that has it got to write it.
   */
  lemma TableHoldsDelivered(now: nat, events: seq<Event>, batches: seq<Batch>)
    requires Legal(Initial(now), events) && AllValid(batches) && FlowsOf(batches) == Run(Initial(now), events).batches
    ensures var s := Run(Initial(now), events);
            Ledger(s) && Distinct(s.delivered)
            && (Represents(AfterBatches(batches), FlowsAt(s.history, s.delivered))
                <==> AllStorable(FlowsAt(s.history, s.delivered)))
    ensures var s, t := Run(Initial(now), events), AfterBatches(batches);
            var flows := FlowsAt(s.history, s.delivered);
            forall k :: k in BucketKeys(flows) ==>
              ((k in t && t[k] == Exactly(Total(flows, k))) <==> Storable(Total(flows, k)) && StoredAlways(batches, k))
  {
    hide Inv; hide Run; hide Legal; hide Represents; hide AfterBatches; hide Total; hide BucketKeys; hide StoredAlways;
    hide Storable; hide AllStorable; hide AllValid;
    InitiallyInv(now);
    assert FlowsAt([], []) == [];
    BatchesHoldDelivered(Initial(now), events);
    AtMostOnce(now, events);
    BatchingIrrelevant(batches);
    forall k | k in BucketKeys(AllFlows(batches))
      ensures (k in AfterBatches(batches) && AfterBatches(batches)[k] == Exactly(Total(AllFlows(batches), k)))
         <==> Storable(Total(AllFlows(batches), k)) && StoredAlways(batches, k)
    {
      BucketExactly(batches, k);
    }
  }

  // ----- the roll-up thread -----

  function Between(entries: seq<Entry>, low: nat, high: nat): seq<Flow> {
    if entries == [] then []
    else (if low < entries[0].at <= high then [entries[0].flow] else []) + Between(entries[1..], low, high)
  }

  lemma NothingBetween(history: seq<Entry>, low: nat, high: nat)
    ensures Between([], low, high) == [] == FlowsAt(history, [])
  {
  }

  /** One more entry at the front is picked or not. */
  lemma BetweenStep(history: seq<Entry>, i: nat, low: nat, high: nat, more: seq<nat>)
    requires i < |history| && (forall n :: n in more ==> n < |history|)
    requires Between(history[i + 1..], low, high) == FlowsAt(history, more)
    ensures forall n :: n in [i] + more ==> n < |history|
    ensures Between(history[i..], low, high)
         == FlowsAt(history, if low < history[i].at <= high then [i] + more else more)
  {
    var entries := history[i..];
    assert entries[0] == history[i] && entries[1..] == history[i + 1..];
    var picked := low < history[i].at <= high;
    assert Between(entries, low, high) == (if picked then [history[i].flow] else []) + FlowsAt(history, more);
    hide Between;
    FlowsAtCons(history, i, more);
    hide FlowsAt;
    assert [] + FlowsAt(history, more) == FlowsAt(history, more);
  }

  lemma FlowsAtCons(history: seq<Entry>, i: nat, more: seq<nat>)
    requires i < |history| && forall n :: n in more ==> n < |history|
    ensures forall n :: n in [i] + more ==> n < |history|
    ensures FlowsAt(history, [i] + more) == [history[i].flow] + FlowsAt(history, more)
  {
  }

  lemma PickedStep(history: seq<Entry>, i: nat, low: nat, high: nat)
    requires i < |history|
    ensures var more := Picked(history, i + 1, low, high);
            Picked(history, i, low, high) == if low < history[i].at <= high then [i] + more else more
  {
  }

  lemma {:induction false} BetweenIsPicked(history: seq<Entry>, i: nat, low: nat, high: nat)
    requires i <= |history|
    ensures forall n :: n in Picked(history, i, low, high) ==> n < |history|
    ensures Between(history[i..], low, high) == FlowsAt(history, Picked(history, i, low, high))
    decreases |history| - i
  {
    hide *;
    PickedInRange(history, i, low, high);
    if i < |history| {
      PickedStep(history, i, low, high);
      BetweenIsPicked(history, i + 1, low, high);
      BetweenStep(history, i, low, high, Picked(history, i + 1, low, high));
    } else {
      assert history[i..] == [];
      NothingPickedAt(history, i, low, high);
      NothingBetween(history, low, high);
    }
  }

  lemma NothingPickedAt(history: seq<Entry>, i: nat, low: nat, high: nat)
    requires i >= |history|
    ensures Picked(history, i, low, high) == []
  {
  }

  class Rollup {
    var watermark: nat

    constructor (now: nat)
      ensures watermark == now
    {
      watermark := now;
    }

    /** rollup_ring_once, with its clock reading `now` taken before the lock. */
    method Once(ring: Ring, repository: Repository, now: nat) returns (ghost order: seq<Bucket>)
      modifies this, repository
      ensures watermark == now
      ensures var flows := Between(ring.entries, old(watermark), now);
              Batch(flows, order).Valid() && Within(order, Buckets(flows))
              && repository.flows1m == WriteAll(old(repository.flows1m), Buckets(flows), order)
    {
      var flows := Between(ring.entries, watermark, now);
      watermark := now;
      if flows == [] { return []; }
      var ok;
      ok, order := repository.AggregateFlowRecords1m(flows);   // a failure is logged and not retried
    }
  }
}
