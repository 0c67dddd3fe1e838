/**
 * One exporter among many: whatever else the two listeners hear and however they are interleaved, an exporter is
 * served as by a listener that hears nothing else, and gets back the records it encoded (src/flow.rs).
 */
module FlowExporters {
  import opened Basics
  import opened FlowRecords
  import opened FlowFraming
  import opened FlowDecoder
  import opened FlowCaches
  import opened FlowSystem
  import opened FlowIsolation
  import opened FlowSequence
  import opened FlowCollector
  import opened FlowDatagrams
  import opened FlowWire

  // ----- what is received from one scope -----

  datatype Receipt = Receipt(packet: nat, sets: seq<RawSet>)

  /** The messages of `scope`, in the order in which they are received. */
  function ReceiptsOf(events: seq<Event>, scope: Scope): seq<Receipt> {
    if events == [] then []
    else
      (if events[0].Receive? && events[0].scope == scope then [Receipt(events[0].packet, events[0].sets)] else [])
      + ReceiptsOf(events[1..], scope)
  }

  function ReceiptTasks(scope: Scope, receipts: seq<Receipt>): seq<Task> {
    if receipts == [] then []
    else MessageTasks(scope, receipts[0].packet, receipts[0].sets) + ReceiptTasks(scope, receipts[1..])
  }

  /** The sets of a datagram; one without an envelope is not received. */
  function SetsOf(format: Format, d: Datagram): seq<RawSet> {
    match ParseEnvelope(format, d.payload)
    case None => []
    case Some(envelope) => ParseSets(envelope.body)
  }

  /** The datagram is a message of `scope`. */
  predicate SentBy(d: Datagram, scope: Scope) {
    var envelope := ParseEnvelope(scope.format, d.payload);
    envelope.Some? && Scope(scope.format, d.exporter, envelope.value.domain) == scope
  }

  /** The n-th message received from `scope` is the n-th of the datagrams, with packet id `ids(n)`. */
  ghost predicate Hears(events: seq<Event>, scope: Scope, datagrams: seq<Datagram>, ids: nat -> nat) {
    var receipts := ReceiptsOf(events, scope);
    && |receipts| == |datagrams|
    && forall i :: 0 <= i < |datagrams| ==>
         SentBy(datagrams[i], scope) && receipts[i] == Receipt(ids(i), SetsOf(scope.format, datagrams[i]))
  }

  lemma {:induction false} TasksConcat(scope: Scope, a: seq<Receipt>, b: seq<Receipt>)
    ensures ReceiptTasks(scope, a + b) == ReceiptTasks(scope, a) + ReceiptTasks(scope, b)
  {
    if a == [] {
      assert a + b == b;
    } else {
      hide MessageTasks;
      assert (a + b)[0] == a[0] && (a + b)[1..] == a[1..] + b;
      TasksConcat(scope, a[1..], b);
    }
  }

  lemma {:induction false} ReceiptsFeed(scope: Scope, receipts: seq<Receipt>, datagrams: seq<Datagram>, ids: nat -> nat)
    requires |receipts| == |datagrams|
    requires forall i :: 0 <= i < |datagrams| ==>
               SentBy(datagrams[i], scope) && receipts[i] == Receipt(ids(i), SetsOf(scope.format, datagrams[i]))
    ensures ReceiptTasks(scope, receipts) == FeedTasks(scope.format, datagrams, ids)
  {
    hide *;
    if datagrams == [] {
      NothingFed(scope.format, ids);
      assert receipts == [];
      NoTasks(scope);
    } else {
      var n := |datagrams| - 1;
      ReceiptsFeed(scope, receipts[..n], datagrams[..n], ids);
      assert receipts == receipts[..n] + [receipts[n]];
      TasksConcat(scope, receipts[..n], [receipts[n]]);
      OneReceipt(scope, receipts[n]);
      assert SentBy(datagrams[n], scope);
      FeedLast(scope.format, datagrams, ids);
      SentTasks(datagrams[n], scope, ids(n));
    }
  }

  lemma NoTasks(scope: Scope)
    ensures ReceiptTasks(scope, []) == []
  {
  }

  lemma SentTasks(d: Datagram, scope: Scope, packet: nat)
    requires SentBy(d, scope)
    ensures DatagramTasks(scope.format, d.payload, d.exporter, packet)
         == MessageTasks(scope, packet, SetsOf(scope.format, d))
  {
    hide ParseEnvelope; hide ParseSets; hide MessageTasks;
  }

  lemma OneReceipt(scope: Scope, receipt: Receipt)
    ensures ReceiptTasks(scope, [receipt]) == MessageTasks(scope, receipt.packet, receipt.sets)
  {
    hide MessageTasks;
    assert [receipt][1..] == [];
  }

  // ----- the clock as one scope reads it -----

  /** The readings taken by the critical sections of a run. */
  ghost function Stamps(sys: System, events: seq<Event>, clock: nat -> nat): seq<nat>
    requires Legal(sys, events, clock)
    decreases |events|
  {
    if events == [] then []
    else
      (match events[0]
       case Receive(_, _, _) => []
       case Enter(f, tick) => ReadingsAt(clock, tick, Readings(sys.Of(f).work[0])))
      + Stamps(Apply(sys, events[0], clock), events[1..], clock)
  }

  function ReadingsAt(clock: nat -> nat, tick: nat, n: nat): (stamps: seq<nat>)
    ensures |stamps| == n && forall i :: 0 <= i < n ==> stamps[i] == clock(tick + i)
  {
    if n == 0 then [] else ReadingsAt(clock, tick, n - 1) + [clock(tick + n - 1)]
  }

  /** The clock that shows the given readings one after the other. */
  function Showing(stamps: seq<nat>): nat -> nat { (i: nat) => if i < |stamps| then stamps[i] else 0 }

  lemma ReadingsTail(clock: nat -> nat, tick: nat, clock': nat -> nat, tick': nat, n: nat)
    requires n > 0 && ReadingsAt(clock, tick, n) == ReadingsAt(clock', tick', n)
    ensures clock(tick) == clock'(tick') && ReadingsAt(clock, tick + 1, n - 1) == ReadingsAt(clock', tick' + 1, n - 1)
  {
    var r, r', t, t' := ReadingsAt(clock, tick, n), ReadingsAt(clock', tick', n),
                        ReadingsAt(clock, tick + 1, n - 1), ReadingsAt(clock', tick' + 1, n - 1);
    assert r[0] == r'[0];
    forall i | 0 <= i < n - 1 ensures t[i] == t'[i] { assert r[i + 1] == r'[i + 1]; }
  }

  lemma {:induction false} LearnAllAgrees(t: Templates, scope: Scope, defs: seq<Definition>, clock: nat -> nat,
                                          tick: nat, clock': nat -> nat, tick': nat)
    requires ReadingsAt(clock, tick, |defs|) == ReadingsAt(clock', tick', |defs|)
    ensures LearnAll(t, scope, defs, clock, tick) == LearnAll(t, scope, defs, clock', tick')
    decreases |defs|
  {
    if defs != [] {
      hide LearnOne; hide ReadingsAt;
      ReadingsTail(clock, tick, clock', tick', |defs|);
      LearnAllAgrees(LearnOne(t, scope, defs[0], clock(tick)), scope, defs[1..], clock, tick + 1, clock', tick' + 1);
    }
  }

  /** A critical section depends on the clock only through its own readings. */
  lemma SectionAgrees(s: Shared, l: Local, clock: nat -> nat, tick: nat, clock': nat -> nat, tick': nat)
    requires l.work != []
    requires ReadingsAt(clock, tick, Readings(l.work[0])) == ReadingsAt(clock', tick', Readings(l.work[0]))
    ensures Section(s, l, clock, tick) == Section(s, l, clock', tick')
  {
    hide Keep; hide Evict; hide Append; hide LearnAll; hide ReadingsAt;
    ReadingsTail(clock, tick, clock', tick', Readings(l.work[0]));
    match l.work[0]
    case Learn(scope, defs) =>
      LearnAllAgrees(SweepTemplates(s.templates, clock(tick)), scope, defs, clock, tick + 1, clock', tick' + 1);
    case Replay(_) =>
    case Look(_, _, _) =>
    case Park(_, _, _) => ReadingsTail(clock, tick + 1, clock', tick' + 1, 1);
  }

  // ----- a run of one scope is a listener working alone -----

  predicate OnlyOf(events: seq<Event>, scope: Scope) {
    forall i :: 0 <= i < |events| ==>
      EventFormat(events[i]) == scope.format && (events[i].Receive? ==> events[i].scope == scope)
  }

  /** However the run spreads its sections over time, it is the listener draining what it receives. */
  lemma {:induction false} RunIsDrain(sys: System, events: seq<Event>, clock: nat -> nat, scope: Scope, own: nat -> nat,
                                      n: nat)
    requires Legal(sys, events, clock) && OnlyOf(events, scope)
    requires ReadingsAt(own, n, |Stamps(sys, events, clock)|) == Stamps(sys, events, clock)
    ensures var final, l := Run(sys, events, clock), sys.Of(scope.format);
            Drain(sys.shared, Local(l.work + ReceiptTasks(scope, ReceiptsOf(events, scope)), l.out), own, n)
            == Drain(final.shared, final.Of(scope.format), own, n + |Stamps(sys, events, clock)|)
    decreases |events|
  {
    hide *;
    if events == [] {
      NothingRuns(sys, clock, scope);
    } else {
      RunStep(sys, events, clock);
      var rest, next := events[1..], Apply(sys, events[0], clock);
      OnlyOfTail(events, scope);
      if events[0].Receive? {
        ReceiveStep(sys, events, clock, scope);
        RunIsDrain(next, rest, clock, scope, own, n);
      } else {
        EnterStep(sys, events, clock, scope, own, n);
        RunIsDrain(next, rest, clock, scope, own, n + Readings(sys.Of(scope.format).work[0]));
      }
    }
  }

  lemma NothingRuns(sys: System, clock: nat -> nat, scope: Scope)
    ensures Legal(sys, [], clock) && Run(sys, [], clock) == sys && Stamps(sys, [], clock) == []
    ensures var l := sys.Of(scope.format); Local(l.work + ReceiptTasks(scope, ReceiptsOf([], scope)), l.out) == l
  {
    var l := sys.Of(scope.format);
    assert l.work + [] == l.work;
  }

  lemma OnlyOfTail(events: seq<Event>, scope: Scope)
    requires events != [] && OnlyOf(events, scope)
    ensures OnlyOf(events[1..], scope)
    ensures if events[0].Receive? then events[0].scope == scope else events[0].format == scope.format
  {
    assert forall i :: 0 <= i < |events[1..]| ==> events[1..][i] == events[i + 1];
  }

  lemma RunStep(sys: System, events: seq<Event>, clock: nat -> nat)
    requires events != [] && Legal(sys, events, clock)
    ensures Enabled(sys, events[0]) && Legal(Apply(sys, events[0], clock), events[1..], clock)
    ensures Run(sys, events, clock) == Run(Apply(sys, events[0], clock), events[1..], clock)
  {
    hide Apply;
  }

  lemma ReceiveStep(sys: System, events: seq<Event>, clock: nat -> nat, scope: Scope)
    requires events != [] && Legal(sys, events, clock) && events[0].Receive? && events[0].scope == scope
    ensures var l, next, rest := sys.Of(scope.format), Apply(sys, events[0], clock), events[1..];
            && Stamps(sys, events, clock) == Stamps(next, rest, clock)
            && next.shared == sys.shared
            && next.Of(scope.format).out == l.out
            && next.Of(scope.format).work + ReceiptTasks(scope, ReceiptsOf(rest, scope))
               == l.work + ReceiptTasks(scope, ReceiptsOf(events, scope))
  {
    hide MessageTasks; hide WorkItems; hide Section;
    var receipt, rest := Receipt(events[0].packet, events[0].sets), ReceiptsOf(events[1..], scope);
    assert ReceiptsOf(events, scope) == [receipt] + rest;
    TasksConcat(scope, [receipt], rest);
    OneReceipt(scope, receipt);
    var more := ReceiptTasks(scope, [receipt] + rest);
    assert [] + more == more;
    assert [] + Stamps(Apply(sys, events[0], clock), events[1..], clock)
             == Stamps(Apply(sys, events[0], clock), events[1..], clock);
  }

  lemma ReadingsSplit(clock: nat -> nat, tick: nat, a: seq<nat>, b: seq<nat>)
    requires ReadingsAt(clock, tick, |a + b|) == a + b
    ensures ReadingsAt(clock, tick, |a|) == a && ReadingsAt(clock, tick + |a|, |b|) == b
  {
    var r, ra, rb := ReadingsAt(clock, tick, |a + b|), ReadingsAt(clock, tick, |a|), ReadingsAt(clock, tick + |a|, |b|);
    forall i | 0 <= i < |a| ensures ra[i] == a[i] { assert ra[i] == r[i]; }
    forall i | 0 <= i < |b| ensures rb[i] == b[i] { assert r[|a| + i] == (a + b)[|a| + i] && rb[i] == r[|a| + i]; }
  }

  lemma EnterStep(sys: System, events: seq<Event>, clock: nat -> nat, scope: Scope, own: nat -> nat, n: nat)
    requires events != [] && Legal(sys, events, clock) && events[0].Enter? && events[0].format == scope.format
    requires ReadingsAt(own, n, |Stamps(sys, events, clock)|) == Stamps(sys, events, clock)
    ensures var l, next, rest := sys.Of(scope.format), Apply(sys, events[0], clock), events[1..];
            l.work != [] && var k := Readings(l.work[0]);
            && |Stamps(sys, events, clock)| == k + |Stamps(next, rest, clock)|
            && ReadingsAt(own, n + k, |Stamps(next, rest, clock)|) == Stamps(next, rest, clock)
            && Drain(sys.shared, Local(l.work + ReceiptTasks(scope, ReceiptsOf(events, scope)), l.out), own, n)
               == Drain(next.shared, Local(next.Of(scope.format).work + ReceiptTasks(scope, ReceiptsOf(rest, scope)),
                                           next.Of(scope.format).out), own, n + k)
  {
    hide *;
    EventShape(sys, events, clock, scope);
    var l, next, rest, tick := sys.Of(scope.format), Apply(sys, events[0], clock), events[1..], events[0].tick;
    var k := Readings(l.work[0]);
    ReadingsSplit(own, n, ReadingsAt(clock, tick, k), Stamps(next, rest, clock));
    SectionAgrees(sys.shared, l, clock, tick, own, n);
    DrainSection(sys.shared, l, ReceiptTasks(scope, ReceiptsOf(rest, scope)), own, n);
  }

  /** What entering a critical section takes and changes. */
  lemma EventShape(sys: System, events: seq<Event>, clock: nat -> nat, scope: Scope)
    requires events != [] && Legal(sys, events, clock) && events[0].Enter? && events[0].format == scope.format
    ensures var l, next, rest := sys.Of(scope.format), Apply(sys, events[0], clock), events[1..];
            && Enabled(sys, events[0]) && l.work != [] && Legal(next, rest, clock)
            && (next.shared, next.Of(scope.format)) == Section(sys.shared, l, clock, events[0].tick)
            && ReceiptsOf(events, scope) == ReceiptsOf(rest, scope)
            && Stamps(sys, events, clock)
               == ReadingsAt(clock, events[0].tick, Readings(l.work[0])) + Stamps(next, rest, clock)
  {
    hide Section; hide ExpiredBy; hide EvictedBy; hide ReadingsAt; hide Readings;
    assert [] + ReceiptsOf(events[1..], scope) == ReceiptsOf(events[1..], scope);
  }

  lemma DrainSection(s: Shared, l: Local, more: seq<Task>, clock: nat -> nat, tick: nat)
    requires l.work != []
    ensures var (s', l') := Section(s, l, clock, tick);
            Drain(s, Local(l.work + more, l.out), clock, tick)
            == Drain(s', Local(l'.work + more, l'.out), clock, tick + Readings(l.work[0]))
  {
    hide Section; hide Drain; hide Readings;
    SectionFrame(s, l.work, more, l.out, clock, tick);
    assert Local(l.work, l.out) == l;
    var (s', l') := Section(s, l, clock, tick);
    assert (l.work + more)[0] == l.work[0];
    DrainTo(s, Local(l.work + more, l.out), s', Local(l'.work + more, l'.out), clock, tick, tick + Readings(l.work[0]));
  }

  lemma ShowingReads(stamps: seq<nat>)
    ensures ReadingsAt(Showing(stamps), 0, |stamps|) == stamps
  {
    var r := ReadingsAt(Showing(stamps), 0, |stamps|);
    forall i | 0 <= i < |stamps| ensures r[i] == stamps[i] { assert r[i] == Showing(stamps)(0 + i); }
  }

  // ----- one scope of a run -----

  lemma {:induction false} ConcerningScope(sys: System, events: seq<Event>, clock: nat -> nat, scope: Scope)
    requires Inv(sys) && Legal(sys, events, clock)
    ensures OnlyOf(Concerning(sys, events, clock, InScope(scope)), scope)
    ensures ReceiptsOf(Concerning(sys, events, clock, InScope(scope)), scope) == ReceiptsOf(events, scope)
    decreases |events|
  {
    hide *;
    if events == [] {
      NothingConcerning(sys, clock, scope);
    } else {
      RunStep(sys, events, clock);
      var event, next := events[0], Apply(sys, events[0], clock);
      ConcernsScope(sys, event, scope);
      EventKeepsInv(sys, event, clock);
      ConcerningScope(next, events[1..], clock, scope);
      ConcerningCons(sys, events, clock, InScope(scope));
      assert events == [event] + events[1..];
      ReceiptsCons(event, events[1..], scope);
      var rest := Concerning(next, events[1..], clock, InScope(scope));
      ReceiptsCons(event, rest, scope);
      if Concerns(sys, event, InScope(scope)) { OnlyOfCons(event, rest, scope); }
    }
  }

  lemma NothingConcerning(sys: System, clock: nat -> nat, scope: Scope)
    ensures Legal(sys, [], clock) && Concerning(sys, [], clock, InScope(scope)) == [] && OnlyOf([], scope)
  {
  }

  lemma ConcerningCons(sys: System, events: seq<Event>, clock: nat -> nat, view: Test)
    requires events != [] && Legal(sys, events, clock)
    ensures Legal(Apply(sys, events[0], clock), events[1..], clock)
    ensures var rest := Concerning(Apply(sys, events[0], clock), events[1..], clock, view);
            Concerning(sys, events, clock, view) == if Concerns(sys, events[0], view) then [events[0]] + rest else rest
  {
    hide Apply; hide Concerns;
    var rest := Concerning(Apply(sys, events[0], clock), events[1..], clock, view);
    assert [] + rest == rest;
  }

  lemma ReceiptsCons(event: Event, rest: seq<Event>, scope: Scope)
    ensures ReceiptsOf([event] + rest, scope)
         == if event.Receive? && event.scope == scope then [Receipt(event.packet, event.sets)] + ReceiptsOf(rest, scope)
            else ReceiptsOf(rest, scope)
  {
    assert ([event] + rest)[1..] == rest && [] + ReceiptsOf(rest, scope) == ReceiptsOf(rest, scope);
  }

  lemma OnlyOfCons(event: Event, rest: seq<Event>, scope: Scope)
    requires OnlyOf(rest, scope) && EventFormat(event) == scope.format && (event.Receive? ==> event.scope == scope)
    ensures OnlyOf([event] + rest, scope)
  {
  }

  lemma ConcernsScope(sys: System, event: Event, scope: Scope)
    requires Inv(sys) && Enabled(sys, event)
    ensures Concerns(sys, event, InScope(scope)) ==> EventFormat(event) == scope.format
    ensures event.Receive? ==> (Concerns(sys, event, InScope(scope)) <==> event.scope == scope)
    ensures event.Enter? ==> !event.Receive?
  {
    hide Inv;
    if event.Enter? { HeadOwned(sys, event.format); }
  }

  lemma EventKeepsInv(sys: System, event: Event, clock: nat -> nat)
    requires Inv(sys) && Enabled(sys, event)
    ensures Inv(Apply(sys, event, clock))
  {
    hide Inv; hide Apply;
    Safety(sys, [event], clock);
    assert [event][1..] == [];
  }

  /** The clock as the critical sections of one scope read it. */
  ghost function OwnClock(events: seq<Event>, clock: nat -> nat, scope: Scope): nat -> nat
    requires Monotone(clock) && Legal(INITIAL, events, clock)
  {
    ScopesDoNotInterfere(events, clock, scope);
    Showing(Stamps(INITIAL, Concerning(INITIAL, events, clock, InScope(scope)), clock))
  }

  /** All messages of the scope have been worked off. */
  predicate DoneWith(sys: System, scope: Scope) {
    var l := sys.Of(scope.format);
    l.work == [] || l.work[0].scope != scope
  }

  /**
   * In any run of both listeners with any number of exporters, what is decoded for one of them is what a listener
   * decodes that hears nothing but its datagrams, at the times at which they are worked off in the run.
   */
  lemma ServedAsAlone(events: seq<Event>, clock: nat -> nat, scope: Scope, datagrams: seq<Datagram>, ids: nat -> nat)
    requires Monotone(clock) && Legal(INITIAL, events, clock) && DoneWith(Run(INITIAL, events, clock), scope)
    requires Hears(events, scope, datagrams, ids)
    ensures OutOf(Run(INITIAL, events, clock).Of(scope.format).out, InScope(scope))
         == Drain(EMPTY, Local(FeedTasks(scope.format, datagrams, ids), []), OwnClock(events, clock, scope), 0).out
  {
    hide Run; hide Legal; hide Drain; hide FeedTasks; hide ReceiptTasks; hide ReceiptsOf; hide OutOf; hide Stamps;
    hide Inv;
    hide Concerning; hide SetsOf; hide SentBy;
    ScopesDoNotInterfere(events, clock, scope);
    var mine := Concerning(INITIAL, events, clock, InScope(scope));
    var stamps, own := Stamps(INITIAL, mine, clock), OwnClock(events, clock, scope);
    InitiallySafe();
    ConcerningScope(INITIAL, events, clock, scope);
    ReceiptsFeed(scope, ReceiptsOf(events, scope), datagrams, ids);
    ShowingReads(stamps);
    RunIsDrain(INITIAL, mine, clock, scope, own, 0);
    var final := Run(INITIAL, mine, clock);
    assert final.Of(scope.format) == Mine(Run(INITIAL, events, clock).Of(scope.format), InScope(scope));
    DrainNothing(final.shared, final.Of(scope.format).out, own, |stamps|);
    assert [] + FeedTasks(scope.format, datagrams, ids) == FeedTasks(scope.format, datagrams, ids);
  }

  // ----- main result -----


  /**
   * End to end, in a crowd: in any run of both listeners, with any number of exporters and any interleaving, the
   * records returned for one exporter are exactly the records it encoded, in the order in which they were sent. At
   * most 100 of its packets may wait for its template, and neither they nor the template may expire at the times the
   * run gives them.
   */
  lemma ExportedRecordsArriveInTheCrowd(events: seq<Event>, clock: nat -> nat, e: Exporter, a: seq<Export>,
                                        stamps: seq<seq<byte>>, segments: seq<seq<Export>>, ids: nat -> nat, base: nat)
    requires Monotone(clock) && Legal(INITIAL, events, clock) && DoneWith(Run(INITIAL, events, clock), e.Sender())
    requires ValidSession(e, a, stamps, segments) && Increasing(ids)
    requires Hears(events, e.Sender(), Session(e, a, stamps, segments), ids)
    requires SentInTime(e, a, segments, ids, OwnClock(events, clock, e.Sender()), base)
    ensures AllFit(e.Fields(), Sent(a + Joined(segments)))
    ensures Output(OutOf(Run(INITIAL, events, clock).Of(e.format).out, InScope(e.Sender())))
         == RecordsOf(e.Fields(), Sent(a + Joined(segments)))
  {
    hide Run; hide Legal; hide Drain; hide OutOf; hide Output; hide RecordsOf; hide Session; hide Sent; hide SentInTime;
    hide Hears; hide ValidSession; hide OwnClock; hide DoneWith; hide FeedTasks;
    var own := OwnClock(events, clock, e.Sender());
    ServedAsAlone(events, clock, e.Sender(), Session(e, a, stamps, segments), ids);
    ExportedRecordsArrive(e, a, stamps, segments, ids, own, base);
  }
}
