/**
 * Two listeners (NetFlow v9 and IPFIX) that share the template cache and the orphan cache,
 * interleaved at the granularity of critical sections (src/flow.rs).
 */
module FlowSystem {
  import opened Basics
  import opened FlowRecords
  import opened FlowFraming
  import opened FlowCaches

  /** Data sets that were given up. */
  datatype Ledger = Ledger(expired: multiset<Item>, evicted: multiset<Item>)

  datatype System = System(
    shared: Shared, v9: Local, ipfix: Local,
    owner: map<nat, Scope>,       // the scope of every packet id handed out
    time: nat,                    // the next clock reading
    received: multiset<Item>, ledger: Ledger)
  {
    function Of(f: Format): Local { if f == NetFlowV9 then v9 else ipfix }

    function With(f: Format, l: Local): System { if f == NetFlowV9 then this.(v9 := l) else this.(ipfix := l) }
  }

  const INITIAL := System(
    Shared(map[], []), Local([], []), Local([], []), map[], 0, multiset{}, Ledger(multiset{}, multiset{}))

  datatype Event =
    | Receive(scope: Scope, packet: nat, sets: seq<RawSet>)  // a listener takes a message off its socket
    | Enter(format: Format, tick: nat)                       // a listener enters its next critical section

  // ----- accounts -----

  function SetItems(scope: Scope, packet: nat, sets: seq<DataSet>): multiset<Item> {
    if sets == [] then multiset{} else multiset{Item(scope, packet, sets[0])} + SetItems(scope, packet, sets[1..])
  }

  function PacketItems(packets: seq<Packet>): multiset<Item> {
    if packets == [] then multiset{}
    else SetItems(packets[0].scope, packets[0].id, packets[0].sets) + PacketItems(packets[1..])
  }

  function WorkItems(work: seq<Task>): multiset<Item> {
    if work == [] then multiset{} else TaskItems(work[0]) + WorkItems(work[1..])
  }

  function TaskItems(task: Task): multiset<Item> {
    match task
    case Look(scope, packet, ds) => multiset{Item(scope, packet, ds)}
    case Park(scope, packet, ds) => multiset{Item(scope, packet, ds)}
    case _ => multiset{}
  }

  function DecodedItems(out: seq<Decoded>): multiset<Item> {
    if out == [] then multiset{} else multiset{out[0].item} + DecodedItems(out[1..])
  }

  /** The data sets that are too old when a critical section starts on the orphan cache. */
  function ExpiredBy(s: Shared, task: Task, now: nat): multiset<Item> {
    if task.Replay? || task.Park? then PacketItems(Keep(s.orphans, Not(Alive(now)))) else multiset{}
  }

  /** The data sets that fall to the limit of waiting packets of a scope. */
  function EvictedFrom(packets: seq<Packet>, scope: Scope): multiset<Item>
    decreases |packets|
  {
    if |Keep(packets, InScope(scope))| <= ORPHAN_PACKET_LIMIT then multiset{}
    else
      var least := LeastId(Keep(packets, InScope(scope)));
      DropShrinks(packets, HasId(least));
      PacketItems(Keep(packets, HasId(least))) + EvictedFrom(Keep(packets, Not(HasId(least))), scope)
  }

  function EvictedBy(s: Shared, task: Task, now: nat, stamp: nat): multiset<Item> {
    match task
    case Park(scope, packet, ds) => EvictedFrom(Append(Keep(s.orphans, Alive(now)), scope, packet, ds, stamp), scope)
    case _ => multiset{}
  }

  // ----- runs -----

  predicate Enabled(sys: System, event: Event) {
    match event
    case Receive(scope, packet, _) => sys.Of(scope.format).work == [] && forall id :: id in sys.owner ==> id < packet
    case Enter(format, tick) => sys.Of(format).work != [] && sys.time <= tick
  }

  ghost function Apply(sys: System, event: Event, clock: nat -> nat): System
    requires Enabled(sys, event)
  {
    match event
    case Receive(scope, packet, sets) =>
      var l := sys.Of(scope.format);
      var work := MessageTasks(scope, packet, sets);
      sys.With(scope.format, l.(work := work))
         .(owner := sys.owner[packet := scope], received := sys.received + WorkItems(work))
    case Enter(format, tick) =>
      var l := sys.Of(format);
      var (shared, l') := Section(sys.shared, l, clock, tick);
      var task, now := l.work[0], clock(tick);
      sys.With(format, l')
         .(shared := shared, time := tick + Readings(task),
           ledger := Ledger(sys.ledger.expired + ExpiredBy(sys.shared, task, now),
                            sys.ledger.evicted + EvictedBy(sys.shared, task, now, clock(tick + 1))))
  }

  ghost predicate Legal(sys: System, events: seq<Event>, clock: nat -> nat)
    decreases |events|
  {
    events == [] || (Enabled(sys, events[0]) && Legal(Apply(sys, events[0], clock), events[1..], clock))
  }

  ghost function Run(sys: System, events: seq<Event>, clock: nat -> nat): System
    requires Legal(sys, events, clock)
    decreases |events|
  {
    if events == [] then sys else Run(Apply(sys, events[0], clock), events[1..], clock)
  }

  // ----- conservation -----

  predicate Conserved(sys: System) {
    sys.received ==
      DecodedItems(sys.v9.out) + DecodedItems(sys.ipfix.out) + WorkItems(sys.v9.work) + WorkItems(sys.ipfix.work)
      + PacketItems(sys.shared.orphans) + sys.ledger.expired + sys.ledger.evicted
  }

  lemma {:induction false} KeepItems(packets: seq<Packet>, test: Test)
    ensures PacketItems(packets) == PacketItems(Keep(packets, test)) + PacketItems(Keep(packets, Not(test)))
  {
    if packets != [] {
      KeepItems(packets[1..], test);
      KeepStep(packets, test);
      KeepStep(packets, Not(test));
    }
  }

  lemma {:induction false} SetItemsSnoc(scope: Scope, packet: nat, sets: seq<DataSet>, ds: DataSet)
    ensures SetItems(scope, packet, sets + [ds]) == SetItems(scope, packet, sets) + multiset{Item(scope, packet, ds)}
  {
    if sets == [] {
      assert sets + [ds] == [ds];
    } else {
      assert (sets + [ds])[1..] == sets[1..] + [ds];
      SetItemsSnoc(scope, packet, sets[1..], ds);
    }
  }

  lemma {:induction false} AppendItems(packets: seq<Packet>, scope: Scope, id: nat, ds: DataSet, at: nat)
    requires forall p :: p in packets && p.id == id ==> p.scope == scope
    ensures PacketItems(Append(packets, scope, id, ds, at)) == PacketItems(packets) + multiset{Item(scope, id, ds)}
  {
    if packets == [] {
      assert [Packet(id, scope, [ds], at)][1..] == [];
      SetItemsSnoc(scope, id, [], ds);
      assert [] + [ds] == [ds];
    } else if packets[0].id == id {
      SetItemsSnoc(scope, id, packets[0].sets, ds);
      var p := packets[0].(sets := packets[0].sets + [ds]);
      assert ([p] + packets[1..])[1..] == packets[1..];
    } else {
      AppendItems(packets[1..], scope, id, ds, at);
      var more := Append(packets[1..], scope, id, ds, at);
      assert ([packets[0]] + more)[1..] == more;
    }
  }

  lemma {:induction false} EvictItems(packets: seq<Packet>, scope: Scope)
    ensures PacketItems(packets) == PacketItems(Evict(packets, scope)) + EvictedFrom(packets, scope)
    decreases |packets|
  {
    if |Keep(packets, InScope(scope))| > ORPHAN_PACKET_LIMIT {
      var least := LeastId(Keep(packets, InScope(scope)));
      DropShrinks(packets, HasId(least));
      KeepItems(packets, HasId(least));
      EvictItems(Keep(packets, Not(HasId(least))), scope);
    }
  }

  lemma {:induction false} WorkItemsConcat(a: seq<Task>, b: seq<Task>)
    ensures WorkItems(a + b) == WorkItems(a) + WorkItems(b)
  {
    if a == [] {
      assert a + b == b;
    } else {
      assert (a + b)[1..] == a[1..] + b;
      WorkItemsConcat(a[1..], b);
    }
  }

  lemma {:induction false} SetLooksItems(scope: Scope, packet: nat, sets: seq<DataSet>)
    ensures WorkItems(SetLooks(scope, packet, sets)) == SetItems(scope, packet, sets)
  {
    if sets != [] {
      SetLooksItems(scope, packet, sets[1..]);
      WorkItemsConcat([Look(scope, packet, sets[0])], SetLooks(scope, packet, sets[1..]));
    }
  }

  lemma {:induction false} PacketLooksItems(scope: Scope, packets: seq<Packet>)
    requires forall p :: p in packets ==> p.scope == scope
    ensures WorkItems(PacketLooks(scope, packets)) == PacketItems(packets)
  {
    if packets != [] {
      SetLooksItems(scope, packets[0].id, packets[0].sets);
      PacketLooksItems(scope, packets[1..]);
      WorkItemsConcat(SetLooks(scope, packets[0].id, packets[0].sets), PacketLooks(scope, packets[1..]));
    }
  }

  lemma {:induction false} DecodedSnoc(out: seq<Decoded>, d: Decoded)
    ensures DecodedItems(out + [d]) == DecodedItems(out) + multiset{d.item}
  {
    if out == [] {
      assert out + [d] == [d];
    } else {
      assert (out + [d])[1..] == out[1..] + [d];
      DecodedSnoc(out[1..], d);
    }
  }

  lemma WorkItemsCons(task: Task, rest: seq<Task>)
    ensures WorkItems([task] + rest) == TaskItems(task) + WorkItems(rest)
  {
    assert ([task] + rest)[1..] == rest;
  }

  /** What a listener and the orphan cache hold together. */
  function Held(s: Shared, l: Local): multiset<Item> {
    DecodedItems(l.out) + WorkItems(l.work) + PacketItems(s.orphans)
  }

  lemma LearnConserves(s: Shared, l: Local, clock: nat -> nat, tick: nat)
    requires l.work != [] && l.work[0].Learn?
    ensures Held(s, l) == Held(Section(s, l, clock, tick).0, Section(s, l, clock, tick).1)
              + ExpiredBy(s, l.work[0], clock(tick)) + EvictedBy(s, l.work[0], clock(tick), clock(tick + 1))
  {
    hide PacketItems; hide WorkItems; hide DecodedItems; hide LearnAll;
    assert l.work == [l.work[0]] + l.work[1..];
    WorkItemsCons(l.work[0], l.work[1..]);
    WorkItemsCons(Replay(l.work[0].scope), l.work[1..]);
  }

  lemma ReplayConserves(s: Shared, l: Local, clock: nat -> nat, tick: nat)
    requires l.work != [] && l.work[0].Replay?
    ensures Held(s, l) == Held(Section(s, l, clock, tick).0, Section(s, l, clock, tick).1)
              + ExpiredBy(s, l.work[0], clock(tick)) + EvictedBy(s, l.work[0], clock(tick), clock(tick + 1))
  {
    hide PacketItems; hide WorkItems; hide DecodedItems; hide Keep; hide PacketLooks;
    var scope, rest := l.work[0].scope, l.work[1..];
    var live := Keep(s.orphans, Alive(clock(tick)));
    var looks := PacketLooks(scope, Keep(live, InScope(scope)));
    assert l.work == [l.work[0]] + rest;
    WorkItemsCons(l.work[0], rest);
    KeepItems(s.orphans, Alive(clock(tick)));
    KeepItems(live, InScope(scope));
    assert forall p :: p in Keep(live, InScope(scope)) ==> p.scope == scope;
    PacketLooksItems(scope, Keep(live, InScope(scope)));
    WorkItemsConcat(looks, rest);
    assert Section(s, l, clock, tick).1 == l.(work := looks + rest);
  }

  lemma LookConserves(s: Shared, l: Local, clock: nat -> nat, tick: nat)
    requires l.work != [] && l.work[0].Look?
    ensures Held(s, l) == Held(Section(s, l, clock, tick).0, Section(s, l, clock, tick).1)
              + ExpiredBy(s, l.work[0], clock(tick)) + EvictedBy(s, l.work[0], clock(tick), clock(tick + 1))
  {
    hide PacketItems; hide WorkItems; hide DecodedItems;
    var task, rest := l.work[0], l.work[1..];
    assert l.work == [task] + rest;
    WorkItemsCons(task, rest);
    WorkItemsCons(Park(task.scope, task.packet, task.ds), rest);
    var key := Key(task.scope, task.ds.id);
    if key in SweepTemplates(s.templates, clock(tick)) {
      DecodedSnoc(l.out, Decoded(Item(task.scope, task.packet, task.ds), s.templates[key].fields));
    }
  }

  lemma ParkConserves(s: Shared, l: Local, clock: nat -> nat, tick: nat)
    requires l.work != [] && l.work[0].Park?
    requires forall p :: p in s.orphans && p.id == l.work[0].packet ==> p.scope == l.work[0].scope
    ensures Held(s, l) == Held(Section(s, l, clock, tick).0, Section(s, l, clock, tick).1)
              + ExpiredBy(s, l.work[0], clock(tick)) + EvictedBy(s, l.work[0], clock(tick), clock(tick + 1))
  {
    hide PacketItems; hide WorkItems; hide DecodedItems; hide Keep; hide Append; hide Evict; hide EvictedFrom;
    var task, rest := l.work[0], l.work[1..];
    assert l.work == [task] + rest;
    WorkItemsCons(task, rest);
    var live := Keep(s.orphans, Alive(clock(tick)));
    var more := Append(live, task.scope, task.packet, task.ds, clock(tick + 1));
    KeepItems(s.orphans, Alive(clock(tick)));
    AppendItems(live, task.scope, task.packet, task.ds, clock(tick + 1));
    EvictItems(more, task.scope);
    assert Section(s, l, clock, tick) == (s.(orphans := Evict(more, task.scope)), l.(work := rest));
    assert TaskItems(task) == multiset{Item(task.scope, task.packet, task.ds)};
    assert EvictedBy(s, task, clock(tick), clock(tick + 1)) == EvictedFrom(more, task.scope);
    assert ExpiredBy(s, task, clock(tick)) == PacketItems(Keep(s.orphans, Not(Alive(clock(tick)))));
    Balance(DecodedItems(l.out), TaskItems(task), WorkItems(rest), PacketItems(live),
            PacketItems(Keep(s.orphans, Not(Alive(clock(tick))))), PacketItems(Evict(more, task.scope)),
            EvictedFrom(more, task.scope));
  }

  lemma Balance(decoded: multiset<Item>, parked: multiset<Item>, work: multiset<Item>, live: multiset<Item>,
                expired: multiset<Item>, kept: multiset<Item>, evicted: multiset<Item>)
    requires live + parked == kept + evicted
    ensures decoded + (parked + work) + (live + expired) == decoded + work + kept + expired + evicted
  {
    assert decoded + (parked + work) + (live + expired) == (live + parked) + decoded + work + expired;
  }

  /** One critical section moves data sets between the accounts and loses none. */
  lemma SectionConserves(s: Shared, l: Local, clock: nat -> nat, tick: nat)
    requires l.work != []
    requires l.work[0].Park? ==> forall p :: p in s.orphans && p.id == l.work[0].packet ==> p.scope == l.work[0].scope
    ensures Held(s, l) == Held(Section(s, l, clock, tick).0, Section(s, l, clock, tick).1)
              + ExpiredBy(s, l.work[0], clock(tick)) + EvictedBy(s, l.work[0], clock(tick), clock(tick + 1))
  {
    hide Section; hide Held; hide ExpiredBy; hide EvictedBy;
    match l.work[0]
    case Learn(_, _) => LearnConserves(s, l, clock, tick);
    case Replay(_) => ReplayConserves(s, l, clock, tick);
    case Look(_, _, _) => LookConserves(s, l, clock, tick);
    case Park(_, _, _) => ParkConserves(s, l, clock, tick);
  }

  // ----- what every reachable state keeps -----

  function TaskPacket(task: Task): Option<nat> {
    match task
    case Look(_, packet, _) => Some(packet)
    case Park(_, packet, _) => Some(packet)
    case _ => None
  }

  /** Packet ids are distinct, and increasing within a scope. */
  predicate Ordered(packets: seq<Packet>) {
    forall i, j :: 0 <= i < j < |packets| ==>
      && packets[i].id != packets[j].id
      && (packets[i].scope == packets[j].scope ==> packets[i].id < packets[j].id)
  }

  predicate OwnersKnown(packets: seq<Packet>, owner: map<nat, Scope>) {
    forall p :: p in packets ==> p.id in owner && owner[p.id] == p.scope
  }

  /** At most 256 templates and 100 waiting packets. */
  predicate ScopeWithinLimits(s: Shared, scope: Scope) {
    |ScopeKeys(s.templates, scope)| <= TEMPLATE_LIMIT && |Keep(s.orphans, InScope(scope))| <= ORPHAN_PACKET_LIMIT
  }

  ghost predicate WithinLimits(s: Shared) { forall scope :: ScopeWithinLimits(s, scope) }

  /** The packets of `scope` in `packets` do not come after packet `id`. */
  predicate NotAfter(packets: seq<Packet>, scope: Scope, id: nat) {
    forall p :: p in packets && p.scope == scope ==> p.id <= id
  }

  /** A work list belongs to one message: one scope, packet ids in order, and only its head is in mid-flight. */
  predicate WorkInOrder(work: seq<Task>, owner: map<nat, Scope>) {
    && (forall i :: 0 <= i < |work| ==> work[i].scope == work[0].scope)
    && (forall i :: 0 < i < |work| ==> !work[i].Park? && !work[i].Replay?)
    && (forall i :: 0 <= i < |work| && TaskPacket(work[i]).Some? ==>
          TaskPacket(work[i]).value in owner && owner[TaskPacket(work[i]).value] == work[i].scope)
    && (forall i, j :: 0 <= i < j < |work| && TaskPacket(work[i]).Some? && TaskPacket(work[j]).Some? ==>
          TaskPacket(work[i]).value <= TaskPacket(work[j]).value)
  }

  /** No waiting data set of format `f` has its template in the cache, unless the replay is under way. */
  predicate NoneOverlooked(s: Shared, work: seq<Task>, f: Format) {
    forall p, ds :: p in s.orphans && p.scope.format == f && ds in p.sets && Key(p.scope, ds.id) in s.templates ==>
      work != [] && work[0] == Replay(p.scope)
  }

  predicate ListenerInv(s: Shared, work: seq<Task>, f: Format, owner: map<nat, Scope>) {
    && WorkInOrder(work, owner)
    && (work != [] ==> work[0].scope.format == f)
    && (forall i :: 0 <= i < |work| && TaskPacket(work[i]).Some? ==>
          NotAfter(s.orphans, work[i].scope, TaskPacket(work[i]).value))
    && (work != [] && work[0].Park? ==> Key(work[0].scope, work[0].ds.id) !in s.templates)
    && NoneOverlooked(s, work, f)
  }

  ghost predicate CacheInv(s: Shared, owner: map<nat, Scope>) {
    Ordered(s.orphans) && OwnersKnown(s.orphans, owner) && WithinLimits(s)
  }

  ghost predicate Inv(sys: System) {
    && CacheInv(sys.shared, sys.owner)
    && ListenerInv(sys.shared, sys.v9.work, NetFlowV9, sys.owner)
    && ListenerInv(sys.shared, sys.ipfix.work, Ipfix, sys.owner)
  }

  lemma InvParts(sys: System, f: Format)
    requires Inv(sys)
    ensures CacheInv(sys.shared, sys.owner) && ListenerInv(sys.shared, sys.Of(f).work, f, sys.owner)
  {
  }

  // ----- the orphan cache keeps its order -----

  predicate Leads(p: Packet, rest: seq<Packet>) {
    forall q :: q in rest ==> q.id != p.id && (q.scope == p.scope ==> p.id < q.id)
  }

  lemma OrderedParts(packets: seq<Packet>)
    requires packets != []
    ensures Ordered(packets) <==> Ordered(packets[1..]) && Leads(packets[0], packets[1..])
  {
    var rest := packets[1..];
    if Ordered(packets) {
      forall i, j | 0 <= i < j < |rest|
        ensures rest[i].id != rest[j].id && (rest[i].scope == rest[j].scope ==> rest[i].id < rest[j].id)
      {
        assert rest[i] == packets[i + 1] && rest[j] == packets[j + 1];
      }
      forall q | q in rest ensures q.id != packets[0].id && (q.scope == packets[0].scope ==> packets[0].id < q.id) {
        var j :| 0 <= j < |rest| && rest[j] == q;
        assert packets[j + 1] == q;
      }
    }
    if Ordered(rest) && Leads(packets[0], rest) {
      forall i, j | 0 <= i < j < |packets|
        ensures packets[i].id != packets[j].id
        ensures (packets[i].scope == packets[j].scope ==> packets[i].id < packets[j].id)
      {
        assert packets[j] == rest[j - 1];
        if i > 0 { assert packets[i] == rest[i - 1]; }
      }
    }
  }

  lemma {:induction false} KeepOrdered(packets: seq<Packet>, test: Test)
    requires Ordered(packets)
    ensures Ordered(Keep(packets, test))
  {
    hide Ordered; hide Holds;
    if packets == [] {
      assert Keep(packets, test) == packets;
    } else {
      OrderedParts(packets);
      KeepOrdered(packets[1..], test);
      var kept := Keep(packets, test);
      if Holds(test, packets[0]) {
        assert kept[1..] == Keep(packets[1..], test);
        OrderedParts(kept);
      } else {
        assert kept == Keep(packets[1..], test);
      }
    }
  }

  /** Where the data sets of an extended packet list come from. */
  lemma {:induction false} AppendMembers(packets: seq<Packet>, scope: Scope, id: nat, ds: DataSet, at: nat, p: Packet)
    requires forall p :: p in packets && p.id == id ==> p.scope == scope
    requires p in Append(packets, scope, id, ds, at)
    ensures p in packets || (p.id == id && p.scope == scope)
    ensures forall d :: d in p.sets ==> (p.id == id && d == ds) || HasSet(packets, p.id, p.scope, d)
  {
    if packets == [] {
    } else if p in packets {
    } else if packets[0].id == id {
      assert p == packets[0].(sets := packets[0].sets + [ds]);
    } else {
      AppendMembers(packets[1..], scope, id, ds, at, p);
      forall d | d in p.sets && HasSet(packets[1..], p.id, p.scope, d) ensures HasSet(packets, p.id, p.scope, d) {
        var q :| q in packets[1..] && q.id == p.id && q.scope == p.scope && d in q.sets;
        assert q in packets;
      }
    }
  }

  predicate HasSet(packets: seq<Packet>, id: nat, scope: Scope, ds: DataSet) {
    exists q :: q in packets && q.id == id && q.scope == scope && ds in q.sets
  }

  lemma {:induction false} AppendOrdered(packets: seq<Packet>, scope: Scope, id: nat, ds: DataSet, at: nat)
    requires Ordered(packets)
    requires forall p :: p in packets && p.id == id ==> p.scope == scope
    requires NotAfter(packets, scope, id)
    ensures Ordered(Append(packets, scope, id, ds, at))
  {
    if packets != [] && packets[0].id != id {
      OrderedTail(packets);
      AppendOrdered(packets[1..], scope, id, ds, at);
      var more := Append(packets[1..], scope, id, ds, at);
      forall p | p in more
        ensures p.id != packets[0].id && (p.scope == packets[0].scope ==> packets[0].id < p.id)
      {
        AppendMembers(packets[1..], scope, id, ds, at, p);
      }
      OrderedCons(packets[0], more);
    } else if packets != [] {
      OrderedTail(packets);
      OrderedCons(packets[0].(sets := packets[0].sets + [ds]), packets[1..]);
    }
  }

  lemma OrderedTail(packets: seq<Packet>)
    requires packets != [] && Ordered(packets)
    ensures Ordered(packets[1..])
    ensures forall p :: p in packets[1..] ==>
              p.id != packets[0].id && (p.scope == packets[0].scope ==> packets[0].id < p.id)
  {
    forall p | p in packets[1..]
      ensures p.id != packets[0].id && (p.scope == packets[0].scope ==> packets[0].id < p.id)
    {
      var j :| 0 <= j < |packets[1..]| && packets[1..][j] == p;
      assert packets[j + 1] == p;
    }
  }

  lemma OrderedCons(first: Packet, rest: seq<Packet>)
    requires Ordered(rest)
    requires forall p :: p in rest ==> p.id != first.id && (p.scope == first.scope ==> first.id < p.id)
    ensures Ordered([first] + rest)
  {
  }

  lemma {:induction false} EvictOrdered(packets: seq<Packet>, scope: Scope)
    requires Ordered(packets)
    ensures Ordered(Evict(packets, scope))
    ensures forall p :: p in Evict(packets, scope) ==> p in packets
    decreases |packets|
  {
    if |Keep(packets, InScope(scope))| > ORPHAN_PACKET_LIMIT {
      var least := LeastId(Keep(packets, InScope(scope)));
      DropShrinks(packets, HasId(least));
      KeepOrdered(packets, Not(HasId(least)));
      EvictOrdered(Keep(packets, Not(HasId(least))), scope);
    }
  }

  // ----- what eviction gives up -----

  lemma {:induction false} DropOne(packets: seq<Packet>, id: nat)
    requires Ordered(packets) && exists p :: p in packets && p.id == id
    ensures |Keep(packets, Not(HasId(id)))| == |packets| - 1
  {
    OrderedTail(packets);
    KeepStep(packets, Not(HasId(id)));
    hide Ordered; hide Keep;
    if packets[0].id == id {
      KeepAll(packets[1..], Not(HasId(id)));
    } else {
      assert exists p :: p in packets[1..] && p.id == id;
      DropOne(packets[1..], id);
    }
  }

  /** One round of eviction drops one packet of the scope, the one with the least id. */
  lemma DropLeast(packets: seq<Packet>, scope: Scope)
    requires Ordered(packets) && Keep(packets, InScope(scope)) != []
    ensures var least := LeastId(Keep(packets, InScope(scope)));
            var rest := Keep(packets, Not(HasId(least)));
            && Ordered(rest) && |rest| < |packets|
            && |Keep(rest, InScope(scope))| == |Keep(packets, InScope(scope))| - 1
            && (forall p :: p in packets && p.id == least ==> p.scope == scope)
  {
    var mine := Keep(packets, InScope(scope));
    var least := LeastId(mine);
    KeepOrdered(packets, InScope(scope));
    KeepOrdered(packets, Not(HasId(least)));
    DropOne(mine, least);
    KeepSwap(packets, InScope(scope), Not(HasId(least)));
    var q :| q in mine && q.id == least;
    forall p | p in packets && p.id == least ensures p.scope == scope { SameId(packets, p, q); }
    DropShrinks(packets, HasId(least));
  }

  lemma SameId(packets: seq<Packet>, p: Packet, q: Packet)
    requires Ordered(packets) && p in packets && q in packets && p.id == q.id
    ensures p == q
  {
    var i :| 0 <= i < |packets| && packets[i] == p;
    var j :| 0 <= j < |packets| && packets[j] == q;
    SamePosition(packets, i, j);
  }

  lemma SamePosition(packets: seq<Packet>, i: int, j: int)
    requires Ordered(packets) && 0 <= i < |packets| && 0 <= j < |packets| && packets[i].id == packets[j].id
    ensures i == j
  {
  }

  /** What `r` lacks is of the scope, and older than all of the scope that stays. */
  predicate OldestGone(packets: seq<Packet>, r: seq<Packet>, scope: Scope) {
    && (forall p :: p in r ==> p in packets)
    && (forall p :: p in packets && p !in r ==> p.scope == scope)
    && (forall p, q :: p in packets && p !in r && q in r && q.scope == scope ==> p.id < q.id)
  }

  lemma LeastGone(packets: seq<Packet>, rest: seq<Packet>, r: seq<Packet>, scope: Scope, least: nat)
    requires OldestGone(rest, r, scope)
    requires forall p :: p in rest <==> p in packets && p.id != least
    requires forall p :: p in packets && p.id == least ==> p.scope == scope
    requires forall q :: q in rest && q.scope == scope ==> least < q.id
    ensures OldestGone(packets, r, scope)
  {
  }

  /** The evicted packets are the oldest of the scope, and no more go than have to. */
  lemma {:induction false} EvictsOldest(packets: seq<Packet>, scope: Scope)
    requires Ordered(packets)
    ensures var r := Evict(packets, scope);
            OldestGone(packets, r, scope)
            && |Keep(r, InScope(scope))| == Min(|Keep(packets, InScope(scope))|, 100)
    decreases |packets|
  {
    hide Ordered; hide OldestGone; hide Keep;
    if |Keep(packets, InScope(scope))| > ORPHAN_PACKET_LIMIT {
      var least := LeastId(Keep(packets, InScope(scope)));
      var rest := Keep(packets, Not(HasId(least)));
      DropLeast(packets, scope);
      EvictsOldest(rest, scope);
      hide Evict;
      assert Evict(packets, scope) == Evict(rest, scope) by { EvictOnce(packets, scope); }
      forall p ensures p in rest <==> p in packets && p.id != least {
        assert Holds(Not(HasId(least)), p) <==> p.id != least;
      }
      forall q | q in rest && q.scope == scope ensures least < q.id {
        assert Holds(InScope(scope), q) && q in Keep(packets, InScope(scope));
      }
      LeastGone(packets, rest, Evict(rest, scope), scope, least);
    } else {
      assert OldestGone(packets, packets, scope) by { NothingGone(packets, scope); }
    }
  }

  lemma NothingGone(packets: seq<Packet>, scope: Scope)
    ensures OldestGone(packets, packets, scope)
  {
  }

  lemma EvictOnce(packets: seq<Packet>, scope: Scope)
    requires |Keep(packets, InScope(scope))| > ORPHAN_PACKET_LIMIT
    ensures Evict(packets, scope) == Evict(Keep(packets, Not(HasId(LeastId(Keep(packets, InScope(scope)))))), scope)
  {
    hide Keep;
  }

  /** What `r` lacks is of the scope, and no younger than any of the scope that stays. */
  predicate OldestTemplatesGone(t: Templates, r: Templates, scope: Scope) {
    && r.Keys <= t.Keys && (forall k :: k in r ==> r[k] == t[k])
    && (forall k :: k in t && k !in r ==> k.scope == scope)
    && (forall a, b :: a in t && a !in r && b in r && b.scope == scope ==>
          t[a].at < t[b].at || (t[a].at == t[b].at && a.id <= b.id))
  }

  lemma OldestTemplateGone(t: Templates, oldest: Key, r: Templates, scope: Scope)
    requires IsOldest(t, scope, oldest) && OldestTemplatesGone(t - {oldest}, r, scope)
    ensures OldestTemplatesGone(t, r, scope)
  {
    forall b | b in r && b.scope == scope ensures Precedes(t, oldest, b) { assert b in ScopeKeys(t, scope); }
    assert oldest.scope == scope;
    forall a, b | a in t && a !in r && b in r && b.scope == scope ensures Precedes(t, a, b) {
      if a != oldest { assert Precedes(t - {oldest}, a, b); }
    }
  }

  /** The evicted templates are the oldest of the scope, and no more go than have to. */
  lemma {:induction false} EvictsOldestTemplates(t: Templates, scope: Scope)
    ensures var r := EvictTemplates(t, scope);
            OldestTemplatesGone(t, r, scope) && |ScopeKeys(r, scope)| == Min(|ScopeKeys(t, scope)|, 256)
    decreases |t|
  {
    if |ScopeKeys(t, scope)| > TEMPLATE_LIMIT {
      hide OldestTemplatesGone;
      var oldest := Oldest(t, scope);
      var rest := t - {oldest};
      assert ScopeKeys(rest, scope) == ScopeKeys(t, scope) - {oldest};
      assert EvictTemplates(t, scope) == EvictTemplates(rest, scope);
      EvictsOldestTemplates(rest, scope);
      OldestTemplateGone(t, oldest, EvictTemplates(rest, scope), scope);
    }
  }

  // ----- a critical section leaves other scopes alone, up to expiry -----

  /** `test` selects packets and templates by scope, and not those of `scope`. */
  predicate Outside(test: Test, scope: Scope) {
    (test.InScope? && test.scope != scope) || (test.OfFormat? && test.format != scope.format)
  }

  predicate Selects(test: Test, scope: Scope) {
    (test.InScope? && test.scope == scope) || (test.OfFormat? && test.format == scope.format)
  }

  function View(t: Templates, test: Test): Templates { map k | k in t && Selects(test, k.scope) :: t[k] }

  lemma {:induction false} AppendElsewhere(packets: seq<Packet>, scope: Scope, id: nat, ds: DataSet, at: nat,
                                           test: Test)
    requires Outside(test, scope)
    requires forall p :: p in packets && p.id == id ==> p.scope == scope
    ensures Keep(Append(packets, scope, id, ds, at), test) == Keep(packets, test)
  {
    if packets == [] {
    } else if packets[0].id == id {
      var p := packets[0].(sets := packets[0].sets + [ds]);
      KeepStep([p] + packets[1..], test);
      assert ([p] + packets[1..])[1..] == packets[1..];
    } else {
      var more := Append(packets[1..], scope, id, ds, at);
      AppendElsewhere(packets[1..], scope, id, ds, at, test);
      KeepStep([packets[0]] + more, test);
      assert ([packets[0]] + more)[1..] == more;
    }
  }

  lemma {:induction false} EvictElsewhere(packets: seq<Packet>, scope: Scope, test: Test, owner: map<nat, Scope>)
    requires Outside(test, scope) && OwnersKnown(packets, owner)
    ensures Keep(Evict(packets, scope), test) == Keep(packets, test)
    decreases |packets|
  {
    if |Keep(packets, InScope(scope))| > ORPHAN_PACKET_LIMIT {
      var least := LeastId(Keep(packets, InScope(scope)));
      DropShrinks(packets, HasId(least));
      EvictElsewhere(Keep(packets, Not(HasId(least))), scope, test, owner);
      KeepStronger(packets, test, Not(HasId(least)));
    }
  }

  lemma {:induction false} EvictTemplatesElsewhere(t: Templates, scope: Scope, test: Test)
    requires Outside(test, scope)
    ensures View(EvictTemplates(t, scope), test) == View(t, test)
    decreases |t|
  {
    if |ScopeKeys(t, scope)| > TEMPLATE_LIMIT {
      var oldest := Oldest(t, scope);
      assert oldest in t;
      EvictTemplatesElsewhere(t - {oldest}, scope, test);
      assert View(t - {oldest}, test) == View(t, test);
    }
  }

  lemma {:induction false} LearnElsewhere(t: Templates, scope: Scope, defs: seq<Definition>, clock: nat -> nat,
                                          tick: nat, test: Test)
    requires Outside(test, scope)
    ensures View(LearnAll(t, scope, defs, clock, tick), test) == View(t, test)
    decreases |defs|
  {
    if defs != [] {
      var t' := t[Key(scope, defs[0].id) := Cached(defs[0].fields, clock(tick))];
      assert View(t', test) == View(t, test);
      EvictTemplatesElsewhere(t', scope, test);
      LearnElsewhere(LearnOne(t, scope, defs[0], clock(tick)), scope, defs[1..], clock, tick + 1, test);
    }
  }

  /** The caches as a section on them first sweeps them. */
  function Swept(s: Shared, task: Task, now: nat): Shared {
    if task.Learn? || task.Look? then s.(templates := SweepTemplates(s.templates, now))
    else s.(orphans := Keep(s.orphans, Alive(now)))
  }

  /** Seen from any other scope, or from the other format, a critical section only expires entries. */
  lemma Isolation(s: Shared, l: Local, clock: nat -> nat, tick: nat, test: Test, owner: map<nat, Scope>)
    requires l.work != [] && Outside(test, l.work[0].scope)
    requires OwnersKnown(s.orphans, owner)
    requires TaskPacket(l.work[0]).Some? ==>
               TaskPacket(l.work[0]).value in owner && owner[TaskPacket(l.work[0]).value] == l.work[0].scope
    ensures var s', swept := Section(s, l, clock, tick).0, Swept(s, l.work[0], clock(tick));
            View(s'.templates, test) == View(swept.templates, test)
            && Keep(s'.orphans, test) == Keep(swept.orphans, test)
  {
    hide Evict; hide Append; hide Keep; hide LearnAll;
    var now := clock(tick);
    match l.work[0]
    case Learn(scope, defs) =>
      LearnElsewhere(SweepTemplates(s.templates, now), scope, defs, clock, tick + 1, test);
    case Replay(scope) =>
      KeepStronger(Keep(s.orphans, Alive(now)), test, Not(InScope(scope)));
    case Look(_, _, _) =>
    case Park(scope, packet, ds) =>
      var live := Keep(s.orphans, Alive(now));
      AppendElsewhere(live, scope, packet, ds, clock(tick + 1), test);
      AppendOwners(live, scope, packet, ds, clock(tick + 1), owner);
      EvictElsewhere(Append(live, scope, packet, ds, clock(tick + 1)), scope, test, owner);
  }

  lemma AppendOwners(packets: seq<Packet>, scope: Scope, id: nat, ds: DataSet, at: nat, owner: map<nat, Scope>)
    requires OwnersKnown(packets, owner) && id in owner && owner[id] == scope
    ensures OwnersKnown(Append(packets, scope, id, ds, at), owner)
  {
    forall p | p in Append(packets, scope, id, ds, at) ensures p.id in owner && owner[p.id] == p.scope {
      AppendMembers(packets, scope, id, ds, at, p);
    }
  }

  // ----- the invariant is preserved -----

  lemma SubsetSize<T>(a: set<T>, b: set<T>)
    requires a <= b
    ensures |a| <= |b|
  {
    assert b == a + (b - a);
  }

  lemma ViewKeys(t: Templates, t': Templates, scope: Scope)
    requires View(t', InScope(scope)).Keys <= t.Keys
    ensures |ScopeKeys(t', scope)| <= |ScopeKeys(t, scope)|
  {
    forall k | k in ScopeKeys(t', scope) ensures k in ScopeKeys(t, scope) {
      assert k in View(t', InScope(scope)).Keys;
    }
    SubsetSize(ScopeKeys(t', scope), ScopeKeys(t, scope));
  }

  lemma {:induction false} KeepShorter(packets: seq<Packet>, a: Test, b: Test)
    ensures |Keep(Keep(packets, a), b)| <= |Keep(packets, b)|
  {
    KeepSwap(packets, a, b);
  }

  lemma {:induction false} LearnLimit(t: Templates, scope: Scope, defs: seq<Definition>, clock: nat -> nat, tick: nat)
    requires |ScopeKeys(t, scope)| <= TEMPLATE_LIMIT
    ensures |ScopeKeys(LearnAll(t, scope, defs, clock, tick), scope)| <= TEMPLATE_LIMIT
    decreases |defs|
  {
    if defs != [] {
      LearnLimit(LearnOne(t, scope, defs[0], clock(tick)), scope, defs[1..], clock, tick + 1);
    }
  }

  predicate HeadKnown(work: seq<Task>, owner: map<nat, Scope>) {
    work != [] && (TaskPacket(work[0]).Some? ==>
      TaskPacket(work[0]).value in owner && owner[TaskPacket(work[0]).value] == work[0].scope)
  }

  lemma SectionKeepsLimits(s: Shared, l: Local, clock: nat -> nat, tick: nat, owner: map<nat, Scope>)
    requires HeadKnown(l.work, owner) && OwnersKnown(s.orphans, owner) && WithinLimits(s)
    ensures WithinLimits(Section(s, l, clock, tick).0)
  {
    hide Section; hide Keep; hide ScopeKeys;
    var s', now := Section(s, l, clock, tick).0, clock(tick);
    forall other ensures ScopeWithinLimits(s', other) {
      assert ScopeWithinLimits(s, other);
      if other == l.work[0].scope {
        ScopeLimits(s, l, clock, tick);
      } else {
        Isolation(s, l, clock, tick, InScope(other), owner);
        ViewKeys(s.templates, s'.templates, other);
        KeepShorter(s.orphans, Alive(now), InScope(other));
      }
    }
  }

  lemma ScopeLimits(s: Shared, l: Local, clock: nat -> nat, tick: nat)
    requires l.work != [] && ScopeWithinLimits(s, l.work[0].scope)
    ensures ScopeWithinLimits(Section(s, l, clock, tick).0, l.work[0].scope)
  {
    var scope, now := l.work[0].scope, clock(tick);
    var swept := SweepTemplates(s.templates, now);
    SubsetSize(ScopeKeys(swept, scope), ScopeKeys(s.templates, scope));
    match l.work[0]
    case Learn(_, defs) => LearnLimit(swept, scope, defs, clock, tick + 1);
    case Replay(_) => KeepNone(Keep(Keep(s.orphans, Alive(now)), Not(InScope(scope))), InScope(scope));
    case Look(_, _, _) =>
    case Park(_, _, _) =>
  }

  /** Every waiting packet was waiting before, or is the one just parked; the same holds of its data sets. */
  lemma PacketsFrom(s: Shared, l: Local, clock: nat -> nat, tick: nat, owner: map<nat, Scope>, p: Packet)
    requires HeadKnown(l.work, owner) && OwnersKnown(s.orphans, owner) && Ordered(s.orphans)
    requires p in Section(s, l, clock, tick).0.orphans
    ensures !l.work[0].Park? ==> p in s.orphans
    ensures l.work[0].Park? ==> p in s.orphans || (p.id == l.work[0].packet && p.scope == l.work[0].scope)
    ensures forall d :: d in p.sets ==>
              HasSet(s.orphans, p.id, p.scope,
                     d) || (l.work[0].Park? && d == l.work[0].ds && p.scope == l.work[0].scope)
  {
    if l.work[0].Park? {
      ParkedFrom(s, l.work[0], clock(tick), clock(tick + 1), owner, p);
    }
  }

  lemma ParkedFrom(s: Shared, task: Task, now: nat, stamp: nat, owner: map<nat, Scope>, p: Packet)
    requires task.Park? && HeadKnown([task], owner) && OwnersKnown(s.orphans, owner) && Ordered(s.orphans)
    requires p in Evict(Append(Keep(s.orphans, Alive(now)), task.scope, task.packet, task.ds, stamp), task.scope)
    ensures p in s.orphans || (p.id == task.packet && p.scope == task.scope)
    ensures forall d :: d in p.sets ==> HasSet(s.orphans, p.id, p.scope, d) || (d == task.ds && p.scope == task.scope)
  {
    hide Evict; hide Append; hide Keep;
    var live := Keep(s.orphans, Alive(now));
    ParkedOrdered(s, task, now, stamp, owner);
    AppendMembers(live, task.scope, task.packet, task.ds, stamp, p);
    forall d | d in p.sets && !(d == task.ds && p.scope == task.scope) ensures HasSet(s.orphans, p.id, p.scope, d) {
      if HasSet(live, p.id, p.scope, d) {
        var q :| q in live && q.id == p.id && q.scope == p.scope && d in q.sets;
        assert q in s.orphans;
      }
    }
  }

  lemma ParkedOrdered(s: Shared, task: Task, now: nat, stamp: nat, owner: map<nat, Scope>)
    requires task.Park? && HeadKnown([task], owner) && OwnersKnown(s.orphans, owner) && Ordered(s.orphans)
    ensures var more := Append(Keep(s.orphans, Alive(now)), task.scope, task.packet, task.ds, stamp);
            forall p :: p in Evict(more, task.scope) ==> p in more
    ensures var more := Append(Keep(s.orphans, Alive(now)), task.scope, task.packet, task.ds, stamp);
            NotAfter(s.orphans, task.scope, task.packet) ==> Ordered(more) && Ordered(Evict(more, task.scope))
  {
    hide Keep; hide Append; hide Evict;
    var live := Keep(s.orphans, Alive(now));
    var more := Append(live, task.scope, task.packet, task.ds, stamp);
    KeepOrdered(s.orphans, Alive(now));
    EvictMembers(more, task.scope);
    if NotAfter(s.orphans, task.scope, task.packet) {
      AppendOrdered(live, task.scope, task.packet, task.ds, stamp);
      EvictOrdered(more, task.scope);
    }
  }

  lemma {:induction false} EvictMembers(packets: seq<Packet>, scope: Scope)
    ensures forall p :: p in Evict(packets, scope) ==> p in packets
    decreases |packets|
  {
    if |Keep(packets, InScope(scope))| > ORPHAN_PACKET_LIMIT {
      var least := LeastId(Keep(packets, InScope(scope)));
      DropShrinks(packets, HasId(least));
      EvictMembers(Keep(packets, Not(HasId(least))), scope);
    }
  }

  lemma SectionKeepsCaches(s: Shared, l: Local, f: Format, clock: nat -> nat, tick: nat, owner: map<nat, Scope>)
    requires CacheInv(s, owner) && ListenerInv(s, l.work, f, owner) && l.work != []
    ensures CacheInv(Section(s, l, clock, tick).0, owner)
  {
    hide Keep; hide Append; hide Evict; hide LearnAll; hide WithinLimits;
    var s' := Section(s, l, clock, tick).0;
    SectionKeepsLimits(s, l, clock, tick, owner);
    forall p | p in s'.orphans ensures p.id in owner && owner[p.id] == p.scope {
      PacketsFrom(s, l, clock, tick, owner, p);
    }
    var now := clock(tick);
    match l.work[0]
    case Learn(_, _) =>
    case Look(_, _, _) =>
    case Replay(scope) =>
      KeepOrdered(s.orphans, Alive(now));
      KeepOrdered(Keep(s.orphans, Alive(now)), Not(InScope(scope)));
    case Park(scope, packet, ds) =>
      assert NotAfter(s.orphans, scope, TaskPacket(l.work[0]).value);
      ParkedOrdered(s, l.work[0], now, clock(tick + 1), owner);
  }

  /** What the other listener relies on survives, because of Isolation. */
  lemma SectionKeepsOther(s: Shared, l: Local, clock: nat -> nat, tick: nat, owner: map<nat, Scope>, work: seq<Task>,
                          g: Format)
    requires HeadKnown(l.work, owner) && OwnersKnown(s.orphans, owner)
    requires l.work[0].scope.format != g && ListenerInv(s, work, g, owner)
    ensures ListenerInv(Section(s, l, clock, tick).0, work, g, owner)
  {
    hide Section; hide Keep; hide WorkInOrder;
    var s' := Section(s, l, clock, tick).0;
    Isolation(s, l, clock, tick, OfFormat(g), owner);
    assert forall p :: p in s'.orphans && p.scope.format == g ==> p in s.orphans by {
      forall p | p in s'.orphans && p.scope.format == g ensures p in s.orphans {
        assert p in Keep(s'.orphans, OfFormat(g));
      }
    }
    assert forall k :: k in s'.templates && k.scope.format == g ==> k in s.templates by {
      forall k | k in s'.templates && k.scope.format == g ensures k in s.templates {
        assert k in View(s'.templates, OfFormat(g));
      }
    }
    forall i | 0 <= i < |work| && TaskPacket(work[i]).Some?
      ensures NotAfter(s'.orphans, work[i].scope, TaskPacket(work[i]).value)
    {
      assert work[i].scope.format == g by { assert WorkInOrder(work, owner); ScopesAgree(work, owner, i); }
      assert NotAfter(s.orphans, work[i].scope, TaskPacket(work[i]).value);
    }
  }

  lemma ScopesAgree(work: seq<Task>, owner: map<nat, Scope>, i: nat)
    requires WorkInOrder(work, owner) && i < |work|
    ensures work[i].scope == work[0].scope
  {
  }

  // ----- what the listener itself relies on -----

  lemma WorkTail(work: seq<Task>, owner: map<nat, Scope>)
    requires work != [] && WorkInOrder(work, owner)
    ensures WorkInOrder(work[1..], owner)
    ensures forall i :: 0 <= i < |work[1..]| ==> work[1..][i].scope == work[0].scope
    ensures forall i :: 0 <= i < |work[1..]| ==> !work[1..][i].Park? && !work[1..][i].Replay?
  {
    var rest := work[1..];
    forall i | 0 <= i < |rest| ensures rest[i].scope == work[0].scope && !rest[i].Park? && !rest[i].Replay? {
      assert rest[i] == work[i + 1];
    }
    forall i, j | 0 <= i < j < |rest| && TaskPacket(rest[i]).Some? && TaskPacket(rest[j]).Some?
      ensures TaskPacket(rest[i]).value <= TaskPacket(rest[j]).value
    {
      assert rest[i] == work[i + 1] && rest[j] == work[j + 1];
    }
  }

  lemma WorkCons(head: Task, rest: seq<Task>, owner: map<nat, Scope>)
    requires WorkInOrder(rest, owner)
    requires forall i :: 0 <= i < |rest| ==> rest[i].scope == head.scope && !rest[i].Park? && !rest[i].Replay?
    requires TaskPacket(head).Some? ==> TaskPacket(head).value in owner && owner[TaskPacket(head).value] == head.scope
    requires forall i :: 0 <= i < |rest| && TaskPacket(head).Some? && TaskPacket(rest[i]).Some? ==>
               TaskPacket(head).value <= TaskPacket(rest[i]).value
    ensures WorkInOrder([head] + rest, owner)
  {
  }

  lemma LearnKeepsListener(s: Shared, l: Local, f: Format, clock: nat -> nat, tick: nat, owner: map<nat, Scope>)
    requires OwnersKnown(s.orphans, owner) && ListenerInv(s, l.work, f, owner) && l.work != [] && l.work[0].Learn?
    ensures var (s', l') := Section(s, l, clock, tick); ListenerInv(s', l'.work, f, owner)
  {
    hide LearnAll;
    var scope, rest := l.work[0].scope, l.work[1..];
    var s' := Section(s, l, clock, tick).0;
    WorkTail(l.work, owner);
    WorkCons(Replay(scope), rest, owner);
    forall i | 0 <= i < |rest| && TaskPacket(rest[i]).Some?
      ensures NotAfter(s'.orphans, rest[i].scope, TaskPacket(rest[i]).value)
    {
      assert rest[i] == l.work[i + 1];
    }
    forall p, ds | p in s'.orphans && p.scope.format == f && ds in p.sets && p.scope != scope
      ensures Key(p.scope, ds.id) !in s'.templates
    {
      Isolation(s, l, clock, tick, InScope(p.scope), owner);
      assert Key(p.scope, ds.id) !in s.templates;
      assert Key(p.scope, ds.id) !in View(s'.templates, InScope(p.scope));
    }
  }

  lemma {:induction false} SetLooksShape(scope: Scope, packet: nat, sets: seq<DataSet>)
    ensures forall t :: t in SetLooks(scope, packet, sets) ==>
              t.Look? && t.scope == scope && t.packet == packet && t.ds in sets
  {
    if sets != [] { SetLooksShape(scope, packet, sets[1..]); }
  }

  /** The packet ids of a list of look-ups never decrease and lie between the bounds. */
  predicate LooksBetween(work: seq<Task>, scope: Scope, low: nat, high: nat) {
    && (forall i :: 0 <= i < |work| ==> work[i].Look? && work[i].scope == scope && low <= work[i].packet <= high)
    && (forall i, j :: 0 <= i < j < |work| ==> work[i].packet <= work[j].packet)
  }

  lemma {:induction false} PacketLooksShape(scope: Scope, packets: seq<Packet>, low: nat, high: nat)
    requires Ordered(packets) && forall p :: p in packets ==> p.scope == scope && low <= p.id <= high
    ensures LooksBetween(PacketLooks(scope, packets), scope, low, high)
    ensures forall t :: t in PacketLooks(scope, packets) ==> exists p :: p in packets && p.id == t.packet
  {
    if packets != [] {
      OrderedTail(packets);
      var p := packets[0];
      var first, more := SetLooks(scope, p.id, p.sets), PacketLooks(scope, packets[1..]);
      SetLooksShape(scope, p.id, p.sets);
      PacketLooksShape(scope, packets[1..], p.id, high);
      assert forall i :: 0 <= i < |first| ==> first[i] in first;
      assert PacketLooks(scope, packets) == first + more;
    }
  }

  lemma ReplayKeepsListener(s: Shared, l: Local, f: Format, clock: nat -> nat, tick: nat, owner: map<nat, Scope>)
    requires CacheInv(s, owner) && ListenerInv(s, l.work, f, owner) && l.work != [] && l.work[0].Replay?
    ensures var (s', l') := Section(s, l, clock, tick); ListenerInv(s', l'.work, f, owner)
  {
    hide Keep; hide WithinLimits; hide PacketLooks; hide Ordered; hide Section; hide WorkInOrder; hide NoneOverlooked;
    hide NotAfter;
    var scope, rest := l.work[0].scope, l.work[1..];
    var (s', l') := Section(s, l, clock, tick);
    ReplaySection(s, l, clock, tick);
    var live := Keep(s.orphans, Alive(clock(tick)));
    var waiting := Keep(live, InScope(scope));
    KeepOrdered(s.orphans, Alive(clock(tick)));
    KeepOrdered(live, InScope(scope));
    WorkTail(l.work, owner);
    ReplayedWork(waiting, scope, rest, owner, s.orphans, l.work);
    assert forall i :: 0 <= i < |l'.work| ==> l'.work[i].scope == scope;
    forall p | p in s'.orphans ensures p.scope != scope && p in s.orphans {
      assert Holds(Not(InScope(scope)), p);
    }
    ReplayOverlooksNone(s, s', l.work, l'.work, f);
    NothingLater(s'.orphans, scope, l'.work);
    if l'.work != [] { assert !l'.work[0].Park?; }
  }

  lemma ReplayOverlooksNone(s: Shared, s': Shared, work: seq<Task>, work': seq<Task>, f: Format)
    requires work != [] && work[0].Replay? && NoneOverlooked(s, work, f) && s'.templates == s.templates
    requires forall p :: p in s'.orphans ==> p.scope != work[0].scope && p in s.orphans
    ensures NoneOverlooked(s', work', f)
  {
  }

  lemma NothingLater(orphans: seq<Packet>, scope: Scope, work: seq<Task>)
    requires forall p :: p in orphans ==> p.scope != scope
    requires forall i :: 0 <= i < |work| ==> work[i].scope == scope
    ensures forall i :: 0 <= i < |work| && TaskPacket(work[i]).Some? ==>
              NotAfter(orphans, work[i].scope, TaskPacket(work[i]).value)
  {
  }

  lemma ReplayedWork(waiting: seq<Packet>, scope: Scope, rest: seq<Task>, owner: map<nat, Scope>, orphans: seq<Packet>,
                     work: seq<Task>)
    requires Ordered(waiting) && OwnersKnown(orphans, owner)
    requires forall p :: p in waiting ==> p in orphans && p.scope == scope
    requires work != [] && work[1..] == rest && work[0].scope == scope && WorkInOrder(rest, owner)
    requires forall i :: 0 <= i < |rest| ==> rest[i].scope == scope && !rest[i].Park? && !rest[i].Replay?
    requires forall i :: 0 <= i < |work| && TaskPacket(work[i]).Some? ==>
               NotAfter(orphans, work[i].scope, TaskPacket(work[i]).value)
    ensures var work' := PacketLooks(scope, waiting) + rest;
            WorkInOrder(work', owner) && (forall i :: 0 <= i < |work'| ==> work'[i].scope == scope && !work'[i].Park?)
  {
    var looks := PacketLooks(scope, waiting);
    var high := HighestId(waiting);
    PacketLooksShape(scope, waiting, 0, high);
    forall i | 0 <= i < |looks| ensures looks[i].packet in owner && owner[looks[i].packet] == scope {
      assert looks[i] in looks;
    }
    forall i, j | 0 <= i < |looks| && 0 <= j < |rest| && TaskPacket(rest[j]).Some?
      ensures looks[i].packet <= TaskPacket(rest[j]).value
    {
      assert looks[i] in looks;
      var p :| p in waiting && p.id == looks[i].packet;
      assert rest[j] == work[j + 1];
      assert NotAfter(orphans, rest[j].scope, TaskPacket(rest[j]).value);
    }
    WorkConcat(looks, rest, scope, owner);
  }

  lemma WorkConcat(looks: seq<Task>, rest: seq<Task>, scope: Scope, owner: map<nat, Scope>)
    requires forall i :: 0 <= i < |looks| ==> looks[i].Look? && looks[i].scope == scope
    requires forall i :: 0 <= i < |looks| ==> looks[i].packet in owner && owner[looks[i].packet] == scope
    requires forall i, j :: 0 <= i < j < |looks| ==> looks[i].packet <= looks[j].packet
    requires WorkInOrder(rest, owner)
    requires forall i :: 0 <= i < |rest| ==> rest[i].scope == scope && !rest[i].Park? && !rest[i].Replay?
    requires forall i, j :: 0 <= i < |looks| && 0 <= j < |rest| && TaskPacket(rest[j]).Some? ==>
               looks[i].packet <= TaskPacket(rest[j]).value
    ensures WorkInOrder(looks + rest, owner)
    ensures forall i :: 0 <= i < |looks + rest| ==> (looks + rest)[i].scope == scope && !(looks + rest)[i].Park?
  {
    var work := looks + rest;
    forall i, j | 0 <= i < j < |work| && TaskPacket(work[i]).Some? && TaskPacket(work[j]).Some?
      ensures TaskPacket(work[i]).value <= TaskPacket(work[j]).value
    {
      if i >= |looks| { assert work[i] == rest[i - |looks|] && work[j] == rest[j - |looks|]; }
      else if j >= |looks| { assert work[j] == rest[j - |looks|]; }
    }
  }

  function HighestId(packets: seq<Packet>): (id: nat)
    ensures forall p :: p in packets ==> p.id <= id
  {
    if packets == [] then 0
    else
      var more := HighestId(packets[1..]);
      if packets[0].id <= more then more else packets[0].id
  }

  lemma LookKeepsListener(s: Shared, l: Local, f: Format, clock: nat -> nat, tick: nat, owner: map<nat, Scope>)
    requires ListenerInv(s, l.work, f, owner) && l.work != [] && l.work[0].Look?
    ensures var (s', l') := Section(s, l, clock, tick); ListenerInv(s', l'.work, f, owner)
  {
    var task, rest := l.work[0], l.work[1..];
    var (s', l') := Section(s, l, clock, tick);
    WorkTail(l.work, owner);
    assert forall i :: 0 <= i < |rest| ==> rest[i] == l.work[i + 1];
    WorkCons(Park(task.scope, task.packet, task.ds), rest, owner);
    assert NotAfter(s.orphans, task.scope, TaskPacket(task).value);
    forall i | 0 <= i < |l'.work| && TaskPacket(l'.work[i]).Some?
      ensures NotAfter(s'.orphans, l'.work[i].scope, TaskPacket(l'.work[i]).value)
    {
      if l'.work == rest { assert l'.work[i] == l.work[i + 1]; }
      else if i > 0 { assert l'.work[i] == l.work[i]; }
    }
    forall p, ds | p in s'.orphans && p.scope.format == f && ds in p.sets ensures Key(p.scope, ds.id) !in s'.templates {
      assert Key(p.scope, ds.id) !in s.templates;
    }
  }

  lemma ParkKeepsListener(s: Shared, l: Local, f: Format, clock: nat -> nat, tick: nat, owner: map<nat, Scope>)
    requires CacheInv(s, owner) && ListenerInv(s, l.work, f, owner) && l.work != [] && l.work[0].Park?
    ensures var (s', l') := Section(s, l, clock, tick); ListenerInv(s', l'.work, f, owner)
  {
    hide Keep; hide WithinLimits; hide Evict; hide Append; hide Ordered;
    var task, rest := l.work[0], l.work[1..];
    var s' := Section(s, l, clock, tick).0;
    WorkTail(l.work, owner);
    assert s'.templates == s.templates;
    forall i | 0 <= i < |rest| && TaskPacket(rest[i]).Some?
      ensures NotAfter(s'.orphans, rest[i].scope, TaskPacket(rest[i]).value)
    {
      assert rest[i] == l.work[i + 1];
      assert TaskPacket(l.work[0]).value <= TaskPacket(l.work[i + 1]).value;
      assert NotAfter(s.orphans, rest[i].scope, TaskPacket(rest[i]).value);
      forall p | p in s'.orphans && p.scope == rest[i].scope ensures p.id <= TaskPacket(rest[i]).value {
        PacketsFrom(s, l, clock, tick, owner, p);
      }
    }
    forall p, ds | p in s'.orphans && p.scope.format == f && ds in p.sets ensures Key(p.scope, ds.id) !in s'.templates {
      PacketsFrom(s, l, clock, tick, owner, p);
      if HasSet(s.orphans, p.id, p.scope, ds) {
        var q :| q in s.orphans && q.id == p.id && q.scope == p.scope && ds in q.sets;
        assert Key(q.scope, ds.id) !in s.templates;
      }
    }
  }

  lemma SectionKeepsListener(s: Shared, l: Local, f: Format, clock: nat -> nat, tick: nat, owner: map<nat, Scope>)
    requires CacheInv(s, owner) && ListenerInv(s, l.work, f, owner) && l.work != []
    ensures var (s', l') := Section(s, l, clock, tick); ListenerInv(s', l'.work, f, owner)
  {
    hide Section; hide ListenerInv; hide CacheInv;
    assert OwnersKnown(s.orphans, owner) by { assert CacheInv(s, owner); CacheOwners(s, owner); }
    match l.work[0]
    case Learn(_, _) => LearnKeepsListener(s, l, f, clock, tick, owner);
    case Replay(_) => ReplayKeepsListener(s, l, f, clock, tick, owner);
    case Look(_, _, _) => LookKeepsListener(s, l, f, clock, tick, owner);
    case Park(_, _, _) => ParkKeepsListener(s, l, f, clock, tick, owner);
  }

  lemma CacheOwners(s: Shared, owner: map<nat, Scope>)
    requires CacheInv(s, owner)
    ensures OwnersKnown(s.orphans, owner)
  {
  }

  lemma ListenerHead(s: Shared, work: seq<Task>, f: Format, owner: map<nat, Scope>)
    requires ListenerInv(s, work, f, owner) && work != []
    ensures HeadKnown(work, owner) && work[0].scope.format == f
  {
  }

  // ----- receiving a message -----

  lemma {:induction false} MessageShape(scope: Scope, packet: nat, sets: seq<RawSet>)
    ensures forall t :: t in MessageTasks(scope, packet, sets) ==>
              t.scope == scope && (t.Learn? || (t.Look? && t.packet == packet))
  {
    if sets != [] { MessageShape(scope, packet, sets[1..]); }
  }

  lemma ReceiveKeepsInv(sys: System, scope: Scope, packet: nat, sets: seq<RawSet>, clock: nat -> nat)
    requires Inv(sys) && Enabled(sys, Receive(scope, packet, sets))
    ensures Inv(Apply(sys, Receive(scope, packet, sets), clock))
  {
    hide Keep; hide WithinLimits; hide MessageTasks; hide WorkItems;
    var owner', work := sys.owner[packet := scope], MessageTasks(scope, packet, sets);
    assert packet !in sys.owner;
    MessageShape(scope, packet, sets);
    assert forall i :: 0 <= i < |work| ==> work[i] in work;
    assert ListenerInv(sys.shared, work, scope.format, owner');
    GrowOwners(sys.shared, sys.v9.work, NetFlowV9, sys.owner, owner');
    GrowOwners(sys.shared, sys.ipfix.work, Ipfix, sys.owner, owner');
  }

  lemma GrowOwners(s: Shared, work: seq<Task>, f: Format, owner: map<nat, Scope>, owner': map<nat, Scope>)
    requires ListenerInv(s, work, f, owner)
    requires forall id :: id in owner ==> id in owner' && owner'[id] == owner[id]
    ensures ListenerInv(s, work, f, owner')
  {
  }

  // ----- main results -----

  lemma EnterKeepsInv(sys: System, f: Format, tick: nat, clock: nat -> nat)
    requires Inv(sys) && Enabled(sys, Enter(f, tick))
    ensures Inv(Apply(sys, Enter(f, tick), clock))
  {
    hide Section; hide CacheInv; hide ListenerInv;
    var g := if f == NetFlowV9 then Ipfix else NetFlowV9;
    var l := sys.Of(f);
    CacheOwners(sys.shared, sys.owner);
    ListenerHead(sys.shared, l.work, f, sys.owner);
    SectionKeepsCaches(sys.shared, l, f, clock, tick, sys.owner);
    SectionKeepsListener(sys.shared, l, f, clock, tick, sys.owner);
    SectionKeepsOther(sys.shared, l, clock, tick, sys.owner, sys.Of(g).work, g);
  }

  /** Every reachable state keeps the limits, the packet order and the rule that nothing decodable is left waiting. */
  lemma {:induction false} Safety(sys: System, events: seq<Event>, clock: nat -> nat)
    requires Inv(sys) && Legal(sys, events, clock)
    ensures Inv(Run(sys, events, clock))
    decreases |events|
  {
    hide Inv; hide Apply;
    if events != [] {
      match events[0] {
        case Receive(scope, packet, sets) => ReceiveKeepsInv(sys, scope, packet, sets, clock);
        case Enter(f, tick) => EnterKeepsInv(sys, f, tick, clock);
      }
      Safety(Apply(sys, events[0], clock), events[1..], clock);
    }
  }

  lemma InitiallySafe()
    ensures Inv(INITIAL) && Conserved(INITIAL)
  {
    forall scope ensures ScopeWithinLimits(INITIAL.shared, scope) {
      assert ScopeKeys(INITIAL.shared.templates, scope) == {};
    }
  }

  /** The balance, seen from listener `f`. */
  lemma BalanceOf(sys: System, f: Format)
    ensures var g := if f == NetFlowV9 then Ipfix else NetFlowV9;
            var others := DecodedItems(sys.Of(g).out) + WorkItems(sys.Of(g).work);
            Conserved(sys) <==>
              sys.received == Held(sys.shared, sys.Of(f)) + others + sys.ledger.expired + sys.ledger.evicted
  {
    hide PacketItems; hide DecodedItems; hide WorkItems;
  }

  lemma Transfer(before: multiset<Item>, after: multiset<Item>, others: multiset<Item>, expired: multiset<Item>,
                 evicted: multiset<Item>, newlyExpired: multiset<Item>, newlyEvicted: multiset<Item>)
    requires before == after + newlyExpired + newlyEvicted
    ensures before + others + expired + evicted == after + others + (expired + newlyExpired) + (evicted + newlyEvicted)
  {
  }

  /** What entering a critical section changes. */
  lemma EnterShape(sys: System, f: Format, tick: nat, clock: nat -> nat)
    requires Enabled(sys, Enter(f, tick))
    ensures var sys', task := Apply(sys, Enter(f, tick), clock), sys.Of(f).work[0];
            var g := if f == NetFlowV9 then Ipfix else NetFlowV9;
            && (sys'.shared, sys'.Of(f)) == Section(sys.shared, sys.Of(f), clock, tick)
            && sys'.Of(g) == sys.Of(g) && sys'.received == sys.received
            && sys'.ledger == Ledger(sys.ledger.expired + ExpiredBy(sys.shared, task, clock(tick)),
                                     sys.ledger.evicted + EvictedBy(sys.shared, task, clock(tick), clock(tick + 1)))
  {
    hide Section; hide ExpiredBy; hide EvictedBy;
  }

  lemma EnterConserves(sys: System, f: Format, tick: nat, clock: nat -> nat)
    requires Inv(sys) && Conserved(sys) && Enabled(sys, Enter(f, tick))
    ensures Conserved(Apply(sys, Enter(f, tick), clock))
  {
    hide Section; hide ExpiredBy; hide EvictedBy; hide Held; hide Conserved; hide CacheInv; hide ListenerInv;
    var g := if f == NetFlowV9 then Ipfix else NetFlowV9;
    var l, now := sys.Of(f), clock(tick);
    CacheOwners(sys.shared, sys.owner);
    ListenerHead(sys.shared, l.work, f, sys.owner);
    SectionConserves(sys.shared, l, clock, tick);
    BalanceOf(sys, f);
    BalanceOf(Apply(sys, Enter(f, tick), clock), f);
    EnterShape(sys, f, tick, clock);
    hide *;
    var (s', l') := Section(sys.shared, l, clock, tick);
    Transfer(Held(sys.shared, l), Held(s', l'), DecodedItems(sys.Of(g).out) + WorkItems(sys.Of(g).work),
             sys.ledger.expired, sys.ledger.evicted,
             ExpiredBy(sys.shared, l.work[0], now), EvictedBy(sys.shared, l.work[0], now, clock(tick + 1)));
  }

  lemma ReceiveConserves(sys: System, scope: Scope, packet: nat, sets: seq<RawSet>, clock: nat -> nat)
    requires Conserved(sys) && Enabled(sys, Receive(scope, packet, sets))
    ensures Conserved(Apply(sys, Receive(scope, packet, sets), clock))
  {
    hide PacketItems; hide DecodedItems; hide Conserved; hide MessageTasks;
    var f, sys' := scope.format, Apply(sys, Receive(scope, packet, sets), clock);
    var g := if f == NetFlowV9 then Ipfix else NetFlowV9;
    var work := MessageTasks(scope, packet, sets);
    BalanceOf(sys, f);
    BalanceOf(sys', f);
    assert Held(sys'.shared, sys'.Of(f)) == Held(sys.shared, sys.Of(f)) + WorkItems(work);
    assert sys'.Of(g) == sys.Of(g);
  }

  lemma StepConserves(sys: System, event: Event, clock: nat -> nat)
    requires Inv(sys) && Conserved(sys) && Enabled(sys, event)
    ensures Conserved(Apply(sys, event, clock))
  {
    hide Inv; hide Apply; hide Conserved;
    match event
    case Receive(scope, packet, sets) => ReceiveConserves(sys, scope, packet, sets, clock);
    case Enter(f, tick) => EnterConserves(sys, f, tick, clock);
  }

  /**
   * Exactly-once accounting. At every moment of every run, each data set received is decoded, in flight
   * within a listener, waiting, expired or evicted; and no data set is in two accounts or twice in one
   * (these are equalities of multisets, so multiplicities count).
   */
  lemma {:induction false} EverythingAccountedFor(sys: System, events: seq<Event>, clock: nat -> nat)
    requires Inv(sys) && Conserved(sys) && Legal(sys, events, clock)
    ensures Conserved(Run(sys, events, clock))
    decreases |events|
  {
    hide Inv; hide Apply; hide Conserved;
    if events != [] {
      StepConserves(sys, events[0], clock);
      Safety(sys, [events[0]], clock);
      assert [events[0]][1..] == [];
      EverythingAccountedFor(Apply(sys, events[0], clock), events[1..], clock);
    }
  }
  /**
   * The same from the start, for one data set and two idle listeners: as often as it was received, so often
   * it is decoded, waiting, expired or evicted.
   */
  lemma ExactlyOnce(events: seq<Event>, clock: nat -> nat, item: Item)
    requires Legal(INITIAL, events, clock)
    requires Run(INITIAL, events, clock).v9.work == [] && Run(INITIAL, events, clock).ipfix.work == []
    ensures var sys := Run(INITIAL, events, clock);
            && Inv(sys)
            && sys.received[item] == DecodedItems(sys.v9.out)[item] + DecodedItems(sys.ipfix.out)[item]
                                     + PacketItems(sys.shared.orphans)[item] + sys.ledger.expired[item]
                                     + sys.ledger.evicted[item]
  {
    hide Inv; hide Run; hide Legal; hide PacketItems; hide DecodedItems;
    InitiallySafe();
    Safety(INITIAL, events, clock);
    EverythingAccountedFor(INITIAL, events, clock);
    assert WorkItems([]) == multiset{};
  }
}
