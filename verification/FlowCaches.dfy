/**
 * The template cache and the orphan cache of src/flow.rs as values, and the critical sections
 * that transform them. A listener is a work list of tasks; each task is one critical section.
 */
module FlowCaches {
  import opened Basics
  import opened FlowRecords
  import opened FlowFraming
  import opened FlowDecoder

  // Instants are nanoseconds.
  const TEMPLATE_TTL := 1_800_000_000_000
  const ORPHAN_TTL := 10_000_000_000
  const TEMPLATE_LIMIT := 256
  const ORPHAN_PACKET_LIMIT := 100

  datatype Scope = Scope(format: Format, exporter: seq<byte>, domain: nat)

  datatype Key = Key(scope: Scope, id: nat)

  datatype Cached = Cached(fields: seq<Field>, at: nat)

  type Templates = map<Key, Cached>

  datatype DataSet = DataSet(id: nat, body: seq<byte>)

  /** The data sets of one message that wait for their templates. */
  datatype Packet = Packet(id: nat, scope: Scope, sets: seq<DataSet>, at: nat)

  datatype Shared = Shared(templates: Templates, orphans: seq<Packet>)

  // ----- retaining packets -----

  /** The conditions under which the orphan cache retains or picks packets. */
  datatype Test = Alive(now: nat) | InScope(scope: Scope) | OfFormat(format: Format) | HasId(id: nat) | Not(test: Test)

  predicate Holds(test: Test, p: Packet) {
    match test
    case Alive(now) => now <= p.at + ORPHAN_TTL
    case InScope(scope) => p.scope == scope
    case OfFormat(format) => p.scope.format == format
    case HasId(id) => p.id == id
    case Not(other) => !Holds(other, p)
  }

  function Keep(packets: seq<Packet>, test: Test): (kept: seq<Packet>)
    ensures |kept| <= |packets|
    ensures forall p :: p in kept <==> p in packets && Holds(test, p)
  {
    if packets == [] then []
    else (if Holds(test, packets[0]) then [packets[0]] else []) + Keep(packets[1..], test)
  }

  lemma {:induction false} KeepSwap(packets: seq<Packet>, a: Test, b: Test)
    ensures Keep(Keep(packets, a), b) == Keep(Keep(packets, b), a)
  {
    if packets != [] {
      KeepSwap(packets[1..], a, b);
      KeepStep(packets, a);
      KeepStep(packets, b);
      if Holds(a, packets[0]) { KeepStep(Keep(packets, a), b); }
      if Holds(b, packets[0]) { KeepStep(Keep(packets, b), a); }
    }
  }

  lemma KeepStep(packets: seq<Packet>, test: Test)
    requires packets != []
    ensures Keep(packets, test) ==
            if Holds(test, packets[0]) then [packets[0]] + Keep(packets[1..], test) else Keep(packets[1..], test)
    ensures Holds(test, packets[0]) ==> Keep(packets, test)[1..] == Keep(packets[1..], test)
  {
  }

  lemma {:induction false} KeepAll(packets: seq<Packet>, test: Test)
    requires forall p :: p in packets ==> Holds(test, p)
    ensures Keep(packets, test) == packets
  {
    if packets != [] { KeepAll(packets[1..], test); }
  }

  lemma {:induction false} KeepNone(packets: seq<Packet>, test: Test)
    requires forall p :: p in packets ==> !Holds(test, p)
    ensures Keep(packets, test) == []
  {
    if packets != [] { KeepNone(packets[1..], test); }
  }

  /** A test implied by another adds nothing to it. */
  lemma {:induction false} KeepStronger(packets: seq<Packet>, strong: Test, weak: Test)
    requires forall p :: p in packets && Holds(strong, p) ==> Holds(weak, p)
    ensures Keep(Keep(packets, weak), strong) == Keep(packets, strong)
  {
    if packets != [] {
      KeepStronger(packets[1..], strong, weak);
      KeepStep(packets, weak);
      KeepStep(packets, strong);
      if Holds(weak, packets[0]) { KeepStep(Keep(packets, weak), strong); }
    }
  }

  // ----- the orphan cache -----

  /** Adds a data set to the packet `id`, which is created at the end when there is none. */
  function Append(packets: seq<Packet>, scope: Scope, id: nat, ds: DataSet, at: nat): (r: seq<Packet>)
    ensures |packets| <= |r| <= |packets| + 1
  {
    if packets == [] then [Packet(id, scope, [ds], at)]
    else if packets[0].id == id then [packets[0].(sets := packets[0].sets + [ds])] + packets[1..]
    else [packets[0]] + Append(packets[1..], scope, id, ds, at)
  }

  function LeastId(packets: seq<Packet>): (id: nat)
    requires packets != []
    ensures exists p :: p in packets && p.id == id
    ensures forall p :: p in packets ==> id <= p.id
  {
    if |packets| == 1 then packets[0].id
    else
      var least := LeastId(packets[1..]);
      if packets[0].id <= least then packets[0].id else least
  }

  /** Drops the packets with the least id of `scope` until at most ORPHAN_PACKET_LIMIT are left in it. */
  function Evict(packets: seq<Packet>, scope: Scope): (r: seq<Packet>)
    ensures |Keep(r, InScope(scope))| <= ORPHAN_PACKET_LIMIT
    decreases |packets|
  {
    if |Keep(packets, InScope(scope))| <= ORPHAN_PACKET_LIMIT then packets
    else
      var least := LeastId(Keep(packets, InScope(scope)));
      DropShrinks(packets, HasId(least));
      Evict(Keep(packets, Not(HasId(least))), scope)
  }

  lemma {:induction false} DropShrinks(packets: seq<Packet>, test: Test)
    requires exists p :: p in packets && Holds(test, p)
    ensures |Keep(packets, Not(test))| < |packets|
  {
    if !Holds(test, packets[0]) {
      assert exists p :: p in packets[1..] && Holds(test, p);
      DropShrinks(packets[1..], test);
    }
  }

  // ----- the template cache -----

  function SweepTemplates(t: Templates, now: nat): Templates {
    map k | k in t && now <= t[k].at + TEMPLATE_TTL :: t[k]
  }

  function ScopeKeys(t: Templates, scope: Scope): set<Key> { set k | k in t && k.scope == scope }

  /** The order in which templates are evicted: oldest first, equally old ones by template id. */
  predicate Precedes(t: Templates, a: Key, b: Key)
    requires a in t && b in t
  {
    t[a].at < t[b].at || (t[a].at == t[b].at && a.id <= b.id)
  }

  ghost predicate IsOldest(t: Templates, scope: Scope, k: Key) {
    k in ScopeKeys(t, scope) && forall j :: j in ScopeKeys(t, scope) ==> Precedes(t, k, j)
  }

  ghost function Oldest(t: Templates, scope: Scope): (k: Key)
    requires ScopeKeys(t, scope) != {}
    ensures IsOldest(t, scope, k)
  {
    OldestExists(t, scope, ScopeKeys(t, scope));
    assert exists k :: IsOldest(t, scope, k) by {
      var m :| m in ScopeKeys(t, scope) && forall j :: j in ScopeKeys(t, scope) ==> Precedes(t, m, j);
      assert IsOldest(t, scope, m);
    }
    var k :| IsOldest(t, scope, k);
    k
  }

  lemma OldestExists(t: Templates, scope: Scope, keys: set<Key>)
    requires {} != keys <= ScopeKeys(t, scope)
    ensures exists k :: k in keys && forall j :: j in keys ==> Precedes(t, k, j)
    decreases keys
  {
    var k :| k in keys;
    if keys == {k} {
      assert forall j :: j in keys ==> Precedes(t, k, j);
    } else {
      OldestExists(t, scope, keys - {k});
      var m :| m in keys - {k} && forall j :: j in keys - {k} ==> Precedes(t, m, j);
      var best := if Precedes(t, k, m) then k else m;
      assert forall j :: j in keys ==> j == k || j in keys - {k};
      assert forall j :: j in keys ==> Precedes(t, best, j);
    }
  }

  lemma OldestUnique(t: Templates, scope: Scope, a: Key, b: Key)
    requires IsOldest(t, scope, a) && IsOldest(t, scope, b)
    ensures a == b
  {
    assert Precedes(t, a, b) && Precedes(t, b, a);
  }

  ghost function EvictTemplates(t: Templates, scope: Scope): (r: Templates)
    ensures |ScopeKeys(r, scope)| <= TEMPLATE_LIMIT
    decreases |t|
  {
    if |ScopeKeys(t, scope)| <= TEMPLATE_LIMIT then t
    else
      assert Oldest(t, scope) in t;
      EvictTemplates(t - {Oldest(t, scope)}, scope)
  }

  ghost function LearnOne(t: Templates, scope: Scope, d: Definition, at: nat): Templates {
    EvictTemplates(t[Key(scope, d.id) := Cached(d.fields, at)], scope)
  }

  /** Inserts the templates of one set; the n-th insertion reads the clock at `tick + n`. */
  ghost function LearnAll(t: Templates, scope: Scope, defs: seq<Definition>, clock: nat -> nat, tick: nat): Templates
    decreases |defs|
  {
    if defs == [] then t
    else LearnAll(LearnOne(t, scope, defs[0], clock(tick)), scope, defs[1..], clock, tick + 1)
  }

  // ----- listeners -----

  /** One critical section a listener still has to enter. */
  datatype Task =
    | Learn(scope: Scope, defs: seq<Definition>)       // cache_templates
    | Replay(scope: Scope)                              // replay_orphans: take the waiting packets
    | Look(scope: Scope, packet: nat, ds: DataSet)      // decode_data_set: look the template up
    | Park(scope: Scope, packet: nat, ds: DataSet)      // decode_data_set: buffer the orphan

  datatype Item = Item(scope: Scope, packet: nat, ds: DataSet)

  /** A data set that reached the decoder, with the template it was decoded with. */
  datatype Decoded = Decoded(item: Item, fields: seq<Field>)

  datatype Local = Local(work: seq<Task>, out: seq<Decoded>)

  /** The flow records a listener has returned. */
  function Output(out: seq<Decoded>): seq<FlowRecord> {
    if out == [] then [] else Records(out[0].fields, out[0].item.ds.body) + Output(out[1..])
  }

  function SetLooks(scope: Scope, packet: nat, sets: seq<DataSet>): seq<Task> {
    if sets == [] then [] else [Look(scope, packet, sets[0])] + SetLooks(scope, packet, sets[1..])
  }

  function PacketLooks(scope: Scope, packets: seq<Packet>): seq<Task> {
    if packets == [] then [] else SetLooks(scope, packets[0].id, packets[0].sets) + PacketLooks(scope, packets[1..])
  }

  /** What a listener has to do for one set of a message. */
  function SetTasks(scope: Scope, packet: nat, s: RawSet): seq<Task> {
    if s.id == TemplateSetId(scope.format) then [Learn(scope, ParseTemplates(s.body))]
    else if s.id >= 256 then [Look(scope, packet, DataSet(s.id, s.body))]
    else []
  }

  function MessageTasks(scope: Scope, packet: nat, sets: seq<RawSet>): seq<Task> {
    if sets == [] then [] else SetTasks(scope, packet, sets[0]) + MessageTasks(scope, packet, sets[1..])
  }

  /** How many clock readings a task takes. */
  function Readings(task: Task): nat {
    match task
    case Learn(_, defs) => 1 + |defs|
    case Park(_, _, _) => 2
    case _ => 1
  }

  /** A listener enters its next critical section at clock reading `tick`. */
  ghost function Section(s: Shared, l: Local, clock: nat -> nat, tick: nat): (Shared, Local)
    requires l.work != []
  {
    var now, rest := clock(tick), l.work[1..];
    match l.work[0]
    case Learn(scope, defs) =>
      (s.(templates := LearnAll(SweepTemplates(s.templates, now), scope, defs, clock, tick + 1)),
       l.(work := [Replay(scope)] + rest))
    case Replay(scope) =>
      var live := Keep(s.orphans, Alive(now));
      (s.(orphans := Keep(live, Not(InScope(scope)))),
       l.(work := PacketLooks(scope, Keep(live, InScope(scope))) + rest))
    case Look(scope, packet, ds) =>
      var t, key := SweepTemplates(s.templates, now), Key(scope, ds.id);
      (s.(templates := t),
       if key in t then Local(rest, l.out + [Decoded(Item(scope, packet, ds), t[key].fields)])
       else l.(work := [Park(scope, packet, ds)] + rest))
    case Park(scope, packet, ds) =>
      (s.(orphans := Evict(Append(Keep(s.orphans, Alive(now)), scope, packet, ds, clock(tick + 1)), scope)),
       l.(work := rest))
  }

  lemma LearnSection(s: Shared, l: Local, clock: nat -> nat, tick: nat)
    requires l.work != [] && l.work[0].Learn?
    ensures var swept := SweepTemplates(s.templates, clock(tick));
            var t := LearnAll(swept, l.work[0].scope, l.work[0].defs, clock, tick + 1);
            Section(s, l, clock, tick) == (s.(templates := t), l.(work := [Replay(l.work[0].scope)] + l.work[1..]))
  {
    hide LearnAll; hide SweepTemplates;
  }

  lemma ReplaySection(s: Shared, l: Local, clock: nat -> nat, tick: nat)
    requires l.work != [] && l.work[0].Replay?
    ensures var scope, live := l.work[0].scope, Keep(s.orphans, Alive(clock(tick)));
            Section(s, l, clock, tick) ==
              (s.(orphans := Keep(live, Not(InScope(scope)))),
               l.(work := PacketLooks(scope, Keep(live, InScope(scope))) + l.work[1..]))
  {
    hide Keep; hide PacketLooks;
  }

  // ----- one listener working its list off on its own -----

  function Heavy(work: seq<Task>): nat {
    if work == [] then 0 else (match work[0] case Learn(_, _) => 2 case Replay(_) => 1 case _ => 0) + Heavy(work[1..])
  }

  function Light(work: seq<Task>): nat {
    if work == [] then 0
    else (match work[0] case Look(_, _, _) => 2 case Park(_, _, _) => 1 case _ => 0) + Light(work[1..])
  }

  lemma {:induction false} HeavyConcat(a: seq<Task>, b: seq<Task>)
    ensures Heavy(a + b) == Heavy(a) + Heavy(b) && Light(a + b) == Light(a) + Light(b)
  {
    if a == [] {
      assert a + b == b;
    } else {
      assert (a + b)[1..] == a[1..] + b;
      HeavyConcat(a[1..], b);
    }
  }

  lemma {:induction false} SetLooksNotHeavy(scope: Scope, packet: nat, sets: seq<DataSet>)
    ensures Heavy(SetLooks(scope, packet, sets)) == 0
  {
    if sets != [] { SetLooksNotHeavy(scope, packet, sets[1..]); }
  }

  lemma {:induction false} PacketLooksNotHeavy(scope: Scope, packets: seq<Packet>)
    ensures Heavy(PacketLooks(scope, packets)) == 0
  {
    if packets != [] {
      SetLooksNotHeavy(scope, packets[0].id, packets[0].sets);
      PacketLooksNotHeavy(scope, packets[1..]);
      HeavyConcat(SetLooks(scope, packets[0].id, packets[0].sets), PacketLooks(scope, packets[1..]));
    }
  }

  lemma SectionShrinks(s: Shared, l: Local, clock: nat -> nat, tick: nat)
    requires l.work != []
    ensures var l' := Section(s, l, clock, tick).1;
            Heavy(l'.work) < Heavy(l.work) || (Heavy(l'.work) == Heavy(l.work) && Light(l'.work) < Light(l.work))
  {
    if l.work[0].Replay? {
      var looks := PacketLooks(l.work[0].scope, Keep(Keep(s.orphans, Alive(clock(tick))), InScope(l.work[0].scope)));
      PacketLooksNotHeavy(l.work[0].scope, Keep(Keep(s.orphans, Alive(clock(tick))), InScope(l.work[0].scope)));
      HeavyConcat(looks, l.work[1..]);
    }
  }

  datatype Final = Final(shared: Shared, out: seq<Decoded>, tick: nat)

  ghost function Drain(s: Shared, l: Local, clock: nat -> nat, tick: nat): Final
    decreases Heavy(l.work), Light(l.work)
  {
    if l.work == [] then Final(s, l.out, tick)
    else
      var (s', l') := Section(s, l, clock, tick);
      SectionShrinks(s, l, clock, tick);
      Drain(s', l', clock, tick + Readings(l.work[0]))
  }

  lemma DrainStep(s: Shared, l: Local, clock: nat -> nat, tick: nat)
    requires l.work != []
    ensures var (s', l') := Section(s, l, clock, tick);
            Drain(s, l, clock, tick) == Drain(s', l', clock, tick + Readings(l.work[0]))
  {
    hide Section; hide Heavy; hide Light; hide Readings;
  }

  /** The same with the next state given. */
  lemma DrainTo(s: Shared, l: Local, s': Shared, l': Local, clock: nat -> nat, tick: nat, tick': nat)
    requires l.work != [] && Section(s, l, clock, tick) == (s', l') && tick' == tick + Readings(l.work[0])
    ensures Drain(s, l, clock, tick) == Drain(s', l', clock, tick')
  {
    hide Section; hide Drain;
    DrainStep(s, l, clock, tick);
  }

  lemma DrainNothing(s: Shared, out: seq<Decoded>, clock: nat -> nat, tick: nat)
    ensures Drain(s, Local([], out), clock, tick) == Final(s, out, tick)
  {
  }

  /** Work can be drained piece by piece. */
  lemma {:induction false} DrainConcat(s: Shared, a: seq<Task>, b: seq<Task>, out: seq<Decoded>, clock: nat -> nat,
                                       tick: nat)
    ensures var mid := Drain(s, Local(a, out), clock, tick);
            Drain(s, Local(a + b, out), clock, tick) == Drain(mid.shared, Local(b, mid.out), clock, mid.tick)
    decreases Heavy(a), Light(a)
  {
    hide Section;
    if a == [] {
      assert a + b == b;
    } else {
      DrainStep(s, Local(a, out), clock, tick);
      DrainStep(s, Local(a + b, out), clock, tick);
      SectionFrame(s, a, b, out, clock, tick);
      SectionShrinks(s, Local(a, out), clock, tick);
      var (s', l') := Section(s, Local(a, out), clock, tick);
      DrainConcat(s', l'.work, b, l'.out, clock, tick + Readings(a[0]));
    }
  }

  lemma SectionFrame(s: Shared, a: seq<Task>, b: seq<Task>, out: seq<Decoded>, clock: nat -> nat, tick: nat)
    requires a != []
    ensures var (s', l') := Section(s, Local(a, out), clock, tick);
            Section(s, Local(a + b, out), clock, tick) == (s', Local(l'.work + b, l'.out))
  {
    var rest := a[1..];
    assert (a + b)[0] == a[0] && (a + b)[1..] == rest + b;
    match a[0]
    case Learn(scope, _) => assert [Replay(scope)] + (rest + b) == [Replay(scope)] + rest + b;
    case Replay(scope) =>
      var looks := PacketLooks(scope, Keep(Keep(s.orphans, Alive(clock(tick))), InScope(scope)));
      assert looks + (rest + b) == looks + rest + b;
    case Look(scope, packet, ds) =>
      assert [Park(scope, packet, ds)] + (rest + b) == [Park(scope, packet, ds)] + rest + b;
    case Park(_, _, _) =>
  }

  /** What a listener already returned does not influence what it does. */
  lemma {:induction false} DrainOut(s: Shared, work: seq<Task>, out: seq<Decoded>, clock: nat -> nat, tick: nat)
    ensures var r := Drain(s, Local(work, []), clock, tick);
            Drain(s, Local(work, out), clock, tick) == r.(out := out + r.out)
    decreases Heavy(work), Light(work)
  {
    hide Section;
    if work == [] {
      assert out + [] == out;
    } else {
      DrainStep(s, Local(work, []), clock, tick);
      DrainStep(s, Local(work, out), clock, tick);
      SectionOut(s, work, out, clock, tick);
      SectionShrinks(s, Local(work, []), clock, tick);
      var (s', l') := Section(s, Local(work, []), clock, tick);
      var next := tick + Readings(work[0]);
      DrainOut(s', l'.work, l'.out, clock, next);
      DrainOut(s', l'.work, out + l'.out, clock, next);
      var r := Drain(s', Local(l'.work, []), clock, next);
      assert out + (l'.out + r.out) == out + l'.out + r.out;
    }
  }

  lemma SectionOut(s: Shared, work: seq<Task>, out: seq<Decoded>, clock: nat -> nat, tick: nat)
    requires work != []
    ensures var (s', l') := Section(s, Local(work, []), clock, tick);
            Section(s, Local(work, out), clock, tick) == (s', Local(l'.work, out + l'.out))
  {
    assert out + [] == out;
    assert forall d: Decoded :: out + [d] == out + ([] + [d]);
  }
}
