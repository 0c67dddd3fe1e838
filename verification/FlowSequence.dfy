/**
 * A template set among the data sets of a scope: wherever it first arrives, and however often it is repeated, the
 * listener returns the same records in the same order (src/flow.rs). Also: a listener working alone is a run of the
 * shared system.
 */
module FlowSequence {
  import opened FlowRecords
  import opened FlowFraming
  import opened FlowCaches
  import opened FlowSystem
  import opened FlowOrder
  import opened FlowLimits

  // ----- a listener alone -----

  /** The schedule in which listener `f` works its list off without a break. */
  ghost function Solo(sys: System, f: Format, clock: nat -> nat): seq<Event>
    decreases Heavy(sys.Of(f).work), Light(sys.Of(f).work)
  {
    if sys.Of(f).work == [] then []
    else
      SectionShrinks(sys.shared, sys.Of(f), clock, sys.time);
      [Enter(f, sys.time)] + Solo(Apply(sys, Enter(f, sys.time), clock), f, clock)
  }

  /** Draining a work list is the run of the shared system under that schedule. */
  lemma {:induction false} DrainIsSoloRun(sys: System, f: Format, clock: nat -> nat)
    ensures Legal(sys, Solo(sys, f, clock), clock)
    ensures var final, drained := Run(sys, Solo(sys, f, clock), clock), Drain(sys.shared, sys.Of(f), clock, sys.time);
            final.shared == drained.shared && final.Of(f) == Local([], drained.out) && final.time == drained.tick
    decreases Heavy(sys.Of(f).work), Light(sys.Of(f).work)
  {
    hide Section; hide ExpiredBy; hide EvictedBy; hide Heavy; hide Light;
    if sys.Of(f).work != [] {
      var event := Enter(f, sys.time);
      var next := Apply(sys, event, clock);
      SectionShrinks(sys.shared, sys.Of(f), clock, sys.time);
      DrainIsSoloRun(next, f, clock);
      assert Solo(sys, f, clock)[0] == event && Solo(sys, f, clock)[1..] == Solo(next, f, clock);
    }
  }

  // ----- the clock only moves on -----

  lemma {:induction false} TickGrows(s: Shared, l: Local, clock: nat -> nat, tick: nat)
    ensures tick <= Drain(s, l, clock, tick).tick
    decreases Heavy(l.work), Light(l.work)
  {
    hide Section;
    if l.work != [] {
      SectionShrinks(s, l, clock, tick);
      var (s', l') := Section(s, l, clock, tick);
      TickGrows(s', l', clock, tick + Readings(l.work[0]));
    }
  }

  // ----- data before the template -----

  /** Look-ups of data sets of one scope, their packets in order of arrival and registered in `owner`. */
  predicate DataOf(looks: seq<Task>, scope: Scope, owner: map<nat, Scope>) {
    && (forall i :: 0 <= i < |looks| ==>
          looks[i].Look? && looks[i].scope == scope && looks[i].packet in owner && owner[looks[i].packet] == scope)
    && (forall i, j :: 0 <= i < j < |looks| ==> looks[i].packet <= looks[j].packet)
  }

  lemma {:induction false} SetLooksSnoc(scope: Scope, packet: nat, sets: seq<DataSet>, ds: DataSet)
    ensures SetLooks(scope, packet, sets + [ds]) == SetLooks(scope, packet, sets) + [Look(scope, packet, ds)]
  {
    if sets == [] {
      assert sets + [ds] == [ds];
      assert [ds][1..] == [];
    } else {
      assert (sets + [ds])[1..] == sets[1..] + [ds];
      SetLooksSnoc(scope, packet, sets[1..], ds);
    }
  }

  lemma FirstBeforeSecond(packets: seq<Packet>)
    requires |packets| > 1 && Ordered(packets) && forall p :: p in packets ==> p.scope == packets[0].scope
    ensures packets[0].id < packets[1].id && packets[1] in packets
  {
  }

  /** Parking keeps the order of arrival: replaying would look up the new data set last. */
  lemma {:induction false} AppendLooksLast(packets: seq<Packet>, scope: Scope, id: nat, ds: DataSet, at: nat)
    requires Ordered(packets) && forall p :: p in packets ==> p.scope == scope && p.id <= id
    ensures PacketLooks(scope, Append(packets, scope, id, ds, at))
         == PacketLooks(scope, packets) + [Look(scope, id, ds)]
  {
    if packets == [] {
      SetLooksSnoc(scope, id, [], ds);
      assert [] + [ds] == [ds];
      assert [Packet(id, scope, [ds], at)][1..] == [];
    } else {
      OrderedTail(packets);
      var p := packets[0];
      if p.id == id {
        if |packets| > 1 { FirstBeforeSecond(packets); }
        SetLooksSnoc(scope, id, p.sets, ds);
        assert [p.(sets := p.sets + [ds])][1..] == [];
      } else {
        var more := Append(packets[1..], scope, id, ds, at);
        AppendLooksLast(packets[1..], scope, id, ds, at);
        assert ([p] + more)[1..] == more;
      }
    }
  }

  /** A cache that holds orphans of one scope only and no template. */
  predicate Unannounced(s: Shared, scope: Scope, owner: map<nat, Scope>, base: nat) {
    && s.templates == map[]
    && Ordered(s.orphans) && OwnersKnown(s.orphans, owner)
    && (forall p :: p in s.orphans ==> p.scope == scope && base <= p.at)
  }

  /** No waiting packet of `scope` comes after any of the data sets to be looked up. */
  predicate BeforeAll(packets: seq<Packet>, scope: Scope, looks: seq<Task>) {
    forall i :: 0 <= i < |looks| && looks[i].Look? ==> NotAfter(packets, scope, looks[i].packet)
  }

  lemma ParkOne(s: Shared, look: Task, rest: seq<Task>, scope: Scope, owner: map<nat, Scope>, clock: nat -> nat,
                tick: nat, base: nat)
    requires look.Look? && Unannounced(s, scope, owner, base) && DataOf([look] + rest, scope, owner)
    requires BeforeAll(s.orphans, scope, [look] + rest)
    requires |PacketsOf(owner, scope)| <= ORPHAN_PACKET_LIMIT && Brief(clock, base, tick + 3)
    ensures var s' := s.(orphans := Append(s.orphans, scope, look.packet, look.ds, clock(tick + 2)));
            && Drain(s, Local([look] + rest, []), clock, tick) == Drain(s', Local(rest, []), clock, tick + 3)
            && Unannounced(s', scope, owner, base)
            && PacketLooks(scope, s'.orphans) == PacketLooks(scope, s.orphans) + [look]
            && BeforeAll(s'.orphans, scope, rest)
  {
    hide Drain; hide Append; hide Keep; hide Evict; hide PacketLooks;
    assert ([look] + rest)[0] == look && look == Look(scope, look.packet, look.ds);
    assert NotAfter(s.orphans, scope, look.packet);
    var park := Park(scope, look.packet, look.ds);
    var more := Append(s.orphans, scope, look.packet, look.ds, clock(tick + 2));
    AppendLooksLast(s.orphans, scope, look.packet, look.ds, clock(tick + 2));
    AppendOrdered(s.orphans, scope, look.packet, look.ds, clock(tick + 2));
    AppendOwners(s.orphans, scope, look.packet, look.ds, clock(tick + 2), owner);
    AppendFresh(s.orphans, scope, look.packet, look.ds, clock(tick + 2), base);
    NoneEvicted(more, scope, PacketsOf(owner, scope));
    NothingExpires(s, map[], base, clock(tick));
    NothingExpires(s, map[], base, clock(tick + 1));
    DrainStep(s, Local([look] + rest, []), clock, tick);
    assert ([look] + rest)[1..] == rest && ([park] + rest)[1..] == rest;
    assert Section(s, Local([look] + rest, []), clock, tick) == (s, Local([park] + rest, []));
    DrainStep(s, Local([park] + rest, []), clock, tick + 1);
    assert Section(s, Local([park] + rest, []), clock, tick + 1) == (s.(orphans := more), Local(rest, []));
    forall p | p in more ensures p.scope == scope && base <= p.at {
      AppendMembers(s.orphans, scope, look.packet, look.ds, clock(tick + 2), p);
    }
    forall i | 0 <= i < |rest| ensures NotAfter(more, scope, rest[i].packet) {
      assert rest[i] == ([look] + rest)[i + 1];
      forall p | p in more ensures p.id <= rest[i].packet {
        AppendMembers(s.orphans, scope, look.packet, look.ds, clock(tick + 2), p);
      }
    }
  }

  /** Data sets that arrive before the template produce nothing and wait in their order of arrival. */
  lemma {:induction false} ParkAll(s: Shared, looks: seq<Task>, scope: Scope, owner: map<nat, Scope>, clock: nat -> nat,
                                   tick: nat, base: nat, end: nat)
    requires Unannounced(s, scope, owner, base) && DataOf(looks, scope, owner)
    requires BeforeAll(s.orphans, scope, looks)
    requires |PacketsOf(owner, scope)| <= ORPHAN_PACKET_LIMIT && Brief(clock, base, end)
    requires Drain(s, Local(looks, []), clock, tick).tick <= end
    ensures var final := Drain(s, Local(looks, []), clock, tick);
            && final.out == [] && Unannounced(final.shared, scope, owner, base)
            && PacketLooks(scope, final.shared.orphans) == PacketLooks(scope, s.orphans) + looks
    decreases |looks|
  {
    hide Drain; hide PacketLooks; hide Append; hide Unannounced; hide DataOf; hide BeforeAll; hide Section; hide Brief;
    if looks == [] {
      DrainNothing(s, [], clock, tick);
      assert PacketLooks(scope, s.orphans) + [] == PacketLooks(scope, s.orphans);
    } else {
      var look, rest := looks[0], looks[1..];
      assert looks == [look] + rest;
      DataHead(looks, scope, owner);
      var s' := s.(orphans := Append(s.orphans, scope, look.packet, look.ds, clock(tick + 2)));
      assert s.templates == map[] by { NoTemplates(s, scope, owner, base); }
      ThreeReadings(s, looks, clock, tick);
      BriefPrefix(clock, base, tick + 3, end);
      ParkOne(s, look, rest, scope, owner, clock, tick, base);
      ParkAll(s', rest, scope, owner, clock, tick + 3, base, end);
      assert PacketLooks(scope, s.orphans) + [look] + rest == PacketLooks(scope, s.orphans) + looks;
    }
  }

  lemma BriefPrefix(clock: nat -> nat, base: nat, sooner: nat, end: nat)
    requires Brief(clock, base, end) && sooner <= end
    ensures Brief(clock, base, sooner)
  {
  }

  lemma DataHead(looks: seq<Task>, scope: Scope, owner: map<nat, Scope>)
    requires looks != [] && DataOf(looks, scope, owner)
    ensures looks[0].Look? && DataOf(looks[1..], scope, owner)
  {
    assert forall i :: 0 <= i < |looks[1..]| ==> looks[1..][i] == looks[i + 1];
  }

  lemma NoTemplates(s: Shared, scope: Scope, owner: map<nat, Scope>, base: nat)
    requires Unannounced(s, scope, owner, base)
    ensures s.templates == map[]
  {
  }

  lemma ThreeReadings(s: Shared, looks: seq<Task>, clock: nat -> nat, tick: nat)
    requires looks != [] && looks[0].Look? && s.templates == map[]
    ensures tick + 3 <= Drain(s, Local(looks, []), clock, tick).tick
  {
    hide Drain;
    var l := Local(looks, []);
    DrainStep(s, l, clock, tick);
    var (s', l') := Section(s, l, clock, tick);
    assert l'.work[0].Park?;
    DrainStep(s', l', clock, tick + 1);
    var (s'', l'') := Section(s', l', clock, tick + 1);
    TickGrows(s'', l'', clock, tick + 3);
  }

  // ----- data after the template -----

  /** The data sets that the given templates decode, in order. */
  function Expected(looks: seq<Task>, known: set<Key>, dict: Dictionary): seq<Decoded>
    requires forall i :: 0 <= i < |looks| ==> looks[i].Look?
    requires known <= dict.Keys
  {
    if looks == [] then []
    else
      var key := Key(looks[0].scope, looks[0].ds.id);
      (if key in known then [Decoded(Item(looks[0].scope, looks[0].packet, looks[0].ds), dict[key])] else [])
      + Expected(looks[1..], known, dict)
  }

  /** The cached templates carry the dictionary's fields and were cached no earlier than `since`. */
  predicate Announced(t: Templates, dict: Dictionary, since: nat) {
    forall k :: k in t ==> k in dict && t[k].fields == dict[k] && since <= t[k].at
  }

  /** Look-ups of data sets whose packets are registered in `owner`. */
  predicate Registered(looks: seq<Task>, owner: map<nat, Scope>) {
    forall i :: 0 <= i < |looks| ==>
      looks[i].Look? && looks[i].packet in owner && owner[looks[i].packet] == looks[i].scope
  }

  /** With the templates cached, each data set is decoded as it arrives, however many there are. */
  lemma {:induction false} DecodeAll(s: Shared, looks: seq<Task>, owner: map<nat, Scope>, dict: Dictionary,
                                     clock: nat -> nat, tick: nat, since: nat, end: nat)
    requires Registered(looks, owner) && Unhelped(s.orphans, s.templates.Keys, owner)
    requires Announced(s.templates, dict, since) && Lasting(clock, since, tick, end)
    requires Drain(s, Local(looks, []), clock, tick).tick <= end
    ensures var final := Drain(s, Local(looks, []), clock, tick);
            && final.out == Expected(looks, s.templates.Keys, dict)
            && final.shared.templates == s.templates && Unhelped(final.shared.orphans, s.templates.Keys, owner)
    decreases |looks|
  {
    hide *;
    AreLooks(looks, owner);
    KnownFields(s.templates, dict, since);
    if looks == [] {
      DrainNothing(s, [], clock, tick);
      ExpectedNothing(s.templates.Keys, dict);
    } else {
      var look, rest := looks[0], looks[1..];
      var key := Key(look.scope, look.ds.id);
      HeadRegistered(looks, owner);
      AreLooks(rest, owner);
      FirstReading(s, looks, clock, tick, since, end);
      NoneSwept(s.templates, dict, clock(tick), since);
      ExpectedCons(looks, s.templates.Keys, dict);
      if key in s.templates {
        LookKnown(s, looks, clock, tick);
        FieldsAnnounced(s.templates, dict, since, key);
        LastingPart(clock, since, tick, end, tick + 1, end);
        DecodeAll(s, rest, owner, dict, clock, tick + 1, since, end);
      } else {
        var s2 := LookUnknown(s, looks, owner, clock, tick);
        LastingPart(clock, since, tick, end, tick + 3, end);
        DecodeAll(s2, rest, owner, dict, clock, tick + 3, since, end);
      }
    }
  }

  lemma HeadRegistered(looks: seq<Task>, owner: map<nat, Scope>)
    requires looks != [] && Registered(looks, owner)
    ensures looks[0].Look? && looks[0].packet in owner && owner[looks[0].packet] == looks[0].scope
    ensures Registered(looks[1..], owner)
  {
    assert forall i :: 0 <= i < |looks[1..]| ==> looks[1..][i] == looks[i + 1];
  }

  lemma KnownFields(t: Templates, dict: Dictionary, since: nat)
    requires Announced(t, dict, since)
    ensures t.Keys <= dict.Keys
  {
  }

  lemma ExpectedNothing(known: set<Key>, dict: Dictionary)
    requires known <= dict.Keys
    ensures Expected([], known, dict) == []
  {
  }

  lemma ExpectedCons(looks: seq<Task>, known: set<Key>, dict: Dictionary)
    requires looks != [] && known <= dict.Keys && forall i :: 0 <= i < |looks| ==> looks[i].Look?
    ensures forall i :: 0 <= i < |looks[1..]| ==> looks[1..][i].Look?
    ensures var key, rest := Key(looks[0].scope, looks[0].ds.id), Expected(looks[1..], known, dict);
            var fields := if key in known then dict[key] else [];
            var d := Decoded(Item(looks[0].scope, looks[0].packet, looks[0].ds), fields);
            Expected(looks, known, dict) == if key in known then [d] + rest else rest
  {
    var rest := Expected(looks[1..], known, dict);
    assert [] + rest == rest;
  }

  lemma FirstReading(s: Shared, looks: seq<Task>, clock: nat -> nat, tick: nat, since: nat, end: nat)
    requires looks != [] && looks[0].Look? && Lasting(clock, since, tick, end)
    requires Drain(s, Local(looks, []), clock, tick).tick <= end
    ensures clock(tick) <= since + TEMPLATE_TTL
  {
    hide Drain; hide Section;
    DrainStep(s, Local(looks, []), clock, tick);
    var (s1, l1) := Section(s, Local(looks, []), clock, tick);
    TickGrows(s1, l1, clock, tick + 1);
  }

  lemma NoneSwept(t: Templates, dict: Dictionary, now: nat, since: nat)
    requires Announced(t, dict, since) && now <= since + TEMPLATE_TTL
    ensures SweepTemplates(t, now) == t
  {
  }

  lemma FieldsAnnounced(t: Templates, dict: Dictionary, since: nat, key: Key)
    requires Announced(t, dict, since) && key in t
    ensures key in dict && t[key].fields == dict[key]
  {
  }

  /** A look-up that finds its template decodes. */
  lemma LookKnown(s: Shared, looks: seq<Task>, clock: nat -> nat, tick: nat)
    requires looks != [] && looks[0].Look? && SweepTemplates(s.templates, clock(tick)) == s.templates
    requires Key(looks[0].scope, looks[0].ds.id) in s.templates
    ensures var key, rest := Key(looks[0].scope, looks[0].ds.id), Drain(s, Local(looks[1..], []), clock, tick + 1);
            var d := Decoded(Item(looks[0].scope, looks[0].packet, looks[0].ds), s.templates[key].fields);
            Drain(s, Local(looks, []), clock, tick) == rest.(out := [d] + rest.out)
  {
    hide Drain; hide SweepTemplates;
    var fields := s.templates[Key(looks[0].scope, looks[0].ds.id)].fields;
    var d := Decoded(Item(looks[0].scope, looks[0].packet, looks[0].ds), fields);
    DrainStep(s, Local(looks, []), clock, tick);
    assert [] + [d] == [d];
    assert Section(s, Local(looks, []), clock, tick) == (s, Local(looks[1..], [d]));
    DrainOut(s, looks[1..], [d], clock, tick + 1);
  }

  /** One that does not parks the data set and goes on. */
  lemma LookUnknown(s: Shared, looks: seq<Task>, owner: map<nat, Scope>, clock: nat -> nat, tick: nat)
    returns (s2: Shared)
    requires looks != [] && looks[0].Look? && SweepTemplates(s.templates, clock(tick)) == s.templates
    requires looks[0].packet in owner && owner[looks[0].packet] == looks[0].scope
    requires Key(looks[0].scope, looks[0].ds.id) !in s.templates && Unhelped(s.orphans, s.templates.Keys, owner)
    ensures s2.templates == s.templates && Unhelped(s2.orphans, s.templates.Keys, owner)
    ensures Drain(s, Local(looks, []), clock, tick) == Drain(s2, Local(looks[1..], []), clock, tick + 3)
  {
    hide Drain; hide SweepTemplates; hide Evict; hide Append; hide Keep; hide Unhelped;
    var park, rest := Park(looks[0].scope, looks[0].packet, looks[0].ds), looks[1..];
    DrainStep(s, Local(looks, []), clock, tick);
    var parking := Local([park] + rest, []);
    assert Section(s, Local(looks, []), clock, tick) == (s, parking);
    assert parking.work[0] == park && parking.work[1..] == rest;
    s2 := Section(s, parking, clock, tick + 1).0;
    DrainStep(s, parking, clock, tick + 1);
    assert Section(s, parking, clock, tick + 1).1 == Local(rest, []);
    ParkUnhelped(s.orphans, park, s.templates.Keys, owner, clock(tick + 1), clock(tick + 2));
  }

  // ----- the template arrives, or arrives again -----

  const EMPTY := Shared(map[], [])

  /** The packets of `scope` that are still alive. */
  function Waiting(s: Shared, scope: Scope, now: nat): seq<Packet> { Keep(Keep(s.orphans, Alive(now)), InScope(scope)) }

  function WithoutScope(s: Shared, scope: Scope, now: nat): seq<Packet> {
    Keep(Keep(s.orphans, Alive(now)), Not(InScope(scope)))
  }

  lemma RelearnsAll(t: Templates, scope: Scope, defs: seq<Definition>, clock: nat -> nat, tick: nat, dict: Dictionary,
                    since: nat)
    requires t.Keys <= DefinitionKeys(scope, defs)
    requires DefinitionsFrom(scope, defs, dict) && |TemplatesOf(dict, scope)| <= TEMPLATE_LIMIT
    requires forall i: nat :: tick <= i < tick + |defs| ==> since <= clock(i)
    ensures var r := LearnAll(t, scope, defs, clock, tick);
            Announced(r, dict, since) && r.Keys == DefinitionKeys(scope, defs)
  {
    hide LearnAll;
    KnownKeys(scope, defs, dict);
    LearnsEverything(t, scope, defs, clock, tick, dict, since);
  }

  /** Learning, even once more, and replaying put the waiting data sets in front of the remaining work. */
  lemma LearnThenReplay(s: Shared, scope: Scope, defs: seq<Definition>, b: seq<Task>, dict: Dictionary,
                        clock: nat -> nat, tick: nat, since: nat) returns (t: Templates)
    requires s.templates.Keys <= DefinitionKeys(scope, defs)
    requires DefinitionsFrom(scope, defs, dict) && |TemplatesOf(dict, scope)| <= TEMPLATE_LIMIT
    requires forall i: nat :: tick <= i < tick + 1 + |defs| ==> since <= clock(i)
    ensures Announced(t, dict, since) && t.Keys == DefinitionKeys(scope, defs)
    ensures t == LearnAll(SweepTemplates(s.templates, clock(tick)), scope, defs, clock, tick + 1)
    ensures var now := clock(tick + 1 + |defs|);
            var looks := PacketLooks(scope, Waiting(s, scope, now));
            Drain(s, Local([Learn(scope, defs)] + b, []), clock, tick)
            == Drain(Shared(t, WithoutScope(s, scope, now)), Local(looks + b, []), clock, tick + 2 + |defs|)
  {
    hide Drain; hide LearnAll; hide Keep; hide PacketLooks; hide Section; hide DefinitionKeys; hide Announced;
    hide TemplatesOf;
    var l, next := Local([Learn(scope, defs)] + b, []), tick + 1 + |defs|;
    var swept := SweepTemplates(s.templates, clock(tick));
    t := LearnAll(swept, scope, defs, clock, tick + 1);
    assert l.work[0] == Learn(scope, defs) && l.work[1..] == b;
    LearnSection(s, l, clock, tick);
    RelearnsAll(swept, scope, defs, clock, tick + 1, dict, since);
    var l' := Local([Replay(scope)] + b, []);
    DrainTo(s, l, s.(templates := t), l', clock, tick, next);
    assert l'.work[0] == Replay(scope) && l'.work[1..] == b;
    ReplaySection(s.(templates := t), l', clock, next);
    var now := clock(next);
    DrainTo(s.(templates := t), l', Shared(t, WithoutScope(s, scope, now)),
            Local(PacketLooks(scope, Waiting(s, scope, now)) + b, []), clock, next, next + 1);
  }

  /** The first time: all orphans come back. */
  lemma LearnAndReplay(s: Shared, scope: Scope, defs: seq<Definition>, b: seq<Task>, owner: map<nat, Scope>,
                       dict: Dictionary, clock: nat -> nat, tick: nat, base: nat, since: nat)
    requires Unannounced(s, scope, owner, base)
    requires DefinitionsFrom(scope, defs, dict) && |TemplatesOf(dict, scope)| <= TEMPLATE_LIMIT
    requires Brief(clock, base, tick + 2 + |defs|) && Lasting(clock, since, tick, tick + 2 + |defs|)
    ensures var t := LearnAll(map[], scope, defs, clock, tick + 1);
            var final := Drain(Shared(t, []), Local(PacketLooks(scope, s.orphans) + b, []), clock, tick + 2 + |defs|);
            && Drain(s, Local([Learn(scope, defs)] + b, []), clock, tick) == final
            && Announced(t, dict, since) && t.Keys == DefinitionKeys(scope, defs)
  {
    hide Drain; hide LearnAll; hide Keep; hide PacketLooks; hide DefinitionKeys; hide Announced; hide DefinitionsFrom;
    hide TemplatesOf;
    var t := LearnThenReplay(s, scope, defs, b, dict, clock, tick, since);
    assert SweepTemplates(s.templates, clock(tick)) == map[];
    AllWaiting(s, scope, owner, base, clock(tick + 1 + |defs|));
  }

  lemma AllWaiting(s: Shared, scope: Scope, owner: map<nat, Scope>, base: nat, now: nat)
    requires Unannounced(s, scope, owner, base) && now <= base + ORPHAN_TTL
    ensures Waiting(s, scope, now) == s.orphans && WithoutScope(s, scope, now) == []
  {
    KeepAll(s.orphans, Alive(now));
    KeepAll(s.orphans, InScope(scope));
    KeepNone(s.orphans, Not(InScope(scope)));
  }

  /** Look-ups of data sets of one scope in the order in which their packets arrive. */
  predicate Arriving(looks: seq<Task>, scope: Scope) {
    && (forall i :: 0 <= i < |looks| ==> looks[i].Look? && looks[i].scope == scope)
    && (forall i, j :: 0 <= i < j < |looks| && looks[i].Look? && looks[j].Look? ==> looks[i].packet <= looks[j].packet)
  }

  /** The packets whose data sets are looked up. */
  function PacketIds(looks: seq<Task>): set<nat> { set t | t in looks && t.Look? :: t.packet }

  /** A template set in front of each of the segments. */
  function Repeated(learn: Task, segments: seq<seq<Task>>): seq<Task> {
    if segments == [] then [] else [learn] + segments[0] + Repeated(learn, segments[1..])
  }

  function Joined<T>(segments: seq<seq<T>>): seq<T> {
    if segments == [] then [] else segments[0] + Joined(segments[1..])
  }

  predicate AllRegistered(segments: seq<seq<Task>>, owner: map<nat, Scope>) {
    forall i :: 0 <= i < |segments| ==> Registered(segments[i], owner)
  }

  /** From each template set to the next, no more than the lifetime of a template passes. */
  ghost predicate Renewed(s: Shared, learn: Task, segments: seq<seq<Task>>, clock: nat -> nat, tick: nat)
    decreases |segments|
  {
    segments != [] ==>
      var mid := Drain(s, Local([learn] + segments[0], []), clock, tick);
      (exists since: nat :: Lasting(clock, since, tick, mid.tick))
      && Renewed(mid.shared, learn, segments[1..], clock, mid.tick)
  }

  lemma {:induction false} ExpectedConcat(a: seq<Task>, b: seq<Task>, known: set<Key>, dict: Dictionary)
    requires (forall i :: 0 <= i < |a| ==> a[i].Look?) && (forall i :: 0 <= i < |b| ==> b[i].Look?)
    requires known <= dict.Keys
    ensures forall i :: 0 <= i < |a + b| ==> (a + b)[i].Look?
    ensures Expected(a + b, known, dict) == Expected(a, known, dict) + Expected(b, known, dict)
  {
    if a == [] {
      assert a + b == b;
    } else {
      assert (a + b)[0] == a[0] && (a + b)[1..] == a[1..] + b;
      ExpectedConcat(a[1..], b, known, dict);
    }
  }

  lemma {:induction false} NothingExpected(looks: seq<Task>, known: set<Key>, dict: Dictionary)
    requires known <= dict.Keys
    requires forall i :: 0 <= i < |looks| ==> looks[i].Look? && Key(looks[i].scope, looks[i].ds.id) !in known
    ensures Expected(looks, known, dict) == []
  {
    if looks != [] { NothingExpected(looks[1..], known, dict); }
  }

  lemma {:induction false} LooksFrom(scope: Scope, packets: seq<Packet>, owner: map<nat, Scope>)
    requires OwnersKnown(packets, owner) && forall p :: p in packets ==> p.scope == scope
    ensures Registered(PacketLooks(scope, packets), owner)
    ensures forall t :: t in PacketLooks(scope, packets) ==>
              t.Look? && t.scope == scope && exists p :: p in packets && t.ds in p.sets
  {
    if packets != [] {
      LooksFrom(scope, packets[1..], owner);
      assert packets[0] in packets && forall p :: p in packets[1..] ==> p in packets;
      var looks := SetLooks(scope, packets[0].id, packets[0].sets);
      SetLooksShape(scope, packets[0].id, packets[0].sets);
      assert forall i :: 0 <= i < |looks| ==> looks[i] in looks;
    }
  }

  /** What waits for other templates is looked up in vain. */
  lemma WaitingUnhelped(s: Shared, scope: Scope, known: set<Key>, owner: map<nat, Scope>, now: nat, dict: Dictionary)
    requires Unhelped(s.orphans, known, owner) && known <= dict.Keys
    ensures Registered(PacketLooks(scope, Waiting(s, scope, now)), owner)
    ensures Expected(PacketLooks(scope, Waiting(s, scope, now)), known, dict) == []
  {
    var waiting := Waiting(s, scope, now);
    var looks := PacketLooks(scope, waiting);
    LooksFrom(scope, waiting, owner);
    forall i | 0 <= i < |looks| ensures Key(looks[i].scope, looks[i].ds.id) !in known { assert looks[i] in looks; }
    NothingExpected(looks, known, dict);
  }

  lemma RegisteredConcat(a: seq<Task>, b: seq<Task>, owner: map<nat, Scope>)
    requires Registered(a, owner) && Registered(b, owner)
    ensures Registered(a + b, owner)
  {
  }

  /** One template set and the data sets up to the next: what waited and what follows is decoded in order. */
  lemma DecodeSegment(s: Shared, scope: Scope, defs: seq<Definition>, segment: seq<Task>, owner: map<nat, Scope>,
                      dict: Dictionary, clock: nat -> nat, tick: nat, since: nat)
    requires s.templates.Keys <= DefinitionKeys(scope, defs) <= dict.Keys && OwnersKnown(s.orphans, owner)
    requires DefinitionsFrom(scope, defs, dict) && |TemplatesOf(dict, scope)| <= TEMPLATE_LIMIT
    requires Registered(segment, owner)
    requires Lasting(clock, since, tick, Drain(s, Local([Learn(scope, defs)] + segment, []), clock, tick).tick)
    ensures var waiting := PacketLooks(scope, Waiting(s, scope, clock(tick + 1 + |defs|)));
            var mid := Drain(s, Local([Learn(scope, defs)] + segment, []), clock, tick);
            && Registered(waiting + segment, owner)
            && mid.out == Expected(waiting + segment, DefinitionKeys(scope, defs), dict)
            && mid.shared.templates.Keys == DefinitionKeys(scope, defs)
            && Unhelped(mid.shared.orphans, DefinitionKeys(scope, defs), owner)
  {
    hide Drain; hide Section; hide Keep; hide PacketLooks; hide Expected; hide Lasting; hide Announced; hide LearnAll;
    hide TemplatesOf;
    hide DefinitionsFrom; hide Registered;
    var known, learnt, now := DefinitionKeys(scope, defs), tick + 2 + |defs|, clock(tick + 1 + |defs|);
    var end := Drain(s, Local([Learn(scope, defs)] + segment, []), clock, tick).tick;
    FewReadings(s, scope, defs, segment, clock, tick);
    LastingPart(clock, since, tick, end, tick, learnt);
    LastingPart(clock, since, tick, end, learnt, end);
    assert forall i: nat :: tick <= i < tick + 1 + |defs| ==> since <= clock(i) by {
      LastingFrom(clock, since, tick, learnt);
    }
    var t := LearnThenReplay(s, scope, defs, segment, dict, clock, tick, since);
    LooksFrom(scope, Waiting(s, scope, now), owner);
    RegisteredConcat(PacketLooks(scope, Waiting(s, scope, now)), segment, owner);
    OthersUnhelped(s, scope, defs, now, owner);
    DecodeAll(Shared(t, WithoutScope(s, scope, now)), PacketLooks(scope, Waiting(s, scope, now)) + segment, owner, dict,
              clock, learnt, since, end);
  }

  lemma LastingFrom(clock: nat -> nat, since: nat, start: nat, end: nat)
    requires Lasting(clock, since, start, end)
    ensures forall i: nat :: start <= i < end ==> since <= clock(i)
  {
  }

  lemma OthersUnhelped(s: Shared, scope: Scope, defs: seq<Definition>, now: nat, owner: map<nat, Scope>)
    requires OwnersKnown(s.orphans, owner)
    ensures OwnersKnown(Waiting(s, scope, now), owner) && forall p :: p in Waiting(s, scope, now) ==> p.scope == scope
    ensures Unhelped(WithoutScope(s, scope, now), DefinitionKeys(scope, defs), owner)
  {
  }

  /** All further segments, when what waits cannot be helped. */
  lemma {:induction false} DecodeSegments(s: Shared, scope: Scope, defs: seq<Definition>, segments: seq<seq<Task>>,
                                          owner: map<nat, Scope>, dict: Dictionary, clock: nat -> nat, tick: nat)
    requires s.templates.Keys <= DefinitionKeys(scope, defs) <= dict.Keys
    requires Unhelped(s.orphans, DefinitionKeys(scope, defs), owner)
    requires DefinitionsFrom(scope, defs, dict) && |TemplatesOf(dict, scope)| <= TEMPLATE_LIMIT
    requires AllRegistered(segments, owner) && Renewed(s, Learn(scope, defs), segments, clock, tick)
    ensures Registered(Joined(segments), owner)
    ensures Drain(s, Local(Repeated(Learn(scope, defs), segments), []), clock, tick).out
         == Expected(Joined(segments), DefinitionKeys(scope, defs), dict)
    decreases |segments|
  {
    hide Drain; hide Section; hide Waiting; hide PacketLooks; hide Expected; hide Lasting; hide TemplatesOf;
    hide DefinitionsFrom;
    hide Registered; hide Unhelped; hide DefinitionKeys;
    if segments == [] {
      DrainNothing(s, [], clock, tick);
      NoSegments(owner, DefinitionKeys(scope, defs), dict);
    } else {
      var known, learn, segment, rest := DefinitionKeys(scope, defs), Learn(scope, defs), segments[0], segments[1..];
      var looks := PacketLooks(scope, Waiting(s, scope, clock(tick + 1 + |defs|)));
      var since: nat :| Lasting(clock, since, tick, Drain(s, Local([learn] + segment, []), clock, tick).tick);
      assert OwnersKnown(s.orphans, owner) by { OwnersOf(s.orphans, known, owner); }
      DecodeSegment(s, scope, defs, segment, owner, dict, clock, tick, since);
      WaitingUnhelped(s, scope, known, owner, clock(tick + 1 + |defs|), dict);
      AreLooks(looks, owner);
      AreLooks(segment, owner);
      ExpectedConcat(looks, segment, known, dict);
      assert [] + Expected(segment, known, dict) == Expected(segment, known, dict);
      SegmentsGoOn(s, learn, segments, clock, tick);
      assert AllRegistered(rest, owner) by { assert forall i :: 0 <= i < |rest| ==> rest[i] == segments[i + 1]; }
      var mid := Drain(s, Local([learn] + segment, []), clock, tick);
      DecodeSegments(mid.shared, scope, defs, rest, owner, dict, clock, mid.tick);
      RegisteredConcat(segment, Joined(rest), owner);
      AreLooks(Joined(rest), owner);
      ExpectedConcat(segment, Joined(rest), known, dict);
    }
  }

  lemma NoSegments(owner: map<nat, Scope>, known: set<Key>, dict: Dictionary)
    requires known <= dict.Keys
    ensures Registered([], owner) && Expected([], known, dict) == []
  {
  }

  lemma OwnersOf(packets: seq<Packet>, known: set<Key>, owner: map<nat, Scope>)
    requires Unhelped(packets, known, owner)
    ensures OwnersKnown(packets, owner)
  {
  }

  lemma AreLooks(looks: seq<Task>, owner: map<nat, Scope>)
    requires Registered(looks, owner)
    ensures forall i :: 0 <= i < |looks| ==> looks[i].Look?
  {
  }

  /** Segments are drained one after the other. */
  lemma SegmentsGoOn(s: Shared, learn: Task, segments: seq<seq<Task>>, clock: nat -> nat, tick: nat)
    requires segments != []
    ensures var mid := Drain(s, Local([learn] + segments[0], []), clock, tick);
            Drain(s, Local(Repeated(learn, segments), []), clock, tick).out
            == mid.out + Drain(mid.shared, Local(Repeated(learn, segments[1..]), []), clock, mid.tick).out
  {
    hide Drain;
    var first, rest := [learn] + segments[0], Repeated(learn, segments[1..]);
    var mid := Drain(s, Local(first, []), clock, tick);
    DrainConcat(s, first, rest, [], clock, tick);
    DrainOut(mid.shared, rest, mid.out, clock, mid.tick);
  }

  // ----- main result -----

  /**
   * The readings leave the orphans of `a` alive until they are replayed, and the templates alive until they are
   * repeated.
   */
  ghost predicate InTime(a: seq<Task>, learn: Task, segments: seq<seq<Task>>, clock: nat -> nat, base: nat)
    requires learn.Learn?
  {
    var mid := Drain(EMPTY, Local(a, []), clock, 0);
    Brief(clock, base, mid.tick + 2 + |learn.defs|) && Renewed(mid.shared, learn, segments, clock, mid.tick)
  }

  /**
   * One template set among any number of data sets, repeated any number of times. At most 100 packets arrive before it
   * first does, and no longer than the lifetime of an orphan; it is repeated before the lifetime of a template ends.
   * Then, wherever the template sets stand, the same data sets are decoded, in their order of arrival.
   */
  lemma TemplatePositionIrrelevant(a: seq<Task>, segments: seq<seq<Task>>, scope: Scope, defs: seq<Definition>,
                                   owner: map<nat, Scope>, dict: Dictionary, clock: nat -> nat, base: nat)
    requires Arriving(a, scope) && |PacketIds(a)| <= ORPHAN_PACKET_LIMIT
    requires Registered(a, owner) && AllRegistered(segments, owner) && segments != []
    requires DefinitionsFrom(scope, defs, dict) && |TemplatesOf(dict, scope)| <= TEMPLATE_LIMIT
    requires InTime(a, Learn(scope, defs), segments, clock, base)
    ensures DefinitionKeys(scope, defs) <= dict.Keys && Registered(a + Joined(segments), owner)
    ensures Drain(EMPTY, Local(a + Repeated(Learn(scope, defs), segments), []), clock, 0).out
         == Expected(a + Joined(segments), DefinitionKeys(scope, defs), dict)
  {
    hide *;
    var tail, mine := Repeated(Learn(scope, defs), segments), map id | id in PacketIds(a) :: scope;
    var mid := Drain(EMPTY, Local(a, []), clock, 0);
    InTimeParts(a, scope, defs, segments, clock, base);
    AllParked(a, scope, clock, base);
    DrainConcat(EMPTY, a, tail, [], clock, 0);
    KnownKeys(scope, defs, dict);
    RegisteredPart(mid.shared, a, scope, owner, mine, base);
    LearnThenDecode(mid.shared, scope, defs, a, segments, owner, mine, dict, clock, mid.tick, base);
  }

  lemma InTimeParts(a: seq<Task>, scope: Scope, defs: seq<Definition>, segments: seq<seq<Task>>, clock: nat -> nat,
                    base: nat)
    requires InTime(a, Learn(scope, defs), segments, clock, base)
    ensures var mid := Drain(EMPTY, Local(a, []), clock, 0);
            && Brief(clock, base, mid.tick) && clock(mid.tick + 1 + |defs|) <= base + ORPHAN_TTL
            && Renewed(mid.shared, Learn(scope, defs), segments, clock, mid.tick)
  {
    hide Drain; hide Renewed; hide Brief;
    var mid := Drain(EMPTY, Local(a, []), clock, 0);
    BriefPrefix(clock, base, mid.tick, mid.tick + 2 + |defs|);
    BriefAt(clock, base, mid.tick + 2 + |defs|, mid.tick + 1 + |defs|);
  }

  /** Before the template arrives, all data sets are parked in their order. */
  lemma AllParked(a: seq<Task>, scope: Scope, clock: nat -> nat, base: nat)
    requires Arriving(a, scope) && |PacketIds(a)| <= ORPHAN_PACKET_LIMIT
    requires Brief(clock, base, Drain(EMPTY, Local(a, []), clock, 0).tick)
    ensures var mid, mine := Drain(EMPTY, Local(a, []), clock, 0), map id | id in PacketIds(a) :: scope;
            mid.out == [] && PacketLooks(scope, mid.shared.orphans) == a && Unannounced(mid.shared, scope, mine, base)
  {
    hide Drain; hide PacketLooks; hide Unannounced; hide Brief; hide Arriving; hide DataOf;
    var mine := map id | id in PacketIds(a) :: scope;
    ArriveRegistered(a, scope);
    StartsUnannounced(scope, mine, base, a);
    ParkAll(EMPTY, a, scope, mine, clock, 0, base, Drain(EMPTY, Local(a, []), clock, 0).tick);
    assert [] + a == a;
  }

  lemma BriefAt(clock: nat -> nat, base: nat, end: nat, tick: nat)
    requires Brief(clock, base, end) && tick < end
    ensures clock(tick) <= base + ORPHAN_TTL
  {
  }

  /** From the moment the template set first arrives. */
  lemma LearnThenDecode(s: Shared, scope: Scope, defs: seq<Definition>, a: seq<Task>, segments: seq<seq<Task>>,
                        owner: map<nat, Scope>, mine: map<nat, Scope>, dict: Dictionary, clock: nat -> nat, tick: nat,
                        base: nat)
    requires Unannounced(s, scope, mine, base) && OwnersKnown(s.orphans, owner) && PacketLooks(scope, s.orphans) == a
    requires Registered(a, owner) && AllRegistered(segments, owner) && segments != []
    requires DefinitionsFrom(scope, defs, dict) && |TemplatesOf(dict, scope)| <= TEMPLATE_LIMIT
    requires DefinitionKeys(scope, defs) <= dict.Keys && clock(tick + 1 + |defs|) <= base + ORPHAN_TTL
    requires Renewed(s, Learn(scope, defs), segments, clock, tick)
    ensures Registered(a + Joined(segments), owner)
    ensures Drain(s, Local(Repeated(Learn(scope, defs), segments), []), clock, tick).out
         == Expected(a + Joined(segments), DefinitionKeys(scope, defs), dict)
  {
    hide Drain; hide Expected; hide Section; hide LearnAll; hide DefinitionKeys; hide PacketLooks; hide Unannounced;
    hide Announced;
    hide Brief; hide Lasting; hide TemplatesOf; hide DefinitionsFrom; hide Registered; hide Unhelped; hide Waiting;
    hide Repeated;
    var known, learn, segment, rest := DefinitionKeys(scope, defs), Learn(scope, defs), segments[0], segments[1..];
    var since: nat :| Lasting(clock, since, tick, Drain(s, Local([learn] + segment, []), clock, tick).tick);
    assert s.templates == map[] by { NoTemplates(s, scope, mine, base); }
    AllWaiting(s, scope, mine, base, clock(tick + 1 + |defs|));
    DecodeSegment(s, scope, defs, segment, owner, dict, clock, tick, since);
    SegmentsGoOn(s, learn, segments, clock, tick);
    assert AllRegistered(rest, owner) by { assert forall i :: 0 <= i < |rest| ==> rest[i] == segments[i + 1]; }
    var mid := Drain(s, Local([learn] + segment, []), clock, tick);
    DecodeSegments(mid.shared, scope, defs, rest, owner, dict, clock, mid.tick);
    assert a + Joined(segments) == (a + segment) + Joined(rest);
    RegisteredConcat(a + segment, Joined(rest), owner);
    AreLooks(a + segment, owner);
    AreLooks(Joined(rest), owner);
    ExpectedConcat(a + segment, Joined(rest), known, dict);
  }

  lemma ArriveRegistered(a: seq<Task>, scope: Scope)
    requires Arriving(a, scope)
    ensures var mine := map id | id in PacketIds(a) :: scope;
            DataOf(a, scope, mine) && PacketsOf(mine, scope) == PacketIds(a)
  {
    forall i | 0 <= i < |a| ensures a[i].packet in PacketIds(a) { assert a[i] in a; }
  }

  /** The packets that wait are those of `a`. */
  lemma RegisteredPart(s: Shared, a: seq<Task>, scope: Scope, owner: map<nat, Scope>, mine: map<nat, Scope>, base: nat)
    requires Registered(a, owner) && Arriving(a, scope) && mine == map id | id in PacketIds(a) :: scope
    requires Unannounced(s, scope, mine, base)
    ensures OwnersKnown(s.orphans, owner)
  {
    forall id | id in PacketIds(a) ensures id in owner && owner[id] == scope {
      var t :| t in a && t.Look? && t.packet == id;
      var i :| 0 <= i < |a| && a[i] == t;
    }
  }

  lemma LastingPart(clock: nat -> nat, since: nat, start: nat, end: nat, start': nat, end': nat)
    requires Lasting(clock, since, start, end) && start <= start' && end' <= end
    ensures Lasting(clock, since, start', end')
  {
  }

  lemma KnownKeys(scope: Scope, defs: seq<Definition>, dict: Dictionary)
    requires DefinitionsFrom(scope, defs, dict)
    ensures DefinitionKeys(scope, defs) <= dict.Keys
  {
  }

  lemma StartsUnannounced(scope: Scope, owner: map<nat, Scope>, base: nat, looks: seq<Task>)
    ensures Unannounced(EMPTY, scope, owner, base) && BeforeAll(EMPTY.orphans, scope, looks)
    ensures PacketLooks(scope, EMPTY.orphans) == []
  {
  }

  lemma FewReadings(s: Shared, scope: Scope, defs: seq<Definition>, b: seq<Task>, clock: nat -> nat, tick: nat)
    ensures tick + 2 + |defs| <= Drain(s, Local([Learn(scope, defs)] + b, []), clock, tick).tick
  {
    hide Drain; hide LearnAll; hide Section;
    var l := Local([Learn(scope, defs)] + b, []);
    DrainStep(s, l, clock, tick);
    LearnSection(s, l, clock, tick);
    var (s', l') := Section(s, l, clock, tick);
    assert l'.work[0] == Replay(scope);
    DrainStep(s', l', clock, tick + 1 + |defs|);
    var (s'', l'') := Section(s', l', clock, tick + 1 + |defs|);
    TickGrows(s'', l'', clock, tick + 2 + |defs|);
  }
}
