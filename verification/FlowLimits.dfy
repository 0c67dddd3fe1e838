/** When nothing can be lost: few waiting messages and few templates per scope, and little time (src/flow.rs). */
module FlowLimits {
  import opened FlowRecords
  import opened FlowFraming
  import opened FlowCaches
  import opened FlowSystem
  import opened FlowOrder

  // ----- nothing is lost while time is short -----

  /** During the readings before `end`, no more than the orphan lifetime passes. */
  ghost predicate Brief(clock: nat -> nat, base: nat, end: nat) {
    forall tick: nat :: tick < end ==> base <= clock(tick) <= base + ORPHAN_TTL
  }

  predicate FreshTemplates(t: Templates, dict: Dictionary, base: nat) {
    forall k :: k in t ==> k in dict && t[k].fields == dict[k] && base <= t[k].at
  }

  predicate FreshCaches(s: Shared, dict: Dictionary, base: nat) {
    FreshTemplates(s.templates, dict, base) && forall p :: p in s.orphans ==> base <= p.at
  }

  /** The templates that are cached or about to be. */
  function Known(sys: System): set<Key> {
    sys.shared.templates.Keys + LearnKeys(sys.v9.work) + LearnKeys(sys.ipfix.work)
  }

  lemma NoTemplateExpires(t: Templates, dict: Dictionary, base: nat, now: nat)
    requires FreshTemplates(t, dict, base) && now <= base + TEMPLATE_TTL
    ensures SweepTemplates(t, now) == t
  {
  }

  lemma NothingExpires(s: Shared, dict: Dictionary, base: nat, now: nat)
    requires FreshCaches(s, dict, base) && now <= base + ORPHAN_TTL
    ensures SweepTemplates(s.templates, now) == s.templates
    ensures Keep(s.orphans, Alive(now)) == s.orphans && Keep(s.orphans, Not(Alive(now))) == []
  {
    NoTemplateExpires(s.templates, dict, base, now);
    KeepAll(s.orphans, Alive(now));
    KeepNone(s.orphans, Not(Alive(now)));
  }

  function TemplatesOf(dict: Dictionary, scope: Scope): set<Key> { set k | k in dict && k.scope == scope }

  function PacketsOf(owner: map<nat, Scope>, scope: Scope): set<nat> { set id | id in owner && owner[id] == scope }

  /** No scope uses more than 256 templates. */
  ghost predicate FewTemplates(dict: Dictionary) { forall scope :: |TemplatesOf(dict, scope)| <= TEMPLATE_LIMIT }

  lemma KeysFit(t: Templates, scope: Scope, dict: Dictionary)
    requires t.Keys <= dict.Keys && |TemplatesOf(dict, scope)| <= TEMPLATE_LIMIT
    ensures EvictTemplates(t, scope) == t
  {
    SubsetSize(ScopeKeys(t, scope), TemplatesOf(dict, scope));
  }

  /** Learning adds or renews the templates of a set, and leaves the others as they are. */
  lemma {:induction false} LearnsEverything(t: Templates, scope: Scope, defs: seq<Definition>, clock: nat -> nat,
                                            tick: nat, dict: Dictionary, since: nat)
    requires t.Keys <= dict.Keys && DefinitionsFrom(scope, defs, dict) && |TemplatesOf(dict, scope)| <= TEMPLATE_LIMIT
    requires forall i: nat :: tick <= i < tick + |defs| ==> since <= clock(i)
    ensures var r := LearnAll(t, scope, defs, clock, tick);
            r.Keys == t.Keys + DefinitionKeys(scope, defs) && forall k :: k in r ==>
              Renews(r[k], t, k, scope, defs, dict, since)
    decreases |defs|
  {
    hide DefinitionsFrom; hide TemplatesOf; hide LearnOne; hide Renews;
    if defs == [] {
      forall k | k in t ensures Renews(t[k], t, k, scope, defs, dict, since) { NotRenewed(t, k, scope, dict, since); }
      assert DefinitionKeys(scope, defs) == {};
    } else {
      var t' := LearnOne(t, scope, defs[0], clock(tick));
      var r := LearnAll(t', scope, defs[1..], clock, tick + 1);
      assert LearnAll(t, scope, defs, clock, tick) == r;
      LearnsOne(t, scope, defs, clock(tick), dict);
      hide LearnAll; hide DefinitionKeys;
      LearnsEverything(t', scope, defs[1..], clock, tick + 1, dict, since);
      forall k | k in r ensures Renews(r[k], t, k, scope, defs, dict, since) {
        RenewsMore(r[k], t, k, scope, defs, clock(tick), dict, since);
      }
    }
  }

  /** The entry is one of the new ones, or is as before. */
  predicate Renews(cached: Cached, t: Templates, k: Key, scope: Scope, defs: seq<Definition>, dict: Dictionary,
                   since: nat) {
    if k in DefinitionKeys(scope, defs) then k in dict && cached.fields == dict[k] && since <= cached.at
    else k in t && cached == t[k]
  }

  lemma NotRenewed(t: Templates, k: Key, scope: Scope, dict: Dictionary, since: nat)
    requires k in t
    ensures Renews(t[k], t, k, scope, [], dict, since)
  {
  }

  lemma RenewsMore(cached: Cached, t: Templates, k: Key, scope: Scope, defs: seq<Definition>, at: nat, dict: Dictionary,
                   since: nat)
    requires defs != [] && since <= at && t.Keys <= dict.Keys && DefinitionsFrom(scope, defs, dict)
    requires |TemplatesOf(dict, scope)| <= TEMPLATE_LIMIT
    requires Renews(cached, LearnOne(t, scope, defs[0], at), k, scope, defs[1..], dict, since)
    ensures Renews(cached, t, k, scope, defs, dict, since)
  {
    hide TemplatesOf; hide EvictTemplates;
    assert defs[0] in defs;
    KeysFit(t[Key(scope, defs[0].id) := Cached(defs[0].fields, at)], scope, dict);
    assert forall d :: d in defs <==> d == defs[0] || d in defs[1..];
    assert DefinitionKeys(scope, defs) == {Key(scope, defs[0].id)} + DefinitionKeys(scope, defs[1..]);
  }

  lemma LearnsOne(t: Templates, scope: Scope, defs: seq<Definition>, at: nat, dict: Dictionary)
    requires defs != [] && t.Keys <= dict.Keys && DefinitionsFrom(scope, defs, dict)
    requires |TemplatesOf(dict, scope)| <= TEMPLATE_LIMIT
    ensures DefinitionsFrom(scope, defs[1..], dict)
    ensures var r := LearnOne(t, scope, defs[0], at);
            r.Keys <= dict.Keys && r.Keys + DefinitionKeys(scope, defs[1..]) == t.Keys + DefinitionKeys(scope, defs)
  {
    assert defs[0] in defs;
    KeysFit(t[Key(scope, defs[0].id) := Cached(defs[0].fields, at)], scope, dict);
    hide EvictTemplates; hide TemplatesOf;
    assert forall d :: d in defs <==> d == defs[0] || d in defs[1..];
    assert DefinitionKeys(scope, defs) == {Key(scope, defs[0].id)} + DefinitionKeys(scope, defs[1..]);
  }

  /** A set of templates that are in use is learnt without any loss. */
  lemma LearnsFresh(t: Templates, scope: Scope, defs: seq<Definition>, clock: nat -> nat, tick: nat, dict: Dictionary,
                    base: nat)
    requires FreshTemplates(t, dict, base) && DefinitionsFrom(scope, defs, dict)
    requires |TemplatesOf(dict, scope)| <= TEMPLATE_LIMIT
    requires forall i: nat :: tick <= i < tick + |defs| ==> base <= clock(i)
    ensures var r := LearnAll(t, scope, defs, clock, tick);
            FreshTemplates(r, dict, base) && r.Keys == t.Keys + DefinitionKeys(scope, defs)
  {
    hide LearnAll; hide DefinitionKeys; hide TemplatesOf;
    LearnsEverything(t, scope, defs, clock, tick, dict, base);
  }

  lemma {:induction false} DistinctIds(packets: seq<Packet>, ids: set<nat>)
    requires Ordered(packets) && forall p :: p in packets ==> p.id in ids
    ensures |packets| <= |ids|
  {
    if packets != [] {
      OrderedTail(packets);
      assert forall p :: p in packets[1..] ==> p.id in ids - {packets[0].id};
      DistinctIds(packets[1..], ids - {packets[0].id});
    }
  }

  lemma NoneEvicted(packets: seq<Packet>, scope: Scope, ids: set<nat>)
    requires Ordered(packets) && |ids| <= ORPHAN_PACKET_LIMIT
    requires forall p :: p in packets && p.scope == scope ==> p.id in ids
    ensures Evict(packets, scope) == packets && EvictedFrom(packets, scope) == multiset{}
  {
    KeepOrdered(packets, InScope(scope));
    DistinctIds(Keep(packets, InScope(scope)), ids);
  }

  // ----- which messages have to wait -----

  type Waiters = Scope -> set<nat>

  /**
   * Every data set that is looked up is of a known template, or of one learnt before it, or of a packet that may
   * wait.
   */
  predicate Served(work: seq<Task>, known: set<Key>, w: Waiters) {
    work == [] ||
    match work[0]
    case Learn(scope, defs) => Served(work[1..], known + DefinitionKeys(scope, defs), w)
    case Replay(_) => Served(work[1..], known, w)
    case Look(scope, packet, ds) => (Key(scope, ds.id) in known || packet in w(scope)) && Served(work[1..], known, w)
    case Park(scope, packet, _) => packet in w(scope) && Served(work[1..], known, w)
  }

  const NOBODY: Waiters := (scope: Scope) => {}

  /** The message brings a data set whose template is neither known nor announced by an earlier set of the message. */
  predicate HasToWait(scope: Scope, packet: nat, sets: seq<RawSet>, known: set<Key>) {
    !Served(MessageTasks(scope, packet, sets), known, NOBODY)
  }

  /** The packets of `scope` that arrive before one of their templates. */
  function WaitersOf(events: seq<Event>, known: set<Key>, scope: Scope): set<nat> {
    if events == [] then {}
    else
      match events[0]
      case Receive(s, packet, sets) =>
        (if s == scope && HasToWait(s, packet, sets, known) then {packet} else {})
        + WaitersOf(events[1..], known + MessageKeys(Message(s, sets)), scope)
      case Enter(_, _) => WaitersOf(events[1..], known, scope)
  }

  ghost predicate FewWaiters(w: Waiters) { forall scope :: |w(scope)| <= ORPHAN_PACKET_LIMIT }

  predicate MayWait(packets: seq<Packet>, w: Waiters) { forall p :: p in packets ==> p.id in w(p.scope) }

  lemma {:induction false} ServedMore(work: seq<Task>, known: set<Key>, known': set<Key>, w: Waiters)
    requires Served(work, known, w)
    requires forall i, k :: 0 <= i < |work| && k in known && k.scope == work[i].scope ==> k in known'
    ensures Served(work, known', w)
    decreases |work|
  {
    if work != [] {
      hide DefinitionKeys;
      var rest := work[1..];
      assert forall i :: 0 <= i < |rest| ==> rest[i] == work[i + 1];
      if work[0].Learn? {
        var more := DefinitionKeys(work[0].scope, work[0].defs);
        ServedMore(rest, known + more, known' + more, w);
      } else {
        ServedMore(rest, known, known', w);
      }
    }
  }

  lemma {:induction false} ServedWhole(work: seq<Task>, known: set<Key>, w: Waiters)
    requires Served(work, known, NOBODY) || forall i :: 0 <= i < |work| && TaskPacket(work[i]).Some? ==>
                                                  TaskPacket(work[i]).value in w(work[i].scope)
    ensures Served(work, known, w)
    decreases |work|
  {
    if work != [] {
      hide DefinitionKeys;
      var rest := work[1..];
      assert forall i :: 0 <= i < |rest| ==> rest[i] == work[i + 1];
      ServedWhole(rest, if work[0].Learn? then known + DefinitionKeys(work[0].scope, work[0].defs) else known, w);
    }
  }

  lemma {:induction false} ServedConcat(looks: seq<Task>, rest: seq<Task>, known: set<Key>, w: Waiters)
    requires LooksMayWait(looks, w) && Served(rest, known, w)
    ensures Served(looks + rest, known, w)
  {
    if looks == [] {
      assert looks + rest == rest;
    } else {
      assert (looks + rest)[0] == looks[0] && (looks + rest)[1..] == looks[1..] + rest;
      ServedConcat(looks[1..], rest, known, w);
    }
  }

  predicate LooksMayWait(looks: seq<Task>, w: Waiters) {
    forall i :: 0 <= i < |looks| ==> looks[i].Look? && looks[i].packet in w(looks[i].scope)
  }

  lemma {:induction false} WaitingLooks(scope: Scope, packets: seq<Packet>, w: Waiters)
    requires MayWait(packets, w) && forall p :: p in packets ==> p.scope == scope
    ensures LooksMayWait(PacketLooks(scope, packets), w)
  {
    if packets != [] {
      assert packets[0] in packets && forall p :: p in packets[1..] ==> p in packets;
      WaitingLooks(scope, packets[1..], w);
      var looks := SetLooks(scope, packets[0].id, packets[0].sets);
      SetLooksShape(scope, packets[0].id, packets[0].sets);
      forall i | 0 <= i < |looks|
        ensures looks[i].Look? && looks[i].packet in w(looks[i].scope)
      {
        assert looks[i] in looks;
      }
      LooksConcat(looks, PacketLooks(scope, packets[1..]), w);
    }
  }

  lemma LooksConcat(a: seq<Task>, b: seq<Task>, w: Waiters)
    requires LooksMayWait(a, w) && LooksMayWait(b, w)
    ensures LooksMayWait(a + b, w)
  {
  }

  // ----- calm steps: the templates are still arriving -----

  ghost predicate CalmCaches(s: Shared, work: seq<Task>, dict: Dictionary, base: nat, w: Waiters) {
    && FreshCaches(s, dict, base) && MayWait(s.orphans, w)
    && LearnsFrom(work, dict) && Served(work, s.templates.Keys, w)
  }

  /** A critical section that neither loses nor forgets anything. */
  ghost predicate CalmStep(s: Shared, l: Local, clock: nat -> nat, tick: nat, dict: Dictionary, base: nat, w: Waiters)
    requires l.work != []
  {
    var (s', l') := Section(s, l, clock, tick);
    && CalmCaches(s', l'.work, dict, base, w)
    && s'.templates.Keys + LearnKeys(l'.work) == s.templates.Keys + LearnKeys(l.work)
    && s.templates.Keys <= s'.templates.Keys
    && ExpiredBy(s, l.work[0], clock(tick)) == multiset{}
    && EvictedBy(s, l.work[0], clock(tick), clock(tick + 1)) == multiset{}
  }

  lemma CalmLearn(s: Shared, l: Local, clock: nat -> nat, tick: nat, dict: Dictionary, base: nat, w: Waiters)
    requires l.work != [] && l.work[0].Learn?
    requires CalmCaches(s, l.work, dict, base, w) && FewTemplates(dict)
    requires Brief(clock, base, tick + Readings(l.work[0]))
    ensures CalmStep(s, l, clock, tick, dict, base, w)
  {
    hide Section; hide ExpiredBy; hide EvictedBy; hide SweepTemplates; hide DefinitionKeys; hide Keep; hide LearnAll;
    hide LearnKeys; hide LearnsFrom; hide FreshTemplates; hide TemplatesOf;
    var scope, defs, rest := l.work[0].scope, l.work[0].defs, l.work[1..];
    assert DefinitionsFrom(scope, defs, dict) by { HeadLearns(l.work, dict); }
    assert |TemplatesOf(dict, scope)| <= TEMPLATE_LIMIT;
    NothingExpires(s, dict, base, clock(tick));
    RestLearnsFrom(l.work, dict);
    LearnsFresh(s.templates, scope, defs, clock, tick + 1, dict, base);
    PrependLearnsFrom([Replay(scope)], rest, dict);
    assert ([Replay(scope)] + rest)[1..] == rest;
    LearnSection(s, l, clock, tick);
    LearnLosesNothing(s, l.work[0], clock(tick), clock(tick + 1));
  }

  lemma LearnLosesNothing(s: Shared, task: Task, now: nat, stamp: nat)
    requires task.Learn?
    ensures ExpiredBy(s, task, now) == multiset{} && EvictedBy(s, task, now, stamp) == multiset{}
  {
  }

  lemma CalmReplay(s: Shared, l: Local, clock: nat -> nat, tick: nat, dict: Dictionary, base: nat, w: Waiters)
    requires l.work != [] && l.work[0].Replay?
    requires CalmCaches(s, l.work, dict, base, w)
    requires Brief(clock, base, tick + Readings(l.work[0]))
    ensures CalmStep(s, l, clock, tick, dict, base, w)
  {
    hide Keep; hide LearnKeys; hide PacketLooks; hide LearnsFrom; hide Section; hide FreshTemplates;
    var scope, rest := l.work[0].scope, l.work[1..];
    var waiting := Keep(s.orphans, InScope(scope));
    NothingExpires(s, dict, base, clock(tick));
    RestLearnsFrom(l.work, dict);
    LooksTeachNothing(scope, waiting);
    PrependLearnsFrom(PacketLooks(scope, waiting), rest, dict);
    WaitingLooks(scope, waiting, w);
    ServedConcat(PacketLooks(scope, waiting), rest, s.templates.Keys, w);
    ReplaySection(s, l, clock, tick);
    assert PacketItems([]) == multiset{};
  }

  lemma CalmLook(s: Shared, l: Local, clock: nat -> nat, tick: nat, dict: Dictionary, base: nat, w: Waiters)
    requires l.work != [] && l.work[0].Look?
    requires CalmCaches(s, l.work, dict, base, w)
    requires Brief(clock, base, tick + Readings(l.work[0]))
    ensures CalmStep(s, l, clock, tick, dict, base, w)
  {
    hide Keep; hide LearnKeys; hide LearnsFrom;
    var task := l.work[0];
    NothingExpires(s, dict, base, clock(tick));
    RestLearnsFrom(l.work, dict);
    PrependLearnsFrom([Park(task.scope, task.packet, task.ds)], l.work[1..], dict);
    assert ([Park(task.scope, task.packet, task.ds)] + l.work[1..])[1..] == l.work[1..];
  }

  lemma CalmPark(s: Shared, l: Local, f: Format, clock: nat -> nat, tick: nat, owner: map<nat, Scope>, dict: Dictionary,
                 base: nat, w: Waiters)
    requires l.work != [] && l.work[0].Park?
    requires CacheInv(s, owner) && ListenerInv(s, l.work, f, owner)
    requires CalmCaches(s, l.work, dict, base, w) && FewWaiters(w)
    requires Brief(clock, base, tick + Readings(l.work[0]))
    ensures CalmStep(s, l, clock, tick, dict, base, w)
  {
    hide Keep; hide Evict; hide EvictedFrom; hide Append; hide WithinLimits; hide LearnKeys; hide Ordered;
    hide LearnsFrom;
    hide FreshTemplates;
    var task, stamp := l.work[0], clock(tick + 1);
    var more := Append(s.orphans, task.scope, task.packet, task.ds, stamp);
    NothingExpires(s, dict, base, clock(tick));
    RestLearnsFrom(l.work, dict);
    assert NotAfter(s.orphans, task.scope, TaskPacket(task).value);
    AppendOrdered(s.orphans, task.scope, task.packet, task.ds, stamp);
    forall p | p in more ensures p.id in w(p.scope) {
      AppendMembers(s.orphans, task.scope, task.packet, task.ds, stamp, p);
    }
    NoneEvicted(more, task.scope, w(task.scope));
    AppendFresh(s.orphans, task.scope, task.packet, task.ds, stamp, base);
    assert PacketItems([]) == multiset{};
  }

  lemma CalmSection(s: Shared, l: Local, f: Format, clock: nat -> nat, tick: nat, owner: map<nat, Scope>,
                    dict: Dictionary, base: nat, w: Waiters)
    requires l.work != []
    requires CacheInv(s, owner) && ListenerInv(s, l.work, f, owner)
    requires CalmCaches(s, l.work, dict, base, w) && FewTemplates(dict) && FewWaiters(w)
    requires Brief(clock, base, tick + Readings(l.work[0]))
    ensures CalmStep(s, l, clock, tick, dict, base, w)
  {
    hide CalmStep; hide CacheInv; hide ListenerInv; hide CalmCaches;
    match l.work[0]
    case Learn(_, _) => CalmLearn(s, l, clock, tick, dict, base, w);
    case Replay(_) => CalmReplay(s, l, clock, tick, dict, base, w);
    case Look(_, _, _) => CalmLook(s, l, clock, tick, dict, base, w);
    case Park(_, _, _) => CalmPark(s, l, f, clock, tick, owner, dict, base, w);
  }

  lemma {:induction false} AppendFresh(packets: seq<Packet>, scope: Scope, id: nat, ds: DataSet, at: nat, base: nat)
    requires base <= at && forall p :: p in packets ==> base <= p.at
    ensures forall p :: p in Append(packets, scope, id, ds, at) ==> base <= p.at
  {
    if packets != [] && packets[0].id != id { AppendFresh(packets[1..], scope, id, ds, at, base); }
  }

  // ----- calm runs -----

  ghost predicate Calm(sys: System, dict: Dictionary, base: nat, w: Waiters) {
    && Inv(sys)
    && sys.ledger == Ledger(multiset{}, multiset{})
    && CalmCaches(sys.shared, sys.v9.work, dict, base, w) && CalmCaches(sys.shared, sys.ipfix.work, dict, base, w)
  }

  function Other(f: Format): Format { if f == NetFlowV9 then Ipfix else NetFlowV9 }

  lemma CalmOther(s: Shared, s': Shared, work: seq<Task>, work': seq<Task>, dict: Dictionary, base: nat, w: Waiters)
    requires CalmCaches(s, work, dict, base, w) && CalmCaches(s', work', dict, base, w)
    requires s.templates.Keys <= s'.templates.Keys
    ensures CalmCaches(s', work, dict, base, w)
  {
    ServedMore(work, s.templates.Keys, s'.templates.Keys, w);
  }

  lemma CalmEnter(sys: System, f: Format, tick: nat, clock: nat -> nat, dict: Dictionary, base: nat, w: Waiters)
    requires Calm(sys, dict, base, w) && Enabled(sys, Enter(f, tick))
    requires FewTemplates(dict) && FewWaiters(w)
    requires Brief(clock, base, Apply(sys, Enter(f, tick), clock).time)
    ensures Calm(Apply(sys, Enter(f, tick), clock), dict, base, w)
    ensures Known(Apply(sys, Enter(f, tick), clock)) == Known(sys)
  {
    hide Section; hide Inv; hide CalmCaches; hide LearnKeys; hide ExpiredBy; hide EvictedBy; hide Brief;
    var g := Other(f);
    var l, next := sys.Of(f), Apply(sys, Enter(f, tick), clock);
    EnterKeepsInv(sys, f, tick, clock);
    InvParts(sys, f);
    CalmSection(sys.shared, l, f, clock, tick, sys.owner, dict, base, w);
    LedgerUnchanged(sys, f, tick, clock);
    CalmOther(sys.shared, next.shared, sys.Of(g).work, next.Of(f).work, dict, base, w);
    assert next.Of(g) == sys.Of(g);
    assert Known(next) == next.shared.templates.Keys + LearnKeys(next.Of(f).work) + LearnKeys(sys.Of(g).work);
    assert Known(sys) == sys.shared.templates.Keys + LearnKeys(sys.Of(f).work) + LearnKeys(sys.Of(g).work);
  }

  lemma LedgerUnchanged(sys: System, f: Format, tick: nat, clock: nat -> nat)
    requires Enabled(sys, Enter(f, tick))
    requires ExpiredBy(sys.shared, sys.Of(f).work[0], clock(tick)) == multiset{}
    requires EvictedBy(sys.shared, sys.Of(f).work[0], clock(tick), clock(tick + 1)) == multiset{}
    ensures Apply(sys, Enter(f, tick), clock).ledger == sys.ledger
  {
    hide Section; hide ExpiredBy; hide EvictedBy;
    assert sys.ledger.expired + multiset{} == sys.ledger.expired;
    assert sys.ledger.evicted + multiset{} == sys.ledger.evicted;
  }

  lemma {:induction false} LearnKeysOf(work: seq<Task>, f: Format)
    requires forall i :: 0 <= i < |work| ==> work[i].scope.format == f
    ensures forall k :: k in LearnKeys(work) ==> k.scope.format == f
  {
    if work != [] {
      assert forall i :: 0 <= i < |work[1..]| ==> work[1..][i] == work[i + 1];
      LearnKeysOf(work[1..], f);
    }
  }

  /** What an idle listener could know of its format is cached. */
  lemma IdleKnows(sys: System, f: Format)
    requires Inv(sys) && sys.Of(f).work == []
    ensures forall k :: k in Known(sys) && k.scope.format == f ==> k in sys.shared.templates
  {
    var work := sys.Of(Other(f)).work;
    InvParts(sys, Other(f));
    forall i | 0 <= i < |work| ensures work[i].scope.format == Other(f) { ScopesAgree(work, sys.owner, i); }
    LearnKeysOf(work, Other(f));
    assert LearnKeys([]) == {};
  }

  lemma MessageServed(sys: System, scope: Scope, packet: nat, sets: seq<RawSet>, w: Waiters)
    requires Inv(sys) && sys.Of(scope.format).work == []
    requires HasToWait(scope, packet, sets, Known(sys)) ==> packet in w(scope)
    ensures Served(MessageTasks(scope, packet, sets), sys.shared.templates.Keys, w)
  {
    hide Inv; hide Known;
    var work := MessageTasks(scope, packet, sets);
    MessageShape(scope, packet, sets);
    assert forall i :: 0 <= i < |work| ==> work[i] in work;
    ServedWhole(work, Known(sys), w);
    IdleKnows(sys, scope.format);
    ServedMore(work, Known(sys), sys.shared.templates.Keys, w);
  }

  lemma CalmReceive(sys: System, scope: Scope, packet: nat, sets: seq<RawSet>, clock: nat -> nat, dict: Dictionary,
                    base: nat, w: Waiters)
    requires Calm(sys, dict, base, w) && Enabled(sys, Receive(scope, packet, sets))
    requires LearnsFrom(MessageTasks(scope, 0, sets), dict)
    requires HasToWait(scope, packet, sets, Known(sys)) ==> packet in w(scope)
    ensures Calm(Apply(sys, Receive(scope, packet, sets), clock), dict, base, w)
    ensures Known(Apply(sys, Receive(scope, packet, sets), clock)) == Known(sys) + MessageKeys(Message(scope, sets))
  {
    hide Inv; hide FreshCaches; hide LearnsFrom; hide WorkItems; hide MessageTasks; hide Served; hide MayWait;
    hide HasToWait;
    ReceiveKeepsInv(sys, scope, packet, sets, clock);
    MessageLearnsFrom(scope, packet, sets, dict);
    PacketIdIrrelevant(scope, packet, sets);
    MessageServed(sys, scope, packet, sets, w);
    assert LearnKeys([]) == {};
  }

  lemma {:induction false} Grows(sys: System, events: seq<Event>, clock: nat -> nat)
    requires Legal(sys, events, clock)
    ensures sys.time <= Run(sys, events, clock).time
    decreases |events|
  {
    hide Section;
    if events != [] { Grows(Apply(sys, events[0], clock), events[1..], clock); }
  }

  /** All packets that have to wait are among the waiters. */
  ghost predicate Waits(events: seq<Event>, known: set<Key>, w: Waiters) {
    forall scope :: WaitersOf(events, known, scope) <= w(scope)
  }

  lemma WaitsStep(events: seq<Event>, known: set<Key>, w: Waiters)
    requires events != [] && Waits(events, known, w)
    ensures Waits(events[1..], known + AnnouncedBy(EventMessages(events[0])), w)
    ensures events[0].Receive? && HasToWait(events[0].scope, events[0].packet, events[0].sets, known) ==>
              events[0].packet in w(events[0].scope)
  {
    hide HasToWait; hide MessageKeys;
    var event := events[0];
    if event.Receive? {
      var m := Message(event.scope, event.sets);
      assert [m][1..] == [] && AnnouncedBy([]) == {};
      assert AnnouncedBy(EventMessages(event)) == MessageKeys(m);
      assert WaitersOf(events, known, event.scope) <= w(event.scope);
    } else {
      assert AnnouncedBy(EventMessages(event)) == {};
      assert known + {} == known;
    }
    forall scope ensures WaitersOf(events[1..], known + AnnouncedBy(EventMessages(event)), scope) <= w(scope) {
      assert WaitersOf(events, known, scope) <= w(scope);
    }
  }

  lemma {:induction false} CalmRun(sys: System, events: seq<Event>, clock: nat -> nat, dict: Dictionary, base: nat,
                                   w: Waiters)
    requires Calm(sys, dict, base, w) && Legal(sys, events, clock)
    requires FewTemplates(dict) && FewWaiters(w) && Consistent(Messages(events), dict)
    requires Waits(events, Known(sys), w)
    requires Brief(clock, base, Run(sys, events, clock).time)
    ensures var final, messages := Run(sys, events, clock), Messages(events);
            && Calm(final, dict, base, w)
            && Known(final) == Known(sys) + AnnouncedBy(messages)
    decreases |events|
  {
    hide Calm; hide Section; hide MessageTasks; hide LearnKeys; hide Known; hide Apply; hide Waits; hide WaitersOf;
    if events != [] {
      var next := Apply(sys, events[0], clock);
      Grows(next, events[1..], clock);
      WaitsStep(events, Known(sys), w);
      CalmEvent(sys, events[0], clock, dict, base, w);
      MessagesCons(events);
      CalmRun(next, events[1..], clock, dict, base, w);
    }
  }

  lemma CalmEvent(sys: System, event: Event, clock: nat -> nat, dict: Dictionary, base: nat, w: Waiters)
    requires Calm(sys, dict, base, w) && Enabled(sys, event)
    requires FewTemplates(dict) && FewWaiters(w)
    requires event.Receive? && HasToWait(event.scope, event.packet, event.sets, Known(sys)) ==>
               event.packet in w(event.scope)
    requires Consistent(EventMessages(event), dict)
    requires Brief(clock, base, Apply(sys, event, clock).time)
    ensures var next, messages := Apply(sys, event, clock), EventMessages(event);
            && Calm(next, dict, base, w)
            && Known(next) == Known(sys) + AnnouncedBy(messages)
  {
    hide Calm; hide Section; hide MessageTasks; hide LearnKeys; hide Known; hide HasToWait;
    match event
    case Receive(scope, packet, sets) =>
      var m := Message(scope, sets);
      assert EventMessages(event) == [m] && [m][1..] == [];
      CalmReceive(sys, scope, packet, sets, clock, dict, base, w);
    case Enter(f, tick) =>
      CalmEnter(sys, f, tick, clock, dict, base, w);
  }

  // ----- settled: all templates are known, and what still waits waits in vain -----

  /** None of the waiting data sets could be decoded with the templates in `known`. */
  predicate Unhelped(packets: seq<Packet>, known: set<Key>, owner: map<nat, Scope>) {
    OwnersKnown(packets, owner) && forall p, ds :: p in packets && ds in p.sets ==> Key(p.scope, ds.id) !in known
  }

  lemma ParkUnhelped(packets: seq<Packet>, park: Task, known: set<Key>, owner: map<nat, Scope>, now: nat, stamp: nat)
    requires park.Park? && Unhelped(packets, known, owner) && Key(park.scope, park.ds.id) !in known
    requires park.packet in owner && owner[park.packet] == park.scope
    ensures var more := Append(Keep(packets, Alive(now)), park.scope, park.packet, park.ds, stamp);
            Unhelped(more, known, owner) && Unhelped(Evict(more, park.scope), known, owner)
  {
    hide Evict; hide Append;
    var live := Keep(packets, Alive(now));
    var more := Append(live, park.scope, park.packet, park.ds, stamp);
    EvictMembers(more, park.scope);
    forall p | p in more
      ensures p.id in owner && owner[p.id] == p.scope && forall ds :: ds in p.sets ==> Key(p.scope, ds.id) !in known
    {
      AppendMembers(live, park.scope, park.packet, park.ds, stamp, p);
    }
  }

  lemma UnhelpedItems(packets: seq<Packet>, known: set<Key>, owner: map<nat, Scope>)
    requires Unhelped(packets, known, owner)
    ensures Harmless(PacketItems(packets), known)
  {
    hide PacketItems;
    forall item | item in PacketItems(packets) ensures KeyOf(Forget(item)) !in known { WaitingMember(packets, item); }
  }

  lemma UnhelpedLess(packets: seq<Packet>, less: seq<Packet>, known: set<Key>, owner: map<nat, Scope>)
    requires Unhelped(packets, known, owner) && forall p :: p in less ==> p in packets
    ensures Unhelped(less, known, owner)
  {
  }

  /** The caches know exactly the announced templates. */
  predicate SettledCaches(s: Shared, work: seq<Task>, announced: set<Key>, owner: map<nat, Scope>, dict: Dictionary,
                          base: nat) {
    && FreshTemplates(s.templates, dict, base) && s.templates.Keys == announced
    && Unhelped(s.orphans, announced, owner)
    && LearnsFrom(work, dict) && LearnKeys(work) <= announced
  }

  /** A critical section gives up nothing that could be decoded. */
  ghost predicate SettledStep(s: Shared, l: Local, clock: nat -> nat, tick: nat, announced: set<Key>,
                              owner: map<nat, Scope>, dict: Dictionary, base: nat)
    requires l.work != []
  {
    var (s', l') := Section(s, l, clock, tick);
    && SettledCaches(s', l'.work, announced, owner, dict, base)
    && Harmless(ExpiredBy(s, l.work[0], clock(tick)), announced)
    && Harmless(EvictedBy(s, l.work[0], clock(tick), clock(tick + 1)), announced)
  }

  lemma ExpiredHarmless(s: Shared, task: Task, now: nat, announced: set<Key>, owner: map<nat, Scope>)
    requires Unhelped(s.orphans, announced, owner)
    ensures Harmless(ExpiredBy(s, task, now), announced)
  {
    hide PacketItems;
    var old_ := Keep(s.orphans, Not(Alive(now)));
    UnhelpedLess(s.orphans, old_, announced, owner);
    UnhelpedItems(old_, announced, owner);
  }

  lemma SettledLearn(s: Shared, l: Local, clock: nat -> nat, tick: nat, announced: set<Key>, owner: map<nat, Scope>,
                     dict: Dictionary, base: nat)
    requires l.work != [] && l.work[0].Learn? && SettledCaches(s, l.work, announced, owner, dict, base)
    requires FewTemplates(dict)
    requires clock(tick) <= base + TEMPLATE_TTL
    requires forall i: nat :: tick <= i < tick + Readings(l.work[0]) ==> base <= clock(i)
    ensures SettledStep(s, l, clock, tick, announced, owner, dict, base)
  {
    hide Section; hide ExpiredBy; hide EvictedBy; hide SweepTemplates; hide DefinitionKeys; hide LearnAll;
    hide LearnKeys; hide LearnsFrom; hide FreshTemplates; hide TemplatesOf; hide Unhelped;
    var scope, defs := l.work[0].scope, l.work[0].defs;
    assert DefinitionsFrom(scope, defs, dict) by { HeadLearns(l.work, dict); }
    assert |TemplatesOf(dict, scope)| <= TEMPLATE_LIMIT;
    NoTemplateExpires(s.templates, dict, base, clock(tick));
    RestLearnsFrom(l.work, dict);
    LearnsFresh(s.templates, scope, defs, clock, tick + 1, dict, base);
    PrependLearnsFrom([Replay(scope)], l.work[1..], dict);
    LearnSection(s, l, clock, tick);
    LearnLosesNothing(s, l.work[0], clock(tick), clock(tick + 1));
  }

  lemma SettledReplay(s: Shared, l: Local, clock: nat -> nat, tick: nat, announced: set<Key>, owner: map<nat, Scope>,
                      dict: Dictionary, base: nat)
    requires l.work != [] && l.work[0].Replay? && SettledCaches(s, l.work, announced, owner, dict, base)
    ensures SettledStep(s, l, clock, tick, announced, owner, dict, base)
  {
    hide LearnKeys; hide PacketLooks; hide LearnsFrom; hide Section; hide FreshTemplates; hide ExpiredBy; hide Unhelped;
    var scope, live := l.work[0].scope, Keep(s.orphans, Alive(clock(tick)));
    hide Keep;
    RestLearnsFrom(l.work, dict);
    LooksTeachNothing(scope, Keep(live, InScope(scope)));
    PrependLearnsFrom(PacketLooks(scope, Keep(live, InScope(scope))), l.work[1..], dict);
    ReplaySection(s, l, clock, tick);
    UnhelpedLess(s.orphans, Keep(live, Not(InScope(scope))), announced, owner);
    ExpiredHarmless(s, l.work[0], clock(tick), announced, owner);
  }

  lemma SettledLook(s: Shared, l: Local, clock: nat -> nat, tick: nat, announced: set<Key>, owner: map<nat, Scope>,
                    dict: Dictionary, base: nat)
    requires l.work != [] && l.work[0].Look? && SettledCaches(s, l.work, announced, owner, dict, base)
    requires clock(tick) <= base + TEMPLATE_TTL
    ensures SettledStep(s, l, clock, tick, announced, owner, dict, base)
  {
    hide LearnKeys; hide LearnsFrom; hide FreshTemplates; hide Unhelped; hide SweepTemplates;
    var task := l.work[0];
    NoTemplateExpires(s.templates, dict, base, clock(tick));
    RestLearnsFrom(l.work, dict);
    PrependLearnsFrom([Park(task.scope, task.packet, task.ds)], l.work[1..], dict);
  }

  lemma SettledPark(s: Shared, l: Local, f: Format, clock: nat -> nat, tick: nat, announced: set<Key>,
                    owner: map<nat, Scope>, dict: Dictionary, base: nat)
    requires l.work != [] && l.work[0].Park? && SettledCaches(s, l.work, announced, owner, dict, base)
    requires ListenerInv(s, l.work, f, owner)
    ensures SettledStep(s, l, clock, tick, announced, owner, dict, base)
  {
    hide Evict; hide EvictedFrom; hide Append; hide LearnKeys; hide LearnsFrom; hide FreshTemplates; hide ExpiredBy;
    hide PacketItems;
    var task, now, stamp := l.work[0], clock(tick), clock(tick + 1);
    var live := Keep(s.orphans, Alive(now));
    var more := Append(live, task.scope, task.packet, task.ds, stamp);
    RestLearnsFrom(l.work, dict);
    assert task.packet in owner && owner[task.packet] == task.scope by { ListenerHead(s, l.work, f, owner); }
    ParkUnhelped(s.orphans, task, announced, owner, now, stamp);
    ExpiredHarmless(s, task, now, announced, owner);
    EvictItems(more, task.scope);
    UnhelpedItems(more, announced, owner);
    assert EvictedBy(s, task, now, stamp) == EvictedFrom(more, task.scope);
  }

  lemma SettledSection(s: Shared, l: Local, f: Format, clock: nat -> nat, tick: nat, announced: set<Key>,
                       owner: map<nat, Scope>, dict: Dictionary, base: nat)
    requires l.work != [] && SettledCaches(s, l.work, announced, owner, dict, base) && FewTemplates(dict)
    requires ListenerInv(s, l.work, f, owner)
    requires forall i: nat :: tick <= i < tick + Readings(l.work[0]) ==> base <= clock(i) <= base + TEMPLATE_TTL
    ensures SettledStep(s, l, clock, tick, announced, owner, dict, base)
  {
    hide SettledStep; hide ListenerInv; hide SettledCaches;
    match l.work[0]
    case Learn(_, _) => SettledLearn(s, l, clock, tick, announced, owner, dict, base);
    case Replay(_) => SettledReplay(s, l, clock, tick, announced, owner, dict, base);
    case Look(_, _, _) => SettledLook(s, l, clock, tick, announced, owner, dict, base);
    case Park(_, _, _) => SettledPark(s, l, f, clock, tick, announced, owner, dict, base);
  }

  // ----- settled runs -----

  ghost predicate Settled(sys: System, announced: set<Key>, dict: Dictionary, base: nat) {
    && Inv(sys) && Spared(sys.ledger, announced)
    && SettledCaches(sys.shared, sys.v9.work, announced, sys.owner, dict, base)
    && SettledCaches(sys.shared, sys.ipfix.work, announced, sys.owner, dict, base)
  }

  /** During the readings from `start` on and before `end`, no more than the template lifetime passes. */
  ghost predicate Lasting(clock: nat -> nat, since: nat, start: nat, end: nat) {
    forall tick: nat :: start <= tick < end ==> since <= clock(tick) <= since + TEMPLATE_TTL
  }

  lemma SettledEnter(sys: System, f: Format, tick: nat, clock: nat -> nat, announced: set<Key>, dict: Dictionary,
                     base: nat)
    requires Settled(sys, announced, dict, base) && Enabled(sys, Enter(f, tick)) && FewTemplates(dict)
    requires Lasting(clock, base, 0, Apply(sys, Enter(f, tick), clock).time)
    ensures Settled(Apply(sys, Enter(f, tick), clock), announced, dict, base)
  {
    hide Section; hide Inv; hide LearnKeys; hide LearnsFrom; hide ExpiredBy; hide EvictedBy; hide Unhelped;
    hide FreshTemplates;
    hide Harmless;
    var l, next := sys.Of(f), Apply(sys, Enter(f, tick), clock);
    EnterKeepsInv(sys, f, tick, clock);
    InvParts(sys, f);
    SettledSection(sys.shared, l, f, clock, tick, announced, sys.owner, dict, base);
    HarmlessSum(sys.ledger.expired, ExpiredBy(sys.shared, l.work[0], clock(tick)), announced);
    HarmlessSum(sys.ledger.evicted, EvictedBy(sys.shared, l.work[0], clock(tick), clock(tick + 1)), announced);
    assert next.Of(Other(f)) == sys.Of(Other(f));
  }

  lemma HarmlessSum(a: multiset<Item>, b: multiset<Item>, announced: set<Key>)
    requires Harmless(a, announced) && Harmless(b, announced)
    ensures Harmless(a + b, announced)
  {
  }

  lemma SettledReceive(sys: System, scope: Scope, packet: nat, sets: seq<RawSet>, clock: nat -> nat,
                       announced: set<Key>, dict: Dictionary, base: nat)
    requires Settled(sys, announced, dict, base) && Enabled(sys, Receive(scope, packet, sets))
    requires LearnsFrom(MessageTasks(scope, 0, sets), dict) && MessageKeys(Message(scope, sets)) <= announced
    ensures Settled(Apply(sys, Receive(scope, packet, sets), clock), announced, dict, base)
  {
    hide Inv; hide FreshTemplates; hide LearnsFrom; hide WorkItems; hide MessageTasks; hide Harmless; hide LearnKeys;
    ReceiveKeepsInv(sys, scope, packet, sets, clock);
    MessageLearnsFrom(scope, packet, sets, dict);
    PacketIdIrrelevant(scope, packet, sets);
  }

  lemma {:induction false} SettledRun(sys: System, events: seq<Event>, clock: nat -> nat, announced: set<Key>,
                                      dict: Dictionary, base: nat)
    requires Settled(sys, announced, dict, base) && Legal(sys, events, clock)
    requires FewTemplates(dict) && Consistent(Messages(events), dict) && AnnouncedBy(Messages(events)) <= announced
    requires Lasting(clock, base, 0, Run(sys, events, clock).time)
    ensures Settled(Run(sys, events, clock), announced, dict, base)
    decreases |events|
  {
    hide Settled; hide Section; hide MessageTasks; hide Apply; hide LearnsFrom; hide MessageKeys;
    if events != [] {
      var event, next := events[0], Apply(sys, events[0], clock);
      Grows(next, events[1..], clock);
      MessagesCons(events);
      match event {
        case Receive(scope, packet, sets) =>
          var m := Message(scope, sets);
          assert EventMessages(event) == [m] && m in Messages(events);
          assert AnnouncedBy([m]) == MessageKeys(m) by { assert [m][1..] == [] && AnnouncedBy([]) == {}; }
          SettledReceive(sys, scope, packet, sets, clock, announced, dict, base);
        case Enter(f, tick) =>
          SettledEnter(sys, f, tick, clock, announced, dict, base);
      }
      SettledRun(next, events[1..], clock, announced, dict, base);
    }
  }

  // ----- main result -----

  /** No template is being learnt or replayed. */
  predicate NothingPending(work: seq<Task>) { forall i :: 0 <= i < |work| ==> !work[i].Learn? && !work[i].Replay? }

  predicate CaughtUp(sys: System) { NothingPending(sys.v9.work) && NothingPending(sys.ipfix.work) }

  /** When a calm collector has caught up, it has settled. */
  lemma CalmSettles(sys: System, dict: Dictionary, base: nat, w: Waiters)
    requires Calm(sys, dict, base, w) && CaughtUp(sys)
    ensures Settled(sys, Known(sys), dict, base)
  {
    hide LearnsFrom; hide Served; hide MayWait; hide WithinLimits; hide LearnKeys; hide Ordered;
    LookKeysEmpty(sys.v9.work);
    LookKeysEmpty(sys.ipfix.work);
    assert Known(sys) == sys.shared.templates.Keys;
    InvParts(sys, NetFlowV9);
    InvParts(sys, Ipfix);
    forall p, ds | p in sys.shared.orphans && ds in p.sets ensures Key(p.scope, ds.id) !in Known(sys) {
      assert NoneOverlooked(sys.shared, sys.Of(p.scope.format).work, p.scope.format);
    }
  }

  lemma {:induction false} RunConcat(sys: System, a: seq<Event>, b: seq<Event>, clock: nat -> nat)
    requires Legal(sys, a + b, clock)
    ensures Legal(sys, a, clock) && Legal(Run(sys, a, clock), b, clock)
    ensures Run(sys, a + b, clock) == Run(Run(sys, a, clock), b, clock)
    decreases |a|
  {
    hide Apply; hide Enabled;
    if a == [] {
      assert a + b == b;
    } else {
      assert (a + b)[0] == a[0] && (a + b)[1..] == a[1..] + b;
      RunConcat(Apply(sys, a[0], clock), a[1..], b, clock);
    }
  }

  lemma {:induction false} MessagesConcat(a: seq<Event>, b: seq<Event>)
    ensures Messages(a + b) == Messages(a) + Messages(b)
  {
    hide EventMessages;
    if a == [] {
      assert a + b == b;
    } else {
      assert (a + b)[0] == a[0] && (a + b)[1..] == a[1..] + b;
      MessagesConcat(a[1..], b);
    }
  }

  lemma {:induction false} AnnouncedConcat(a: seq<Message>, b: seq<Message>)
    ensures AnnouncedBy(a + b) == AnnouncedBy(a) + AnnouncedBy(b)
  {
    hide MessageKeys;
    if a == [] {
      assert a + b == b;
    } else {
      assert (a + b)[0] == a[0] && (a + b)[1..] == a[1..] + b;
      AnnouncedConcat(a[1..], b);
    }
  }

  /**
   * Nothing decodable is lost, in any interleaving, if all templates are announced and worked off within the lifetime
   * of an orphan, no scope has more than 256 of them, no more than 100 messages of a scope come before one of their
   * templates, and the whole run takes no longer than the lifetime of a template. The number of other messages, of
   * those that come later and of scopes does not matter, nor does data that no template is ever announced for.
   */
  lemma WithinLimitsIsLossless(early: seq<Event>, late: seq<Event>, clock: nat -> nat, dict: Dictionary, base: nat)
    requires Legal(INITIAL, early + late, clock) && Idle(Run(INITIAL, early + late, clock))
    requires Consistent(Messages(early + late), dict) && FewTemplates(dict)
    requires FewWaiters(scope => WaitersOf(early, {}, scope))
    requires Legal(INITIAL, early, clock) && CaughtUp(Run(INITIAL, early, clock))
    requires Brief(clock, base, Run(INITIAL, early, clock).time)
    requires AnnouncedBy(Messages(late)) <= AnnouncedBy(Messages(early))
    requires Lasting(clock, base, 0, Run(INITIAL, early + late, clock).time)
    ensures Lossless(early + late, clock, dict)
  {
    hide Inv; hide Run; hide Legal; hide FreshCaches; hide Messages; hide AnnouncedBy; hide WaitersOf; hide CaughtUp;
    hide SettledCaches; hide Known; hide Calm; hide FewTemplates;
    var w: Waiters := scope => WaitersOf(early, {}, scope);
    var mid := Run(INITIAL, early, clock);
    RunConcat(INITIAL, early, late, clock);
    MessagesConcat(early, late);
    AnnouncedConcat(Messages(early), Messages(late));
    InitiallyCalm(dict, base, w);
    CalmRun(INITIAL, early, clock, dict, base, w);
    assert {} + AnnouncedBy(Messages(early)) == AnnouncedBy(Messages(early));
    CalmSettles(mid, dict, base, w);
    SettledRun(mid, late, clock, Known(mid), dict, base);
    SettledEnds(Run(mid, late, clock), Known(mid), dict, base);
  }

  lemma SettledEnds(sys: System, announced: set<Key>, dict: Dictionary, base: nat)
    requires Settled(sys, announced, dict, base)
    ensures sys.shared.templates.Keys == announced && Spared(sys.ledger, announced)
  {
  }

  lemma InitiallyCalm(dict: Dictionary, base: nat, w: Waiters)
    ensures Calm(INITIAL, dict, base, w) && Known(INITIAL) == {}
  {
    InitiallySafe();
    assert LearnKeys([]) == {};
  }
}
