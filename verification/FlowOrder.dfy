/**
 * The order of arrival does not matter: as long as nothing decodable is given up, the records a collector
 * returns depend only on which messages arrive, not on when the templates arrive among the data.
 */
module FlowOrder {
  import opened Sums
  import opened FlowRecords
  import opened FlowFraming
  import opened FlowDecoder
  import opened FlowCaches
  import opened FlowSystem

  /** The field lists that the exporters use, one per template. */
  type Dictionary = map<Key, seq<Field>>

  datatype Message = Message(scope: Scope, sets: seq<RawSet>)

  /** A data set regardless of the packet that brought it. */
  datatype Content = Content(scope: Scope, ds: DataSet)

  function KeyOf(c: Content): Key { Key(c.scope, c.ds.id) }

  function Forget(item: Item): Content { Content(item.scope, item.ds) }

  // ----- what messages announce and carry -----

  function DefinitionKeys(scope: Scope, defs: seq<Definition>): set<Key> {
    set d | d in defs :: Key(scope, d.id)
  }

  function LearnKeys(work: seq<Task>): set<Key> {
    if work == [] then {}
    else (if work[0].Learn? then DefinitionKeys(work[0].scope, work[0].defs) else {}) + LearnKeys(work[1..])
  }

  predicate DefinitionsFrom(scope: Scope, defs: seq<Definition>, dict: Dictionary) {
    forall d :: d in defs ==> Key(scope, d.id) in dict && dict[Key(scope, d.id)] == d.fields
  }

  predicate LearnsFrom(work: seq<Task>, dict: Dictionary) {
    forall i :: 0 <= i < |work| && work[i].Learn? ==> DefinitionsFrom(work[i].scope, work[i].defs, dict)
  }

  function MessageContents(m: Message): multiset<Content>
    decreases |m.sets|
  {
    if m.sets == [] then multiset{}
    else SetContents(m.scope, m.sets[0]) + MessageContents(m.(sets := m.sets[1..]))
  }

  function MessageKeys(m: Message): set<Key> { LearnKeys(MessageTasks(m.scope, 0, m.sets)) }

  function Messages(events: seq<Event>): seq<Message> {
    if events == [] then []
    else EventMessages(events[0]) + Messages(events[1..])
  }

  function AnnouncedBy(messages: seq<Message>): set<Key> {
    if messages == [] then {} else MessageKeys(messages[0]) + AnnouncedBy(messages[1..])
  }

  lemma {:induction false} AnnouncedMember(messages: seq<Message>, k: Key)
    ensures k in AnnouncedBy(messages) <==> exists m :: m in messages && k in MessageKeys(m)
  {
    if messages != [] {
      AnnouncedMember(messages[1..], k);
      if m :| m in messages && k in MessageKeys(m) { assert m == messages[0] || m in messages[1..]; }
      assert forall m :: m in messages[1..] ==> m in messages;
    }
  }

  lemma AnnouncedPermutation(a: seq<Message>, b: seq<Message>)
    requires multiset(a) == multiset(b)
    ensures AnnouncedBy(a) == AnnouncedBy(b)
  {
    assert forall m :: m in a <==> m in multiset(a);
    assert forall m :: m in b <==> m in multiset(b);
    forall k ensures k in AnnouncedBy(a) <==> k in AnnouncedBy(b) {
      AnnouncedMember(a, k);
      AnnouncedMember(b, k);
    }
  }

  lemma {:induction false} LearnKeysConcat(a: seq<Task>, b: seq<Task>)
    ensures LearnKeys(a + b) == LearnKeys(a) + LearnKeys(b)
  {
    if a == [] {
      assert a + b == b;
    } else {
      assert (a + b)[1..] == a[1..] + b;
      LearnKeysConcat(a[1..], b);
    }
  }

  /** Neither what a message teaches nor what it carries depends on its packet id. */
  lemma {:induction false} PacketIdIrrelevant(scope: Scope, packet: nat, sets: seq<RawSet>)
    ensures LearnKeys(MessageTasks(scope, packet, sets)) == MessageKeys(Message(scope, sets))
    ensures Image(WorkItems(MessageTasks(scope, packet, sets)), Forget) == MessageContents(Message(scope, sets))
    decreases |sets|
  {
    if sets != [] {
      PacketIdIrrelevant(scope, packet, sets[1..]);
      var s, rest := sets[0], MessageTasks(scope, packet, sets[1..]);
      LearnKeysConcat(SetTasks(scope, packet, s), rest);
      LearnKeysConcat(SetTasks(scope, 0, s), MessageTasks(scope, 0, sets[1..]));
      WorkItemsConcat(SetTasks(scope, packet, s), rest);
      ImageSum(WorkItems(SetTasks(scope, packet, s)), WorkItems(rest), Forget);
      SetImage(scope, packet, s);
    }
  }

  function SetContents(scope: Scope, s: RawSet): multiset<Content> {
    if s.id != TemplateSetId(scope.format) && s.id >= 256
    then multiset{Content(scope, DataSet(s.id, s.body))} else multiset{}
  }

  lemma SetImage(scope: Scope, packet: nat, s: RawSet)
    ensures Image(WorkItems(SetTasks(scope, packet, s)), Forget) == SetContents(scope, s)
  {
    if s.id != TemplateSetId(scope.format) && s.id >= 256 {
      var item := Item(scope, packet, DataSet(s.id, s.body));
      WorkItemsCons(Look(scope, packet, DataSet(s.id, s.body)), []);
      ImageRemove(multiset{item}, Forget, item);
      assert multiset{item} - multiset{item} == multiset{};
    }
  }

  lemma RestLearnsFrom(work: seq<Task>, dict: Dictionary)
    requires work != [] && LearnsFrom(work, dict)
    ensures LearnsFrom(work[1..], dict)
    ensures LearnKeys(work)
         == (if work[0].Learn? then DefinitionKeys(work[0].scope, work[0].defs) else {}) + LearnKeys(work[1..])
  {
    assert forall i :: 0 <= i < |work[1..]| ==> work[1..][i] == work[i + 1];
  }

  lemma PrependLearnsFrom(work: seq<Task>, rest: seq<Task>, dict: Dictionary)
    requires LearnsFrom(rest, dict) && forall t :: t in work ==> !t.Learn?
    ensures LearnsFrom(work + rest, dict) && LearnKeys(work + rest) == LearnKeys(rest)
  {
    LookKeysEmpty(work);
    LearnKeysConcat(work, rest);
    assert forall i :: 0 <= i < |work| ==> work[i] in work;
    forall i | |work| <= i < |work + rest| && (work + rest)[i].Learn?
      ensures DefinitionsFrom((work + rest)[i].scope, (work + rest)[i].defs, dict)
    {
      assert (work + rest)[i] == rest[i - |work|];
    }
  }

  lemma HeadLearns(work: seq<Task>, dict: Dictionary)
    requires LearnsFrom(work, dict) && work != [] && work[0].Learn?
    ensures DefinitionsFrom(work[0].scope, work[0].defs, dict)
  {
  }

  lemma {:induction false} LooksTeachNothing(scope: Scope, packets: seq<Packet>)
    ensures LearnKeys(PacketLooks(scope, packets)) == {}
    ensures forall t :: t in PacketLooks(scope, packets) ==> t.Look?
  {
    if packets != [] {
      LooksTeachNothing(scope, packets[1..]);
      SetLooksShape(scope, packets[0].id, packets[0].sets);
      LookKeysEmpty(SetLooks(scope, packets[0].id, packets[0].sets));
      LearnKeysConcat(SetLooks(scope, packets[0].id, packets[0].sets), PacketLooks(scope, packets[1..]));
    }
  }

  lemma {:induction false} LookKeysEmpty(work: seq<Task>)
    requires forall t :: t in work ==> !t.Learn?
    ensures LearnKeys(work) == {}
  {
    if work != [] { LookKeysEmpty(work[1..]); }
  }

  lemma {:induction false} MessageLearnsFrom(scope: Scope, packet: nat, sets: seq<RawSet>, dict: Dictionary)
    requires LearnsFrom(MessageTasks(scope, 0, sets), dict)
    ensures LearnsFrom(MessageTasks(scope, packet, sets), dict)
    decreases |sets|
  {
    SameLearns(scope, packet, sets);
    var work, work0 := MessageTasks(scope, packet, sets), MessageTasks(scope, 0, sets);
    forall i | 0 <= i < |work| && work[i].Learn? ensures DefinitionsFrom(work[i].scope, work[i].defs, dict) {
      assert work0[i] == work[i];
    }
  }

  lemma {:induction false} SameLearns(scope: Scope, packet: nat, sets: seq<RawSet>)
    ensures var work, work0 := MessageTasks(scope, packet, sets), MessageTasks(scope, 0, sets);
            |work| == |work0| && forall i :: 0 <= i < |work| ==>
              work[i] == work0[i] || (work[i].Look? && work0[i].Look?)
  {
    if sets != [] { SameLearns(scope, packet, sets[1..]); }
  }

  /** Every message agrees with the dictionary. */
  predicate Consistent(messages: seq<Message>, dict: Dictionary) {
    forall m :: m in messages ==> LearnsFrom(MessageTasks(m.scope, 0, m.sets), dict)
  }

  function EventMessages(event: Event): seq<Message> {
    match event case Receive(scope, _, sets) => [Message(scope, sets)] case Enter(_, _) => []
  }

  lemma MessagesCons(events: seq<Event>)
    requires events != []
    ensures Messages(events) == EventMessages(events[0]) + Messages(events[1..])
    ensures AnnouncedBy(Messages(events)) == AnnouncedBy(EventMessages(events[0])) + AnnouncedBy(Messages(events[1..]))
    ensures Sum(Messages(events), MessageContents)
         == Sum(EventMessages(events[0]), MessageContents) + Sum(Messages(events[1..]), MessageContents)
  {
    var first, rest := EventMessages(events[0]), Messages(events[1..]);
    assert Messages(events) == first + rest;
    hide Messages; hide EventMessages; hide MessageKeys; hide MessageContents;
    assert |first| <= 1 by { AtMostOne(events[0]); }
    if first == [] {
      assert first + rest == rest;
    } else {
      MessageFirst(first[0], rest);
      MessageFirst(first[0], []);
      assert first == [first[0]] == [first[0]] + [];
    }
  }

  lemma AtMostOne(event: Event)
    ensures |EventMessages(event)| <= 1
  {
  }

  lemma MessageFirst(m: Message, rest: seq<Message>)
    ensures AnnouncedBy([m] + rest) == MessageKeys(m) + AnnouncedBy(rest)
    ensures Sum([m] + rest, MessageContents) == MessageContents(m) + Sum(rest, MessageContents)
  {
    hide MessageKeys; hide MessageContents;
    assert ([m] + rest)[1..] == rest;
  }

  /** The contents received so far. */
  ghost function Account(sys: System): multiset<Content> { Image(sys.received, Forget) }

  // ----- what is cached or decoded was announced, with these fields -----

  predicate TemplatesFrom(t: Templates, announced: set<Key>, dict: Dictionary) {
    forall k :: k in t ==> k in announced && k in dict && t[k].fields == dict[k]
  }

  predicate DecodedFrom(out: seq<Decoded>, f: Format, announced: set<Key>, dict: Dictionary) {
    forall d :: d in out ==>
      var key := Key(d.item.scope, d.item.ds.id);
      d.item.scope.format == f && key in announced && key in dict && d.fields == dict[key]
  }

  predicate ListenerTruthful(l: Local, f: Format, announced: set<Key>, dict: Dictionary) {
    LearnsFrom(l.work, dict) && LearnKeys(l.work) <= announced && DecodedFrom(l.out, f, announced, dict)
  }

  ghost predicate Truthful(sys: System, announced: set<Key>, dict: Dictionary) {
    && Inv(sys)
    && TemplatesFrom(sys.shared.templates, announced, dict)
    && ListenerTruthful(sys.v9, NetFlowV9, announced, dict)
    && ListenerTruthful(sys.ipfix, Ipfix, announced, dict)
  }

  lemma {:induction false} EvictSubset(t: Templates, scope: Scope)
    ensures forall k :: k in EvictTemplates(t, scope) ==> k in t && EvictTemplates(t, scope)[k] == t[k]
    decreases |t|
  {
    if |ScopeKeys(t, scope)| > TEMPLATE_LIMIT {
      assert Oldest(t, scope) in t;
      EvictSubset(t - {Oldest(t, scope)}, scope);
    }
  }

  lemma {:induction false} LearnTruthful(t: Templates, scope: Scope, defs: seq<Definition>, clock: nat -> nat,
                                         tick: nat, announced: set<Key>, dict: Dictionary)
    requires TemplatesFrom(t, announced, dict)
    requires DefinitionsFrom(scope, defs, dict) && DefinitionKeys(scope, defs) <= announced
    ensures TemplatesFrom(LearnAll(t, scope, defs, clock, tick), announced, dict)
    decreases |defs|
  {
    if defs != [] {
      assert defs[0] in defs && forall d :: d in defs[1..] ==> d in defs;
      assert Key(scope, defs[0].id) in DefinitionKeys(scope, defs);
      EvictSubset(t[Key(scope, defs[0].id) := Cached(defs[0].fields, clock(tick))], scope);
      assert DefinitionKeys(scope, defs[1..]) <= DefinitionKeys(scope, defs);
      LearnTruthful(LearnOne(t, scope, defs[0], clock(tick)), scope, defs[1..], clock, tick + 1, announced, dict);
    }
  }

  lemma TruthfulSection(s: Shared, l: Local, f: Format, clock: nat -> nat, tick: nat, announced: set<Key>,
                        dict: Dictionary)
    requires l.work != [] && l.work[0].scope.format == f
    requires TemplatesFrom(s.templates, announced, dict) && ListenerTruthful(l, f, announced, dict)
    ensures var (s', l') := Section(s, l, clock, tick);
            TemplatesFrom(s'.templates, announced, dict) && ListenerTruthful(l', f, announced, dict)
  {
    hide Keep; hide Evict; hide Append; hide LearnAll; hide LearnKeys; hide LearnsFrom; hide EvictTemplates;
    var task, rest, now := l.work[0], l.work[1..], clock(tick);
    RestLearnsFrom(l.work, dict);
    match task
    case Learn(scope, defs) =>
      HeadLearns(l.work, dict);
      LearnTruthful(SweepTemplates(s.templates, now), scope, defs, clock, tick + 1, announced, dict);
      PrependLearnsFrom([Replay(scope)], rest, dict);
    case Replay(scope) =>
      var waiting := Keep(Keep(s.orphans, Alive(now)), InScope(scope));
      LooksTeachNothing(scope, waiting);
      PrependLearnsFrom(PacketLooks(scope, waiting), rest, dict);
    case Look(scope, packet, ds) =>
      PrependLearnsFrom([Park(scope, packet, ds)], rest, dict);
    case Park(_, _, _) =>
  }

  lemma MoreAnnounced(s: Shared, l: Local, f: Format, announced: set<Key>, more: set<Key>, dict: Dictionary)
    requires TemplatesFrom(s.templates, announced, dict) && ListenerTruthful(l, f, announced, dict)
    ensures TemplatesFrom(s.templates, announced + more, dict) && ListenerTruthful(l, f, announced + more, dict)
  {
  }

  lemma TruthfulReceive(sys: System, scope: Scope, packet: nat, sets: seq<RawSet>, clock: nat -> nat,
                        announced: set<Key>, dict: Dictionary)
    requires Truthful(sys, announced, dict) && Enabled(sys, Receive(scope, packet, sets))
    requires LearnsFrom(MessageTasks(scope, 0, sets), dict)
    ensures var m, next := Message(scope, sets), Apply(sys, Receive(scope, packet, sets), clock);
            Truthful(next, announced + MessageKeys(m), dict) && Account(next) == Account(sys) + MessageContents(m)
  {
    hide Inv; hide MessageTasks; hide Image; hide LearnKeys; hide LearnsFrom; hide DecodedFrom;
    ReceiveKeepsInv(sys, scope, packet, sets, clock);
    MessageLearnsFrom(scope, packet, sets, dict);
    PacketIdIrrelevant(scope, packet, sets);
    ImageSum(sys.received, WorkItems(MessageTasks(scope, packet, sets)), Forget);
    MoreAnnounced(sys.shared, sys.v9, NetFlowV9, announced, MessageKeys(Message(scope, sets)), dict);
    MoreAnnounced(sys.shared, sys.ipfix, Ipfix, announced, MessageKeys(Message(scope, sets)), dict);
  }

  lemma TruthfulEnter(sys: System, f: Format, tick: nat, clock: nat -> nat, announced: set<Key>, dict: Dictionary)
    requires Truthful(sys, announced, dict) && Enabled(sys, Enter(f, tick))
    ensures Truthful(Apply(sys, Enter(f, tick), clock), announced, dict)
  {
    hide Inv; hide Section; hide ListenerTruthful; hide TemplatesFrom;
    EnterKeepsInv(sys, f, tick, clock);
    InvParts(sys, f);
    TruthfulSection(sys.shared, sys.Of(f), f, clock, tick, announced, dict);
  }

  lemma TruthfulEvent(sys: System, event: Event, clock: nat -> nat, announced: set<Key>, dict: Dictionary)
    requires Truthful(sys, announced, dict) && Enabled(sys, event) && Consistent(EventMessages(event), dict)
    ensures Truthful(Apply(sys, event, clock), announced + AnnouncedBy(EventMessages(event)), dict)
    ensures Account(Apply(sys, event, clock)) == Account(sys) + Sum(EventMessages(event), MessageContents)
  {
    hide Truthful; hide Section; hide MessageTasks; hide LearnsFrom; hide MessageKeys; hide Image;
    match event
    case Receive(scope, packet, sets) =>
      var m := Message(scope, sets);
      assert EventMessages(event) == [m] && [m][1..] == [];
      TruthfulReceive(sys, scope, packet, sets, clock, announced, dict);
      assert AnnouncedBy([m]) == MessageKeys(m);
      assert Sum([m], MessageContents) == MessageContents(m);
    case Enter(f, tick) =>
      assert announced + {} == announced;
      TruthfulEnter(sys, f, tick, clock, announced, dict);
  }

  lemma {:induction false} TruthfulRun(sys: System, events: seq<Event>, clock: nat -> nat, announced: set<Key>,
                                       dict: Dictionary)
    requires Truthful(sys, announced, dict) && Legal(sys, events, clock) && Consistent(Messages(events), dict)
    ensures Truthful(Run(sys, events, clock), announced + AnnouncedBy(Messages(events)), dict)
    ensures Account(Run(sys, events, clock)) == Account(sys) + Sum(Messages(events), MessageContents)
    decreases |events|
  {
    hide Truthful; hide Apply; hide Account;
    if events == [] {
      assert announced + {} == announced;
    } else {
      var first, more := AnnouncedBy(EventMessages(events[0])), AnnouncedBy(Messages(events[1..]));
      MessagesCons(events);
      TruthfulEvent(sys, events[0], clock, announced, dict);
      TruthfulRun(Apply(sys, events[0], clock), events[1..], clock, announced + first, dict);
      assert announced + first + more == announced + (first + more);
    }
  }

  // ----- what is decoded when everything has been worked off -----

  predicate Idle(sys: System) { sys.v9.work == [] && sys.ipfix.work == [] }

  lemma {:induction false} DecodedMember(out: seq<Decoded>, item: Item)
    ensures item in DecodedItems(out) ==> exists d :: d in out && d.item == item
  {
    if out != [] {
      DecodedMember(out[1..], item);
      assert out[0] in out;
      assert forall d :: d in out[1..] ==> d in out;
    }
  }

  lemma {:induction false} SetMember(scope: Scope, packet: nat, sets: seq<DataSet>, item: Item)
    ensures item in SetItems(scope, packet, sets) ==> item.scope == scope && item.packet == packet && item.ds in sets
  {
    if sets != [] {
      SetMember(scope, packet, sets[1..], item);
      assert sets[0] in sets;
    }
  }

  lemma {:induction false} WaitingMember(packets: seq<Packet>, item: Item)
    ensures item in PacketItems(packets) ==> exists p :: p in packets && p.scope == item.scope && item.ds in p.sets
  {
    if packets != [] {
      var p := packets[0];
      SetMember(p.scope, p.id, p.sets, item);
      WaitingMember(packets[1..], item);
      assert p in packets;
      assert forall q :: q in packets[1..] ==> q in packets;
    }
  }

  /** A content decoded by listener `f` is of format `f` and its template was announced. */
  lemma DecodedContent(sys: System, announced: set<Key>, dict: Dictionary, f: Format, c: Content)
    requires Truthful(sys, announced, dict)
    ensures c in Image(DecodedItems(sys.Of(f).out), Forget) ==> c.scope.format == f && KeyOf(c) in announced
  {
    hide Inv; hide Image; hide DecodedItems;
    var m := DecodedItems(sys.Of(f).out);
    if c in Image(m, Forget) {
      ImageOrigin(m, Forget, c);
      var item :| item in m && Forget(item) == c;
      DecodedMember(sys.Of(f).out, item);
    }
  }

  /** A content still waiting when all is idle has no cached template. */
  lemma WaitingContent(sys: System, c: Content)
    requires Inv(sys) && Idle(sys)
    ensures c in Image(PacketItems(sys.shared.orphans), Forget) ==> KeyOf(c) !in sys.shared.templates
  {
    hide Image; hide PacketItems; hide CacheInv;
    var m := PacketItems(sys.shared.orphans);
    if c in Image(m, Forget) {
      ImageOrigin(m, Forget, c);
      var item :| item in m && Forget(item) == c;
      WaitingMember(sys.shared.orphans, item);
      var p :| p in sys.shared.orphans && p.scope == item.scope && item.ds in p.sets;
      var f := p.scope.format;
      assert NoneOverlooked(sys.shared, sys.Of(f).work, f);
    }
  }

  /** None of the data sets given up has an announced template. */
  predicate Harmless(items: multiset<Item>, announced: set<Key>) {
    forall item :: item in items ==> KeyOf(Forget(item)) !in announced
  }

  predicate Spared(ledger: Ledger, announced: set<Key>) {
    Harmless(ledger.expired, announced) && Harmless(ledger.evicted, announced)
  }

  lemma HarmlessContent(items: multiset<Item>, announced: set<Key>, c: Content)
    requires Harmless(items, announced)
    ensures c in Image(items, Forget) ==> KeyOf(c) !in announced
  {
    hide Image;
    if c in Image(items, Forget) {
      ImageOrigin(items, Forget, c);
      var item :| item in items && Forget(item) == c;
    }
  }

  lemma IdleAccount(sys: System)
    requires Conserved(sys) && Idle(sys)
    ensures Account(sys) == Image(DecodedItems(sys.v9.out), Forget) + Image(DecodedItems(sys.ipfix.out), Forget)
              + Image(PacketItems(sys.shared.orphans), Forget)
              + Image(sys.ledger.expired, Forget) + Image(sys.ledger.evicted, Forget)
  {
    hide DecodedItems; hide PacketItems; hide Image;
    var a, b, c := DecodedItems(sys.v9.out), DecodedItems(sys.ipfix.out), PacketItems(sys.shared.orphans);
    var d, e := sys.ledger.expired, sys.ledger.evicted;
    assert WorkItems([]) == multiset{};
    assert sys.received == a + b + c + d + e;
    ImageSum(a + b + c + d, e, Forget);
    ImageSum(a + b + c, d, Forget);
    ImageSum(a + b, c, Forget);
    ImageSum(a, b, Forget);
  }

  /**
   * In an idle collector that gave up nothing it could have decoded, listener `f` has decoded exactly the data sets
   * of its format whose templates were announced, each as often as it was received.
   */
  lemma DecodedExactly(sys: System, announced: set<Key>, dict: Dictionary, f: Format, c: Content)
    requires Truthful(sys, announced, dict) && Conserved(sys) && Idle(sys)
    requires Spared(sys.ledger, announced) && announced <= sys.shared.templates.Keys
    ensures Image(DecodedItems(sys.Of(f).out), Forget)[c]
         == if c.scope.format == f && KeyOf(c) in announced then Account(sys)[c] else 0
  {
    hide Inv; hide DecodedItems; hide PacketItems; hide Image; hide Conserved; hide Account; hide Harmless;
    IdleAccount(sys);
    DecodedContent(sys, announced, dict, NetFlowV9, c);
    DecodedContent(sys, announced, dict, Ipfix, c);
    WaitingContent(sys, c);
    HarmlessContent(sys.ledger.expired, announced, c);
    HarmlessContent(sys.ledger.evicted, announced, c);
  }

  // ----- from decoded data sets to flow records -----

  function ContentsOf(out: seq<Decoded>): seq<Content> {
    if out == [] then [] else [Forget(out[0].item)] + ContentsOf(out[1..])
  }

  /** The flow records of a data set, decoded with the template of the dictionary. */
  function DecodeWith(dict: Dictionary): Content -> multiset<FlowRecord> {
    c => if KeyOf(c) in dict then multiset(Records(dict[KeyOf(c)], c.ds.body)) else multiset{}
  }

  lemma {:induction false} ContentsImage(out: seq<Decoded>)
    ensures multiset(ContentsOf(out)) == Image(DecodedItems(out), Forget)
  {
    if out != [] {
      ContentsImage(out[1..]);
      var item := out[0].item;
      ImageRemove(DecodedItems(out), Forget, item);
      assert DecodedItems(out) - multiset{item} == DecodedItems(out[1..]);
    }
  }

  lemma {:induction false} OutputIsSum(out: seq<Decoded>, f: Format, announced: set<Key>, dict: Dictionary)
    requires DecodedFrom(out, f, announced, dict)
    ensures multiset(Output(out)) == Sum(ContentsOf(out), DecodeWith(dict))
  {
    if out != [] {
      assert out[0] in out;
      assert forall d :: d in out[1..] ==> d in out;
      OutputIsSum(out[1..], f, announced, dict);
      assert ContentsOf(out)[1..] == ContentsOf(out[1..]);
      OutputCons(out);
    }
  }

  lemma OutputCons(out: seq<Decoded>)
    requires out != []
    ensures multiset(Output(out)) == multiset(Records(out[0].fields, out[0].item.ds.body)) + multiset(Output(out[1..]))
  {
    hide Records;
  }

  // ----- main result -----

  /**
   * A run from empty caches that ends with all work done, in which no data set with an announced template was given
   * up, every template is still cached at the end, and no template ever changed its fields.
   */
  ghost predicate Lossless(events: seq<Event>, clock: nat -> nat, dict: Dictionary) {
    && Legal(INITIAL, events, clock)
    && Consistent(Messages(events), dict)
    && var final := Run(INITIAL, events, clock);
       Idle(final) && Spared(final.ledger, AnnouncedBy(Messages(events)))
       && AnnouncedBy(Messages(events)) <= final.shared.templates.Keys
  }

  lemma LosslessRun(events: seq<Event>, clock: nat -> nat, dict: Dictionary)
    requires Lossless(events, clock, dict)
    ensures var final := Run(INITIAL, events, clock);
            && Truthful(final, AnnouncedBy(Messages(events)), dict) && Conserved(final)
            && Account(final) == Sum(Messages(events), MessageContents)
  {
    hide Inv; hide Conserved; hide Run;
    InitiallySafe();
    EverythingAccountedFor(INITIAL, events, clock);
    TruthfulRun(INITIAL, events, clock, {}, dict);
    assert {} + AnnouncedBy(Messages(events)) == AnnouncedBy(Messages(events));
  }

  /** What listener `f` decodes in such a run, in terms of the messages alone. */
  lemma DecodedFromMessages(events: seq<Event>, clock: nat -> nat, dict: Dictionary, f: Format, c: Content)
    requires Lossless(events, clock, dict)
    ensures multiset(ContentsOf(Run(INITIAL, events, clock).Of(f).out))[c] ==
            if c.scope.format == f && KeyOf(c) in AnnouncedBy(Messages(events))
            then Sum(Messages(events), MessageContents)[c] else 0
  {
    hide Inv; hide Conserved; hide Image; hide DecodedItems; hide Run; hide Account; hide ContentsOf; hide Truthful;
    var final := Run(INITIAL, events, clock);
    LosslessRun(events, clock, dict);
    DecodedExactly(final, AnnouncedBy(Messages(events)), dict, f, c);
    ContentsImage(final.Of(f).out);
  }

  lemma OutputFromContents(events: seq<Event>, clock: nat -> nat, dict: Dictionary, f: Format)
    requires Lossless(events, clock, dict)
    ensures var out := Run(INITIAL, events, clock).Of(f).out;
            multiset(Output(out)) == Sum(ContentsOf(out), DecodeWith(dict))
  {
    hide Inv; hide Run; hide Output; hide ContentsOf; hide DecodedFrom;
    var final := Run(INITIAL, events, clock);
    LosslessRun(events, clock, dict);
    OutputIsSum(final.Of(f).out, f, AnnouncedBy(Messages(events)), dict);
  }

  /**
   * Arrival order is irrelevant. Take any two lossless runs over the same messages, in any order and
   * interleaved in any way between the two listeners: data before templates, templates before data, any
   * number of them. Then each listener returns the same flow records.
   */
  lemma ArrivalOrderIrrelevant(events: seq<Event>, clock: nat -> nat, events': seq<Event>, clock': nat -> nat,
                               dict: Dictionary, f: Format)
    requires Lossless(events, clock, dict) && Lossless(events', clock', dict)
    requires multiset(Messages(events)) == multiset(Messages(events'))
    ensures multiset(Output(Run(INITIAL, events, clock).Of(f).out))
         == multiset(Output(Run(INITIAL, events', clock').Of(f).out))
  {
    hide Output; hide Run; hide ContentsOf; hide Sum; hide AnnouncedBy; hide Messages; hide DecodeWith;
    var out, out' := Run(INITIAL, events, clock).Of(f).out, Run(INITIAL, events', clock').Of(f).out;
    AnnouncedPermutation(Messages(events), Messages(events'));
    SumPermutation(Messages(events), Messages(events'), MessageContents);
    forall c ensures multiset(ContentsOf(out))[c] == multiset(ContentsOf(out'))[c] {
      DecodedFromMessages(events, clock, dict, f, c);
      DecodedFromMessages(events', clock', dict, f, c);
    }
    assert multiset(ContentsOf(out)) == multiset(ContentsOf(out'));
    SumPermutation(ContentsOf(out), ContentsOf(out'), DecodeWith(dict));
    OutputFromContents(events, clock, dict, f);
    OutputFromContents(events', clock', dict, f);
  }
}
