/**
 * Templates live for 30 minutes and waiting packets for 10 seconds, seen from the whole run: what a listener decodes,
 * or takes back to look up again, depends on when it was last announced or first parked (src/flow.rs).
 */
module FlowExpiry {
  import opened Basics
  import opened FlowRecords
  import opened FlowFraming
  import opened FlowCaches
  import opened FlowSystem
  import opened FlowOrder
  import opened FlowLimits

  // ----- what a run has inserted and parked -----

  /** A template went into the cache at this clock reading. */
  datatype Insertion = Insertion(key: Key, fields: seq<Field>, at: nat)

  /** A data set went into the orphan cache at this clock reading. */
  datatype Parking = Parking(scope: Scope, packet: nat, ds: DataSet, at: nat)

  datatype History = History(insertions: seq<Insertion>, parkings: seq<Parking>)
  {
    function Then(later: History): History { History(insertions + later.insertions, parkings + later.parkings) }
  }

  const NOTHING := History([], [])

  /** One insertion per template of a set, each with a reading of its own. */
  function InsertionsOf(scope: Scope, defs: seq<Definition>, clock: nat -> nat, tick: nat): seq<Insertion>
    decreases |defs|
  {
    if defs == [] then []
    else
      [Insertion(Key(scope, defs[0].id), defs[0].fields, clock(tick))]
      + InsertionsOf(scope, defs[1..], clock, tick + 1)
  }

  /** What the critical section of a task at reading `tick` inserts or parks. */
  function Done(task: Task, clock: nat -> nat, tick: nat): History {
    match task
    case Learn(scope, defs) => History(InsertionsOf(scope, defs, clock, tick + 1), [])
    case Park(scope, packet, ds) => History([], [Parking(scope, packet, ds, clock(tick + 1))])
    case _ => NOTHING
  }

  /** All that a run inserts and parks, in order. */
  ghost function HistoryOf(sys: System, events: seq<Event>, clock: nat -> nat): History
    requires Legal(sys, events, clock)
    decreases |events|
  {
    if events == [] then NOTHING
    else
      (match events[0]
       case Receive(_, _, _) => NOTHING
       case Enter(f, tick) => Done(sys.Of(f).work[0], clock, tick))
      .Then(HistoryOf(Apply(sys, events[0], clock), events[1..], clock))
  }

  /** The latest insertion under a key. */
  function Latest(insertions: seq<Insertion>, key: Key): (r: Option<Insertion>)
    ensures r.Some? ==> r.value in insertions && r.value.key == key
    ensures r.None? ==> forall i :: 0 <= i < |insertions| ==> insertions[i].key != key
  {
    if insertions == [] then None
    else
      var last := insertions[|insertions| - 1];
      if last.key == key then Some(last) else Latest(insertions[..|insertions| - 1], key)
  }

  // ----- the caches hold what the history says -----

  predicate TemplatesRecorded(t: Templates, insertions: seq<Insertion>) {
    forall k :: k in t ==> Latest(insertions, k) == Some(Insertion(k, t[k].fields, t[k].at))
  }

  /** Some data set of the packet was parked at this time. */
  predicate ParkedAt(parkings: seq<Parking>, scope: Scope, packet: nat, at: nat) {
    exists q :: q in parkings && q.scope == scope && q.packet == packet && q.at == at
  }

  predicate WasParked(parkings: seq<Parking>, scope: Scope, packet: nat, ds: DataSet) {
    exists q :: q in parkings && q.scope == scope && q.packet == packet && q.ds == ds
  }

  predicate PacketRecorded(p: Packet, parkings: seq<Parking>) {
    ParkedAt(parkings, p.scope, p.id, p.at) && forall ds :: ds in p.sets ==> WasParked(parkings, p.scope, p.id, ds)
  }

  predicate PacketsRecorded(packets: seq<Packet>, parkings: seq<Parking>) {
    forall p :: p in packets ==> PacketRecorded(p, parkings)
  }

  predicate Recorded(s: Shared, h: History) {
    TemplatesRecorded(s.templates, h.insertions) && PacketsRecorded(s.orphans, h.parkings)
  }

  lemma LatestOther(insertions: seq<Insertion>, last: Insertion, key: Key)
    ensures Latest(insertions + [last], key) == if last.key == key then Some(last) else Latest(insertions, key)
  {
    assert (insertions + [last])[..|insertions|] == insertions;
  }

  lemma {:induction false} LearnRecorded(t: Templates, scope: Scope, defs: seq<Definition>, clock: nat -> nat,
                                         tick: nat, past: seq<Insertion>)
    requires TemplatesRecorded(t, past)
    ensures TemplatesRecorded(LearnAll(t, scope, defs, clock, tick), past + InsertionsOf(scope, defs, clock, tick))
    decreases |defs|
  {
    if defs == [] {
      assert past + [] == past;
    } else {
      var last := Insertion(Key(scope, defs[0].id), defs[0].fields, clock(tick));
      var t' := t[last.key := Cached(last.fields, last.at)];
      EvictSubset(t', scope);
      forall k | k in LearnOne(t, scope, defs[0], clock(tick))
        ensures Latest(past + [last], k) == Some(Insertion(k, t'[k].fields, t'[k].at))
      {
        LatestOther(past, last, k);
      }
      hide TemplatesRecorded; hide LearnOne; hide Latest;
      LearnRecorded(LearnOne(t, scope, defs[0], clock(tick)), scope, defs[1..], clock, tick + 1, past + [last]);
      assert past + [last] + InsertionsOf(scope, defs[1..], clock, tick + 1)
               == past + InsertionsOf(scope, defs, clock, tick);
    }
  }

  lemma MoreParkings(packets: seq<Packet>, past: seq<Parking>, later: seq<Parking>)
    requires PacketsRecorded(packets, past)
    ensures PacketsRecorded(packets, past + later)
  {
    forall p | p in packets ensures PacketRecorded(p, past + later) {
      assert PacketRecorded(p, past);
      forall ds | ds in p.sets ensures WasParked(past + later, p.scope, p.id, ds) {
        var q :| q in past && q.scope == p.scope && q.packet == p.id && q.ds == ds;
        assert q in past + later;
      }
      var q :| q in past && q.scope == p.scope && q.packet == p.id && q.at == p.at;
      assert q in past + later;
    }
  }

  lemma FewerRecorded(packets: seq<Packet>, less: seq<Packet>, parkings: seq<Parking>)
    requires PacketsRecorded(packets, parkings) && forall p :: p in less ==> p in packets
    ensures PacketsRecorded(less, parkings)
  {
  }

  lemma {:induction false} AppendRecorded(packets: seq<Packet>, scope: Scope, id: nat, ds: DataSet, at: nat,
                                          parkings: seq<Parking>)
    requires PacketsRecorded(packets, parkings) && forall p :: p in packets && p.id == id ==> p.scope == scope
    requires Parking(scope, id, ds, at) in parkings
    ensures PacketsRecorded(Append(packets, scope, id, ds, at), parkings)
  {
    var q := Parking(scope, id, ds, at);
    assert WasParked(parkings, scope, id, ds) && ParkedAt(parkings, scope, id, at);
    hide ParkedAt; hide WasParked;
    if packets == [] {
    } else if packets[0].id == id {
      assert PacketRecorded(packets[0], parkings);
    } else {
      assert packets[0] in packets && forall p :: p in packets[1..] ==> p in packets;
      AppendRecorded(packets[1..], scope, id, ds, at, parkings);
    }
  }

  lemma SectionRecorded(s: Shared, l: Local, clock: nat -> nat, tick: nat, owner: map<nat, Scope>, h: History)
    requires HeadKnown(l.work, owner) && OwnersKnown(s.orphans, owner) && Recorded(s, h)
    ensures Recorded(Section(s, l, clock, tick).0, h.Then(Done(l.work[0], clock, tick)))
  {
    hide LearnAll; hide Keep; hide Evict; hide Append; hide PacketsRecorded; hide TemplatesRecorded; hide PacketLooks;
    var now := clock(tick);
    assert h.parkings + [] == h.parkings && h.insertions + [] == h.insertions;
    SweptRecorded(s.templates, now, h.insertions);
    match l.work[0]
    case Learn(scope, defs) =>
      LearnRecorded(SweepTemplates(s.templates, now), scope, defs, clock, tick + 1, h.insertions);
    case Replay(scope) =>
      FewerRecorded(s.orphans, Keep(Keep(s.orphans, Alive(now)), Not(InScope(scope))), h.parkings);
    case Look(_, _, _) =>
    case Park(scope, packet, ds) =>
      var live, q := Keep(s.orphans, Alive(now)), Parking(scope, packet, ds, clock(tick + 1));
      var more := Append(live, scope, packet, ds, q.at);
      FewerRecorded(s.orphans, live, h.parkings);
      MoreParkings(live, h.parkings, [q]);
      AppendRecorded(live, scope, packet, ds, q.at, h.parkings + [q]);
      EvictMembers(more, scope);
      FewerRecorded(more, Evict(more, scope), h.parkings + [q]);
  }

  lemma SweptRecorded(t: Templates, now: nat, insertions: seq<Insertion>)
    requires TemplatesRecorded(t, insertions)
    ensures TemplatesRecorded(SweepTemplates(t, now), insertions)
  {
  }

  lemma EventRecorded(sys: System, event: Event, clock: nat -> nat, h: History)
    requires Inv(sys) && Enabled(sys, event) && Recorded(sys.shared, h)
    ensures Inv(Apply(sys, event, clock))
    ensures Recorded(Apply(sys, event, clock).shared,
                     h.Then(if event.Receive? then NOTHING else Done(sys.Of(event.format).work[0], clock, event.tick)))
  {
    hide Inv; hide Section; hide Recorded; hide MessageTasks; hide WorkItems; hide ExpiredBy; hide EvictedBy; hide Done;
    match event
    case Receive(scope, packet, sets) =>
      ReceiveKeepsInv(sys, scope, packet, sets, clock);
      assert h.Then(NOTHING) == h;
    case Enter(f, tick) =>
      EnterKeepsInv(sys, f, tick, clock);
      InvParts(sys, f);
      CacheOwners(sys.shared, sys.owner);
      ListenerHead(sys.shared, sys.Of(f).work, f, sys.owner);
      SectionRecorded(sys.shared, sys.Of(f), clock, tick, sys.owner, h);
  }

  lemma {:induction false} RunRecorded(sys: System, events: seq<Event>, clock: nat -> nat, h: History)
    requires Inv(sys) && Legal(sys, events, clock) && Recorded(sys.shared, h)
    ensures Inv(Run(sys, events, clock))
    ensures Recorded(Run(sys, events, clock).shared, h.Then(HistoryOf(sys, events, clock)))
    decreases |events|
  {
    hide Inv; hide Apply; hide Recorded; hide Done;
    if events == [] {
      assert h.Then(NOTHING) == h;
    } else {
      var event, next := events[0], Apply(sys, events[0], clock);
      var now := if event.Receive? then NOTHING else Done(sys.Of(event.format).work[0], clock, event.tick);
      var later := HistoryOf(next, events[1..], clock);
      EventRecorded(sys, event, clock, h);
      RunRecorded(next, events[1..], clock, h.Then(now));
      ThenAssociates(h, now, later);
    }
  }

  lemma ThenAssociates(a: History, b: History, c: History)
    ensures a.Then(b).Then(c) == a.Then(b.Then(c))
  {
  }

  /** From the start. */
  lemma CachesAreHistory(events: seq<Event>, clock: nat -> nat)
    requires Legal(INITIAL, events, clock)
    ensures Inv(Run(INITIAL, events, clock))
    ensures Recorded(Run(INITIAL, events, clock).shared, HistoryOf(INITIAL, events, clock))
  {
    hide Inv; hide Run; hide Legal;
    InitiallySafe();
    RunRecorded(INITIAL, events, clock, NOTHING);
    var h := HistoryOf(INITIAL, events, clock);
    assert NOTHING.Then(h) == h by { assert [] + h.insertions == h.insertions && [] + h.parkings == h.parkings; }
  }

  // ----- templates -----

  /** The next task of listener `f` after the run is to look this data set up. */
  ghost predicate LooksNext(events: seq<Event>, clock: nat -> nat, f: Format, item: Item) {
    && Legal(INITIAL, events, clock)
    && var work := Run(INITIAL, events, clock).Of(f).work;
       work != [] && work[0] == Look(item.scope, item.packet, item.ds)
  }

  /** In a section a template is used, or dropped, by its age of half an hour. */
  predicate Usable(cached: Cached, now: nat) { now <= cached.at + 1_800_000_000_000 }

  /**
   * A look-up decodes if and only if the template is cached and at most half an hour old; all older ones are dropped.
   */
  lemma LookExactly(s: Shared, l: Local, clock: nat -> nat, tick: nat)
    requires l.work != [] && l.work[0].Look?
    ensures var (s', l') := Section(s, l, clock, tick);
            var item := Item(l.work[0].scope, l.work[0].packet, l.work[0].ds);
            var key := Key(item.scope, item.ds.id);
            && (if key in s.templates && Usable(s.templates[key], clock(tick))
                then l' == Local(l.work[1..], l.out + [Decoded(item, s.templates[key].fields)])
                else l' == Local([Park(item.scope, item.packet, item.ds)] + l.work[1..], l.out))
            && (forall k :: k in s'.templates <==> k in s.templates && Usable(s.templates[k], clock(tick)))
            && (forall k :: k in s'.templates ==> s'.templates[k] == s.templates[k])
  {
  }

  /** Learning, too, drops what is older than half an hour; what it keeps is as before, or has just been inserted. */
  lemma LearnDropsOld(s: Shared, l: Local, clock: nat -> nat, tick: nat, k: Key)
    requires l.work != [] && l.work[0].Learn? && k in Section(s, l, clock, tick).0.templates
    ensures var kept := Section(s, l, clock, tick).0.templates[k];
            || (k in s.templates && kept == s.templates[k] && Usable(kept, clock(tick)))
            || Insertion(k, kept.fields, kept.at) in InsertionsOf(l.work[0].scope, l.work[0].defs, clock, tick + 1)
  {
    LearnOrigin(SweepTemplates(s.templates, clock(tick)), l.work[0].scope, l.work[0].defs, clock, tick + 1, k);
  }

  lemma {:induction false} LearnOrigin(t: Templates, scope: Scope, defs: seq<Definition>, clock: nat -> nat, tick: nat,
                                       k: Key)
    requires k in LearnAll(t, scope, defs, clock, tick)
    ensures var kept := LearnAll(t, scope, defs, clock, tick)[k];
            (k in t && kept == t[k]) || Insertion(k, kept.fields, kept.at) in InsertionsOf(scope, defs, clock, tick)
    decreases |defs|
  {
    if defs != [] {
      EvictSubset(t[Key(scope, defs[0].id) := Cached(defs[0].fields, clock(tick))], scope);
      LearnOrigin(LearnOne(t, scope, defs[0], clock(tick)), scope, defs[1..], clock, tick + 1, k);
    }
  }

  /** The latest insertion of the template of a data set is no older than half an hour. */
  ghost predicate StillKnown(events: seq<Event>, clock: nat -> nat, item: Item, now: nat)
    requires Legal(INITIAL, events, clock)
  {
    var latest := Latest(HistoryOf(INITIAL, events, clock).insertions, Key(item.scope, item.ds.id));
    latest.Some? && now <= latest.value.at + 1_800_000_000_000
  }

  /**
   * Wherever a run stands, a data set that is looked up is either decoded with the fields inserted last under its key,
   * and then this was at most half an hour ago, or it is parked next.
   */
  lemma LookUsesLatest(events: seq<Event>, clock: nat -> nat, f: Format, item: Item, tick: nat)
    requires LooksNext(events, clock, f, item) && Enabled(Run(INITIAL, events, clock), Enter(f, tick))
    ensures var sys := Run(INITIAL, events, clock);
            var before, after := sys.Of(f), Apply(sys, Enter(f, tick), clock).Of(f);
            var latest := Latest(HistoryOf(INITIAL, events, clock).insertions, Key(item.scope, item.ds.id));
            || (StillKnown(events, clock, item, clock(tick)) && after.work == before.work[1..]
                && after.out == before.out + [Decoded(item, latest.value.fields)])
            || (after.out == before.out && after.work == [Park(item.scope, item.packet, item.ds)] + before.work[1..])
  {
    hide Inv; hide Run; hide Legal; hide PacketsRecorded; hide ExpiredBy; hide EvictedBy;
    CachesAreHistory(events, clock);
  }

  /** If the latest insertion is older, or there is none, the data set is not decoded: it is parked next. */
  lemma ForgottenIsParked(events: seq<Event>, clock: nat -> nat, f: Format, item: Item, tick: nat)
    requires LooksNext(events, clock, f, item) && Enabled(Run(INITIAL, events, clock), Enter(f, tick))
    requires !StillKnown(events, clock, item, clock(tick))
    ensures var sys := Run(INITIAL, events, clock);
            var before, after := sys.Of(f), Apply(sys, Enter(f, tick), clock).Of(f);
            after.out == before.out && after.work == [Park(item.scope, item.packet, item.ds)] + before.work[1..]
  {
    hide Run; hide Legal; hide Apply; hide StillKnown;
    LookUsesLatest(events, clock, f, item, tick);
  }

  /** At some event of the run the listener decoded the data set in time, with the fields inserted last. */
  ghost predicate DecodedInTime(events: seq<Event>, clock: nat -> nat, f: Format, d: Decoded) {
    exists i: nat, tick: nat :: DecodedAt(events, clock, f, d, i, tick)
  }

  ghost predicate DecodedAt(events: seq<Event>, clock: nat -> nat, f: Format, d: Decoded, i: nat, tick: nat) {
    && i < |events| && events[i] == Enter(f, tick) && LooksNext(events[..i], clock, f, d.item)
    && StillKnown(events[..i], clock, d.item, clock(tick))
    && d.fields
      == Latest(HistoryOf(INITIAL, events[..i], clock).insertions, Key(d.item.scope, d.item.ds.id)).value.fields
  }

  lemma LongerRun(events: seq<Event>, more: seq<Event>, clock: nat -> nat, f: Format, d: Decoded)
    requires DecodedInTime(events, clock, f, d)
    ensures DecodedInTime(events + more, clock, f, d)
  {
    hide LooksNext; hide StillKnown; hide HistoryOf;
    var i: nat, tick: nat :| DecodedAt(events, clock, f, d, i, tick);
    assert (events + more)[..i] == events[..i];
    assert DecodedAt(events + more, clock, f, d, i, tick);
  }

  /** What one event adds to the output of a listener. */
  lemma OutputGrows(sys: System, event: Event, clock: nat -> nat, f: Format)
    requires Enabled(sys, event)
    ensures var before, after := sys.Of(f), Apply(sys, event, clock).Of(f);
            after.out == before.out
            || (event.Enter? && event.format == f && before.work[0].Look? && |after.out| == |before.out| + 1
                && after.out[..|before.out|] == before.out)
  {
    hide Keep; hide Evict; hide Append; hide LearnAll; hide ExpiredBy; hide EvictedBy; hide MessageTasks;
    hide WorkItems;
  }

  /**
   * Everything a listener ever returns was decoded with the latest template of its key, not older than half an hour.
   */
  lemma {:induction false} OutputIsYoung(events: seq<Event>, clock: nat -> nat, f: Format)
    requires Legal(INITIAL, events, clock)
    ensures forall d :: d in Run(INITIAL, events, clock).Of(f).out ==> DecodedInTime(events, clock, f, d)
    decreases |events|
  {
    if events != [] {
      var n := |events| - 1;
      var before, event := events[..n], events[n];
      assert events == before + [event];
      LastEvent(before, event, clock);
      var sys := Run(INITIAL, before, clock);
      hide Run; hide Legal; hide Apply; hide DecodedInTime; hide Latest; hide HistoryOf; hide StillKnown; hide Enabled;
      OutputIsYoung(before, clock, f);
      OutputGrows(sys, event, clock, f);
      forall d | d in Apply(sys, event, clock).Of(f).out ensures DecodedInTime(events, clock, f, d) {
        if d in sys.Of(f).out {
          LongerRun(before, [event], clock, f, d);
        } else {
          NewlyDecoded(before, event, clock, f, d);
        }
      }
    }
  }

  lemma NewlyDecoded(before: seq<Event>, event: Event, clock: nat -> nat, f: Format, d: Decoded)
    requires Legal(INITIAL, before, clock) && Enabled(Run(INITIAL, before, clock), event)
    requires var sys := Run(INITIAL, before, clock);
             d in Apply(sys, event, clock).Of(f).out && d !in sys.Of(f).out && event.Enter? && event.format == f
             && sys.Of(f).work[0].Look?
    ensures DecodedInTime(before + [event], clock, f, d)
  {
    hide Run; hide Legal; hide Apply; hide HistoryOf; hide StillKnown; hide Latest;
    var task := Run(INITIAL, before, clock).Of(f).work[0];
    LookUsesLatest(before, clock, f, Item(task.scope, task.packet, task.ds), event.tick);
    assert (before + [event])[..|before|] == before;
    assert DecodedAt(before + [event], clock, f, d, |before|, event.tick);
  }

  lemma LastEvent(before: seq<Event>, event: Event, clock: nat -> nat)
    requires Legal(INITIAL, before + [event], clock)
    ensures Legal(INITIAL, before, clock) && Enabled(Run(INITIAL, before, clock), event)
    ensures Run(INITIAL, before + [event], clock) == Apply(Run(INITIAL, before, clock), event, clock)
  {
    hide Apply;
    RunConcat(INITIAL, before, [event], clock);
    var sys := Run(INITIAL, before, clock);
    assert Legal(sys, [event], clock) && [event][1..] == [];
  }

  // ----- waiting packets -----

  /** The next task of listener `f` after the run is to replay the waiting packets of this scope. */
  ghost predicate ReplaysNext(events: seq<Event>, clock: nat -> nat, f: Format, scope: Scope) {
    && Legal(INITIAL, events, clock)
    && var work := Run(INITIAL, events, clock).Of(f).work; work != [] && work[0] == Replay(scope)
  }

  lemma {:induction false} LooksMembers(scope: Scope, packets: seq<Packet>, packet: nat, ds: DataSet)
    ensures Look(scope, packet, ds) in PacketLooks(scope, packets)
       <==> exists p :: p in packets && p.id == packet && ds in p.sets
    ensures forall t :: t in PacketLooks(scope, packets) ==> t.Look? && t.scope == scope
  {
    if packets != [] {
      LooksMembers(scope, packets[1..], packet, ds);
      SetLooksMembers(scope, packets[0].id, packets[0].sets, packet, ds);
      assert forall p :: p in packets <==> p == packets[0] || p in packets[1..];
    }
  }

  lemma {:induction false} SetLooksMembers(scope: Scope, id: nat, sets: seq<DataSet>, packet: nat, ds: DataSet)
    ensures Look(scope, packet, ds) in SetLooks(scope, id, sets) <==> packet == id && ds in sets
    ensures forall t :: t in SetLooks(scope, id, sets) ==> t.Look? && t.scope == scope
  {
    if sets != [] {
      SetLooksMembers(scope, id, sets[1..], packet, ds);
      assert forall d :: d in sets <==> d == sets[0] || d in sets[1..];
    }
  }

  /** In a section a packet is taken back, or dropped, by its age of ten seconds. */
  predicate YoungEnough(p: Packet, now: nat) { now <= p.at + 10_000_000_000 }

  /**
   * A replay takes back exactly the data sets of the scope whose packets are at most ten seconds old; all older
   * packets, of any scope, are dropped.
   */
  lemma ReplayExactly(s: Shared, l: Local, clock: nat -> nat, tick: nat) returns (looks: seq<Task>)
    requires l.work != [] && l.work[0].Replay?
    ensures var (s', l') := Section(s, l, clock, tick);
            && l' == Local(looks + l.work[1..], l.out)
            && (forall t :: t in looks <==>
                  t.Look? && t.scope == l.work[0].scope
                  && exists p :: p in s.orphans && YoungEnough(p, clock(tick)) && p.scope == t.scope && p.id == t.packet
                                 && t.ds in p.sets)
            && (forall p :: p in s'.orphans <==>
                  p in s.orphans && YoungEnough(p, clock(tick)) && p.scope != l.work[0].scope)
  {
    hide Keep;
    var scope, now := l.work[0].scope, clock(tick);
    var waiting := Keep(Keep(s.orphans, Alive(now)), InScope(scope));
    looks := PacketLooks(scope, waiting);
    forall p ensures p in waiting <==> p in s.orphans && YoungEnough(p, now) && p.scope == scope { }
    hide PacketLooks;
    forall t ensures t in looks <==>
                       t.Look? && t.scope == scope
                       && exists p :: p in s.orphans && YoungEnough(p, now) && p.scope == t.scope && p.id == t.packet
                                      && t.ds in p.sets
    {
      if t.Look? {
        LooksMembers(scope, waiting, t.packet, t.ds); } else { LooksMembers(scope, waiting, 0, DataSet(0, []));
      }
    }
  }

  /** Parking, too, drops what is older than ten seconds; what it keeps was waiting, or is the packet just parked. */
  lemma ParkDropsOld(s: Shared, l: Local, clock: nat -> nat, tick: nat)
    requires l.work != [] && l.work[0].Park?
    ensures forall p :: p in Section(s, l, clock, tick).0.orphans ==>
              YoungEnough(p, clock(tick)) || p
                == Packet(l.work[0].packet, l.work[0].scope, [l.work[0].ds], clock(tick + 1))
  {
    hide Keep; hide Append; hide Evict;
    var task, live := l.work[0], Keep(s.orphans, Alive(clock(tick)));
    EvictMembers(Append(live, task.scope, task.packet, task.ds, clock(tick + 1)), task.scope);
    AppendAges(live, task.scope, task.packet, task.ds, clock(tick + 1), clock(tick));
  }

  lemma {:induction false} AppendAges(packets: seq<Packet>, scope: Scope, id: nat, ds: DataSet, at: nat, now: nat)
    requires forall p :: p in packets ==> YoungEnough(p, now)
    ensures forall p :: p in Append(packets, scope, id, ds, at) ==>
              YoungEnough(p, now) || p == Packet(id, scope, [ds], at)
  {
    if packets != [] {
      assert packets[0] in packets && forall p :: p in packets[1..] ==> p in packets;
      if packets[0].id != id { AppendAges(packets[1..], scope, id, ds, at, now); }
    }
  }

  /** What counts as expired is what is older than ten seconds, and nothing else. */
  lemma ExpiredExactly(s: Shared, task: Task, now: nat, p: Packet, ds: DataSet)
    requires (task.Replay? || task.Park?) && Ordered(s.orphans) && p in s.orphans && ds in p.sets
    ensures Item(p.scope, p.id, ds) in ExpiredBy(s, task, now) <==> !YoungEnough(p, now)
  {
    hide PacketItems; hide Ordered;
    var old_ := Keep(s.orphans, Not(Alive(now)));
    var item := Item(p.scope, p.id, ds);
    if item in PacketItems(old_) {
      ItemOrigin(old_, item);
      var q :| q in old_ && q.id == p.id && ds in q.sets;
      SameId(s.orphans, p, q);
    }
    assert Holds(Alive(now), p) <==> YoungEnough(p, now);
    assert p in old_ <==> !YoungEnough(p, now);
    if p in old_ { ItemOf(old_, p, ds); }
  }

  lemma {:induction false} ItemOrigin(packets: seq<Packet>, item: Item)
    requires item in PacketItems(packets)
    ensures exists q :: q in packets && q.id == item.packet && q.scope == item.scope && item.ds in q.sets
  {
    SetMember(packets[0].scope, packets[0].id, packets[0].sets, item);
    if item !in SetItems(packets[0].scope, packets[0].id, packets[0].sets) { ItemOrigin(packets[1..], item); }
  }

  lemma {:induction false} ItemOf(packets: seq<Packet>, p: Packet, ds: DataSet)
    requires p in packets && ds in p.sets
    ensures Item(p.scope, p.id, ds) in PacketItems(packets)
  {
    if p == packets[0] { SetItemOf(p.scope, p.id, p.sets, ds); } else { ItemOf(packets[1..], p, ds); }
  }

  lemma {:induction false} SetItemOf(scope: Scope, packet: nat, sets: seq<DataSet>, ds: DataSet)
    requires ds in sets
    ensures Item(scope, packet, ds) in SetItems(scope, packet, sets)
  {
    if ds != sets[0] { SetItemOf(scope, packet, sets[1..], ds); }
  }

  /**
   * In a whole run: what a replay takes back of a packet was parked under its scope and id, and some of it at most ten
   * seconds ago. So a packet of which nothing was parked within ten seconds is in no replay.
   */
  lemma ReplayedIsYoung(events: seq<Event>, clock: nat -> nat, f: Format, scope: Scope, tick: nat)
    returns (looks: seq<Task>)
    requires ReplaysNext(events, clock, f, scope) && Enabled(Run(INITIAL, events, clock), Enter(f, tick))
    ensures var sys, parkings := Run(INITIAL, events, clock), HistoryOf(INITIAL, events, clock).parkings;
            && Apply(sys, Enter(f, tick), clock).Of(f) == Local(looks + sys.Of(f).work[1..], sys.Of(f).out)
            && forall t :: t in looks ==>
                 t.Look? && t.scope == scope && WasParked(parkings, scope, t.packet, t.ds)
                 && exists q :: q in parkings && q.scope == scope && q.packet == t.packet
                                && clock(tick) <= q.at + 10_000_000_000
  {
    hide Inv; hide Run; hide Legal; hide TemplatesRecorded; hide ExpiredBy; hide EvictedBy; hide Section;
    hide WasParked;
    var sys, parkings := Run(INITIAL, events, clock), HistoryOf(INITIAL, events, clock).parkings;
    CachesAreHistory(events, clock);
    looks := ReplayExactly(sys.shared, sys.Of(f), clock, tick);
    forall t | t in looks
      ensures t.Look? && t.scope == scope && WasParked(parkings, scope, t.packet, t.ds)
      ensures exists q ::
                q in parkings && q.scope == scope && q.packet == t.packet && clock(tick) <= q.at + 10_000_000_000
    {
      var p :| p in sys.shared.orphans && YoungEnough(p, clock(tick)) && p.scope == t.scope && p.id == t.packet
               && t.ds in p.sets;
      assert PacketRecorded(p, parkings);
      var q :| q in parkings && q.scope == p.scope && q.packet == p.id && q.at == p.at;
    }
  }
}
