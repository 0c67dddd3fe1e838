/**
 * The two listeners and all exporters share both caches, yet none can tell that the others exist: what is received
 * of one format, or of one scope, yields the same records with all other events removed from the run.
 */
module FlowIsolation {
  import opened FlowRecords
  import opened FlowFraming
  import opened FlowCaches
  import opened FlowSystem

  ghost predicate Monotone(clock: nat -> nat) { forall i: nat, j: nat :: i <= j ==> clock(i) <= clock(j) }

  /** A view of the caches: one format, or one scope. */
  predicate IsView(test: Test) { test.OfFormat? || test.InScope? }

  /** What is visible of the caches in the view at time `now`. */
  function Visible(s: Shared, view: Test, now: nat): Shared {
    Shared(VisibleTemplates(s.templates, view, now), VisiblePackets(s.orphans, view, now))
  }

  function VisibleTemplates(t: Templates, view: Test, now: nat): Templates {
    View(SweepTemplates(t, now), view)
  }

  function VisiblePackets(packets: seq<Packet>, view: Test, now: nat): seq<Packet> {
    Keep(Keep(packets, Alive(now)), view)
  }

  predicate Agree(s1: Shared, s2: Shared, view: Test, now: nat) { Visible(s1, view, now) == Visible(s2, view, now) }

  // ----- time only removes entries -----

  lemma VisibleLater(s: Shared, view: Test, now: nat, later: nat)
    requires now <= later
    ensures Visible(Visible(s, view, now), view, later) == Visible(s, view, later)
  {
    hide Keep;
    assert VisibleTemplates(VisibleTemplates(s.templates, view, now), view, later)
             == VisibleTemplates(s.templates, view, later);
    var kept := Keep(s.orphans, Alive(now));
    KeepSwap(kept, view, Alive(later));
    KeepStronger(s.orphans, Alive(later), Alive(now));
    KeepStronger(Keep(s.orphans, Alive(later)), view, view);
  }

  lemma AgreeLater(s1: Shared, s2: Shared, view: Test, now: nat, later: nat)
    requires Agree(s1, s2, view, now) && now <= later
    ensures Agree(s1, s2, view, later)
  {
    VisibleLater(s1, view, now, later);
    VisibleLater(s2, view, now, later);
  }

  // ----- what is outside the view is invisible -----

  lemma OthersInvisible(s: Shared, l: Local, clock: nat -> nat, tick: nat, view: Test, owner: map<nat, Scope>)
    requires HeadKnown(l.work, owner) && OwnersKnown(s.orphans, owner) && Outside(view, l.work[0].scope)
    ensures Visible(Section(s, l, clock, tick).0, view, clock(tick)) == Visible(s, view, clock(tick))
  {
    hide Section; hide Keep;
    var now, s', swept := clock(tick), Section(s, l, clock, tick).0, Swept(s, l.work[0], clock(tick));
    Isolation(s, l, clock, tick, view, owner);
    KeepSwap(s'.orphans, Alive(now), view);
    KeepSwap(swept.orphans, Alive(now), view);
    KeepStronger(s.orphans, Alive(now), Alive(now));
    SweepView(s'.templates, now, view);
    SweepView(swept.templates, now, view);
    assert SweepTemplates(SweepTemplates(s.templates, now), now) == SweepTemplates(s.templates, now);
  }

  lemma SweepView(t: Templates, now: nat, view: Test)
    ensures View(SweepTemplates(t, now), view) == SweepTemplates(View(t, view), now)
  {
  }

  // ----- a listener depends on nothing but what it can see -----

  lemma ScopeKeysInView(t: Templates, scope: Scope, view: Test)
    requires Selects(view, scope)
    ensures ScopeKeys(View(t, view), scope) == ScopeKeys(t, scope)
  {
  }

  lemma OldestInView(t: Templates, scope: Scope, view: Test)
    requires Selects(view, scope)
    requires ScopeKeys(t, scope) != {}
    ensures ScopeKeys(View(t, view), scope) != {}
    ensures Oldest(View(t, view), scope) == Oldest(t, scope)
  {
    var v := View(t, view);
    ScopeKeysInView(t, scope, view);
    var a, b := Oldest(v, scope), Oldest(t, scope);
    forall j | j in ScopeKeys(t, scope) ensures Precedes(t, a, j) {
      assert Precedes(v, a, j);
    }
    assert IsOldest(t, scope, a);
    OldestUnique(t, scope, a, b);
  }

  lemma {:induction false} EvictTemplatesInView(t: Templates, scope: Scope, view: Test)
    requires Selects(view, scope)
    ensures View(EvictTemplates(t, scope), view) == EvictTemplates(View(t, view), scope)
    decreases |t|
  {
    ScopeKeysInView(t, scope, view);
    if |ScopeKeys(t, scope)| > TEMPLATE_LIMIT {
      OldestInView(t, scope, view);
      var oldest := Oldest(t, scope);
      assert oldest in t;
      EvictTemplatesInView(t - {oldest}, scope, view);
      assert View(t - {oldest}, view) == View(t, view) - {oldest};
    }
  }

  lemma {:induction false} LearnInView(t: Templates, scope: Scope, defs: seq<Definition>, clock: nat -> nat, tick: nat,
                                       view: Test)
    requires Selects(view, scope)
    ensures View(LearnAll(t, scope, defs, clock, tick), view)
         == LearnAll(View(t, view), scope, defs, clock, tick)
    decreases |defs|
  {
    if defs != [] {
      var key, cached := Key(scope, defs[0].id), Cached(defs[0].fields, clock(tick));
      EvictTemplatesInView(t[key := cached], scope, view);
      assert View(t[key := cached], view) == View(t, view)[key := cached];
      LearnInView(LearnOne(t, scope, defs[0], clock(tick)), scope, defs[1..], clock, tick + 1, view);
    }
  }

  lemma {:induction false} AppendInView(packets: seq<Packet>, scope: Scope, id: nat, ds: DataSet, at: nat, view: Test)
    requires Selects(view, scope)
    requires forall p :: p in packets && p.id == id ==> p.scope == scope
    ensures Keep(Append(packets, scope, id, ds, at), view)
         == Append(Keep(packets, view), scope, id, ds, at)
  {
    if packets == [] {
      KeepAll([Packet(id, scope, [ds], at)], view);
    } else if packets[0].id == id {
      var p := packets[0].(sets := packets[0].sets + [ds]);
      assert ([p] + packets[1..])[1..] == packets[1..];
      KeepStep([p] + packets[1..], view);
      KeepStep(packets, view);
    } else {
      var more := Append(packets[1..], scope, id, ds, at);
      assert ([packets[0]] + more)[1..] == more;
      KeepStep([packets[0]] + more, view);
      KeepStep(packets, view);
      AppendInView(packets[1..], scope, id, ds, at, view);
    }
  }

  lemma {:induction false} EvictInView(packets: seq<Packet>, scope: Scope, view: Test)
    requires Selects(view, scope)
    ensures Keep(Evict(packets, scope), view) == Evict(Keep(packets, view), scope)
    decreases |packets|
  {
    KeepStronger(packets, InScope(scope), view);
    if |Keep(packets, InScope(scope))| > ORPHAN_PACKET_LIMIT {
      var least := LeastId(Keep(packets, InScope(scope)));
      DropShrinks(packets, HasId(least));
      EvictInView(Keep(packets, Not(HasId(least))), scope, view);
      KeepSwap(packets, view, Not(HasId(least)));
    }
  }

  lemma LearnSeesVisible(s: Shared, l: Local, clock: nat -> nat, tick: nat, view: Test)
    requires l.work != [] && l.work[0].Learn? && Selects(view, l.work[0].scope)
    ensures SameSeen(s, l, clock, tick, view)
  {
    hide Keep; hide LearnAll;
    var now, scope, defs := clock(tick), l.work[0].scope, l.work[0].defs;
    var v, swept := Visible(s, view, now), SweepTemplates(s.templates, now);
    var learnt := LearnAll(swept, scope, defs, clock, tick + 1);
    VisibleLater(s, view, now, now);
    assert SweepTemplates(v.templates, now) == View(swept, view);
    LearnInView(swept, scope, defs, clock, tick + 1, view);
    assert VisibleTemplates(View(learnt, view), view, now) == VisibleTemplates(learnt, view, now);
  }

  lemma ReplaySeesVisible(s: Shared, l: Local, clock: nat -> nat, tick: nat, view: Test)
    requires l.work != [] && l.work[0].Replay? && Selects(view, l.work[0].scope)
    ensures SameSeen(s, l, clock, tick, view)
  {
    hide Keep;
    var now, scope := clock(tick), l.work[0].scope;
    var live, v := Keep(s.orphans, Alive(now)), Visible(s, view, now);
    VisibleLater(s, view, now, now);
    KeepAll(v.orphans, Alive(now));
    KeepStronger(live, InScope(scope), view);
    var left := Keep(live, Not(InScope(scope)));
    KeepAll(left, Alive(now));
    KeepSwap(live, view, Not(InScope(scope)));
    var left' := Keep(v.orphans, Not(InScope(scope)));
    KeepAll(left', Alive(now));
    KeepAll(left', view);
  }

  lemma LookSeesVisible(s: Shared, l: Local, clock: nat -> nat, tick: nat, view: Test)
    requires l.work != [] && l.work[0].Look? && Selects(view, l.work[0].scope)
    ensures SameSeen(s, l, clock, tick, view)
  {
    hide Keep;
    var now := clock(tick);
    var v := Visible(s, view, now);
    VisibleLater(s, view, now, now);
    assert SweepTemplates(v.templates, now) == v.templates;
    assert VisibleTemplates(SweepTemplates(s.templates, now), view, now) == v.templates;
  }

  lemma ParkSeesVisible(s: Shared, l: Local, clock: nat -> nat, tick: nat, view: Test, owner: map<nat, Scope>)
    requires l.work != [] && l.work[0].Park? && Selects(view, l.work[0].scope)
    requires HeadKnown(l.work, owner) && OwnersKnown(s.orphans, owner)
    ensures SameSeen(s, l, clock, tick, view)
  {
    hide Keep; hide Evict; hide Append;
    var now, task, stamp := clock(tick), l.work[0], clock(tick + 1);
    var live, v := Keep(s.orphans, Alive(now)), Visible(s, view, now);
    VisibleLater(s, view, now, now);
    KeepAll(v.orphans, Alive(now));
    var more := Append(live, task.scope, task.packet, task.ds, stamp);
    var parked := Evict(more, task.scope);
    AppendInView(live, task.scope, task.packet, task.ds, stamp, view);
    EvictInView(more, task.scope, view);
    KeepSwap(parked, Alive(now), view);
    var parked' := Keep(parked, view);
    KeepSwap(parked', Alive(now), view);
    KeepAll(parked', view);
  }

  /** Running a section on the visible part gives the same listener and the same visible result. */
  ghost predicate SameSeen(s: Shared, l: Local, clock: nat -> nat, tick: nat, view: Test)
    requires l.work != []
  {
    var v := Visible(s, view, clock(tick));
    && Section(s, l, clock, tick).1 == Section(v, l, clock, tick).1
    && Agree(Section(s, l, clock, tick).0, Section(v, l, clock, tick).0, view, clock(tick))
  }

  lemma SeesOnlyVisible(s: Shared, l: Local, clock: nat -> nat, tick: nat, view: Test, owner: map<nat, Scope>)
    requires HeadKnown(l.work, owner) && OwnersKnown(s.orphans, owner) && Selects(view, l.work[0].scope)
    ensures SameSeen(s, l, clock, tick, view)
  {
    hide SameSeen;
    match l.work[0]
    case Learn(_, _) => LearnSeesVisible(s, l, clock, tick, view);
    case Replay(_) => ReplaySeesVisible(s, l, clock, tick, view);
    case Look(_, _, _) => LookSeesVisible(s, l, clock, tick, view);
    case Park(_, _, _) => ParkSeesVisible(s, l, clock, tick, view, owner);
  }

  // ----- listeners, seen through the view -----

  function OutOf(out: seq<Decoded>, view: Test): (seen: seq<Decoded>)
    ensures forall d :: d in seen <==> d in out && Selects(view, d.item.scope)
  {
    if out == [] then []
    else (if Selects(view, out[0].item.scope) then [out[0]] else []) + OutOf(out[1..], view)
  }

  lemma OutOfStep(out: seq<Decoded>, view: Test)
    requires out != []
    ensures OutOf(out, view)
         == if Selects(view, out[0].item.scope) then [out[0]] + OutOf(out[1..], view) else OutOf(out[1..], view)
  {
    hide Selects;
  }

  lemma {:induction false} OutOfConcat(a: seq<Decoded>, b: seq<Decoded>, view: Test)
    ensures OutOf(a + b, view) == OutOf(a, view) + OutOf(b, view)
  {
    hide *;
    if a == [] {
      assert a + b == b;
      OutOfNone(a, view);
      assert [] + OutOf(b, view) == OutOf(b, view);
    } else {
      assert (a + b)[0] == a[0] && (a + b)[1..] == a[1..] + b;
      OutOfConcat(a[1..], b, view);
      OutOfStep(a, view);
      OutOfStep(a + b, view);
    }
  }

  lemma {:induction false} OutOfAll(out: seq<Decoded>, view: Test)
    requires forall d :: d in out ==> Selects(view, d.item.scope)
    ensures OutOf(out, view) == out
  {
    if out != [] { OutOfAll(out[1..], view); }
  }

  lemma {:induction false} OutOfNone(out: seq<Decoded>, view: Test)
    requires forall d :: d in out ==> !Selects(view, d.item.scope)
    ensures OutOf(out, view) == []
  {
    if out != [] { OutOfNone(out[1..], view); }
  }

  /** The part of a listener that belongs to the view: a work list is of one scope. */
  function Mine(l: Local, view: Test): Local {
    Local(if l.work != [] && Selects(view, l.work[0].scope) then l.work else [], OutOf(l.out, view))
  }

  predicate AllOf(work: seq<Task>, scope: Scope) { forall i :: 0 <= i < |work| ==> work[i].scope == scope }

  lemma {:induction false} PacketLooksOf(scope: Scope, packets: seq<Packet>)
    ensures AllOf(PacketLooks(scope, packets), scope)
  {
    if packets != [] {
      PacketLooksOf(scope, packets[1..]);
      var looks := SetLooks(scope, packets[0].id, packets[0].sets);
      SetLooksShape(scope, packets[0].id, packets[0].sets);
      assert forall i :: 0 <= i < |looks| ==> looks[i] in looks;
    }
  }

  /** A section keeps to its scope, and what it returns depends on nothing returned before. */
  lemma SectionOf(s: Shared, l: Local, clock: nat -> nat, tick: nat, scope: Scope)
    requires l.work != [] && AllOf(l.work, scope)
    ensures var (s', l') := Section(s, l, clock, tick);
            var more := Section(s, Local(l.work, []), clock, tick).1.out;
            && AllOf(l'.work, scope) && l'.out == l.out + more
            && (forall d :: d in more ==> d.item.scope == scope)
  {
    hide Keep; hide Evict; hide Append; hide LearnAll; hide PacketLooks;
    SectionOut(s, l.work, l.out, clock, tick);
    assert forall i :: 0 <= i < |l.work[1..]| ==> l.work[1..][i] == l.work[i + 1];
    if l.work[0].Replay? {
      PacketLooksOf(scope, Keep(Keep(s.orphans, Alive(clock(tick))), InScope(scope)));
    }
  }

  /** A section of the view acts on its part of the listener alone. */
  lemma SectionInView(s: Shared, l: Local, clock: nat -> nat, tick: nat, view: Test)
    requires l.work != [] && AllOf(l.work, l.work[0].scope) && Selects(view, l.work[0].scope)
    ensures Mine(l, view).work == l.work
    ensures var (s', l') := Section(s, l, clock, tick); Section(s, Mine(l, view), clock, tick) == (s', Mine(l', view))
  {
    hide Section;
    var more := Section(s, Local(l.work, []), clock, tick).1.out;
    SectionOf(s, l, clock, tick, l.work[0].scope);
    SectionOut(s, l.work, l.out, clock, tick);
    SectionOut(s, l.work, OutOf(l.out, view), clock, tick);
    OutOfConcat(l.out, more, view);
    OutOfAll(more, view);
  }

  /** Any other section leaves that part as it is. */
  lemma SectionOutside(s: Shared, l: Local, clock: nat -> nat, tick: nat, view: Test)
    requires l.work != [] && AllOf(l.work, l.work[0].scope) && !Selects(view, l.work[0].scope)
    ensures Mine(Section(s, l, clock, tick).1, view) == Mine(l, view)
  {
    hide Section;
    var more := Section(s, Local(l.work, []), clock, tick).1.out;
    SectionOf(s, l, clock, tick, l.work[0].scope);
    OutOfConcat(l.out, more, view);
    OutOfNone(more, view);
    assert OutOf(l.out, view) + [] == OutOf(l.out, view);
  }

  // ----- whole runs -----

  predicate Concerns(sys: System, event: Event, view: Test)
    requires Enabled(sys, event)
  {
    match event
    case Receive(scope, _, _) => Selects(view, scope)
    case Enter(format, _) => Selects(view, sys.Of(format).work[0].scope)
  }

  /** The events of a run that belong to the view. */
  ghost function Concerning(sys: System, events: seq<Event>, clock: nat -> nat, view: Test): seq<Event>
    requires Legal(sys, events, clock)
    decreases |events|
  {
    if events == [] then []
    else (if Concerns(sys, events[0], view) then [events[0]] else [])
         + Concerning(Apply(sys, events[0], clock), events[1..], clock, view)
  }

  /** The second system is what the view shows of the first, and not ahead of it. */
  ghost predicate Alike(full: System, alone: System, view: Test, now: nat) {
    && Inv(full) && Inv(alone)
    && (forall f: Format :: alone.Of(f) == Mine(full.Of(f), view))
    && Agree(full.shared, alone.shared, view, now)
    && alone.time <= full.time
    && alone.owner.Keys <= full.owner.Keys
  }

  lemma HeadOwned(sys: System, f: Format)
    requires Inv(sys) && sys.Of(f).work != []
    ensures HeadKnown(sys.Of(f).work, sys.owner) && OwnersKnown(sys.shared.orphans, sys.owner)
    ensures sys.Of(f).work[0].scope.format == f && AllOf(sys.Of(f).work, sys.Of(f).work[0].scope)
  {
  }

  /** Receiving gives a listener work of one scope. */
  lemma ReceivedOf(scope: Scope, packet: nat, sets: seq<RawSet>)
    ensures AllOf(MessageTasks(scope, packet, sets), scope)
  {
    MessageShape(scope, packet, sets);
    var work := MessageTasks(scope, packet, sets);
    assert forall i :: 0 <= i < |work| ==> work[i] in work;
  }

  lemma OwnReceive(full: System, alone: System, event: Event, clock: nat -> nat, view: Test, now: nat)
    requires Alike(full, alone, view, now) && Enabled(full, event) && Concerns(full, event, view) && event.Receive?
    ensures Enabled(alone, event) && Alike(Apply(full, event, clock), Apply(alone, event, clock), view, now)
  {
    hide Inv; hide Visible; hide OutOf; hide MessageTasks; hide WorkItems;
    ReceiveKeepsInv(full, event.scope, event.packet, event.sets, clock);
    assert alone.Of(event.scope.format) == Mine(full.Of(event.scope.format), view);
    ReceiveKeepsInv(alone, event.scope, event.packet, event.sets, clock);
    ReceivedOf(event.scope, event.packet, event.sets);
    var full', alone' := Apply(full, event, clock), Apply(alone, event, clock);
    forall f: Format ensures alone'.Of(f) == Mine(full'.Of(f), view) { assert alone.Of(f) == Mine(full.Of(f), view); }
  }

  lemma OwnEnter(full: System, alone: System, event: Event, clock: nat -> nat, view: Test, now: nat)
    requires Alike(full, alone, view, now) && Enabled(full, event) && Concerns(full, event, view)
    requires event.Enter? && now <= clock(event.tick)
    ensures Enabled(alone, event)
    ensures Alike(Apply(full, event, clock), Apply(alone, event, clock), view, clock(event.tick))
  {
    hide Inv; hide Section; hide Visible; hide OutOf; hide ExpiredBy; hide EvictedBy;
    var tick, l := event.tick, full.Of(event.format);
    HeadOwned(full, event.format);
    assert alone.Of(event.format) == Mine(l, view);
    HeadOwned(alone, event.format);
    EnterKeepsInv(full, event.format, tick, clock);
    EnterKeepsInv(alone, event.format, tick, clock);
    AgreeLater(full.shared, alone.shared, view, now, clock(tick));
    SectionInView(full.shared, l, clock, tick, view);
    SectionInView(alone.shared, l, clock, tick, view);
    SeesOnlyVisible(full.shared, l, clock, tick, view, full.owner);
    SeesOnlyVisible(alone.shared, l, clock, tick, view, alone.owner);
    var full', alone' := Apply(full, event, clock), Apply(alone, event, clock);
    forall f: Format ensures alone'.Of(f) == Mine(full'.Of(f), view) { assert alone.Of(f) == Mine(full.Of(f), view); }
  }

  lemma OtherStep(full: System, alone: System, event: Event, clock: nat -> nat, view: Test, now: nat)
    requires IsView(view) && Alike(full, alone, view, now) && Enabled(full, event) && !Concerns(full, event, view)
    requires event.Enter? ==> now <= clock(event.tick)
    ensures Alike(Apply(full, event, clock), alone, view, if event.Enter? then clock(event.tick) else now)
  {
    hide Inv; hide Section; hide Visible; hide OutOf; hide MessageTasks; hide WorkItems; hide ExpiredBy; hide EvictedBy;
    var full' := Apply(full, event, clock);
    match event {
      case Receive(scope, packet, sets) =>
        ReceiveKeepsInv(full, scope, packet, sets, clock);
        ReceivedOf(scope, packet, sets);
      case Enter(g, tick) =>
        EnterKeepsInv(full, g, tick, clock);
        HeadOwned(full, g);
        AgreeLater(full.shared, alone.shared, view, now, clock(tick));
        OthersInvisible(full.shared, full.Of(g), clock, tick, view, full.owner);
        SectionOutside(full.shared, full.Of(g), clock, tick, view);
    }
    forall f: Format ensures alone.Of(f) == Mine(full'.Of(f), view) { assert alone.Of(f) == Mine(full.Of(f), view); }
  }

  /** `now` does not lie after the next reading of the clock. */
  ghost predicate NotPast(now: nat, time: nat, clock: nat -> nat) {
    forall tick: nat :: time <= tick ==> now <= clock(tick)
  }

  /**
   * Non-interference: whatever the schedule, deleting everything that is not of one format, or not of one scope,
   * changes neither what the listeners have returned for it nor what they still have to do for it.
   */
  lemma {:induction false} NonInterference(full: System, alone: System, events: seq<Event>, clock: nat -> nat,
                                           view: Test, now: nat)
    requires IsView(view) && Monotone(clock) && Alike(full, alone, view, now) && NotPast(now, full.time, clock)
    requires Legal(full, events, clock)
    ensures Legal(alone, Concerning(full, events, clock, view), clock)
    ensures var mine := Concerning(full, events, clock, view);
            forall f :: Run(alone, mine, clock).Of(f) == Mine(Run(full, events, clock).Of(f), view)
    decreases |events|
  {
    hide Inv; hide Section; hide Visible; hide Alike; hide Concerns; hide Apply; hide Mine;
    if events == [] {
      AlikeListeners(full, alone, view, now);
    } else {
      var event := events[0];
      var full', rest := Apply(full, event, clock), events[1..];
      var now' := if event.Enter? then clock(event.tick) else now;
      assert NotPast(now', full'.time, clock) && (event.Enter? ==> now <= clock(event.tick)) by {
        NextReading(full, event, clock, now);
      }
      var mine := Concerning(full', rest, clock, view);
      if Concerns(full, event, view) {
        if event.Enter? {
          OwnEnter(full, alone, event, clock, view, now);
        } else {
          OwnReceive(full, alone, event, clock, view, now);
        }
        NonInterference(full', Apply(alone, event, clock), rest, clock, view, now');
        assert Concerning(full, events, clock, view) == [event] + mine;
        assert ([event] + mine)[1..] == mine;
      } else {
        OtherStep(full, alone, event, clock, view, now);
        NonInterference(full', alone, rest, clock, view, now');
        assert Concerning(full, events, clock, view) == [] + mine;
        assert [] + mine == mine;
      }
    }
  }

  lemma NextReading(sys: System, event: Event, clock: nat -> nat, now: nat)
    requires Monotone(clock) && Enabled(sys, event) && NotPast(now, sys.time, clock)
    ensures event.Enter? ==> now <= clock(event.tick)
    ensures NotPast(if event.Enter? then clock(event.tick) else now, Apply(sys, event, clock).time, clock)
  {
    hide Section; hide ExpiredBy; hide EvictedBy;
  }

  lemma AlikeListeners(full: System, alone: System, view: Test, now: nat)
    requires Alike(full, alone, view, now)
    ensures forall f :: alone.Of(f) == Mine(full.Of(f), view)
  {
  }

  /** From the start, for one scope: each exporter is served as by a collector of its own. */
  lemma ScopesDoNotInterfere(events: seq<Event>, clock: nat -> nat, scope: Scope)
    requires Monotone(clock) && Legal(INITIAL, events, clock)
    ensures var mine := Concerning(INITIAL, events, clock, InScope(scope));
            Legal(INITIAL, mine, clock)
            && forall f :: Run(INITIAL, mine, clock).Of(f) == Mine(Run(INITIAL, events, clock).Of(f), InScope(scope))
  {
    hide Run; hide Legal;
    InitiallySafe();
    NonInterference(INITIAL, INITIAL, events, clock, InScope(scope), 0);
  }

  // ----- the same for one listener -----

  /** The events of listener `f` only. */
  function Only(events: seq<Event>, f: Format): seq<Event> {
    if events == [] then []
    else (if EventFormat(events[0]) == f then [events[0]] else []) + Only(events[1..], f)
  }

  function EventFormat(event: Event): Format { if event.Receive? then event.scope.format else event.format }

  /** All that a listener has returned is of its format. */
  predicate Homed(sys: System) { forall f: Format, d :: d in sys.Of(f).out ==> d.item.scope.format == f }

  lemma HomedStep(sys: System, event: Event, clock: nat -> nat)
    requires Inv(sys) && Homed(sys) && Enabled(sys, event)
    ensures Homed(Apply(sys, event, clock))
    ensures forall f :: Concerns(sys, event, OfFormat(f)) <==> EventFormat(event) == f
  {
    hide Inv; hide Section; hide MessageTasks; hide WorkItems; hide ExpiredBy; hide EvictedBy;
    if event.Enter? {
      HeadOwned(sys, event.format);
      var l := sys.Of(event.format);
      SectionOf(sys.shared, l, clock, event.tick, l.work[0].scope);
      var more := Section(sys.shared, Local(l.work, []), clock, event.tick).1.out;
      var next := Apply(sys, event, clock);
      assert next.Of(event.format).out == l.out + more;
      forall f: Format, d | d in next.Of(f).out ensures d.item.scope.format == f {
        if f == event.format {
          assert d in l.out || d in more;
          assert l.work[0].scope.format == f;
        } else {
          assert next.Of(f) == sys.Of(f);
        }
      }
    } else {
      var next := Apply(sys, event, clock);
      forall f: Format ensures next.Of(f).out == sys.Of(f).out { }
    }
  }

  lemma {:induction false} HomedRun(sys: System, events: seq<Event>, clock: nat -> nat, f: Format)
    requires Inv(sys) && Homed(sys) && Legal(sys, events, clock)
    ensures Homed(Run(sys, events, clock))
    ensures Concerning(sys, events, clock, OfFormat(f)) == Only(events, f)
    decreases |events|
  {
    hide Inv; hide Homed; hide Apply; hide Concerns; hide EventFormat;
    if events != [] {
      HomedStep(sys, events[0], clock);
      Safety(sys, [events[0]], clock);
      assert [events[0]][1..] == [];
      HomedRun(Apply(sys, events[0], clock), events[1..], clock, f);
    }
  }

  lemma AllMine(sys: System, f: Format)
    requires Inv(sys) && Homed(sys)
    ensures Mine(sys.Of(f), OfFormat(f)) == sys.Of(f)
  {
    hide Inv;
    if sys.Of(f).work != [] { HeadOwned(sys, f); }
    OutOfAll(sys.Of(f).out, OfFormat(f));
  }

  /** From the start: each listener of a shared collector behaves as a collector of its own. */
  lemma ListenersDoNotInterfere(events: seq<Event>, clock: nat -> nat, f: Format)
    requires Monotone(clock) && Legal(INITIAL, events, clock)
    ensures Legal(INITIAL, Only(events, f), clock)
    ensures Run(INITIAL, events, clock).Of(f) == Run(INITIAL, Only(events, f), clock).Of(f)
  {
    hide Run; hide Legal; hide Inv; hide Mine;
    InitiallySafe();
    NonInterference(INITIAL, INITIAL, events, clock, OfFormat(f), 0) by { StartsAlike(OfFormat(f)); }
    HomedRun(INITIAL, events, clock, f);
    Safety(INITIAL, events, clock);
    AllMine(Run(INITIAL, events, clock), f);
  }

  lemma StartsAlike(view: Test)
    ensures Alike(INITIAL, INITIAL, view, 0) && Homed(INITIAL)
  {
    InitiallySafe();
  }
}
