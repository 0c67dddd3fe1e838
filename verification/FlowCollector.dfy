/**
 * The listener code of src/flow.rs as it updates the shared caches. Every method does exactly what the
 * critical sections of FlowCaches do when one listener works its list off.
 */
module FlowCollector {
  import opened Basics
  import opened FlowRecords
  import opened FlowFraming
  import opened FlowDecoder
  import opened FlowCaches

  /** The work that a datagram gives rise to: none, if it is not a message of the expected format. */
  function DatagramTasks(format: Format, payload: seq<byte>, exporter: seq<byte>, packet: nat): seq<Task> {
    match ParseEnvelope(format, payload)
    case None => []
    case Some(envelope) => MessageTasks(Scope(format, exporter, envelope.domain), packet, ParseSets(envelope.body))
  }

  datatype Datagram = Datagram(payload: seq<byte>, exporter: seq<byte>)

  /** The work of datagrams that arrive one after the other; the n-th gets the packet id `ids(n)`. */
  function FeedTasks(format: Format, datagrams: seq<Datagram>, ids: nat -> nat): seq<Task> {
    if datagrams == [] then []
    else
      var n := |datagrams| - 1;
      FeedTasks(format, datagrams[..n], ids)
      + DatagramTasks(format, datagrams[n].payload, datagrams[n].exporter, ids(n))
  }

  // ----- composing runs -----

  lemma {:induction false} OutputConcat(a: seq<Decoded>, b: seq<Decoded>)
    ensures Output(a + b) == Output(a) + Output(b)
  {
    if a == [] {
      assert a + b == b;
    } else {
      hide Records;
      assert (a + b)[1..] == a[1..] + b;
      OutputConcat(a[1..], b);
    }
  }

  /** Draining `work` first, from an empty output, and then the rest. */
  lemma DrainAdvance(s: Shared, work: seq<Task>, rest: seq<Task>, out: seq<Decoded>, clock: nat -> nat, tick: nat)
    ensures var r := Drain(s, Local(work, []), clock, tick);
            Drain(s, Local(work + rest, out), clock, tick) == Drain(r.shared, Local(rest, out + r.out), clock, r.tick)
            && Output(out + r.out) == Output(out) + Output(r.out)
  {
    hide Section; hide Drain; hide Output;
    DrainConcat(s, work, rest, out, clock, tick);
    DrainOut(s, work, out, clock, tick);
    OutputConcat(out, Drain(s, Local(work, []), clock, tick).out);
  }

  lemma {:induction false} AppendAt(packets: seq<Packet>, scope: Scope, id: nat, ds: DataSet, at: nat, i: nat)
    requires i <= |packets| && forall j :: 0 <= j < i ==> packets[j].id != id
    requires i < |packets| ==> packets[i].id == id
    ensures Append(packets, scope, id, ds, at) ==
            if i < |packets| then packets[i := packets[i].(sets := packets[i].sets + [ds])]
            else packets + [Packet(id, scope, [ds], at)]
  {
    if 0 < i {
      AppendAt(packets[1..], scope, id, ds, at, i - 1);
      assert packets == [packets[0]] + packets[1..];
    }
  }

  lemma TemplatesStep(data: seq<byte>)
    requires |data| >= 4
    ensures var list := ParseFields(U16At(data, 2), data[4..]);
            ParseTemplates(data) ==
            if list.complete && U16At(data, 0) >= 256
            then [Definition(U16At(data, 0), list.fields)] + ParseTemplates(list.rest) else ParseTemplates(list.rest)
  {
    hide ParseFields;
  }

  lemma LearnCons(t: Templates, scope: Scope, d: Definition, rest: seq<Definition>, clock: nat -> nat, tick: nat)
    ensures LearnAll(t, scope, [d] + rest, clock, tick)
         == LearnAll(LearnOne(t, scope, d, clock(tick)), scope, rest, clock, tick + 1)
  {
    hide LearnOne;
    assert ([d] + rest)[1..] == rest;
  }

  lemma LearnOneIs(t: Templates, scope: Scope, d: Definition, at: nat)
    ensures LearnOne(t, scope, d, at) == EvictTemplates(t[Key(scope, d.id) := Cached(d.fields, at)], scope)
  {
  }

  lemma TemplatesEnd(data: seq<byte>)
    requires |data| < 4
    ensures ParseTemplates(data) == []
  {
  }

  lemma LearnNothing(t: Templates, scope: Scope, clock: nat -> nat, tick: nat)
    ensures LearnAll(t, scope, [], clock, tick) == t
  {
  }

  lemma EvictStep(packets: seq<Packet>, scope: Scope)
    requires |Keep(packets, InScope(scope))| > ORPHAN_PACKET_LIMIT
    ensures var rest := Keep(packets, Not(HasId(LeastId(Keep(packets, InScope(scope))))));
            Evict(packets, scope) == Evict(rest, scope) && |rest| < |packets|
  {
    hide Keep;
    DropShrinks(packets, HasId(LeastId(Keep(packets, InScope(scope)))));
  }

  lemma EvictDone(packets: seq<Packet>, scope: Scope)
    requires |Keep(packets, InScope(scope))| <= ORPHAN_PACKET_LIMIT
    ensures Evict(packets, scope) == packets
  {
  }

  /** Looking up a data set whose template is cached. */
  lemma DrainKnown(s: Shared, item: Item, clock: nat -> nat, tick: nat)
    requires Key(item.scope, item.ds.id) in SweepTemplates(s.templates, clock(tick))
    ensures var t := SweepTemplates(s.templates, clock(tick));
            var final := Final(s.(templates := t), [Decoded(item, t[Key(item.scope, item.ds.id)].fields)], tick + 1);
            Drain(s, Local([Look(item.scope, item.packet, item.ds)], []), clock, tick) == final
  {
    DrainStep(s, Local([Look(item.scope, item.packet, item.ds)], []), clock, tick);
  }

  /** Looking up a data set whose template is not cached: it is parked at the next readings. */
  lemma DrainUnknown(s: Shared, item: Item, clock: nat -> nat, tick: nat)
    requires Key(item.scope, item.ds.id) !in SweepTemplates(s.templates, clock(tick))
    ensures var live := Keep(s.orphans, Alive(clock(tick + 1)));
            var parked := Evict(Append(live, item.scope, item.packet, item.ds, clock(tick + 2)), item.scope);
            var final := Final(Shared(SweepTemplates(s.templates, clock(tick)), parked), [], tick + 3);
            Drain(s, Local([Look(item.scope, item.packet, item.ds)], []), clock, tick) == final
  {
    hide Evict; hide Append; hide Keep; hide SweepTemplates;
    var look, park := Look(item.scope, item.packet, item.ds), Park(item.scope, item.packet, item.ds);
    var s' := s.(templates := SweepTemplates(s.templates, clock(tick)));
    DrainStep(s, Local([look], []), clock, tick);
    assert [park] + [look][1..] == [park];
    assert Section(s, Local([look], []), clock, tick) == (s', Local([park], []));
    DrainStep(s', Local([park], []), clock, tick + 1);
    assert [park][1..] == [];
  }

  lemma FieldsEnd(data: seq<byte>)
    ensures ParseFields(0, data) == FieldList([], data, true)
  {
  }

  /** Reading one field specifier at `offset`. */
  lemma FieldsStep(count: nat, data: seq<byte>, offset: nat)
    requires count > 0 && offset <= |data|
    ensures var all := ParseFields(count, data[offset..]);
            if offset + 4 > |data| then all.rest == data[offset..] && !all.complete
            else
              var raw, length := U16At(data, offset), U16At(data, offset + 2);
              var next := offset + if raw >= ENTERPRISE_BIT then 8 else 4;
              if next > |data| then !all.complete && all.rest == data[offset + 4..]
              else
                var more := ParseFields(count - 1, data[next..]);
                all == more.(fields := [Field(raw % ENTERPRISE_BIT, length)] + more.fields)
  {
    var here := data[offset..];
    if offset + 4 <= |data| {
      assert U16At(here, 0) == U16At(data, offset) && U16At(here, 2) == U16At(data, offset + 2);
      assert here[4..] == data[offset + 4..];
      if offset + 8 <= |data| { assert here[8..] == data[offset + 8..]; }
    }
  }

  class Collector {
    const clock: nat -> nat
    var templates: Templates
    var orphans: seq<Packet>
    var tick: nat            // clock readings so far

    constructor (clock: nat -> nat)
      ensures this.clock == clock && templates == map[] && orphans == [] && tick == 0
    {
      this.clock := clock;
      templates, orphans, tick := map[], [], 0;
    }

    function State(): Shared
      reads this
    {
      Shared(templates, orphans)
    }

    method Now() returns (now: nat)
      modifies this`tick
      ensures now == clock(old(tick)) && tick == old(tick) + 1
    {
      now := clock(tick);
      tick := tick + 1;
    }

    /** Sorts out the oldest templates of a scope that holds too many. */
    method EvictOldestTemplates(scope: Scope)
      modifies this`templates
      ensures templates == EvictTemplates(old(templates), scope)
    {
      while |ScopeKeys(templates, scope)| > TEMPLATE_LIMIT
        invariant EvictTemplates(templates, scope) == EvictTemplates(old(templates), scope)
        decreases |templates|
      {
        OldestExists(templates, scope, ScopeKeys(templates, scope));
        var keys := ScopeKeys(templates, scope);
        var victim :| victim in keys && forall j :: j in keys ==> Precedes(templates, victim, j);
        OldestUnique(templates, scope, victim, Oldest(templates, scope));
        assert victim in templates;
        templates := templates - {victim};
      }
    }

    method CacheTemplates(scope: Scope, set_: seq<byte>)
      modifies this`templates, this`tick
      ensures templates ==
              LearnAll(SweepTemplates(old(templates), clock(old(tick))), scope, ParseTemplates(set_), clock,
                       old(tick) + 1)
      ensures tick == old(tick) + 1 + |ParseTemplates(set_)|
    {
      hide LearnAll; hide LearnOne; hide ParseTemplates; hide ParseFields; hide EvictTemplates;
      var now := Now();
      templates := SweepTemplates(templates, now);
      ghost var goal := LearnAll(templates, scope, ParseTemplates(set_), clock, tick);
      ghost var end := tick + |ParseTemplates(set_)|;
      var offset := 0;
      assert set_[0..] == set_;
      while offset + 4 <= |set_|
        invariant 0 <= offset <= |set_|
        invariant goal == LearnAll(templates, scope, ParseTemplates(set_[offset..]), clock, tick)
        invariant end == tick + |ParseTemplates(set_[offset..])|
        decreases |set_| - offset
      {
        ghost var here := set_[offset..];
        var id, count := U16At(set_, offset), U16At(set_, offset + 2);
        assert id == U16At(here, 0) && count == U16At(here, 2);
        offset := offset + 4;
        assert here[4..] == set_[offset..];
        var fields, complete;
        fields, offset, complete := ReadFields(set_, offset, count);
        ghost var list := ParseFields(count, here[4..]);
        TemplatesStep(here);
        if complete && id >= 256 {
          LearnCons(templates, scope, Definition(id, fields), ParseTemplates(list.rest), clock, tick);
          LearnOneIs(templates, scope, Definition(id, fields), clock(tick));
          var at := Now();
          templates := templates[Key(scope, id) := Cached(fields, at)];
          EvictOldestTemplates(scope);
        }
      }
      TemplatesEnd(set_[offset..]);
      LearnNothing(templates, scope, clock, tick);
    }

    /** The inner loop over the field specifiers of one template. */
    method ReadFields(data: seq<byte>, start: nat, count: nat) returns (fields: seq<Field>, offset: nat, complete: bool)
      requires start <= |data|
      ensures start <= offset <= |data|
      ensures var list := ParseFields(count, data[start..]);
              complete == list.complete && data[offset..] == list.rest && (complete ==> fields == list.fields)
    {
      hide ParseFields; hide U16At;
      FieldsEnd(data[start..]);
      fields, offset, complete := [], start, true;
      ghost var goal := ParseFields(count, data[start..]);
      var i := 0;
      while i < count
        invariant 0 <= i <= count && start <= offset <= |data| && complete
        invariant var more := ParseFields(count - i, data[offset..]);
                  goal.complete == more.complete && goal.rest == more.rest && goal.fields == fields + more.fields
      {
        FieldsStep(count - i, data, offset);
        if offset + 4 > |data| {
          complete := false;
          return;
        }
        var raw, length := U16At(data, offset), U16At(data, offset + 2);
        offset := offset + 4;
        if raw >= ENTERPRISE_BIT {
          if offset + 4 > |data| {
            complete := false;
            return;
          }
          offset := offset + 4;
        }
        fields := fields + [Field(raw % ENTERPRISE_BIT, length)];
        i := i + 1;
      }
      FieldsEnd(data[offset..]);
    }

    /** Buffers an orphan: the else-branch of decode_data_set. */
    method ParkOrphan(scope: Scope, packet: nat, ds: DataSet)
      modifies this`orphans, this`tick
      ensures tick == old(tick) + 2
      ensures orphans
           == Evict(Append(Keep(old(orphans), Alive(clock(old(tick)))), scope, packet, ds, clock(old(tick) + 1)), scope)
    {
      hide Append; hide Keep; hide Evict;
      var now := Now();
      orphans := Keep(orphans, Alive(now));
      ghost var live := orphans;
      var at := Now();
      var i := 0;
      while i < |orphans| && orphans[i].id != packet
        invariant 0 <= i <= |orphans| && orphans == live
        invariant forall j :: 0 <= j < i ==> orphans[j].id != packet
      {
        i := i + 1;
      }
      AppendAt(live, scope, packet, ds, at, i);
      if i < |orphans| {
        orphans := orphans[i := orphans[i].(sets := orphans[i].sets + [ds])];
      } else {
        orphans := orphans + [Packet(packet, scope, [ds], at)];
      }
      ghost var more := orphans;
      while |Keep(orphans, InScope(scope))| > ORPHAN_PACKET_LIMIT
        invariant Evict(orphans, scope) == Evict(more, scope) && tick == old(tick) + 2
        decreases |orphans|
      {
        var oldest := LeastId(Keep(orphans, InScope(scope)));
        EvictStep(orphans, scope);
        orphans := Keep(orphans, Not(HasId(oldest)));
      }
      EvictDone(orphans, scope);
    }

    method DecodeDataSet(scope: Scope, packet: nat, ds: DataSet) returns (records: seq<FlowRecord>,
                         ghost out: seq<Decoded>)
      modifies this`templates, this`orphans, this`tick
      ensures Final(State(), out, tick) == Drain(old(State()), Local([Look(scope, packet, ds)], []), clock, old(tick))
      ensures records == Output(out)
    {
      hide Drain; hide Records; hide Keep; hide Append; hide Evict;
      ghost var s, t, item := State(), tick, Item(scope, packet, ds);
      var key := Key(scope, ds.id);
      var now := Now();
      templates := SweepTemplates(templates, now);
      if key !in templates {
        DrainUnknown(s, item, clock, t);
        ParkOrphan(scope, packet, ds);
        records, out := [], [];
        return;
      }
      DrainKnown(s, item, clock, t);
      out := [Decoded(item, templates[key].fields)];
      records := DecodeRecords(templates[key].fields, ds.body);
      assert out[1..] == [] && records + [] == records;
    }

    method ReplayOrphans(scope: Scope) returns (records: seq<FlowRecord>, ghost out: seq<Decoded>)
      modifies this`templates, this`orphans, this`tick
      ensures Final(State(), out, tick) == Drain(old(State()), Local([Replay(scope)], []), clock, old(tick))
      ensures records == Output(out)
    {
      hide Drain; hide Output; hide Keep;
      ghost var goal := Drain(State(), Local([Replay(scope)], []), clock, tick);
      DrainReplay(State(), scope, clock, tick);
      var now := Now();
      var live := Keep(orphans, Alive(now));
      var pending := Keep(live, InScope(scope));
      orphans := Keep(live, Not(InScope(scope)));
      records, out := [], [];
      OutputNothing();
      var i := 0;
      assert pending[0..] == pending;
      while i < |pending|
        invariant 0 <= i <= |pending| && records == Output(out)
        invariant goal == Drain(State(), Local(PacketLooks(scope, pending[i..]), out), clock, tick)
      {
        var item := pending[i];
        ghost var later := PacketLooks(scope, pending[i + 1..]);
        assert pending[i..][1..] == pending[i + 1..];
        assert PacketLooks(scope, pending[i..]) == SetLooks(scope, item.id, item.sets) + later;
        var j := 0;
        assert item.sets[0..] == item.sets;
        while j < |item.sets|
          invariant 0 <= j <= |item.sets| && records == Output(out)
          invariant goal == Drain(State(), Local(SetLooks(scope, item.id, item.sets[j..]) + later, out), clock, tick)
        {
          ghost var s, t := State(), tick;
          ghost var more := SetLooks(scope, item.id, item.sets[j + 1..]) + later;
          assert item.sets[j..][1..] == item.sets[j + 1..];
          assert SetLooks(scope, item.id, item.sets[j..]) + later == [Look(scope, item.id, item.sets[j])] + more;
          DrainAdvance(s, [Look(scope, item.id, item.sets[j])], more, out, clock, t);
          var decoded;
          ghost var step;
          decoded, step := DecodeDataSet(scope, item.id, item.sets[j]);
          records, out := records + decoded, out + step;
          j := j + 1;
        }
        assert SetLooks(scope, item.id, []) + later == later;
        i := i + 1;
      }
      DrainNothing(State(), out, clock, tick);
    }

    method ParseMessage(format: Format, payload: seq<byte>, exporter: seq<byte>, packet: nat)
      returns (records: seq<FlowRecord>, ghost out: seq<Decoded>)
      modifies this`templates, this`orphans, this`tick
      ensures Final(State(), out, tick)
           == Drain(old(State()), Local(DatagramTasks(format, payload, exporter, packet), []), clock, old(tick))
      ensures records == Output(out)
    {
      hide Drain; hide Output; hide ParseTemplates; hide LearnAll; hide ParseSets; hide MessageTasks;
      hide ParseEnvelope;
      hide SweepTemplates; hide Section; hide Readings;
      records, out := [], [];
      OutputNothing();
      var envelope := ParseEnvelope(format, payload);
      if envelope.None? {
        DrainNothing(State(), [], clock, tick);
        return;
      }
      var scope, message := Scope(format, exporter, envelope.value.domain), envelope.value.body;
      ghost var goal := Drain(State(), Local(MessageTasks(scope, packet, ParseSets(message)), []), clock, tick);
      var offset := 0;
      assert message[0..] == message;
      while offset + 4 <= |message|
        invariant 0 <= offset <= |message| && records == Output(out)
        invariant goal
             == Drain(State(), Local(MessageTasks(scope, packet, ParseSets(message[offset..])), out), clock, tick)
        decreases |message| - offset
      {
        ghost var here := message[offset..];
        var id, length := U16At(message, offset), U16At(message, offset + 2);
        assert id == U16At(here, 0) && length == U16At(here, 2);
        if length < 4 || offset + length > |message| {
          SetsEnd(here, scope, packet);
          break;
        }
        var body := message[offset + 4..offset + length];
        Slices(message, offset, 4, length);
        Slices(message, offset, length, length);
        ghost var rest := MessageTasks(scope, packet, ParseSets(here[length..]));
        SetsStep(here, scope, packet);
        if id == TemplateSetId(format) {
          ghost var s, t := State(), tick;
          CacheTemplates(scope, body);
          SectionOfLearn(s, scope, ParseTemplates(body), rest, out, clock, t);
          LearnReadings(scope, ParseTemplates(body), rest);
          DrainTo(s, Local([Learn(scope, ParseTemplates(body))] + rest, out), State(),
                  Local([Replay(scope)] + rest, out), clock, t, tick);
          DrainAdvance(State(), [Replay(scope)], rest, out, clock, tick);
          var replayed;
          ghost var step;
          replayed, step := ReplayOrphans(scope);
          records, out := records + replayed, out + step;
        } else if id >= 256 {
          DrainAdvance(State(), [Look(scope, packet, DataSet(id, body))], rest, out, clock, tick);
          var decoded;
          ghost var step;
          decoded, step := DecodeDataSet(scope, packet, DataSet(id, body));
          records, out := records + decoded, out + step;
        } else {
          assert [] + rest == rest;
        }
        offset := offset + length;
      }
      SetsEnd(message[offset..], scope, packet);
      DrainNothing(State(), out, clock, tick);
    }

    /** The loop over a socket: one datagram after the other, each with the next packet id. */
    method ParseAll(format: Format, datagrams: seq<Datagram>, ids: nat -> nat)
      returns (records: seq<FlowRecord>, ghost out: seq<Decoded>)
      modifies this`templates, this`orphans, this`tick
      ensures Final(State(), out, tick)
           == Drain(old(State()), Local(FeedTasks(format, datagrams, ids), []), clock, old(tick))
      ensures records == Output(out)
    {
      hide Drain; hide Output; hide FeedTasks; hide DatagramTasks;
      records, out := [], [];
      OutputNothing();
      NothingFed(format, ids);
      DrainNothing(State(), [], clock, tick);
      for n := 0 to |datagrams|
        invariant datagrams[..0] == [] && records == Output(out)
        invariant Final(State(), out, tick)
               == Drain(old(State()), Local(FeedTasks(format, datagrams[..n], ids), []), clock, old(tick))
      {
        var d := datagrams[n];
        ghost var s, t, before := State(), tick, out;
        FeedSnoc(format, datagrams, ids, n);
        ghost var work := DatagramTasks(format, d.payload, d.exporter, ids(n));
        DrainConcat(old(State()), FeedTasks(format, datagrams[..n], ids), work, [], clock, old(tick));
        DrainOut(s, work, before, clock, t);
        var more;
        ghost var step;
        more, step := ParseMessage(format, d.payload, d.exporter, ids(n));
        OutputConcat(before, step);
        records, out := records + more, out + step;
      }
      assert datagrams[..|datagrams|] == datagrams;
    }
  }

  lemma NothingFed(format: Format, ids: nat -> nat)
    ensures FeedTasks(format, [], ids) == []
  {
  }

  lemma FeedSnoc(format: Format, datagrams: seq<Datagram>, ids: nat -> nat, n: nat)
    requires n < |datagrams|
    ensures FeedTasks(format, datagrams[..n + 1], ids) ==
            FeedTasks(format, datagrams[..n], ids)
            + DatagramTasks(format, datagrams[n].payload, datagrams[n].exporter, ids(n))
  {
    assert datagrams[..n + 1][..n] == datagrams[..n];
  }

  lemma Slices(data: seq<byte>, offset: nat, from: nat, to: nat)
    requires from <= to && offset + to <= |data|
    ensures data[offset..][from..to] == data[offset + from..offset + to]
    ensures data[offset..][from..] == data[offset + from..]
  {
  }

  lemma SetsStep(data: seq<byte>, scope: Scope, packet: nat)
    requires |data| >= 4 && 4 <= U16At(data, 2) <= |data|
    ensures var length := U16At(data, 2);
            MessageTasks(scope, packet, ParseSets(data)) ==
              SetTasks(scope, packet, RawSet(U16At(data, 0), data[4..length]))
              + MessageTasks(scope, packet, ParseSets(data[length..]))
  {
    var first, more := RawSet(U16At(data, 0), data[4..U16At(data, 2)]), ParseSets(data[U16At(data, 2)..]);
    assert ParseSets(data) == [first] + more && ([first] + more)[1..] == more;
  }

  lemma SetsEnd(data: seq<byte>, scope: Scope, packet: nat)
    requires |data| < 4 || U16At(data, 2) < 4 || U16At(data, 2) > |data|
    ensures MessageTasks(scope, packet, ParseSets(data)) == []
  {
  }

  lemma OutputNothing()
    ensures Output([]) == []
  {
  }

  lemma DrainReplay(s: Shared, scope: Scope, clock: nat -> nat, tick: nat)
    ensures var live := Keep(s.orphans, Alive(clock(tick)));
            var s' := s.(orphans := Keep(live, Not(InScope(scope))));
            var looks := PacketLooks(scope, Keep(live, InScope(scope)));
            Drain(s, Local([Replay(scope)], []), clock, tick) == Drain(s', Local(looks, []), clock, tick + 1)
  {
    hide Drain; hide Keep; hide PacketLooks; hide Section;
    var l := Local([Replay(scope)], []);
    DrainStep(s, l, clock, tick);
    ReplaySection(s, l, clock, tick);
    var looks := PacketLooks(scope, Keep(Keep(s.orphans, Alive(clock(tick))), InScope(scope)));
    assert l.work[0] == Replay(scope) && looks + l.work[1..] == looks;
  }

  lemma LearnReadings(scope: Scope, defs: seq<Definition>, rest: seq<Task>)
    ensures var work := [Learn(scope, defs)] + rest; work != [] && Readings(work[0]) == 1 + |defs|
  {
  }

  lemma SectionOfLearn(s: Shared, scope: Scope, defs: seq<Definition>, rest: seq<Task>, out: seq<Decoded>,
                       clock: nat -> nat, tick: nat)
    ensures var t := LearnAll(SweepTemplates(s.templates, clock(tick)), scope, defs, clock, tick + 1);
            Section(s, Local([Learn(scope, defs)] + rest, out), clock, tick)
              == (s.(templates := t), Local([Replay(scope)] + rest, out))
  {
    LearnFirst(scope, defs, rest);
    LearnSection(s, Local([Learn(scope, defs)] + rest, out), clock, tick);
    hide *;
  }

  lemma LearnFirst(scope: Scope, defs: seq<Definition>, rest: seq<Task>)
    ensures var work := [Learn(scope, defs)] + rest;
            work[0] == Learn(scope, defs) && work[1..] == rest && Readings(work[0]) == 1 + |defs|
  {
  }
}
