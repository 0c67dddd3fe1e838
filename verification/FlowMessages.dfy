/** What is read from a datagram: exactly what a NetFlow v9 or IPFIX exporter can have written (src/flow.rs). */
module FlowMessages {
  import opened Basics
  import opened FlowRecords
  import opened FlowFraming
  import opened FlowCaches
  import opened FlowCollector

  // ----- messages -----

  /**
   * The payload is a message of this format and domain with this body; an IPFIX message may be followed by anything.
   */
  ghost predicate IsMessage(format: Format, payload: seq<byte>, domain: nat, body: seq<byte>) {
    && domain <= U32_MAX
    && match format
       case NetFlowV9 => exists stamp: seq<byte> :: |stamp| == 14 && payload == EncodeV9(domain, stamp, body)
       case Ipfix =>
         16 + |body| <= U16_MAX
         && exists stamp: seq<byte>, trailer: seq<byte> ::
              |stamp| == 8 && payload == EncodeIpfix(domain, stamp, body) + trailer
  }

  lemma U32Wrote(data: seq<byte>, offset: nat)
    requires offset + 4 <= |data|
    ensures data[offset..offset + 4] == U32Bytes(U32At(data, offset))
  {
    var a: int, b: int, c: int, d: int := data[offset], data[offset + 1], data[offset + 2], data[offset + 3];
    var n := U32At(data, offset);
    assert n == ((a * 256 + b) * 256 + c) * 256 + d;
    assert n / 256 == (a * 256 + b) * 256 + c && n % 256 == d;
    assert n / 0x1_0000 == a * 256 + b && n / 256 % 256 == c;
    assert n / 0x100_0000 == a && n / 0x1_0000 % 256 == b;
  }

  lemma U16Wrote(data: seq<byte>, offset: nat)
    requires offset + 2 <= |data|
    ensures data[offset..offset + 2] == U16Bytes(U16At(data, offset))
  {
  }

  lemma BigEndianMore(data: seq<byte>, offset: nat, n: nat)
    requires offset + n < |data|
    ensures BigEndian(data[offset..offset + n + 1]) == BigEndian(data[offset..offset + n]) * 256 + data[offset + n]
    ensures BigEndian(data[offset..offset]) == 0
  {
    var s := data[offset..offset + n + 1];
    assert s[..n] == data[offset..offset + n];
  }

  /** The two readers of integers are big-endian, and read 0 behind the end. */
  lemma ReadsAreBigEndian(data: seq<byte>, offset: nat)
    ensures U16At(data, offset) == if offset + 2 <= |data| then BigEndian(data[offset..offset + 2]) else 0
    ensures U32At(data, offset) == if offset + 4 <= |data| then BigEndian(data[offset..offset + 4]) else 0
  {
    hide BigEndian;
    if offset + 2 <= |data| {
      BigEndianMore(data, offset, 0);
      BigEndianMore(data, offset, 1);
    }
    if offset + 4 <= |data| {
      BigEndianMore(data, offset, 2);
      BigEndianMore(data, offset, 3);
    }
  }

  /** A payload is taken for a message exactly if it is one. */
  lemma EnvelopeExactly(format: Format, payload: seq<byte>, domain: nat, body: seq<byte>)
    ensures ParseEnvelope(format, payload) == Some(Envelope(domain, body)) <==> IsMessage(format, payload, domain, body)
  {
    hide U16At; hide U32At; hide U16Bytes; hide U32Bytes;
    if IsMessage(format, payload, domain, body) {
      hide ParseEnvelope; hide EncodeV9; hide EncodeIpfix;
      match format
      case NetFlowV9 =>
        var stamp: seq<byte> :| |stamp| == 14 && payload == EncodeV9(domain, stamp, body);
        V9Envelope(domain, stamp, body);
      case Ipfix =>
        var stamp: seq<byte>, trailer: seq<byte> :|
          |stamp| == 8 && payload == EncodeIpfix(domain, stamp, body) + trailer;
        IpfixEnvelope(domain, stamp, body, trailer);
    }
    if ParseEnvelope(format, payload) == Some(Envelope(domain, body)) {
      if format == NetFlowV9 { V9Wrote(payload); } else { IpfixWrote(payload); }
    }
  }

  lemma V9Wrote(payload: seq<byte>)
    requires ParseEnvelope(NetFlowV9, payload).Some?
    ensures var e := ParseEnvelope(NetFlowV9, payload).value;
            IsMessage(NetFlowV9, payload, e.domain, e.body)
  {
    hide U16At; hide U32At; hide U16Bytes; hide U32Bytes;
    var e := ParseEnvelope(NetFlowV9, payload).value;
    U16Wrote(payload, 0);
    U32Wrote(payload, 16);
    var stamp := payload[2..16];
    assert payload == payload[0..2] + stamp + payload[16..20] + payload[20..];
    assert payload == EncodeV9(e.domain, stamp, e.body);
  }

  lemma IpfixWrote(payload: seq<byte>)
    requires ParseEnvelope(Ipfix, payload).Some?
    ensures var e := ParseEnvelope(Ipfix, payload).value;
            IsMessage(Ipfix, payload, e.domain, e.body)
  {
    hide U16At; hide U32At; hide U16Bytes; hide U32Bytes;
    var e, length := ParseEnvelope(Ipfix, payload).value, U16At(payload, 2);
    U16Wrote(payload, 0);
    U16Wrote(payload, 2);
    U32Wrote(payload, 12);
    assert |e.body| + 16 == length <= U16_MAX by { U16Small(payload, 2); }
    var stamp, trailer := payload[4..12], payload[length..];
    assert payload == payload[0..2] + payload[2..4] + stamp + payload[12..16] + payload[16..length] + trailer;
    assert payload == EncodeIpfix(e.domain, stamp, e.body) + trailer;
  }

  lemma U16Small(data: seq<byte>, offset: nat)
    ensures U16At(data, offset) <= U16_MAX
  {
  }

  // ----- sets -----

  ghost predicate StartsWithSet(data: seq<byte>) {
    exists s, tail: seq<byte> :: ValidSet(s) && data == EncodeRawSet(s) + tail
  }

  /** The data is these sets, and then something that does not start with another set. */
  ghost predicate AreSets(data: seq<byte>, sets: seq<RawSet>) {
    && (forall i :: 0 <= i < |sets| ==> ValidSet(sets[i]))
    && EncodeSets(sets) <= data && !StartsWithSet(data[|EncodeSets(sets)|..])
  }

  /** The sets of a message are exactly those that it is made of. */
  lemma {:induction false} SetsExactly(data: seq<byte>, sets: seq<RawSet>)
    ensures ParseSets(data) == sets <==> AreSets(data, sets)
    decreases |data| + |sets|
  {
    hide EncodeRawSet; hide ParseSets;
    FirstSet(data);
    if !StartsWithSet(data) {
      if sets != [] && AreSets(data, sets) { StartsWithFirst(data, sets); }
    } else {
      var (s, tail) := TakeSet(data);
      if sets != [] {
        SetsExactly(tail, sets[1..]);
        if AreSets(data, sets) {
          var rest := DropFirst(data, sets);
          SameSet(s, tail, sets[0], rest);
        }
        if ParseSets(data) == sets { AddFirst(s, tail, sets[1..]); }
      }
    }
  }

  lemma FirstSet(data: seq<byte>)
    ensures ParseSets(data) == [] <==> !StartsWithSet(data)
  {
    if StartsWithSet(data) {
      hide EncodeRawSet; hide ParseSets;
      var s, tail: seq<byte> :| ValidSet(s) && data == EncodeRawSet(s) + tail;
      RawSetRoundTrip(s, tail);
    }
    if ParseSets(data) != [] { SetWrote(data); }
  }

  lemma SetWrote(data: seq<byte>)
    requires ParseSets(data) != []
    ensures StartsWithSet(data)
  {
    var length := U16At(data, 2);
    assert 4 <= length <= |data|;
    hide *;
    U16Wrote(data, 0);
    U16Wrote(data, 2);
    U16Small(data, 0);
    U16Small(data, 2);
    SetBytes(data, RawSet(U16At(data, 0), data[4..length]));
  }

  lemma SetBytes(data: seq<byte>, s: RawSet)
    requires ValidSet(s) && 4 + |s.body| <= |data| && data[4..4 + |s.body|] == s.body
    requires data[0..2] == U16Bytes(s.id) && data[2..4] == U16Bytes(|s.body| + 4)
    ensures StartsWithSet(data)
  {
    hide U16Bytes;
    var tail := data[4 + |s.body|..];
    assert data == data[0..2] + data[2..4] + s.body + tail;
    assert data == EncodeRawSet(s) + tail;
  }

  ghost function TakeSet(data: seq<byte>): (r: (RawSet, seq<byte>))
    requires StartsWithSet(data)
    ensures ValidSet(r.0) && data == EncodeRawSet(r.0) + r.1 && ParseSets(data) == [r.0] + ParseSets(r.1)
    ensures |r.1| < |data|
  {
    var s, tail: seq<byte> :| ValidSet(s) && data == EncodeRawSet(s) + tail;
    RawSetRoundTrip(s, tail);
    (s, tail)
  }

  lemma SameSet(s: RawSet, tail: seq<byte>, s': RawSet, tail': seq<byte>)
    requires ValidSet(s) && ValidSet(s') && EncodeRawSet(s) + tail == EncodeRawSet(s') + tail'
    ensures s == s' && tail == tail'
  {
    hide EncodeRawSet; hide ParseSets;
    RawSetRoundTrip(s, tail);
    RawSetRoundTrip(s', tail');
    assert ([s] + ParseSets(tail))[0] == s && ([s'] + ParseSets(tail'))[0] == s';
    assert (EncodeRawSet(s) + tail)[|EncodeRawSet(s)|..] == tail;
    assert (EncodeRawSet(s') + tail')[|EncodeRawSet(s)|..] == tail';
  }

  lemma StartsWithFirst(data: seq<byte>, sets: seq<RawSet>)
    requires sets != [] && AreSets(data, sets)
    ensures StartsWithSet(data)
  {
    var rest := DropFirst(data, sets);
  }

  lemma DropFirst(data: seq<byte>, sets: seq<RawSet>) returns (rest: seq<byte>)
    requires sets != [] && AreSets(data, sets)
    ensures ValidSet(sets[0]) && data == EncodeRawSet(sets[0]) + rest && AreSets(rest, sets[1..])
  {
    hide EncodeRawSet; hide StartsWithSet; hide ValidSet;
    var first, more, all := EncodeRawSet(sets[0]), EncodeSets(sets[1..]), EncodeSets(sets);
    assert all == first + more;
    hide EncodeSets;
    var behind := data[|all|..];
    assert data == all + behind;
    rest := more + behind;
    assert data == first + rest;
    assert rest[|more|..] == behind;
  }

  lemma AddFirst(s: RawSet, tail: seq<byte>, sets: seq<RawSet>)
    requires ValidSet(s) && AreSets(tail, sets)
    ensures AreSets(EncodeRawSet(s) + tail, [s] + sets)
  {
    hide EncodeRawSet; hide StartsWithSet;
    var data, all := EncodeRawSet(s) + tail, [s] + sets;
    assert all[1..] == sets;
    assert EncodeSets(all) == EncodeRawSet(s) + EncodeSets(sets);
    assert data[|EncodeSets(all)|..] == tail[|EncodeSets(sets)|..];
  }

  // ----- template sets -----

  ghost predicate StartsWithTemplate(data: seq<byte>) {
    exists a, tail: seq<byte> :: Encodable(a) && data == EncodeTemplate(a) + tail
  }

  /** The announcements of a template set that define a template: those with ids from 256 on. */
  function Accepted(announcements: seq<Announcement>): seq<Definition> {
    if announcements == [] then []
    else
      var a := announcements[0];
      (if a.id >= 256 then [Definition(a.id, FieldsOf(a.specifiers))] else []) + Accepted(announcements[1..])
  }

  /** The data is these announcements, and then something that does not start with another one. */
  ghost predicate AreTemplates(data: seq<byte>, announcements: seq<Announcement>) {
    && (forall i :: 0 <= i < |announcements| ==> Encodable(announcements[i]))
    && EncodeTemplates(announcements) <= data && !StartsWithTemplate(data[|EncodeTemplates(announcements)|..])
  }

  /** A complete list of field specifiers was written. */
  lemma {:induction false} FieldsWrote(count: nat, data: seq<byte>) returns (specifiers: seq<Specifier>)
    requires ParseFields(count, data).complete
    ensures |specifiers| == count && forall i :: 0 <= i < count ==> ValidSpecifier(specifiers[i])
    ensures FieldsOf(specifiers) == ParseFields(count, data).fields
    ensures data == EncodeSpecifiers(specifiers) + ParseFields(count, data).rest
  {
    hide FieldsOf; hide EncodeSpecifier; hide EncodeSpecifiers; hide ValidSpecifier;
    if count == 0 {
      specifiers := [];
      NoSpecifiers(data);
    } else {
      var s, tail := SpecifierWrote(count - 1, data);
      var more := FieldsWrote(count - 1, tail);
      specifiers := [s] + more;
      assert specifiers[1..] == more;
      SpecifiersCons(specifiers, ParseFields(count, data).rest);
      FieldsCons(specifiers);
      SpecifierRoundTrip(s, count - 1, tail);
    }
  }

  lemma NoSpecifiers(data: seq<byte>)
    ensures FieldsOf([]) == [] && data == EncodeSpecifiers([]) + data
  {
  }

  lemma SpecifierWrote(count: nat, data: seq<byte>) returns (s: Specifier, tail: seq<byte>)
    requires ParseFields(count + 1, data).complete
    ensures ValidSpecifier(s) && data == EncodeSpecifier(s) + tail && ParseFields(count, tail).complete
  {
    hide U16At; hide U32At; hide U16Bytes; hide U32Bytes;
    var raw, length := U16At(data, 0), U16At(data, 2);
    U16Wrote(data, 0);
    U16Wrote(data, 2);
    U16Small(data, 0);
    U16Small(data, 2);
    if raw < ENTERPRISE_BIT {
      s, tail := Specifier(Field(raw, length), None), data[4..];
      assert data == data[0..2] + data[2..4] + tail;
    } else {
      U32Wrote(data, 4);
      U32Small(data, 4);
      s, tail := Specifier(Field(raw - ENTERPRISE_BIT, length), Some(U32At(data, 4))), data[8..];
      assert raw % ENTERPRISE_BIT == raw - ENTERPRISE_BIT;
      assert data == data[0..2] + data[2..4] + data[4..8] + tail;
    }
  }

  lemma U32Small(data: seq<byte>, offset: nat)
    ensures U32At(data, offset) <= U32_MAX
  {
  }

  /** The first announcement is read if there is one. */
  lemma FirstTemplate(data: seq<byte>)
    ensures StartsWithTemplate(data) <==> |data| >= 4 && ParseFields(U16At(data, 2), data[4..]).complete
  {
    hide ParseFields; hide EncodeSpecifiers; hide FieldsOf; hide ValidSpecifier;
    if StartsWithTemplate(data) {
      var a, tail: seq<byte> :| Encodable(a) && data == EncodeTemplate(a) + tail;
      assert U16At(data, 2) == |a.specifiers|;
      assert data[4..] == EncodeSpecifiers(a.specifiers) + tail;
      SpecifiersRoundTrip(a.specifiers, tail);
    }
    if |data| >= 4 && ParseFields(U16At(data, 2), data[4..]).complete {
      var specifiers := FieldsWrote(U16At(data, 2), data[4..]);
      var rest := ParseFields(U16At(data, 2), data[4..]).rest;
      U16Wrote(data, 0);
      U16Wrote(data, 2);
      var a := Announcement(U16At(data, 0), specifiers);
      hide U16At; hide U16Bytes;
      U16Small(data, 0);
      U16Small(data, 2);
      assert data == data[0..2] + data[2..4] + data[4..];
      assert data == EncodeTemplate(a) + rest;
    }
  }

  lemma NoTemplates(data: seq<byte>)
    requires !StartsWithTemplate(data)
    ensures ParseTemplates(data) == []
  {
    hide StartsWithTemplate;
    FirstTemplate(data);
  }

  lemma {:induction false} TemplatesRead(announcements: seq<Announcement>, rest: seq<byte>)
    requires forall i :: 0 <= i < |announcements| ==> Encodable(announcements[i])
    requires !StartsWithTemplate(rest)
    ensures ParseTemplates(EncodeTemplates(announcements) + rest) == Accepted(announcements)
  {
    if announcements == [] {
      assert EncodeTemplates(announcements) + rest == rest;
      NoTemplates(rest);
    } else {
      EncodeTemplatesCons(announcements, rest);
      hide *;
      AcceptedCons(announcements);
      TemplateRoundTrip(announcements[0], EncodeTemplates(announcements[1..]) + rest);
      TemplatesRead(announcements[1..], rest);
    }
  }

  lemma AcceptedCons(announcements: seq<Announcement>)
    requires announcements != []
    ensures var a := announcements[0];
            Accepted(announcements) ==
            (if a.id >= 256 then [Definition(a.id, FieldsOf(a.specifiers))] else []) + Accepted(announcements[1..])
  {
  }

  /** Every template set is a list of announcements with something behind it. */
  lemma {:induction false} TemplatesWrote(data: seq<byte>) returns (announcements: seq<Announcement>)
    ensures AreTemplates(data, announcements)
    decreases |data|
  {
    hide EncodeTemplate; hide Encodable; hide StartsWithTemplate;
    if !StartsWithTemplate(data) {
      announcements := [];
      assert data[0..] == data;
    } else {
      var a, tail := TakeTemplate(data);
      var more := TemplatesWrote(tail);
      announcements := [a] + more;
      assert announcements[1..] == more;
      EncodeTemplatesCons(announcements, tail[|EncodeTemplates(more)|..]);
      assert tail == EncodeTemplates(more) + tail[|EncodeTemplates(more)|..];
      assert data == EncodeTemplates(announcements) + tail[|EncodeTemplates(more)|..];
    }
  }

  lemma TakeTemplate(data: seq<byte>) returns (a: Announcement, tail: seq<byte>)
    requires StartsWithTemplate(data)
    ensures Encodable(a) && data == EncodeTemplate(a) + tail && |tail| < |data|
  {
    a, tail :| Encodable(a) && data == EncodeTemplate(a) + tail;
  }

  /**
   * The templates read from a template set are those of the announcements it is made of that have ids from 256 on, up
   * to where no complete announcement follows.
   */
  lemma TemplatesExactly(data: seq<byte>, announcements: seq<Announcement>)
    requires AreTemplates(data, announcements)
    ensures ParseTemplates(data) == Accepted(announcements)
  {
    hide StartsWithTemplate; hide EncodeTemplate; hide Encodable;
    var rest := data[|EncodeTemplates(announcements)|..];
    assert data == EncodeTemplates(announcements) + rest;
    TemplatesRead(announcements, rest);
  }

  // ----- datagrams -----

  /** What a listener has to do for a set: learn the templates of a template set, look up a data set, or nothing. */
  ghost predicate TaskMeans(scope: Scope, packet: nat, s: RawSet, task: Option<Task>) {
    var templates := if scope.format == NetFlowV9 then 0 else 2;
    match task
    case None => s.id != templates && s.id < 256
    case Some(Learn(scope', defs)) =>
      s.id == templates && scope' == scope && exists a :: AreTemplates(s.body, a) && defs == Accepted(a)
    case Some(Look(scope', packet', ds)) =>
      s.id >= 256 && scope' == scope && packet' == packet && ds == DataSet(s.id, s.body)
    case Some(_) => false
  }

  lemma {:induction false} TasksMean(scope: Scope, packet: nat, sets: seq<RawSet>) returns (meant: seq<Option<Task>>)
    ensures |meant| == |sets| && forall i :: 0 <= i < |sets| ==> TaskMeans(scope, packet, sets[i], meant[i])
    ensures MessageTasks(scope, packet, sets) == Present(meant)
  {
    hide AreTemplates; hide ParseTemplates;
    if sets == [] {
      meant := [];
    } else {
      var more := TasksMean(scope, packet, sets[1..]);
      var announcements := TemplatesWrote(sets[0].body);
      TemplatesExactly(sets[0].body, announcements);
      var tasks := SetTasks(scope, packet, sets[0]);
      meant := [if tasks == [] then None else Some(tasks[0])] + more;
      assert meant[1..] == more;
    }
  }

  /** The work is that for the sets of the message, in order. */
  ghost predicate TasksFor(format: Format, exporter: seq<byte>, domain: nat, body: seq<byte>, packet: nat,
                           tasks: seq<Task>) {
    exists sets, meant ::
      && AreSets(body, sets) && |meant| == |sets| && tasks == Present(meant)
      && forall i :: 0 <= i < |sets| ==> TaskMeans(Scope(format, exporter, domain), packet, sets[i], meant[i])
  }

  /**
   * Whatever arrives in a datagram: if it is a message of the listener's format, its template sets are learned and its
   * data sets are looked up, in order and up to the first malformed one; if it is none, nothing is done.
   */
  lemma DatagramMeans(format: Format, payload: seq<byte>, exporter: seq<byte>, packet: nat)
    ensures var tasks := DatagramTasks(format, payload, exporter, packet);
            && (forall domain: nat, body | IsMessage(format, payload, domain, body) ::
                  TasksFor(format, exporter, domain, body, packet, tasks))
            && ((forall domain: nat, body :: !IsMessage(format, payload, domain, body)) ==> tasks == [])
  {
    hide IsMessage; hide ParseEnvelope; hide AreSets; hide TaskMeans; hide MessageTasks; hide ParseSets; hide Present;
    forall domain: nat, body | IsMessage(format, payload, domain, body)
      ensures TasksFor(format, exporter, domain, body, packet, DatagramTasks(format, payload, exporter, packet))
    {
      EnvelopeExactly(format, payload, domain, body);
      SetsExactly(body, ParseSets(body));
      var meant := TasksMean(Scope(format, exporter, domain), packet, ParseSets(body));
    }
    if ParseEnvelope(format, payload).Some? {
      var e := ParseEnvelope(format, payload).value;
      EnvelopeExactly(format, payload, e.domain, e.body);
    }
  }
}
