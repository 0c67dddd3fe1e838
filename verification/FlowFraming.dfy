/** Template sets, and the division of a NetFlow v9 or IPFIX message into sets (src/flow.rs). */
module FlowFraming {
  import opened Basics
  import opened FlowRecords

  datatype Format = NetFlowV9 | Ipfix

  datatype RawSet = RawSet(id: nat, body: seq<byte>)

  /** The observation domain and the bytes that hold the sets. */
  datatype Envelope = Envelope(domain: nat, body: seq<byte>)

  const ENTERPRISE_BIT := 0x8000

  // ----- template sets -----

  /** `count` field specifiers read off `data`; `complete` is false when the set ends too early. */
  datatype FieldList = FieldList(fields: seq<Field>, rest: seq<byte>, complete: bool)

  function ParseFields(count: nat, data: seq<byte>): (r: FieldList)
    ensures |r.rest| <= |data|
    ensures !r.complete ==> |r.rest| < 4
  {
    if count == 0 then FieldList([], data, true)
    else if |data| < 4 then FieldList([], data, false)
    else
      var raw := U16At(data, 0);
      var field := Field(raw % ENTERPRISE_BIT, U16At(data, 2));
      if raw < ENTERPRISE_BIT then
        var more := ParseFields(count - 1, data[4..]);
        more.(fields := [field] + more.fields)
      else if |data| < 8 then FieldList([], data[4..], false)
      else
        var more := ParseFields(count - 1, data[8..]);
        more.(fields := [field] + more.fields)
  }

  /** The templates of a template set that `cache_templates` accepts, in order. */
  function ParseTemplates(data: seq<byte>): seq<Definition>
    decreases |data|
  {
    if |data| < 4 then []
    else
      var list := ParseFields(U16At(data, 2), data[4..]);
      (if list.complete && U16At(data, 0) >= 256 then [Definition(U16At(data, 0), list.fields)] else [])
      + ParseTemplates(list.rest)
  }

  /** A field specifier as an exporter writes it; `enterprise` is the optional enterprise number. */
  datatype Specifier = Specifier(field: Field, enterprise: Option<nat>)

  datatype Announcement = Announcement(id: nat, specifiers: seq<Specifier>)

  predicate ValidSpecifier(s: Specifier) {
    && s.field.element < 32_768 && s.field.length <= U16_MAX
    && (s.enterprise.Some? ==> s.enterprise.value <= U32_MAX)
  }

  /** An announcement that can be written down; only ids from 256 on are those of templates. */
  predicate Encodable(a: Announcement) {
    a.id <= U16_MAX && |a.specifiers| <= U16_MAX && forall i :: 0 <= i < |a.specifiers| ==>
      ValidSpecifier(a.specifiers[i])
  }

  function EncodeSpecifiers(specifiers: seq<Specifier>): seq<byte>
    requires forall i :: 0 <= i < |specifiers| ==> ValidSpecifier(specifiers[i])
  {
    if specifiers == [] then [] else EncodeSpecifier(specifiers[0]) + EncodeSpecifiers(specifiers[1..])
  }

  function EncodeSpecifier(s: Specifier): seq<byte>
    requires ValidSpecifier(s)
  {
    match s.enterprise
    case None => U16Bytes(s.field.element) + U16Bytes(s.field.length)
    case Some(number) => U16Bytes(s.field.element + 32_768) + U16Bytes(s.field.length) + U32Bytes(number)
  }

  lemma SpecifierRoundTrip(s: Specifier, count: nat, tail: seq<byte>)
    requires ValidSpecifier(s)
    ensures ParseFields(count + 1, EncodeSpecifier(s) + tail)
         == var more := ParseFields(count, tail); more.(fields := [s.field] + more.fields)
  {
    var data := EncodeSpecifier(s) + tail;
    assert U16At(data, 2) == s.field.length;
    if s.enterprise.None? {
      assert data[4..] == tail;
    } else {
      assert U16At(data, 0) == s.field.element + ENTERPRISE_BIT;
      assert data[8..] == tail;
    }
  }

  function EncodeTemplates(announcements: seq<Announcement>): seq<byte>
    requires forall i :: 0 <= i < |announcements| ==> Encodable(announcements[i])
  {
    if announcements == [] then [] else EncodeTemplate(announcements[0]) + EncodeTemplates(announcements[1..])
  }

  function EncodeTemplate(a: Announcement): seq<byte>
    requires Encodable(a)
  {
    U16Bytes(a.id) + U16Bytes(|a.specifiers|) + EncodeSpecifiers(a.specifiers)
  }

  lemma TemplateRoundTrip(a: Announcement, tail: seq<byte>)
    requires Encodable(a)
    ensures ParseTemplates(EncodeTemplate(a) + tail)
         == (if a.id >= 256 then [Definition(a.id, FieldsOf(a.specifiers))] else []) + ParseTemplates(tail)
  {
    hide ParseFields; hide EncodeSpecifiers; hide FieldsOf;
    var data := EncodeTemplate(a) + tail;
    assert U16At(data, 0) == a.id && U16At(data, 2) == |a.specifiers|;
    assert data[4..] == EncodeSpecifiers(a.specifiers) + tail;
    SpecifiersRoundTrip(a.specifiers, tail);
  }

  function FieldsOf(specifiers: seq<Specifier>): seq<Field> {
    seq(|specifiers|, i requires 0 <= i < |specifiers| => specifiers[i].field)
  }

  function DefinitionsOf(announcements: seq<Announcement>): seq<Definition> {
    seq(|announcements|, i requires 0 <= i < |announcements| =>
      Definition(announcements[i].id, FieldsOf(announcements[i].specifiers)))
  }

  lemma {:induction false} SpecifiersRoundTrip(specifiers: seq<Specifier>, rest: seq<byte>)
    requires forall i :: 0 <= i < |specifiers| ==> ValidSpecifier(specifiers[i])
    ensures ParseFields(|specifiers|, EncodeSpecifiers(specifiers) + rest)
         == FieldList(FieldsOf(specifiers), rest, true)
  {
    if specifiers == [] {
      assert EncodeSpecifiers(specifiers) + rest == rest && FieldsOf(specifiers) == [];
    } else {
      SpecifiersCons(specifiers, rest);
      FieldsCons(specifiers);
      hide ParseFields; hide EncodeSpecifier; hide ValidSpecifier; hide EncodeSpecifiers; hide FieldsOf;
      SpecifierRoundTrip(specifiers[0], |specifiers| - 1, EncodeSpecifiers(specifiers[1..]) + rest);
      SpecifiersRoundTrip(specifiers[1..], rest);
    }
  }

  lemma SpecifiersCons(specifiers: seq<Specifier>, rest: seq<byte>)
    requires specifiers != [] && forall i :: 0 <= i < |specifiers| ==> ValidSpecifier(specifiers[i])
    ensures EncodeSpecifiers(specifiers) + rest
         == EncodeSpecifier(specifiers[0]) + (EncodeSpecifiers(specifiers[1..]) + rest)
  {
    hide EncodeSpecifier; hide ValidSpecifier;
    EncodeFirst(specifiers);
    hide EncodeSpecifiers;
    AppendAssociates(EncodeSpecifier(specifiers[0]), EncodeSpecifiers(specifiers[1..]), rest);
  }

  lemma EncodeFirst(specifiers: seq<Specifier>)
    requires specifiers != [] && forall i :: 0 <= i < |specifiers| ==> ValidSpecifier(specifiers[i])
    ensures EncodeSpecifiers(specifiers) == EncodeSpecifier(specifiers[0]) + EncodeSpecifiers(specifiers[1..])
  {
  }

  lemma FieldsCons(specifiers: seq<Specifier>)
    requires specifiers != []
    ensures FieldsOf(specifiers) == [specifiers[0].field] + FieldsOf(specifiers[1..])
  {
  }

  lemma DefinitionsCons(announcements: seq<Announcement>)
    requires announcements != []
    ensures DefinitionsOf(announcements)
         == [Definition(announcements[0].id, FieldsOf(announcements[0].specifiers))] + DefinitionsOf(announcements[1..])
  {
    hide FieldsOf;
  }

  lemma EncodeTemplatesCons(announcements: seq<Announcement>, rest: seq<byte>)
    requires announcements != [] && forall i :: 0 <= i < |announcements| ==> Encodable(announcements[i])
    ensures EncodeTemplates(announcements) + rest
         == EncodeTemplate(announcements[0]) + (EncodeTemplates(announcements[1..]) + rest)
  {
    hide EncodeTemplate; hide Encodable;
  }

  /** Templates survive the wire, whatever enterprise numbers and trailing padding come with them. */
  lemma {:induction false} TemplatesRoundTrip(announcements: seq<Announcement>, padding: seq<byte>)
    requires forall i :: 0 <= i < |announcements| ==> Encodable(announcements[i]) && announcements[i].id >= 256
    requires |padding| < 4
    ensures ParseTemplates(EncodeTemplates(announcements) + padding) == DefinitionsOf(announcements)
  {
    if announcements == [] {
      assert EncodeTemplates(announcements) + padding == padding;
      assert DefinitionsOf(announcements) == [];
    } else {
      EncodeTemplatesCons(announcements, padding);
      hide ParseTemplates; hide EncodeTemplate; hide FieldsOf; hide EncodeTemplates; hide Encodable;
      hide DefinitionsOf;
      TemplateRoundTrip(announcements[0], EncodeTemplates(announcements[1..]) + padding);
      TemplatesRoundTrip(announcements[1..], padding);
      DefinitionsCons(announcements);
    }
  }

  // ----- messages -----

  function ParseSets(data: seq<byte>): seq<RawSet>
    decreases |data|
  {
    if |data| < 4 then []
    else
      var length := U16At(data, 2);
      if length < 4 || length > |data| then []
      else [RawSet(U16At(data, 0), data[4..length])] + ParseSets(data[length..])
  }

  function ParseEnvelope(format: Format, payload: seq<byte>): Option<Envelope> {
    match format
    case NetFlowV9 =>
      if U16At(payload, 0) == 9 && |payload| >= 20 then Some(Envelope(U32At(payload, 16), payload[20..])) else None
    case Ipfix =>
      if U16At(payload, 0) == 10 && |payload| >= 16 then
        var length := U16At(payload, 2);
        if length < 16 || length > |payload| then None
        else Some(Envelope(U32At(payload, 12), payload[16..length]))
      else None
  }

  function TemplateSetId(format: Format): nat { if format == NetFlowV9 then 0 else 2 }

  predicate ValidSet(s: RawSet) { s.id <= U16_MAX && |s.body| + 4 <= U16_MAX }

  function EncodeSets(sets: seq<RawSet>): seq<byte>
    requires forall i :: 0 <= i < |sets| ==> ValidSet(sets[i])
  {
    if sets == [] then [] else EncodeRawSet(sets[0]) + EncodeSets(sets[1..])
  }

  function EncodeRawSet(s: RawSet): seq<byte>
    requires ValidSet(s)
  {
    U16Bytes(s.id) + U16Bytes(|s.body| + 4) + s.body
  }

  lemma RawSetRoundTrip(s: RawSet, tail: seq<byte>)
    requires ValidSet(s)
    ensures ParseSets(EncodeRawSet(s) + tail) == [s] + ParseSets(tail)
  {
    var data := EncodeRawSet(s) + tail;
    var length := |s.body| + 4;
    assert U16At(data, 0) == s.id && U16At(data, 2) == length;
    assert data[4..length] == s.body && data[length..] == tail;
  }

  /** A NetFlow v9 message (section 5.1 of RFC 3954); `stamp` fills count, uptime, time and sequence number. */
  function EncodeV9(domain: nat, stamp: seq<byte>, body: seq<byte>): seq<byte>
    requires domain <= U32_MAX && |stamp| == 14
  {
    U16Bytes(9) + stamp + U32Bytes(domain) + body
  }

  /** An IPFIX message (section 3.1 of RFC 7011); `stamp` fills export time and sequence number. */
  function EncodeIpfix(domain: nat, stamp: seq<byte>, body: seq<byte>): seq<byte>
    requires domain <= U32_MAX && |stamp| == 8 && 16 + |body| <= U16_MAX
  {
    U16Bytes(10) + U16Bytes(16 + |body|) + stamp + U32Bytes(domain) + body
  }

  lemma {:induction false} SetsRoundTrip(sets: seq<RawSet>)
    requires forall i :: 0 <= i < |sets| ==> ValidSet(sets[i])
    ensures ParseSets(EncodeSets(sets)) == sets
  {
    if sets != [] {
      RawSetRoundTrip(sets[0], EncodeSets(sets[1..]));
      SetsRoundTrip(sets[1..]);
    }
  }

  lemma U32RoundTrip(value: nat, data: seq<byte>, offset: nat)
    requires value <= U32_MAX && offset + 4 <= |data| && data[offset..offset + 4] == U32Bytes(value)
    ensures U32At(data, offset) == value
  {
    var four := data[offset..offset + 4];
    assert data[offset] == four[0] && data[offset + 1] == four[1]
        && data[offset + 2] == four[2] && data[offset + 3] == four[3];
    assert value / 0x1_0000 == value / 0x100_0000 * 256 + value / 0x1_0000 % 256;
    assert value / 256 == value / 0x1_0000 * 256 + value / 256 % 256;
  }

  /** Every set of a NetFlow v9 message is found again. */
  lemma V9RoundTrip(domain: nat, stamp: seq<byte>, sets: seq<RawSet>)
    requires domain <= U32_MAX && |stamp| == 14 && forall i :: 0 <= i < |sets| ==> ValidSet(sets[i])
    ensures var parsed := ParseEnvelope(NetFlowV9, EncodeV9(domain, stamp, EncodeSets(sets)));
            parsed.Some? && parsed.value.domain == domain && ParseSets(parsed.value.body) == sets
  {
    V9Envelope(domain, stamp, EncodeSets(sets));
    SetsRoundTrip(sets);
  }

  lemma V9Envelope(domain: nat, stamp: seq<byte>, body: seq<byte>)
    requires domain <= U32_MAX && |stamp| == 14
    ensures ParseEnvelope(NetFlowV9, EncodeV9(domain, stamp, body)) == Some(Envelope(domain, body))
  {
    var payload := EncodeV9(domain, stamp, body);
    var version := U16Bytes(9);
    assert version == [0, 9];
    var tail := U32Bytes(domain);
    assert payload == version + stamp + tail + body;
    assert payload[16..20] == tail;
    assert payload[20..] == body;
    U32RoundTrip(domain, payload, 16);
  }

  lemma IpfixEnvelope(domain: nat, stamp: seq<byte>, body: seq<byte>, trailer: seq<byte>)
    requires domain <= U32_MAX && |stamp| == 8 && 16 + |body| <= U16_MAX
    ensures ParseEnvelope(Ipfix, EncodeIpfix(domain, stamp, body) + trailer) == Some(Envelope(domain, body))
  {
    hide U32At;
    var version, length, number := U16Bytes(10), U16Bytes(16 + |body|), U32Bytes(domain);
    var payload := version + length + stamp + number + body + trailer;
    assert EncodeIpfix(domain, stamp, body) + trailer == payload;
    assert version == [0, 10] && payload[..2] == version && payload[2..4] == length;
    assert payload[0] == 0 && payload[1] == 10 && payload[2] == length[0] && payload[3] == length[1];
    assert payload[12..16] == number;
    U32RoundTrip(domain, payload, 12);
    assert payload[16..16 + |body|] == body;
  }

  /** Every set of an IPFIX message is found again, whatever follows the message in its datagram. */
  lemma IpfixRoundTrip(domain: nat, stamp: seq<byte>, sets: seq<RawSet>, trailer: seq<byte>)
    requires domain <= U32_MAX && |stamp| == 8 && forall i :: 0 <= i < |sets| ==> ValidSet(sets[i])
    requires 16 + |EncodeSets(sets)| <= U16_MAX
    ensures var parsed := ParseEnvelope(Ipfix, EncodeIpfix(domain, stamp, EncodeSets(sets)) + trailer);
            parsed.Some? && parsed.value.domain == domain && ParseSets(parsed.value.body) == sets
  {
    SetsRoundTrip(sets);
    hide EncodeSets; hide ParseSets;
    IpfixEnvelope(domain, stamp, EncodeSets(sets), trailer);
  }
}
