/** From the field values of a data record to a flow record (`decode_record` in src/flow.rs). */
module FlowDecoder {
  import opened Basics
  import opened FlowRecords
  import Utf8

  datatype Protocol = ICMP | IGMP | TCP | UDP | GRE | ESP | Other

  /** Addresses stay in their 4 or 16 octet form. */
  datatype FlowRecord = FlowRecord(
    source: seq<byte>, destination: seq<byte>, sourcePort: nat, destinationPort: nat, protocol: Protocol,
    octets: nat, packets: nat, ingress: Option<nat>, egress: Option<nat>, tcpFlags: nat, samplingRate: nat,
    dscp: nat, nextHop: Option<seq<byte>>, hostname: Option<seq<byte>>)

  /** The local variables of `decode_record` while it walks over the fields. */
  datatype Draft = Draft(
    source: Option<seq<byte>>, destination: Option<seq<byte>>, sourcePort: nat, destinationPort: nat,
    protocol: Option<Protocol>, octets: nat, packets: nat, ingress: Option<nat>, egress: Option<nat>,
    tcpFlags: nat, samplingRate: nat, dscp: nat, nextHop: Option<seq<byte>>,
    httpHost: Option<seq<byte>>, tlsSni: Option<seq<byte>>)

  const BLANK := Draft(None, None, 0, 0, None, 0, 0, None, None, 0, 1, 0, None, None, None)

  function DecodeAddress(value: seq<byte>): Option<seq<byte>> {
    if |value| == 4 || |value| == 16 then Some(value) else None
  }

  function DecodeNumber(value: seq<byte>): (r: Option<nat>)
    ensures r.Some? <==> 1 <= |value| <= 8
    ensures r.Some? ==> r.value <= U64_MAX
  {
    if value == [] || |value| > 8 then None
    else
      BigEndianBound(value);
      Some(BigEndian(value))
  }

  function Power256(n: nat): nat { if n == 0 then 1 else 256 * Power256(n - 1) }

  lemma {:induction false} BigEndianBound(value: seq<byte>)
    ensures BigEndian(value) < Power256(|value|)
    ensures |value| <= 8 ==> BigEndian(value) <= U64_MAX
  {
    if value != [] { BigEndianBound(value[..|value| - 1]); }
    Power256Monotone(|value|, 8);
    assert Power256(8) == 256 * (256 * (256 * (256 * (256 * (256 * (256 * (256 * Power256(0))))))));
  }

  lemma {:induction false} Power256Monotone(m: nat, n: nat)
    ensures m <= n ==> Power256(m) <= Power256(n)
  {
    if m < n { Power256Monotone(m, n - 1); }
  }

  function NumberOr(value: seq<byte>, default: nat): nat {
    match DecodeNumber(value) case None => default case Some(n) => n
  }

  function ProtocolLabel(number: nat): Protocol {
    match number % 256
    case 1 => ICMP
    case 2 => IGMP
    case 6 => TCP
    case 17 => UDP
    case 47 => GRE
    case 50 => ESP
    case _ => Other
  }

  /** The text before the first NUL without white space around it, unless it is blank. */
  function DecodeString(value: seq<byte>): (r: Option<seq<byte>>)
    ensures r.Some? ==> r.value != [] && Utf8.SpaceAtStart(r.value) == 0 && Utf8.SpaceAtEnd(r.value) == 0
  {
    var text := Utf8.Trim(BeforeNul(value));
    if text == [] then None else Some(text)
  }

  function BeforeNul(value: seq<byte>): seq<byte> {
    if value == [] || value[0] == 0 then [] else [value[0]] + BeforeNul(value[1..])
  }

  lemma {:induction false} BeforeNulIsPrefix(value: seq<byte>)
    ensures var text := BeforeNul(value);
            text <= value && 0 !in text && (text == value || value[|text|] == 0)
  {
    if value != [] && value[0] != 0 { BeforeNulIsPrefix(value[1..]); }
  }

  /** The octets `text` stand before the first NUL, or before the end, with nothing but white space around them. */
  predicate Surrounds(value: seq<byte>, lead: seq<byte>, text: seq<byte>, tail: seq<byte>) {
    var all := lead + text + tail;
    && all <= value && 0 !in all && (all == value || value[|all|] == 0)
    && Utf8.Blank(lead) && Utf8.Blank(tail)
  }

  /**
   * A text is decoded to what is left before the first NUL without white space at its ends; if that is blank, to
   * nothing.
   */
  lemma StringIsTrimmed(value: seq<byte>) returns (lead: seq<byte>, text: seq<byte>, tail: seq<byte>)
    ensures Surrounds(value, lead, text, tail) && Utf8.SpaceAtStart(text) == 0 && Utf8.SpaceAtEnd(text) == 0
    ensures DecodeString(value) == if text == [] then None else Some(text)
    ensures DecodeString(value).None? <==> Utf8.Blank(lead + text + tail)
  {
    BeforeNulIsPrefix(value);
    lead, tail := Utf8.TrimParts(BeforeNul(value));
    text := Utf8.Trim(BeforeNul(value));
  }

  function DecodeProtocol(value: seq<byte>): Option<Protocol> {
    match DecodeNumber(value) case None => None case Some(n) => Some(ProtocolLabel(n))
  }

  function DecodeSampling(value: seq<byte>): nat { Min(Max(NumberOr(value, 1), 1), U32_MAX) }

  function ApplyField(draft: Draft, element: nat, value: seq<byte>): Draft {
    if element in {8, 27} then draft.(source := DecodeAddress(value))
    else if element in {12, 28} then draft.(destination := DecodeAddress(value))
    else if element == 7 then draft.(sourcePort := NumberOr(value, 0) % 0x1_0000)
    else if element == 11 then draft.(destinationPort := NumberOr(value, 0) % 0x1_0000)
    else if element == 4 then draft.(protocol := DecodeProtocol(value))
    else if element in {1, 85} then draft.(octets := NumberOr(value, 0))
    else if element in {2, 86} then draft.(packets := NumberOr(value, 0))
    else if element == 6 then draft.(tcpFlags := Min(NumberOr(value, 0), U8_MAX))
    else if element == 18 then draft.(nextHop := DecodeAddress(value))
    else if element == 195 then draft.(dscp := Min(NumberOr(value, 0), U8_MAX))
    else if element == 10 then draft.(ingress := Some(NumberOr(value, 0) % 0x1_0000_0000))
    else if element == 14 then draft.(egress := Some(NumberOr(value, 0) % 0x1_0000_0000))
    else if element in {34, 305} then draft.(samplingRate := DecodeSampling(value))
    else if element == 187 then draft.(httpHost := DecodeString(value))
    else if element == 198 then draft.(tlsSni := DecodeString(value))
    else draft
  }

  function Interpret(fields: seq<Field>, values: seq<Value>): Draft
    requires |fields| == |values|
  {
    if fields == [] then BLANK
    else
      var n := |fields| - 1;
      ApplyField(Interpret(fields[..n], values[..n]), fields[n].element, values[n].octets)
  }

  function SaturatingProduct(a: nat, b: nat): nat { Min(a * b, U64_MAX) }

  function Finish(draft: Draft): Option<FlowRecord> {
    match (draft.source, draft.destination, draft.protocol)
    case (Some(source), Some(destination), Some(protocol)) =>
      Some(FlowRecord(
        source, destination, draft.sourcePort, draft.destinationPort, protocol,
        SaturatingProduct(draft.octets, draft.samplingRate), SaturatingProduct(draft.packets, draft.samplingRate),
        draft.ingress, draft.egress, draft.tcpFlags, draft.samplingRate, draft.dscp, draft.nextHop,
        if draft.tlsSni.Some? then draft.tlsSni else draft.httpHost))
    case _ => None
  }

  // ----- an independent reading of a record: each property is looked up, not accumulated -----

  datatype Property =
    | SourceAddress | DestinationAddress | SourcePort | DestinationPort | TransportProtocol | OctetCount
    | PacketCount | TcpFlags | NextHop | Dscp | Ingress | Egress | Sampling | HttpHost | TlsSni | Ignored

  /** The meaning of an information element number. */
  function Meaning(element: nat): Property {
    match element
    case 8 => SourceAddress
    case 27 => SourceAddress
    case 12 => DestinationAddress
    case 28 => DestinationAddress
    case 7 => SourcePort
    case 11 => DestinationPort
    case 4 => TransportProtocol
    case 1 => OctetCount
    case 85 => OctetCount
    case 2 => PacketCount
    case 86 => PacketCount
    case 6 => TcpFlags
    case 18 => NextHop
    case 195 => Dscp
    case 10 => Ingress
    case 14 => Egress
    case 34 => Sampling
    case 305 => Sampling
    case 187 => HttpHost
    case 198 => TlsSni
    case _ => Ignored
  }

  /** The last value carried under an element of the given meaning. */
  function LastOf(fields: seq<Field>, values: seq<Value>, property: Property): Option<seq<byte>>
    requires |fields| == |values|
  {
    if fields == [] then None
    else
      var n := |fields| - 1;
      if Meaning(fields[n].element) == property then Some(values[n].octets)
      else LastOf(fields[..n], values[..n], property)
  }

  function AddressOf(value: Option<seq<byte>>): Option<seq<byte>> {
    if value.Some? then DecodeAddress(value.value) else None
  }

  function NumberOf(value: Option<seq<byte>>): nat { if value.Some? then NumberOr(value.value, 0) else 0 }

  function InterfaceOf(value: Option<seq<byte>>): Option<nat> {
    if value.Some? then Some(NumberOf(value) % 0x1_0000_0000) else None
  }

  function StringOf(value: Option<seq<byte>>): Option<seq<byte>> {
    if value.Some? then DecodeString(value.value) else None
  }

  /** The record assembled from one value per property. */
  function Assemble(last: Property -> Option<seq<byte>>): Draft {
    Draft(
      AddressOf(last(SourceAddress)), AddressOf(last(DestinationAddress)),
      NumberOf(last(SourcePort)) % 0x1_0000, NumberOf(last(DestinationPort)) % 0x1_0000,
      if last(TransportProtocol).Some? then DecodeProtocol(last(TransportProtocol).value) else None,
      NumberOf(last(OctetCount)), NumberOf(last(PacketCount)),
      InterfaceOf(last(Ingress)), InterfaceOf(last(Egress)),
      Min(NumberOf(last(TcpFlags)), U8_MAX),
      if last(Sampling).Some? then DecodeSampling(last(Sampling).value) else 1,
      Min(NumberOf(last(Dscp)), U8_MAX),
      AddressOf(last(NextHop)), StringOf(last(HttpHost)), StringOf(last(TlsSni)))
  }

  lemma ApplyReplacesOneProperty(before: Property -> Option<seq<byte>>, element: nat, value: seq<byte>)
    ensures ApplyField(Assemble(before), element, value)
         == Assemble(p => if p == Meaning(element) then Some(value) else before(p))
  {
    match Meaning(element)
    case Ignored =>
      assert ApplyField(Assemble(before), element, value) == Assemble(before);
    case _ =>
  }

  /**
   * Walking over the fields once and overwriting gives, for every property, what the last field
   * that carries it says: reordering fields of different meaning never changes the record.
   */
  lemma {:induction false} InterpretIsLookup(fields: seq<Field>, values: seq<Value>)
    requires |fields| == |values|
    ensures Interpret(fields, values) == Assemble(p => LastOf(fields, values, p))
  {
    hide Assemble; hide ApplyField; hide Meaning;
    if fields == [] {
      NothingAssembled(fields, values);
    } else {
      var n := |fields| - 1;
      var before := p => LastOf(fields[..n], values[..n], p);
      InterpretIsLookup(fields[..n], values[..n]);
      AssembleExtensional(p => LastOf(fields[..n], values[..n], p), before);
      ApplyReplacesOneProperty(before, fields[n].element, values[n].octets);
      AssembleExtensional(
        p => if p == Meaning(fields[n].element) then Some(values[n].octets) else before(p),
        p => LastOf(fields, values, p));
    }
  }

  lemma NothingAssembled(fields: seq<Field>, values: seq<Value>)
    requires fields == [] && values == []
    ensures Interpret(fields, values) == Assemble(p => LastOf(fields, values, p))
  {
  }

  lemma AssembleExtensional(f: Property -> Option<seq<byte>>, g: Property -> Option<seq<byte>>)
    requires forall p :: f(p) == g(p)
    ensures Assemble(f) == Assemble(g)
  {
  }

  // ----- decode_record and the record loop -----

  /** What `decode_record` returns: nothing, or the record (if it has both ends and a protocol) and its length. */
  function DecodedRecord(fields: seq<Field>, data: seq<byte>): Option<(Option<FlowRecord>, nat)> {
    match SplitRecord(fields, data)
    case None => None
    case Some((values, rest)) => Some((Finish(Interpret(fields, values)), |data| - |rest|))
  }

  function RecordsOf(fields: seq<Field>, splits: seq<seq<Value>>): seq<FlowRecord>
    requires forall s :: s in splits ==> |s| == |fields|
  {
    if splits == [] then []
    else
      var record := Finish(Interpret(fields, splits[0]));
      (if record.Some? then [record.value] else []) + RecordsOf(fields, splits[1..])
  }

  lemma {:induction false} SplitWidths(fields: seq<Field>, data: seq<byte>)
    ensures forall s :: s in SplitSet(fields, data) ==> |s| == |fields|
    decreases |data|
  {
    if data != [] && SplitRecord(fields, data).Some? {
      var (values, rest) := SplitRecord(fields, data).value;
      if |rest| < |data| { SplitWidths(fields, rest); }
    }
  }

  /** All flow records of a data set. */
  function Records(fields: seq<Field>, data: seq<byte>): seq<FlowRecord> {
    SplitWidths(fields, data);
    RecordsOf(fields, SplitSet(fields, data))
  }

  lemma InterpretSnoc(fields: seq<Field>, values: seq<Value>, field: Field, value: Value)
    requires |fields| == |values|
    ensures Interpret(fields + [field], values + [value])
         == ApplyField(Interpret(fields, values), field.element, value.octets)
  {
    assert (fields + [field])[..|fields|] == fields && (values + [value])[..|fields|] == values;
  }

  /** Reads the field at `offset`: its value and the offset behind it. */
  method ReadField(field: Field, data: seq<byte>, offset: nat) returns (result: Option<(seq<byte>, nat)>)
    requires offset <= |data|
    ensures match SplitField(field, data[offset..])
            case None => result == None
            case Some((value, rest)) =>
              result.Some? && result.value.0 == value.octets
              && offset <= result.value.1 <= |data| && rest == data[result.value.1..]
  {
    var length: nat := field.length;
    var start := offset;
    if field.length == VARIABLE {
      if start >= |data| { return None; }
      length := data[start];
      start := start + 1;
      if length == 255 {
        if start + 2 > |data| { return None; }
        length := U16At(data, start);
        start := start + 2;
      }
    }
    if start + length > |data| { return None; }
    Slice(data, offset, start - offset, length);
    var end: nat := start + length;
    result := Some((data[start..end], end));
  }

  lemma Slice(data: seq<byte>, offset: nat, skip: nat, length: nat)
    requires offset + skip + length <= |data|
    ensures data[offset..][skip..skip + length] == data[offset + skip..offset + skip + length]
    ensures data[offset..][skip + length..] == data[offset + skip + length..]
  {
  }

  method DecodeRecord(fields: seq<Field>, data: seq<byte>) returns (result: Option<(Option<FlowRecord>, nat)>)
    ensures result == DecodedRecord(fields, data)
  {
    hide SplitField; hide ApplyField; hide Finish;
    var offset: nat := 0;
    var draft := BLANK;
    ghost var values: seq<Value> := [];
    var i := 0;
    assert fields[0..] == fields && data[0..] == data;
    ResumeNothing(SplitRecord(fields, data));
    while i < |fields|
      invariant 0 <= i <= |fields| && |values| == i && offset <= |data|
      invariant draft == Interpret(fields[..i], values)
      invariant SplitRecord(fields, data) == Resume(values, SplitRecord(fields[i..], data[offset..]))
    {
      var read := ReadField(fields[i], data, offset);
      ResumeStep(fields[i..], data[offset..], values);
      assert fields[i..][0] == fields[i];
      if read.None? { return None; }
      InterpretSnoc(fields[..i], values, fields[i], SplitField(fields[i], data[offset..]).value.0);
      assert fields[..i + 1] == fields[..i] + [fields[i]] && fields[i..][1..] == fields[i + 1..];
      values := values + [SplitField(fields[i], data[offset..]).value.0];
      draft := ApplyField(draft, fields[i].element, read.value.0);
      offset := read.value.1;
      i := i + 1;
    }
    assert fields[..i] == fields && values + [] == values;
    result := Some((Finish(draft), offset));
  }

  lemma ResumeStep(fields: seq<Field>, data: seq<byte>, done: seq<Value>)
    requires fields != []
    ensures Resume(done, SplitRecord(fields, data)) ==
            match SplitField(fields[0], data)
            case None => None
            case Some((value, rest)) => Resume(done + [value], SplitRecord(fields[1..], rest))
  {
    match SplitField(fields[0], data)
    case None =>
    case Some((value, rest)) =>
      match SplitRecord(fields[1..], rest)
      case None =>
      case Some((values, tail)) => assert done + ([value] + values) == done + [value] + values;
  }

  /** Continues a split after `done` values have been read. */
  ghost function Resume(done: seq<Value>, more: Option<(seq<Value>, seq<byte>)>): Option<(seq<Value>, seq<byte>)> {
    match more case None => None case Some((values, rest)) => Some((done + values, rest))
  }

  /** One turn of the record loop. */
  lemma RecordsStep(fields: seq<Field>, data: seq<byte>)
    requires data != []
    ensures Records(fields, data) ==
            match DecodedRecord(fields, data)
            case None => []
            case Some((record, length)) =>
              if length == 0 then []
              else (if record.Some? then [record.value] else []) + Records(fields, data[length..])
  {
    if SplitRecord(fields, data).Some? {
      var (values, rest) := SplitRecord(fields, data).value;
      SplitRecordSound(fields, data);
      assert data[|data| - |rest|..] == rest;
      assert SplitSet(fields, data) == if |rest| == |data| then [] else [values] + SplitSet(fields, rest);
    }
  }

  lemma ResumeNothing(more: Option<(seq<Value>, seq<byte>)>)
    ensures Resume([], more) == more
  {
    if more.Some? { assert [] + more.value.0 == more.value.0; }
  }

  lemma NoRecords(fields: seq<Field>)
    ensures Records(fields, []) == []
  {
  }

  method DecodeRecords(fields: seq<Field>, data: seq<byte>) returns (records: seq<FlowRecord>)
    ensures records == Records(fields, data)
  {
    hide Records; hide SplitRecord; hide Interpret; hide Finish;
    records := [];
    var offset: nat := 0;
    NoRecords(fields);
    assert data[0..] == data;
    while offset < |data|
      invariant offset <= |data|
      invariant Records(fields, data) == records + Records(fields, data[offset..])
      decreases |data| - offset
    {
      RecordsStep(fields, data[offset..]);
      var decoded := DecodeRecord(fields, data[offset..]);
      if decoded.None? { return; }
      var (record, length) := decoded.value;
      if length == 0 { return; }
      assert data[offset..][length..] == data[offset + length..];
      offset := offset + length;
      if record.Some? { records := records + [record.value]; }
    }
    assert data[offset..] == [];
  }
}
