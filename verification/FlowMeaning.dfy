/**
 * What a decoded flow record says, in terms of the field values of its data record (`decode_record` in src/flow.rs).
 */
module FlowMeaning {
  import opened Basics
  import opened FlowRecords
  import opened FlowDecoder

  /** The i-th field is the last that carries one of the elements. */
  predicate IsLast(fields: seq<Field>, elements: set<nat>, i: nat) {
    && i < |fields| && fields[i].element in elements
    && forall j :: i < j < |fields| ==> fields[j].element !in elements
  }

  /** The octets of the last field that carries one of the elements. */
  function Last(fields: seq<Field>, values: seq<Value>, elements: set<nat>): Option<seq<byte>>
    requires |fields| == |values|
  {
    if fields == [] then None
    else
      var n := |fields| - 1;
      if fields[n].element in elements then Some(values[n].octets) else Last(fields[..n], values[..n], elements)
  }

  lemma {:induction false} LastIs(fields: seq<Field>, values: seq<Value>, elements: set<nat>, i: nat)
    requires |fields| == |values|
    ensures IsLast(fields, elements, i) ==> Last(fields, values, elements) == Some(values[i].octets)
    ensures Last(fields, values, elements).None? <==> forall j :: 0 <= j < |fields| ==> fields[j].element !in elements
  {
    if fields != [] {
      var n := |fields| - 1;
      LastIs(fields[..n], values[..n], elements, i);
    }
  }

  /** The information elements of RFC 3954 and RFC 7012 that carry a property. */
  function Elements(property: Property): set<nat> {
    match property
    case SourceAddress => {8, 27}
    case DestinationAddress => {12, 28}
    case SourcePort => {7}
    case DestinationPort => {11}
    case TransportProtocol => {4}
    case OctetCount => {1, 85}
    case PacketCount => {2, 86}
    case TcpFlags => {6}
    case NextHop => {18}
    case Dscp => {195}
    case Ingress => {10}
    case Egress => {14}
    case Sampling => {34, 305}
    case HttpHost => {187}
    case TlsSni => {198}
    case Ignored => {}
  }

  predicate IsAddress(v: Option<seq<byte>>) { v.Some? && (|v.value| == 4 || |v.value| == 16) }

  predicate IsNumber(v: Option<seq<byte>>) { v.Some? && 1 <= |v.value| <= 8 }

  /** The number in one to eight octets, most significant first, or a default. */
  function Count(v: Option<seq<byte>>, default: nat): nat { if IsNumber(v) then BigEndian(v.value) else default }

  /** The number `n` lies between the bounds, and is `x` unless `x` does not. */
  predicate Clamps(n: nat, x: nat, low: nat, high: nat) {
    low <= n <= high && (x <= low ==> n == low) && (low <= x <= high ==> n == x) && (high <= x ==> n == high)
  }

  /** Only these protocols have a name. */
  predicate IsProtocol(p: Protocol, number: nat) {
    && (p == ICMP <==> number == 1) && (p == IGMP <==> number == 2) && (p == TCP <==> number == 6)
    && (p == UDP <==> number == 17) && (p == GRE <==> number == 47) && (p == ESP <==> number == 50)
  }

  /** The text of a value; see FlowDecoder.StringIsTrimmed. */
  function TextOf(v: Option<seq<byte>>): Option<seq<byte>> { if v.Some? then DecodeString(v.value) else None }

  /** The value of the last field that carries the property. */
  type Sayings = Property -> Option<seq<byte>>

  function Said(fields: seq<Field>, values: seq<Value>): Sayings
    requires |fields| == |values|
  {
    property => Last(fields, values, Elements(property))
  }

  /** A record is made of two addresses and a protocol; without any of them there is none. */
  predicate HasEnds(said: Sayings) {
    IsAddress(said(SourceAddress)) && IsAddress(said(DestinationAddress)) && IsNumber(said(TransportProtocol))
  }

  predicate EndsMean(said: Sayings, r: FlowRecord) {
    && Some(r.source) == said(SourceAddress) && Some(r.destination) == said(DestinationAddress)
    && r.sourcePort == Count(said(SourcePort), 0) % 65_536
    && r.destinationPort == Count(said(DestinationPort), 0) % 65_536
    && IsProtocol(r.protocol, Count(said(TransportProtocol), 0) % 256)
    && r.nextHop == (if IsAddress(said(NextHop)) then said(NextHop) else None)
    && r.hostname == if TextOf(said(TlsSni)).Some? then TextOf(said(TlsSni)) else TextOf(said(HttpHost))
  }

  predicate CountsMean(said: Sayings, r: FlowRecord) {
    && Clamps(r.samplingRate, Count(said(Sampling), 1), 1, 4_294_967_295)
    && Clamps(r.octets, Count(said(OctetCount), 0) * r.samplingRate, 0, 18_446_744_073_709_551_615)
    && Clamps(r.packets, Count(said(PacketCount), 0) * r.samplingRate, 0, 18_446_744_073_709_551_615)
    && Clamps(r.tcpFlags, Count(said(TcpFlags), 0), 0, 255) && Clamps(r.dscp, Count(said(Dscp), 0), 0, 255)
    && r.ingress == (if said(Ingress).Some? then Some(Count(said(Ingress), 0) % 4_294_967_296) else None)
    && r.egress == (if said(Egress).Some? then Some(Count(said(Egress), 0) % 4_294_967_296) else None)
  }

  /** Every property of the record is what the last field that carries it says. */
  predicate Means(fields: seq<Field>, values: seq<Value>, record: Option<FlowRecord>)
    requires |fields| == |values|
  {
    var said := Said(fields, values);
    && (record.Some? <==> HasEnds(said))
    && (record.Some? ==> EndsMean(said, record.value) && CountsMean(said, record.value))
  }

  lemma ElementsMean(property: Property, e: nat)
    requires property != Ignored
    ensures Meaning(e) == property <==> e in Elements(property)
  {
  }

  lemma {:induction false} LastOfIsLast(fields: seq<Field>, values: seq<Value>, property: Property)
    requires |fields| == |values| && property != Ignored
    ensures LastOf(fields, values, property) == Last(fields, values, Elements(property))
  {
    if fields != [] {
      var n := |fields| - 1;
      ElementsMean(property, fields[n].element);
      hide Meaning; hide Elements;
      LastOfIsLast(fields[..n], values[..n], property);
    }
  }

  lemma SaidIsAssembled(fields: seq<Field>, values: seq<Value>)
    requires |fields| == |values|
    ensures Interpret(fields, values) == Assemble(Said(fields, values))
  {
    hide LastOf; hide Last; hide Assemble; hide Elements;
    InterpretIsLookup(fields, values);
    var last := p => LastOf(fields, values, p);
    var mostly := p => if p == Ignored then last(p) else Said(fields, values)(p);
    forall p ensures mostly(p) == last(p) { if p != Ignored { LastOfIsLast(fields, values, p); } }
    AssembleExtensional(p => LastOf(fields, values, p), mostly);
    IgnoredIsIgnored(mostly, Said(fields, values));
  }

  lemma IgnoredIsIgnored(f: Sayings, g: Sayings)
    requires forall p :: p != Ignored ==> f(p) == g(p)
    ensures Assemble(f) == Assemble(g)
  {
  }

  lemma AddressIs(v: Option<seq<byte>>)
    ensures AddressOf(v) == (if IsAddress(v) then v else None) && (AddressOf(v).Some? <==> IsAddress(v))
  {
  }

  lemma NumberIs(v: Option<seq<byte>>)
    ensures NumberOf(v) == Count(v, 0)
    ensures InterfaceOf(v) == if v.Some? then Some(Count(v, 0) % 4_294_967_296) else None
  {
    hide BigEndian;
  }

  lemma ProtocolIs(v: Option<seq<byte>>)
    ensures var p := if v.Some? then DecodeProtocol(v.value) else None;
            (p.Some? <==> IsNumber(v)) && (p.Some? ==> IsProtocol(p.value, Count(v, 0) % 256))
  {
    hide BigEndian;
  }

  lemma SamplingIs(v: Option<seq<byte>>)
    ensures Clamps(if v.Some? then DecodeSampling(v.value) else 1, Count(v, 1), 1, 4_294_967_295)
  {
    hide BigEndian;
  }

  lemma CapIs(x: nat, high: nat)
    ensures Clamps(Min(x, high), x, 0, high)
  {
  }

  lemma AssembledEnds(said: Sayings)
    ensures Finish(Assemble(said)).Some? <==> HasEnds(said)
    ensures Finish(Assemble(said)).Some? ==> EndsMean(said, Finish(Assemble(said)).value)
  {
    AddressIs(said(SourceAddress));
    AddressIs(said(DestinationAddress));
    AddressIs(said(NextHop));
    NumberIs(said(SourcePort));
    NumberIs(said(DestinationPort));
    ProtocolIs(said(TransportProtocol));
    hide AddressOf; hide NumberOf; hide InterfaceOf; hide DecodeProtocol; hide DecodeSampling; hide DecodeString;
    hide IsAddress; hide IsNumber; hide IsProtocol; hide Count; hide SaturatingProduct; hide Min;
  }

  lemma AssembledCounts(said: Sayings)
    requires Finish(Assemble(said)).Some?
    ensures CountsMean(said, Finish(Assemble(said)).value)
  {
    NumberIs(said(OctetCount));
    NumberIs(said(PacketCount));
    NumberIs(said(TcpFlags));
    NumberIs(said(Dscp));
    NumberIs(said(Ingress));
    NumberIs(said(Egress));
    SamplingIs(said(Sampling));
    CapIs(Count(said(TcpFlags), 0), U8_MAX);
    CapIs(Count(said(Dscp), 0), U8_MAX);
    var rate := Finish(Assemble(said)).value.samplingRate;
    ProductIs(Count(said(OctetCount), 0), rate);
    ProductIs(Count(said(PacketCount), 0), rate);
    hide AddressOf; hide NumberOf; hide InterfaceOf; hide DecodeProtocol; hide DecodeSampling; hide StringOf;
    hide Count; hide SaturatingProduct; hide Min; hide Clamps;
  }

  lemma ProductIs(a: nat, b: nat)
    ensures Clamps(SaturatingProduct(a, b), a * b, 0, 18_446_744_073_709_551_615)
  {
    CapIs(a * b, U64_MAX);
    hide Min;
  }

  lemma FinishMeans(fields: seq<Field>, values: seq<Value>)
    requires |fields| == |values|
    ensures Means(fields, values, Finish(Interpret(fields, values)))
  {
    hide *;
    var said := Said(fields, values);
    SaidIsAssembled(fields, values);
    AssembledEnds(said);
    if Finish(Assemble(said)).Some? { AssembledCounts(said); }
    MeansFrom(fields, values, Finish(Assemble(said)));
  }

  lemma MeansFrom(fields: seq<Field>, values: seq<Value>, record: Option<FlowRecord>)
    requires |fields| == |values|
    requires record.Some? <==> HasEnds(Said(fields, values))
    requires record.Some? ==>
               EndsMean(Said(fields, values), record.value) && CountsMean(Said(fields, values), record.value)
    ensures Means(fields, values, record)
  {
    hide EndsMean; hide CountsMean; hide HasEnds; hide Said;
  }

  /** What decode_record returns: the record that the split values mean, and how much it has read. */
  lemma RecordMeans(fields: seq<Field>, data: seq<byte>)
    requires SplitRecord(fields, data).Some?
    ensures var (values, rest) := SplitRecord(fields, data).value;
            var decoded := DecodedRecord(fields, data);
            decoded.Some? && decoded.value.1 == |data| - |rest| && Means(fields, values, decoded.value.0)
  {
    hide SplitRecord; hide Means; hide Interpret; hide Finish;
    FinishMeans(fields, SplitRecord(fields, data).value.0);
  }

  /** The records of a data set are those that its splits mean, in order; a split without one is skipped. */
  lemma {:induction false} RecordsMean(fields: seq<Field>, splits: seq<seq<Value>>)
    returns (meant: seq<Option<FlowRecord>>)
    requires forall s :: s in splits ==> |s| == |fields|
    ensures |meant| == |splits| && forall i :: 0 <= i < |splits| ==> Means(fields, splits[i], meant[i])
    ensures RecordsOf(fields, splits) == Present(meant)
  {
    hide Means; hide Interpret; hide Finish;
    if splits == [] {
      meant := [];
    } else {
      var more := RecordsMean(fields, splits[1..]);
      FinishMeans(fields, splits[0]);
      meant := [Finish(Interpret(fields, splits[0]))] + more;
      assert meant[1..] == more;
    }
  }

  // ----- numbers -----

  /** Octets are digits to the base 256, the first of them the most significant. */
  lemma {:induction false} BigEndianConcat(a: seq<byte>, b: seq<byte>)
    ensures BigEndian(a + b) == BigEndian(a) * Power256(|b|) + BigEndian(b)
  {
    if b == [] {
      assert a + b == a;
    } else {
      var n := |b| - 1;
      BigEndianLast(a + b);
      BigEndianLast(b);
      PowerStep(n);
      hide BigEndian; hide Power256;
      assert (a + b)[..|a + b| - 1] == a + b[..n];
      BigEndianConcat(a, b[..n]);
      Shifted(BigEndian(a), Power256(n), BigEndian(b[..n]), b[n]);
    }
  }

  lemma BigEndianLast(data: seq<byte>)
    requires data != []
    ensures BigEndian(data) == BigEndian(data[..|data| - 1]) * 256 + data[|data| - 1]
  {
  }

  lemma PowerStep(n: nat)
    ensures Power256(n + 1) == 256 * Power256(n)
  {
  }

  lemma Shifted(high: nat, power: nat, low: nat, digit: nat)
    ensures (high * power + low) * 256 + digit == high * (256 * power) + (low * 256 + digit)
  {
  }

  lemma BigEndianOne(b: byte)
    ensures BigEndian([b]) == b && Power256(1) == 256
  {
    assert BigEndian([]) == 0 && [b][..0] == [];
  }
}
