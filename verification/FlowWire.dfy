/**
 * From the exporter's records to the collector's: a template and any number of data messages, encoded as sections
 * 5.1 to 5.3 of RFC 3954 or sections 3 and 7 of RFC 7011 say, are decoded to exactly the records that were encoded.
 */
module FlowWire {
  import opened Basics
  import opened FlowRecords
  import opened FlowFraming
  import opened FlowDecoder
  import opened FlowCaches
  import opened FlowOrder
  import opened FlowLimits
  import opened FlowSequence
  import opened FlowCollector
  import opened FlowDatagrams

  /** An exporting process: its address, its observation domain and the one template it uses. */
  datatype Exporter = Exporter(format: Format, address: seq<byte>, domain: nat, announcement: Announcement)
  {
    function Sender(): Scope { Scope(format, address, domain) }

    function Fields(): seq<Field> { FieldsOf(announcement.specifiers) }

    predicate Valid() {
      domain <= U32_MAX && announcement.id >= 256 && Encodable(announcement) && MinimumLength(Fields()) > 0
    }
  }

  /** One data set: records and padding. */
  datatype Batch = Batch(records: seq<seq<Value>>, padding: seq<byte>)

  /** One data message; `stamp` fills the parts of the header that the collector ignores. */
  datatype Export = Export(stamp: seq<byte>, batches: seq<Batch>)

  // ----- the encoder -----

  predicate ValidBatch(fields: seq<Field>, batch: Batch) {
    && (forall r :: r in batch.records ==> FitsAll(fields, r))
    && |batch.padding| < MinimumLength(fields)
    && |EncodeSet(fields, batch.records)| + |batch.padding| + 4 <= U16_MAX
  }

  predicate ValidBatches(fields: seq<Field>, batches: seq<Batch>) {
    forall i :: 0 <= i < |batches| ==> ValidBatch(fields, batches[i])
  }

  function BatchSet(e: Exporter, batch: Batch): RawSet
    requires ValidBatch(e.Fields(), batch)
  {
    RawSet(e.announcement.id, EncodeSet(e.Fields(), batch.records) + batch.padding)
  }

  function BatchSets(e: Exporter, batches: seq<Batch>): (sets: seq<RawSet>)
    requires ValidBatches(e.Fields(), batches)
    ensures |sets| == |batches| && forall i :: 0 <= i < |sets| ==> sets[i] == BatchSet(e, batches[i])
  {
    if batches == [] then [] else [BatchSet(e, batches[0])] + BatchSets(e, batches[1..])
  }

  /** The header has room for the stamp, and an IPFIX message for its length. */
  predicate FitsMessage(e: Exporter, stamp: seq<byte>, sets: seq<RawSet>) {
    && |stamp| == (if e.format == NetFlowV9 then 14 else 8)
    && (forall i :: 0 <= i < |sets| ==> ValidSet(sets[i]))
    && (e.format == Ipfix ==> 16 + |EncodeSets(sets)| <= U16_MAX)
  }

  function Encode(e: Exporter, stamp: seq<byte>, sets: seq<RawSet>): Datagram
    requires e.Valid() && FitsMessage(e, stamp, sets)
  {
    var body := EncodeSets(sets);
    Datagram(if e.format == NetFlowV9 then EncodeV9(e.domain, stamp, body) else EncodeIpfix(e.domain, stamp, body),
             e.address)
  }

  function TemplateSets(e: Exporter): seq<RawSet>
    requires e.Valid()
  {
    [RawSet(if e.format == NetFlowV9 then 0 else 2, EncodeTemplates([e.announcement]))]
  }

  predicate ValidExport(e: Exporter, m: Export) {
    ValidBatches(e.Fields(), m.batches) && e.Valid() && FitsMessage(e, m.stamp, BatchSets(e, m.batches))
  }

  predicate ValidExports(e: Exporter, exports: seq<Export>) {
    forall i :: 0 <= i < |exports| ==> ValidExport(e, exports[i])
  }

  function EncodeExports(e: Exporter, exports: seq<Export>): seq<Datagram>
    requires e.Valid() && ValidExports(e, exports)
  {
    seq(|exports|, i requires 0 <= i < |exports| => Encode(e, exports[i].stamp, BatchSets(e, exports[i].batches)))
  }

  predicate AllValidExports(e: Exporter, segments: seq<seq<Export>>) {
    forall i :: 0 <= i < |segments| ==> ValidExports(e, segments[i])
  }

  function EncodeSegments(e: Exporter, segments: seq<seq<Export>>): (encoded: seq<seq<Datagram>>)
    requires e.Valid() && AllValidExports(e, segments)
    ensures |encoded| == |segments|
  {
    seq(|segments|, i requires 0 <= i < |segments| => EncodeExports(e, segments[i]))
  }

  predicate ValidStamps(e: Exporter, stamps: seq<seq<byte>>) {
    e.Valid() && forall i :: 0 <= i < |stamps| ==> FitsMessage(e, stamps[i], TemplateSets(e))
  }

  function TemplateMessages(e: Exporter, stamps: seq<seq<byte>>): (encoded: seq<Datagram>)
    requires ValidStamps(e, stamps)
    ensures |encoded| == |stamps|
  {
    seq(|stamps|, i requires 0 <= i < |stamps| => Encode(e, stamps[i], TemplateSets(e)))
  }

  /** What an exporter sends: data messages, then the template message and more data messages, any number of times. */
  predicate ValidSession(e: Exporter, a: seq<Export>, stamps: seq<seq<byte>>, segments: seq<seq<Export>>) {
    && e.Valid() && ValidExports(e, a) && AllValidExports(e, segments)
    && ValidStamps(e, stamps) && |stamps| == |segments| > 0
  }

  function Session(e: Exporter, a: seq<Export>, stamps: seq<seq<byte>>, segments: seq<seq<Export>>): seq<Datagram>
    requires ValidSession(e, a, stamps, segments)
  {
    EncodeExports(e, a) + WithTemplates(TemplateMessages(e, stamps), EncodeSegments(e, segments))
  }

  function BatchRecords(batches: seq<Batch>): seq<seq<Value>> {
    if batches == [] then [] else batches[0].records + BatchRecords(batches[1..])
  }

  /** All records, in the order in which they were sent. */
  function Sent(exports: seq<Export>): seq<seq<Value>> {
    if exports == [] then [] else Sent(exports[..|exports| - 1]) + BatchRecords(exports[|exports| - 1].batches)
  }

  // ----- parsing inverts encoding -----

  lemma EncodedParses(e: Exporter, stamp: seq<byte>, sets: seq<RawSet>)
    requires e.Valid() && FitsMessage(e, stamp, sets)
    ensures ParseEnvelope(e.format, Encode(e, stamp, sets).payload) == Some(Envelope(e.domain, EncodeSets(sets)))
    ensures ParseSets(EncodeSets(sets)) == sets
  {
    hide ParseEnvelope; hide EncodeV9; hide EncodeIpfix; hide EncodeSets; hide ParseSets;
    SetsRoundTrip(sets);
    if e.format == NetFlowV9 {
      V9Envelope(e.domain, stamp, EncodeSets(sets));
    } else {
      IpfixEnvelope(e.domain, stamp, EncodeSets(sets), []);
      assert EncodeIpfix(e.domain, stamp, EncodeSets(sets)) + [] == EncodeIpfix(e.domain, stamp, EncodeSets(sets));
    }
  }

  function Definitions(e: Exporter): seq<Definition> { [Definition(e.announcement.id, e.Fields())] }

  lemma TemplateIsMessage(e: Exporter, stamp: seq<byte>)
    requires e.Valid() && FitsMessage(e, stamp, TemplateSets(e))
    ensures IsTemplateMessage(Encode(e, stamp, TemplateSets(e)), e.Sender(), Definitions(e))
  {
    hide ParseEnvelope; hide ParseSets; hide EncodeSets; hide ParseTemplates; hide EncodeTemplates; hide FieldsOf;
    EncodedParses(e, stamp, TemplateSets(e));
    TemplatesRoundTrip([e.announcement], []);
    assert EncodeTemplates([e.announcement]) + [] == EncodeTemplates([e.announcement]);
    assert DefinitionsOf([e.announcement]) == Definitions(e);
  }

  lemma ExportIsDataMessage(e: Exporter, m: Export)
    requires ValidExport(e, m)
    ensures IsDataMessage(Encode(e, m.stamp, BatchSets(e, m.batches)), e.Sender())
    ensures Carried(e.format, Encode(e, m.stamp, BatchSets(e, m.batches)))
         == CarriedBySets(e.Sender(), BatchSets(e, m.batches))
  {
    hide ParseEnvelope; hide ParseSets; hide EncodeSets; hide CarriedBySets;
    EncodedParses(e, m.stamp, BatchSets(e, m.batches));
  }

  lemma ExportsAreData(e: Exporter, exports: seq<Export>)
    requires e.Valid() && ValidExports(e, exports)
    ensures AllData(EncodeExports(e, exports), e.Sender())
  {
    hide IsDataMessage; hide ValidExport;
    forall i | 0 <= i < |exports| ensures IsDataMessage(EncodeExports(e, exports)[i], e.Sender()) {
      assert ValidExport(e, exports[i]);
      ExportIsDataMessage(e, exports[i]);
    }
  }

  // ----- the records -----

  function KeyOfTemplate(e: Exporter): Key { Key(e.Sender(), e.announcement.id) }

  /** The records decoded with the exporter's one template. */
  function Decode(e: Exporter, contents: seq<Content>): seq<FlowRecord> {
    Yield(contents, {KeyOfTemplate(e)}, map[KeyOfTemplate(e) := e.Fields()])
  }

  lemma {:induction false} DecodeConcat(e: Exporter, a: seq<Content>, b: seq<Content>)
    ensures Decode(e, a + b) == Decode(e, a) + Decode(e, b)
  {
    if a == [] {
      assert a + b == b;
    } else {
      hide Records;
      assert (a + b)[0] == a[0] && (a + b)[1..] == a[1..] + b;
      DecodeConcat(e, a[1..], b);
    }
  }

  predicate AllFit(fields: seq<Field>, records: seq<seq<Value>>) { forall r :: r in records ==> |r| == |fields| }

  /** The flow record of the first record, if it makes one. */
  function First(fields: seq<Field>, records: seq<seq<Value>>): seq<FlowRecord>
    requires records != [] && |records[0]| == |fields|
  {
    var record := Finish(Interpret(fields, records[0]));
    if record.Some? then [record.value] else []
  }

  lemma FitConcat(fields: seq<Field>, a: seq<seq<Value>>, b: seq<seq<Value>>)
    requires AllFit(fields, a) && AllFit(fields, b)
    ensures AllFit(fields, a + b)
  {
  }

  lemma SameFirst(fields: seq<Field>, a: seq<seq<Value>>, b: seq<seq<Value>>)
    requires a != [] && b != [] && a[0] == b[0] && |a[0]| == |fields|
    ensures First(fields, a) == First(fields, b)
  {
    hide Finish; hide Interpret;
  }

  lemma RecordsCons(fields: seq<Field>, records: seq<seq<Value>>)
    requires records != [] && AllFit(fields, records)
    ensures AllFit(fields, records[1..]) && |records[0]| == |fields|
    ensures RecordsOf(fields, records) == First(fields, records) + RecordsOf(fields, records[1..])
  {
    hide Finish; hide Interpret;
  }

  lemma {:induction false} RecordsConcat(fields: seq<Field>, a: seq<seq<Value>>, b: seq<seq<Value>>)
    requires AllFit(fields, a) && AllFit(fields, b)
    ensures AllFit(fields, a + b) && RecordsOf(fields, a + b) == RecordsOf(fields, a) + RecordsOf(fields, b)
  {
    if a == [] {
      assert a + b == b;
    } else {
      hide *;
      RecordsCons(fields, a);
      RecordsConcat(fields, a[1..], b);
      FitConcat(fields, a, b);
      RecordsCons(fields, a + b);
      assert (a + b)[0] == a[0] && (a + b)[1..] == a[1..] + b;
      SameFirst(fields, a, a + b);
      AppendAssociates(First(fields, a), RecordsOf(fields, a[1..]), RecordsOf(fields, b));
    }
  }

  lemma BatchDecodes(e: Exporter, batch: Batch)
    requires e.Valid() && ValidBatch(e.Fields(), batch)
    ensures AllFit(e.Fields(), batch.records)
    ensures Decode(e, CarriedBySet(e.Sender(), BatchSet(e, batch))) == RecordsOf(e.Fields(), batch.records)
  {
    hide SplitSet; hide EncodeSet; hide RecordsOf; hide MinimumLength; hide FieldsOf;
    RoundTrip(e.Fields(), batch.records, batch.padding);
    forall r | r in batch.records ensures |r| == |e.Fields()| { assert FitsAll(e.Fields(), r); }
    var contents := CarriedBySet(e.Sender(), BatchSet(e, batch));
    assert contents[1..] == [] && Decode(e, []) == [];
  }

  lemma {:induction false} BatchesDecode(e: Exporter, batches: seq<Batch>)
    requires e.Valid() && ValidBatches(e.Fields(), batches)
    ensures AllFit(e.Fields(), BatchRecords(batches))
    ensures Decode(e, CarriedBySets(e.Sender(), BatchSets(e, batches))) == RecordsOf(e.Fields(), BatchRecords(batches))
  {
    if batches != [] {
      hide Decode; hide RecordsOf; hide ValidBatch; hide CarriedBySet;
      BatchDecodes(e, batches[0]);
      BatchesDecode(e, batches[1..]);
      DecodeConcat(e, CarriedBySet(e.Sender(), BatchSet(e, batches[0])),
                   CarriedBySets(e.Sender(), BatchSets(e, batches[1..])));
      RecordsConcat(e.Fields(), batches[0].records, BatchRecords(batches[1..]));
      assert BatchSets(e, batches)[1..] == BatchSets(e, batches[1..]);
    }
  }

  lemma {:induction false} ExportsDecode(e: Exporter, exports: seq<Export>)
    requires e.Valid() && ValidExports(e, exports)
    ensures AllFit(e.Fields(), Sent(exports))
    ensures Decode(e, AllCarried(e.format, EncodeExports(e, exports))) == RecordsOf(e.Fields(), Sent(exports))
  {
    if exports != [] {
      hide Decode; hide RecordsOf; hide ValidExport; hide Carried; hide AllCarried; hide Encode; hide EncodeExports;
      var n := |exports| - 1;
      ExportsDecode(e, exports[..n]);
      LastExport(e, exports);
      RecordsConcat(e.Fields(), Sent(exports[..n]), BatchRecords(exports[n].batches));
    }
  }

  /** The last export adds its records. */
  lemma LastExport(e: Exporter, exports: seq<Export>)
    requires e.Valid() && ValidExports(e, exports) && exports != []
    ensures AllFit(e.Fields(), BatchRecords(exports[|exports| - 1].batches))
    ensures Decode(e, AllCarried(e.format, EncodeExports(e, exports)))
         == Decode(e, AllCarried(e.format, EncodeExports(e, exports[..|exports| - 1])))
            + RecordsOf(e.Fields(), BatchRecords(exports[|exports| - 1].batches))
  {
    hide Decode; hide RecordsOf; hide Carried; hide AllCarried; hide CarriedBySets; hide Encode; hide ValidBatch;
    hide FitsMessage;
    var n, datagrams := |exports| - 1, EncodeExports(e, exports);
    assert ValidExport(e, exports[n]);
    ExportIsDataMessage(e, exports[n]);
    BatchesDecode(e, exports[n].batches);
    assert datagrams[..n] == EncodeExports(e, exports[..n]);
    CarriedSnoc(e.format, datagrams);
    hide EncodeExports;
    DecodeConcat(e, AllCarried(e.format, datagrams[..n]), Carried(e.format, datagrams[n]));
  }

  // ----- main result -----

  /** At most 100 packets wait for the template, and neither they nor the template expires. */
  ghost predicate SentInTime(e: Exporter, a: seq<Export>, segments: seq<seq<Export>>, ids: nat -> nat,
                             clock: nat -> nat, base: nat)
    requires e.Valid() && ValidExports(e, a) && AllValidExports(e, segments)
  {
    Timely(EncodeExports(e, a), EncodeSegments(e, segments), e.Sender(), Definitions(e), ids, clock, base)
  }

  lemma SessionIsStream(e: Exporter, a: seq<Export>, stamps: seq<seq<byte>>, segments: seq<seq<Export>>)
    requires ValidSession(e, a, stamps, segments)
    ensures IsStream(EncodeExports(e, a), TemplateMessages(e, stamps), EncodeSegments(e, segments), e.Sender(),
                     Definitions(e))
  {
    hide Encode; hide AllData; hide IsTemplateMessage; hide ValidExports; hide EncodeExports; hide FitsMessage;
    hide FieldsOf;
    hide MinimumLength;
    ExportsAreData(e, a);
    forall i | 0 <= i < |segments|
      ensures AllData(EncodeSegments(e, segments)[i], e.Sender())
    {
      ExportsAreData(e, segments[i]);
    }
    forall i | 0 <= i < |stamps| ensures IsTemplateMessage(TemplateMessages(e, stamps)[i], e.Sender(), Definitions(e)) {
      TemplateIsMessage(e, stamps[i]);
    }
  }

  /**
   * End to end: whatever an exporter sends as the records of one template, in any data messages before, between and
   * after its template messages, a listener returns exactly those records, in the order in which they were sent. At
   * most 100 packets may wait for the first template message, and neither they nor the template may expire.
   */
  lemma ExportedRecordsArrive(e: Exporter, a: seq<Export>, stamps: seq<seq<byte>>, segments: seq<seq<Export>>,
                              ids: nat -> nat, clock: nat -> nat, base: nat)
    requires ValidSession(e, a, stamps, segments) && Increasing(ids) && SentInTime(e, a, segments, ids, clock, base)
    ensures AllFit(e.Fields(), Sent(a + Joined(segments)))
    ensures Output(Drain(EMPTY, Local(FeedTasks(e.format, Session(e, a, stamps, segments), ids), []), clock, 0).out)
         == RecordsOf(e.Fields(), Sent(a + Joined(segments)))
  {
    hide Drain; hide Output; hide FeedTasks; hide Timely; hide EncodeExports; hide Encode; hide AllCarried;
    hide Yield; hide RecordsOf;
    hide FitsMessage; hide ValidExport; hide Sent; hide FieldsOf; hide MinimumLength; hide IsStream;
    hide EncodeSegments;
    hide WithTemplates; hide AllValidExports; hide ValidExports; hide TemplateMessages;
    var dict, defs := map[KeyOfTemplate(e) := e.Fields()], Definitions(e);
    SessionIsStream(e, a, stamps, segments);
    assert TemplatesOf(dict, e.Sender()) == {KeyOfTemplate(e)};
    assert DefinitionKeys(e.Sender(), defs) == {KeyOfTemplate(e)};
    TemplateMessageAnywhere(EncodeExports(e, a), TemplateMessages(e, stamps), EncodeSegments(e, segments), e.Sender(),
                            defs, dict, ids, clock, base);
    EncodeJoined(e, segments);
    EncodeConcat(e, a, Joined(segments));
    ExportsDecode(e, a + Joined(segments));
  }

  lemma EncodeConcat(e: Exporter, a: seq<Export>, b: seq<Export>)
    requires e.Valid() && ValidExports(e, a) && ValidExports(e, b)
    ensures ValidExports(e, a + b) && EncodeExports(e, a + b) == EncodeExports(e, a) + EncodeExports(e, b)
  {
    hide ValidExport; hide Encode;
  }

  lemma {:induction false} EncodeJoined(e: Exporter, segments: seq<seq<Export>>)
    requires e.Valid() && AllValidExports(e, segments)
    ensures ValidExports(e, Joined(segments))
    ensures EncodeExports(e, Joined(segments)) == Joined(EncodeSegments(e, segments))
    decreases |segments|
  {
    if segments != [] {
      hide ValidExports; hide EncodeExports; hide ValidExport; hide FieldsOf; hide MinimumLength;
      assert forall i :: 0 <= i < |segments[1..]| ==> segments[1..][i] == segments[i + 1];
      EncodeJoined(e, segments[1..]);
      EncodeConcat(e, segments[0], Joined(segments[1..]));
      assert EncodeSegments(e, segments)[1..] == EncodeSegments(e, segments[1..]);
    }
  }
}
