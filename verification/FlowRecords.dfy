/** Decoding the data records of NetFlow v9 and IPFIX data sets (src/flow.rs). */
module FlowRecords {
  import opened Basics

  /** One template field; `length == VARIABLE` announces a variable-length element. */
  datatype Field = Field(element: nat, length: nat)

  /** A template seen on the wire. */
  datatype Definition = Definition(id: nat, fields: seq<Field>)

  const VARIABLE := U16_MAX

  /**
   * The bytes one field occupies in one record. `long` tells which of the two length
   * prefixes of section 7 of RFC 7011 carried them; it is false for fixed lengths.
   */
  datatype Value = Value(long: bool, octets: seq<byte>)

  // ----- splitting a record into its field values -----

  /** The value of the first field of `data` and what follows it. */
  function SplitField(field: Field, data: seq<byte>): Option<(Value, seq<byte>)> {
    if field.length != VARIABLE then
      if field.length <= |data| then Some((Value(false, data[..field.length]), data[field.length..])) else None
    else if data == [] then None
    else if data[0] < 255 then
      if 1 + data[0] <= |data| then Some((Value(false, data[1..1 + data[0]]), data[1 + data[0]..])) else None
    else if |data| < 3 then None
    else
      var length := U16At(data, 1);
      if 3 + length <= |data| then Some((Value(true, data[3..3 + length]), data[3 + length..])) else None
  }

  function SplitRecord(fields: seq<Field>, data: seq<byte>): (r: Option<(seq<Value>, seq<byte>)>)
    ensures r.Some? ==> |r.value.0| == |fields| && |r.value.1| <= |data|
  {
    if fields == [] then Some(([], data))
    else
      match SplitField(fields[0], data)
      case None => None
      case Some((value, rest)) =>
        match SplitRecord(fields[1..], rest)
        case None => None
        case Some((values, tail)) => Some(([value] + values, tail))
  }

  /** All complete records at the front of a data set, in order. */
  function SplitSet(fields: seq<Field>, data: seq<byte>): seq<seq<Value>>
    decreases |data|
  {
    if data == [] then []
    else
      match SplitRecord(fields, data)
      case None => []
      case Some((values, rest)) =>
        if |rest| == |data| then [] else [values] + SplitSet(fields, rest)
  }

  // ----- the encoder a probe follows -----

  predicate Fits(field: Field, value: Value) {
    if field.length != 65_535 then !value.long && |value.octets| == field.length
    else |value.octets| <= if value.long then U16_MAX else 254
  }

  predicate FitsAll(fields: seq<Field>, values: seq<Value>) {
    |values| == |fields| && forall i :: 0 <= i < |fields| ==> Fits(fields[i], values[i])
  }

  function EncodeValue(field: Field, value: Value): seq<byte>
    requires Fits(field, value)
  {
    if field.length != VARIABLE then value.octets
    else if value.long then [255] + U16Bytes(|value.octets|) + value.octets
    else [|value.octets|] + value.octets
  }

  function EncodeRecord(fields: seq<Field>, values: seq<Value>): seq<byte>
    requires FitsAll(fields, values)
  {
    if fields == [] then [] else EncodeValue(fields[0], values[0]) + EncodeRecord(fields[1..], values[1..])
  }

  function EncodeSet(fields: seq<Field>, records: seq<seq<Value>>): seq<byte>
    requires forall r :: r in records ==> FitsAll(fields, r)
  {
    if records == [] then [] else EncodeRecord(fields, records[0]) + EncodeSet(fields, records[1..])
  }

  /** The fewest bytes a record of this template can take. */
  function MinimumLength(fields: seq<Field>): nat {
    if fields == [] then 0
    else (if fields[0].length == VARIABLE then 1 else fields[0].length) + MinimumLength(fields[1..])
  }

  // ----- splitting inverts encoding -----

  lemma SplitFieldInverts(field: Field, value: Value, rest: seq<byte>)
    requires Fits(field, value)
    ensures SplitField(field, EncodeValue(field, value) + rest) == Some((value, rest))
  {
    var data := EncodeValue(field, value) + rest;
    if field.length == VARIABLE && value.long {
      assert U16At(data, 1) == |value.octets|;
      assert data[3..3 + |value.octets|] == value.octets;
      assert data[3 + |value.octets|..] == rest;
    } else if field.length == VARIABLE {
      assert data[1..1 + |value.octets|] == value.octets;
      assert data[1 + |value.octets|..] == rest;
    }
  }

  lemma SplitFieldSound(field: Field, data: seq<byte>)
    requires SplitField(field, data).Some?
    ensures var (value, rest) := SplitField(field, data).value;
            Fits(field, value) && data == EncodeValue(field, value) + rest
  {
    var (value, rest) := SplitField(field, data).value;
    if field.length != VARIABLE {
      assert data == value.octets + rest;
    } else if data[0] == 255 {
      assert U16Bytes(U16At(data, 1)) == data[1..3];
      assert data == [data[0]] + data[1..3] + value.octets + rest;
    } else {
      assert data == [data[0]] + value.octets + rest;
    }
  }

  lemma {:induction false} SplitRecordInverts(fields: seq<Field>, values: seq<Value>, rest: seq<byte>)
    requires FitsAll(fields, values)
    ensures SplitRecord(fields, EncodeRecord(fields, values) + rest) == Some((values, rest))
  {
    if fields == [] {
      assert EncodeRecord(fields, values) + rest == rest;
    } else {
      var middle := EncodeRecord(fields[1..], values[1..]) + rest;
      hide SplitField; hide EncodeValue; hide Fits;
      assert Fits(fields[0], values[0]);
      assert EncodeRecord(fields, values) + rest == EncodeValue(fields[0], values[0]) + middle;
      SplitFieldInverts(fields[0], values[0], middle);
      SplitRecordInverts(fields[1..], values[1..], rest);
      assert values == [values[0]] + values[1..];
    }
  }

  lemma {:induction false} SplitRecordSound(fields: seq<Field>, data: seq<byte>)
    requires SplitRecord(fields, data).Some?
    ensures var (values, rest) := SplitRecord(fields, data).value;
            FitsAll(fields, values) && data == EncodeRecord(fields, values) + rest
  {
    var (values, rest) := SplitRecord(fields, data).value;
    if fields != [] {
      var (value, middle) := SplitField(fields[0], data).value;
      SplitFieldSound(fields[0], data);
      SplitRecordSound(fields[1..], middle);
      assert values[1..] == SplitRecord(fields[1..], middle).value.0;
      FitsCons(fields, values);
      hide SplitRecord; hide SplitField; hide EncodeValue; hide FitsAll; hide Fits;
      assert data == EncodeValue(fields[0], value) + (EncodeRecord(fields[1..], values[1..]) + rest);
    }
  }

  lemma FitsCons(fields: seq<Field>, values: seq<Value>)
    requires |fields| == |values| > 0 && Fits(fields[0], values[0]) && FitsAll(fields[1..], values[1..])
    ensures FitsAll(fields, values)
  {
    forall i | 1 <= i < |fields| ensures Fits(fields[i], values[i]) {
      assert Fits(fields[1..][i - 1], values[1..][i - 1]);
    }
  }

  /**
   * Splitting is exactly the inverse of encoding: a record is read off the front of `data`
   * as `values`, leaving `rest`, if and only if `data` is an encoding of `values` followed by `rest`.
   */
  lemma SplitRecordExact(fields: seq<Field>, data: seq<byte>, values: seq<Value>, rest: seq<byte>)
    ensures SplitRecord(fields, data) == Some((values, rest))
       <==> FitsAll(fields, values) && data == EncodeRecord(fields, values) + rest
  {
    if SplitRecord(fields, data).Some? { SplitRecordSound(fields, data); }
    if FitsAll(fields, values) { SplitRecordInverts(fields, values, rest); }
  }

  lemma {:induction false} EncodedLength(fields: seq<Field>, values: seq<Value>)
    requires FitsAll(fields, values)
    ensures |EncodeRecord(fields, values)| >= MinimumLength(fields)
  {
    if fields != [] { EncodedLength(fields[1..], values[1..]); }
  }

  lemma PaddingSplitsToNothing(fields: seq<Field>, padding: seq<byte>)
    requires |padding| < MinimumLength(fields) || MinimumLength(fields) == 0 == |padding|
    ensures SplitSet(fields, padding) == []
  {
    if padding != [] && SplitRecord(fields, padding).Some? {
      var (values, rest) := SplitRecord(fields, padding).value;
      SplitRecordExact(fields, padding, values, rest);
      EncodedLength(fields, values);
    }
  }

  lemma EncodeSetCons(fields: seq<Field>, records: seq<seq<Value>>, rest: seq<byte>)
    requires records != [] && forall r :: r in records ==> FitsAll(fields, r)
    ensures EncodeSet(fields, records) + rest
         == EncodeRecord(fields, records[0]) + (EncodeSet(fields, records[1..]) + rest)
  {
    hide EncodeRecord; hide FitsAll;
  }

  /** One encoded record in front of anything is the first record found. */
  lemma FirstRecord(fields: seq<Field>, values: seq<Value>, rest: seq<byte>)
    requires FitsAll(fields, values) && MinimumLength(fields) > 0
    ensures SplitSet(fields, EncodeRecord(fields, values) + rest) == [values] + SplitSet(fields, rest)
  {
    hide SplitRecord; hide EncodeRecord; hide MinimumLength; hide FitsAll;
    EncodedLength(fields, values);
    SplitRecordExact(fields, EncodeRecord(fields, values) + rest, values, rest);
  }

  /**
   * Round trip of whole data sets, with padding shorter than a record: the decoder returns the
   * encoded records in order. The one exception is a template whose records may be empty,
   * for which the decoder stops at once; see RoundTripExact for when that matters.
   */
  lemma {:induction false} RoundTrip(fields: seq<Field>, records: seq<seq<Value>>, padding: seq<byte>)
    requires forall r :: r in records ==> FitsAll(fields, r)
    requires |padding| < MinimumLength(fields)
    ensures SplitSet(fields, EncodeSet(fields, records) + padding) == records
  {
    if records == [] {
      assert EncodeSet(fields, records) + padding == padding;
      PaddingSplitsToNothing(fields, padding);
    } else {
      EncodeSetCons(fields, records, padding);
      hide SplitSet; hide EncodeRecord; hide MinimumLength; hide FitsAll; hide EncodeSet;
      FirstRecord(fields, records[0], EncodeSet(fields, records[1..]) + padding);
      RoundTrip(fields, records[1..], padding);
      assert records == [records[0]] + records[1..];
    }
  }

  lemma {:induction false} EmptyRecords(fields: seq<Field>, values: seq<Value>)
    requires FitsAll(fields, values) && MinimumLength(fields) == 0
    ensures EncodeRecord(fields, values) == []
  {
    if fields != [] {
      assert Fits(fields[0], values[0]);
      EmptyRecords(fields[1..], values[1..]);
    }
  }

  lemma {:induction false} EmptySets(fields: seq<Field>, records: seq<seq<Value>>)
    requires forall r :: r in records ==> FitsAll(fields, r)
    requires MinimumLength(fields) == 0
    ensures EncodeSet(fields, records) == []
  {
    if records != [] {
      EmptyRecords(fields, records[0]);
      EmptySets(fields, records[1..]);
    }
  }

  /** One empty record of a template without fields: the decoder drops it. */
  lemma EmptyRecordIsLost()
    ensures FitsAll([], []) && SplitSet([], EncodeSet([], [[]])) == [] != [[]]
  {
    RoundTripExact([], [[]]);
    EmptySets([], [[]]);
  }

  /**
   * When whole data sets survive: always, unless the template's records can take no bytes at all,
   * in which case the zero-length guard drops every one of them.
   */
  lemma RoundTripExact(fields: seq<Field>, records: seq<seq<Value>>)
    requires forall r :: r in records ==> FitsAll(fields, r)
    ensures SplitSet(fields, EncodeSet(fields, records)) == records
       <==> MinimumLength(fields) > 0 || records == []
  {
    if MinimumLength(fields) > 0 {
      RoundTrip(fields, records, []);
      assert EncodeSet(fields, records) + [] == EncodeSet(fields, records);
    } else {
      EmptySets(fields, records);
    }
  }
}
