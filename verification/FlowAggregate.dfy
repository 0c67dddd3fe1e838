/** The one-minute aggregate (aggregate_flow_records_1m in src/db/repository.rs). */
module FlowAggregate {
  import opened Basics
  import opened FlowRing

  /** The primary key of the aggregate table. */
  datatype Bucket = Bucket(start: string, protocol: string)

  /** Counts of any size. */
  datatype Totals = Totals(octets: nat, packets: nat, flows: nat)

  const ZERO := Totals(0, 0, 0)

  /** One entry per bucket of a batch. */
  type Entries = map<Bucket, Totals>

  /** SQLite stores a signed 64-bit integer; an integer sum beyond that becomes a floating-point number for good. */
  datatype Cell = Whole(value: nat) | Rounded

  datatype Row = Row(octets: Cell, packets: Cell, flows: Cell)

  type Table = map<Bucket, Row>

  /** Minutes are the first 16 characters of the time stamp; shorter stamps stand for themselves. */
  function MinuteOf(observedAt: string): string {
    if |observedAt| >= 16 then observedAt[..16] + ":00Z" else observedAt
  }

  function BucketOf(f: Flow): Bucket { Bucket(MinuteOf(f.observedAt), f.protocol) }

  function Plus(a: Totals, b: Totals): Totals { Totals(a.octets + b.octets, a.packets + b.packets, a.flows + b.flows) }

  /** 64-bit saturation. */
  function Cap(t: Totals): Totals { Totals(Min(t.octets, U64_MAX), Min(t.packets, U64_MAX), Min(t.flows, U64_MAX)) }

  function One(f: Flow): Totals { Totals(f.octets, f.packets, 1) }

  function Lookup(entries: Entries, k: Bucket): Totals { if k in entries then entries[k] else ZERO }

  /** The saturating fold over one batch. */
  function Buckets(flows: seq<Flow>): Entries {
    if flows == [] then map[]
    else
      var earlier, f := Buckets(flows[..|flows| - 1]), flows[|flows| - 1];
      earlier[BucketOf(f) := Cap(Plus(Lookup(earlier, BucketOf(f)), One(f)))]
  }

  // ----- the writes -----

  /** Binding a larger parameter is an error. */
  predicate Storable(t: Totals) { t.octets <= I64_MAX && t.packets <= I64_MAX && t.flows <= I64_MAX }

  function CellOf(n: nat): Cell { if n <= I64_MAX then Whole(n) else Rounded }

  function RowOf(t: Totals): Row { Row(CellOf(t.octets), CellOf(t.packets), CellOf(t.flows)) }

  function AddCell(cell: Cell, n: nat): Cell { if cell.Whole? then CellOf(cell.value + n) else Rounded }

  function AddRow(row: Row, t: Totals): Row {
    Row(AddCell(row.octets, t.octets), AddCell(row.packets, t.packets), AddCell(row.flows, t.flows))
  }

  /** The additive upsert of one entry. */
  function Write(t: Table, k: Bucket, x: Totals): Table { t[k := if k in t then AddRow(t[k], x) else RowOf(x)] }

  predicate Within(order: seq<Bucket>, entries: Entries) { forall i :: 0 <= i < |order| ==> order[i] in entries }

  /** The upserts in the given order, up to the first that fails; those before it stay in the table. */
  function WriteAll(t: Table, entries: Entries, order: seq<Bucket>): Table
    requires Within(order, entries)
    decreases |order|
  {
    if order == [] || !Storable(entries[order[0]]) then t
    else WriteAll(Write(t, order[0], entries[order[0]]), entries, order[1..])
  }

  /** The order is one of the orders in which a hash map may list its keys. */
  ghost predicate Lists(order: seq<Bucket>, keys: set<Bucket>) {
    (forall k :: k in order <==> k in keys) && forall i, j :: 0 <= i < j < |order| ==> order[i] != order[j]
  }

  // ----- what the totals should be -----

  /** The exact totals of the flows that fall into bucket `k`. */
  function Total(flows: seq<Flow>, k: Bucket): Totals {
    if flows == [] then ZERO
    else
      var f := flows[|flows| - 1];
      Plus(Total(flows[..|flows| - 1], k), if BucketOf(f) == k then One(f) else ZERO)
  }

  function BucketKeys(flows: seq<Flow>): set<Bucket> { set f | f in flows :: BucketOf(f) }

  /** The row that holds the totals as they are. */
  function Exactly(t: Totals): Row { Row(Whole(t.octets), Whole(t.packets), Whole(t.flows)) }

  predicate Represents(t: Table, flows: seq<Flow>) {
    t.Keys == BucketKeys(flows) && forall k :: k in t ==> t[k] == Exactly(Total(flows, k))
  }

  lemma KeysSnoc(flows: seq<Flow>)
    requires flows != []
    ensures BucketKeys(flows) == BucketKeys(flows[..|flows| - 1]) + {BucketOf(flows[|flows| - 1])}
  {
    var n := |flows| - 1;
    assert flows == flows[..n] + [flows[n]];
    assert forall f :: f in flows <==> f in flows[..n] || f == flows[n];
  }

  lemma {:induction false} AbsentTotal(flows: seq<Flow>, k: Bucket)
    requires k !in BucketKeys(flows)
    ensures Total(flows, k) == ZERO
  {
    if flows != [] {
      var init := flows[..|flows| - 1];
      hide *;
      assert k !in BucketKeys(init) && BucketOf(flows[|flows| - 1]) != k by { KeysSnoc(flows); }
      AbsentTotal(init, k);
      TotalSnocOther(flows, k);
    }
  }

  /** A last flow of another bucket adds nothing. */
  lemma TotalSnocOther(flows: seq<Flow>, k: Bucket)
    requires flows != [] && BucketOf(flows[|flows| - 1]) != k
    ensures Total(flows, k) == Total(flows[..|flows| - 1], k)
  {
    TotalSnoc(flows, k);
    hide *;
    PlusZero(Total(flows[..|flows| - 1], k));
  }

  lemma PlusZero(t: Totals)
    ensures Plus(t, ZERO) == t
  {
  }

  lemma ZeroPlus(t: Totals)
    ensures Plus(ZERO, t) == t
  {
  }

  lemma TotalSnoc(flows: seq<Flow>, k: Bucket)
    requires flows != []
    ensures Total(flows, k)
         == Plus(Total(flows[..|flows| - 1], k),
                 if BucketOf(flows[|flows| - 1]) == k then One(flows[|flows| - 1]) else ZERO)
  {
    hide BucketOf;
  }

  /** Saturating at every addition is saturating once at the end. */
  lemma {:induction false} BucketsAreCappedTotals(flows: seq<Flow>)
    ensures Buckets(flows).Keys == BucketKeys(flows)
    ensures forall k :: k in Buckets(flows) ==> Buckets(flows)[k] == Cap(Total(flows, k))
  {
    if flows != [] {
      var init := flows[..|flows| - 1];
      BucketsAreCappedTotals(init);
      KeysSnoc(flows);
      var k := BucketOf(flows[|flows| - 1]);
      if k !in BucketKeys(init) { AbsentTotal(init, k); }
    }
  }

  lemma PlusAssociates(a: Totals, b: Totals, c: Totals)
    ensures Plus(Plus(a, b), c) == Plus(a, Plus(b, c))
  {
  }

  lemma {:induction false} TotalConcat(a: seq<Flow>, b: seq<Flow>, k: Bucket)
    ensures Total(a + b, k) == Plus(Total(a, k), Total(b, k))
  {
    hide BucketOf;
    if b == [] {
      assert a + b == a;
    } else {
      var n := |b| - 1;
      var ab := a + b;
      assert ab[..|ab| - 1] == a + b[..n] && ab[|ab| - 1] == b[n];
      TotalConcat(a, b[..n], k);
      PlusAssociates(Total(a, k), Total(b[..n], k), if BucketOf(b[n]) == k then One(b[n]) else ZERO);
    }
  }

  lemma KeysConcat(a: seq<Flow>, b: seq<Flow>)
    ensures BucketKeys(a + b) == BucketKeys(a) + BucketKeys(b)
  {
    assert forall f :: f in a + b <==> f in a || f in b;
  }

  lemma {:induction false} PresentTotal(flows: seq<Flow>, k: Bucket)
    requires k in BucketKeys(flows)
    ensures Total(flows, k).flows > 0
  {
    hide BucketOf;
    var init := flows[..|flows| - 1];
    KeysSnoc(flows);
    if k in BucketKeys(init) { PresentTotal(init, k); }
  }

  /** What saturates is never written: no saturated count reaches the table. */
  lemma SaturatedIsRefused(t: Totals)
    ensures Storable(Cap(t)) <==> Storable(t)
    ensures Storable(t) ==> Cap(t) == t
  {
  }

  // ----- batches -----

  /** A batch, and the order in which the hash map happens to list its buckets. */
  datatype Batch = Batch(flows: seq<Flow>, order: seq<Bucket>)
  {
    ghost predicate Valid() { Lists(order, BucketKeys(flows)) }
  }

  ghost predicate AllValid(batches: seq<Batch>) { forall i :: 0 <= i < |batches| ==> batches[i].Valid() }

  function Flatten(batches: seq<seq<Flow>>): seq<Flow> {
    if batches == [] then [] else Flatten(batches[..|batches| - 1]) + batches[|batches| - 1]
  }

  function FlowsOf(batches: seq<Batch>): seq<seq<Flow>> {
    seq(|batches|, i requires 0 <= i < |batches| => batches[i].flows)
  }

  /** All flows of all batches. */
  function AllFlows(batches: seq<Batch>): seq<Flow> { Flatten(FlowsOf(batches)) }

  lemma OrderWithin(batch: Batch)
    requires batch.Valid()
    ensures Within(batch.order, Buckets(batch.flows))
  {
    BucketsAreCappedTotals(batch.flows);
    assert forall i :: 0 <= i < |batch.order| ==> batch.order[i] in batch.order;
  }

  ghost function AfterBatches(batches: seq<Batch>): Table
    requires AllValid(batches)
  {
    if batches == [] then map[]
    else
      var last := batches[|batches| - 1];
      OrderWithin(last);
      WriteAll(AfterBatches(batches[..|batches| - 1]), Buckets(last.flows), last.order)
  }

  /** The bucket is written: neither it nor any bucket listed before it has a total that does not fit. */
  predicate Stored(batch: Batch, k: Bucket) {
    exists i :: 0 <= i < |batch.order| && batch.order[i] == k && StorableUpTo(batch, i + 1)
  }

  /** The first n buckets listed have totals that fit. */
  predicate StorableUpTo(batch: Batch, n: nat) {
    forall j :: 0 <= j < n && j < |batch.order| ==> Storable(Total(batch.flows, batch.order[j]))
  }

  /** The exact totals of the batches that stored the bucket. */
  function Recorded(batches: seq<Batch>, k: Bucket): Totals {
    if batches == [] then ZERO
    else
      var last := batches[|batches| - 1];
      Plus(Recorded(batches[..|batches| - 1], k), if Stored(last, k) then Total(last.flows, k) else ZERO)
  }

  predicate StoredOnce(batches: seq<Batch>, k: Bucket) { exists i :: 0 <= i < |batches| && Stored(batches[i], k) }

  predicate StoredAlways(batches: seq<Batch>, k: Bucket) {
    forall i :: 0 <= i < |batches| && k in BucketKeys(batches[i].flows) ==> Stored(batches[i], k)
  }

  lemma AddRowOf(a: Totals, b: Totals)
    ensures AddRow(RowOf(a), b) == RowOf(Plus(a, b))
  {
  }

  /** The position of a key among the writes decides whether it is written. */
  predicate Reached(entries: Entries, order: seq<Bucket>, k: Bucket)
    requires Within(order, entries)
  {
    exists i :: 0 <= i < |order| && order[i] == k && forall j :: 0 <= j <= i ==> Storable(entries[order[j]])
  }

  lemma ReachedStep(entries: Entries, order: seq<Bucket>, k: Bucket)
    requires Within(order, entries) && order != []
    ensures Within(order[1..], entries)
    ensures Reached(entries, order, k)
       <==> Storable(entries[order[0]]) && (k == order[0] || Reached(entries, order[1..], k))
  {
    var rest := order[1..];
    if Reached(entries, order, k) && k != order[0] {
      var i :| 0 <= i < |order| && order[i] == k && forall j :: 0 <= j <= i ==> Storable(entries[order[j]]);
      assert rest[i - 1] == k && forall j :: 0 <= j <= i - 1 ==> rest[j] == order[j + 1];
      assert Reached(entries, rest, k);
    }
    if Reached(entries, rest, k) && Storable(entries[order[0]]) {
      var i :| 0 <= i < |rest| && rest[i] == k && forall j :: 0 <= j <= i ==> Storable(entries[rest[j]]);
      assert order[i + 1] == k && forall j :: 0 < j <= i + 1 ==> order[j] == rest[j - 1];
    }
  }

  lemma {:induction false} WriteAllAt(t: Table, entries: Entries, order: seq<Bucket>, k: Bucket)
    requires Within(order, entries) && forall i, j :: 0 <= i < j < |order| ==> order[i] != order[j]
    ensures var r := WriteAll(t, entries, order);
            if Reached(entries, order, k) then k in entries && k in r && r[k] == Write(t, k, entries[k])[k]
            else (k in r <==> k in t) && (k in t ==> r[k] == t[k])
    decreases |order|
  {
    hide Reached; hide Storable; hide AddRow; hide RowOf;
    if order == [] {
      assert !Reached(entries, order, k) by { NothingReached(entries, k); }
    } else {
      ReachedStep(entries, order, k);
      if Storable(entries[order[0]]) {
        WriteAllAt(Write(t, order[0], entries[order[0]]), entries, order[1..], k);
        if k == order[0] { NotReached(entries, order[1..], k); }
      }
    }
  }

  lemma NothingReached(entries: Entries, k: Bucket)
    ensures !Reached(entries, [], k)
  {
  }

  lemma NotReached(entries: Entries, order: seq<Bucket>, k: Bucket)
    requires Within(order, entries) && forall i :: 0 <= i < |order| ==> order[i] != k
    ensures !Reached(entries, order, k)
  {
  }

  lemma ReachedIsStored(batch: Batch, k: Bucket)
    requires batch.Valid()
    ensures Within(batch.order, Buckets(batch.flows))
    ensures Reached(Buckets(batch.flows), batch.order, k) <==> Stored(batch, k)
    ensures Stored(batch, k) ==> k in BucketKeys(batch.flows) && Buckets(batch.flows)[k] == Total(batch.flows, k)
  {
    hide BucketKeys; hide Buckets; hide Total; hide Storable; hide Cap;
    OrderWithin(batch);
    BucketsAreCappedTotals(batch.flows);
    forall j | 0 <= j < |batch.order|
      ensures Storable(Buckets(batch.flows)[batch.order[j]]) <==> Storable(Total(batch.flows, batch.order[j]))
    {
      SaturatedIsRefused(Total(batch.flows, batch.order[j]));
    }
    SaturatedIsRefused(Total(batch.flows, k));
  }

  lemma ValidSnoc(batches: seq<Batch>)
    requires batches != [] && AllValid(batches)
    ensures AllValid(batches[..|batches| - 1]) && batches[|batches| - 1].Valid()
  {
  }

  lemma AfterSnoc(batches: seq<Batch>, k: Bucket)
    requires batches != [] && AllValid(batches)
    ensures var t, r, last := AfterBatches(batches[..|batches| - 1]), AfterBatches(batches), batches[|batches| - 1];
            if Stored(last, k) then k in r
            && r[k] == if k in t then AddRow(t[k], Total(last.flows, k)) else RowOf(Total(last.flows, k))
            else (k in r <==> k in t) && (k in t ==> r[k] == t[k])
  {
    hide Stored; hide Buckets; hide RowOf; hide AddRow; hide Total; hide BucketKeys; hide WriteAll; hide Reached;
    var last := batches[|batches| - 1];
    ReachedIsStored(last, k);
    WriteAllAt(AfterBatches(batches[..|batches| - 1]), Buckets(last.flows), last.order, k);
  }

  lemma NothingRecorded(k: Bucket)
    ensures AllValid([]) && AfterBatches([]) == map[] && Recorded([], k) == ZERO && !StoredOnce([], k)
  {
  }

  lemma RecordedSnoc(batches: seq<Batch>, k: Bucket)
    requires batches != []
    ensures var before, last := Recorded(batches[..|batches| - 1], k), batches[|batches| - 1];
            Recorded(batches, k) == if Stored(last, k) then Plus(before, Total(last.flows, k)) else before
  {
    hide Stored; hide Total;
    PlusZero(Recorded(batches[..|batches| - 1], k));
  }

  /** The table holds, for each bucket, what the batches that stored it add up to. */
  lemma {:induction false} TableIsRecorded(batches: seq<Batch>, k: Bucket)
    requires AllValid(batches)
    ensures k in AfterBatches(batches) <==> StoredOnce(batches, k)
    ensures k in AfterBatches(batches) ==> AfterBatches(batches)[k] == RowOf(Recorded(batches, k))
    ensures !StoredOnce(batches, k) ==> Recorded(batches, k) == ZERO
  {
    hide *;
    if batches == [] {
      NothingRecorded(k);
    } else {
      var n := |batches| - 1;
      var before, last := batches[..n], batches[n];
      assert AllValid(before) && last.Valid() by { ValidSnoc(batches); }
      TableIsRecorded(before, k);
      ReachedIsStored(last, k);
      AfterSnoc(batches, k);
      StoredSnoc(batches, k);
      RecordedSnoc(batches, k);
      AddRowOf(Recorded(before, k), Total(last.flows, k));
      ZeroPlus(Total(last.flows, k));
    }
  }

  lemma StoredSnoc(batches: seq<Batch>, k: Bucket)
    requires batches != []
    ensures StoredOnce(batches, k) <==> StoredOnce(batches[..|batches| - 1], k) || Stored(batches[|batches| - 1], k)
    ensures StoredAlways(batches, k)
       <==> StoredAlways(batches[..|batches| - 1], k)
            && (k in BucketKeys(batches[|batches| - 1].flows) ==> Stored(batches[|batches| - 1], k))
  {
    hide Stored; hide BucketKeys;
    var n := |batches| - 1;
    assert forall i :: 0 <= i < n ==> batches[..n][i] == batches[i];
    if StoredOnce(batches, k) && !Stored(batches[n], k) {
      var i :| 0 <= i < |batches| && Stored(batches[i], k);
      assert Stored(batches[..n][i], k);
    }
  }

  predicate AtMost(a: Totals, b: Totals) { a.octets <= b.octets && a.packets <= b.packets && a.flows <= b.flows }

  lemma FlowsSnoc(batches: seq<Batch>)
    requires batches != []
    ensures AllFlows(batches) == AllFlows(batches[..|batches| - 1]) + batches[|batches| - 1].flows
  {
    assert FlowsOf(batches)[..|batches| - 1] == FlowsOf(batches[..|batches| - 1]);
  }

  lemma PartOf(a: Totals, b: Totals, more: Totals)
    requires AtMost(a, b)
    ensures AtMost(a, Plus(b, more)) && AtMost(Plus(a, more), Plus(b, more))
    ensures Plus(a, more) == Plus(b, more) <==> a == b
    ensures more.flows > 0 ==> a != Plus(b, more)
    ensures more == ZERO ==> Plus(b, more) == b
  {
  }

  /** The table never counts too much, and a bucket is complete exactly if every batch that has it stored it. */
  lemma {:induction false} NeverTooMuch(batches: seq<Batch>, k: Bucket)
    requires AllValid(batches)
    ensures AtMost(Recorded(batches, k), Total(AllFlows(batches), k))
    ensures Recorded(batches, k) == Total(AllFlows(batches), k) <==> StoredAlways(batches, k)
  {
    if batches != [] {
      var n := |batches| - 1;
      var last := batches[n];
      hide *;
      ValidSnoc(batches);
      NeverTooMuch(batches[..n], k);
      FlowsSnoc(batches);
      TotalConcat(AllFlows(batches[..n]), last.flows, k);
      StoredSnoc(batches, k);
      RecordedSnoc(batches, k);
      ReachedIsStored(last, k);
      if k in BucketKeys(last.flows) { PresentTotal(last.flows, k); } else { AbsentTotal(last.flows, k); }
      PartOf(Recorded(batches[..n], k), Total(AllFlows(batches[..n]), k), Total(last.flows, k));
    }
  }

  lemma {:induction false} HasBucket(batches: seq<Batch>, k: Bucket)
    ensures k in BucketKeys(AllFlows(batches)) <==> exists i :: 0 <= i < |batches| && k in BucketKeys(batches[i].flows)
  {
    if batches != [] {
      var n := |batches| - 1;
      HasBucket(batches[..n], k);
      FlowsSnoc(batches);
      KeysConcat(AllFlows(batches[..n]), batches[n].flows);
      hide AllFlows; hide BucketKeys;
      assert forall i :: 0 <= i < n ==> batches[..n][i] == batches[i];
    }
  }

  /** A stored bucket was received. */
  lemma StoredWasReceived(batches: seq<Batch>, k: Bucket)
    requires AllValid(batches)
    ensures StoredOnce(batches, k) ==> k in BucketKeys(AllFlows(batches))
    ensures k in BucketKeys(AllFlows(batches)) && StoredAlways(batches, k) ==> StoredOnce(batches, k)
  {
    hide BucketKeys; hide Stored; hide AllFlows;
    HasBucket(batches, k);
    if i :| 0 <= i < |batches| && Stored(batches[i], k) { ReachedIsStored(batches[i], k); }
  }

  lemma RowIsExact(a: Totals, b: Totals)
    ensures RowOf(a) == Exactly(b) <==> a == b && Storable(b)
  {
  }

  /** The row of a bucket is exact if and only if its total fits and every batch that has the bucket stored it. */
  lemma BucketExactly(batches: seq<Batch>, k: Bucket)
    requires AllValid(batches) && k in BucketKeys(AllFlows(batches))
    ensures k in AfterBatches(batches) && AfterBatches(batches)[k] == Exactly(Total(AllFlows(batches), k))
       <==> Storable(Total(AllFlows(batches), k)) && StoredAlways(batches, k)
  {
    hide BucketKeys; hide AllFlows; hide Recorded; hide AfterBatches; hide StoredOnce; hide StoredAlways; hide Total;
    TableIsRecorded(batches, k);
    NeverTooMuch(batches, k);
    StoredWasReceived(batches, k);
    RowIsExact(Recorded(batches, k), Total(AllFlows(batches), k));
  }

  lemma {:induction false} PartFits(batches: seq<Batch>, i: nat, k: Bucket)
    requires i < |batches|
    ensures AtMost(Total(batches[i].flows, k), Total(AllFlows(batches), k))
  {
    hide *;
    var n := |batches| - 1;
    var before, last := Total(AllFlows(batches[..n]), k), Total(batches[n].flows, k);
    FlowsSnoc(batches);
    TotalConcat(AllFlows(batches[..n]), batches[n].flows, k);
    if i < n {
      PartFits(batches[..n], i, k);
      PartOf(Total(batches[i].flows, k), before, last);
    } else {
      LastPart(before, last);
    }
  }

  lemma LastPart(a: Totals, b: Totals)
    ensures AtMost(b, Plus(a, b))
  {
  }

  predicate AllStorable(flows: seq<Flow>) { forall k :: k in BucketKeys(flows) ==> Storable(Total(flows, k)) }

  lemma FittingIsStored(batches: seq<Batch>, k: Bucket)
    requires AllValid(batches) && AllStorable(AllFlows(batches))
    ensures StoredAlways(batches, k)
  {
    hide AllFlows; hide BucketKeys; hide Total;
    forall i | 0 <= i < |batches| && k in BucketKeys(batches[i].flows) ensures Stored(batches[i], k) {
      var batch := batches[i];
      forall j | 0 <= j < |batch.order| ensures Storable(Total(batch.flows, batch.order[j])) {
        assert batch.order[j] in batch.order;
        HasBucket(batches, batch.order[j]);
        PartFits(batches, i, batch.order[j]);
      }
      assert k in batch.order;
      var at :| 0 <= at < |batch.order| && batch.order[at] == k;
      assert StorableUpTo(batch, at + 1);
    }
  }

  /**
   * However the flows were batched and whatever the order of the writes, the table holds their exact totals per
   * minute and protocol if and only if each of these totals is a signed 64-bit number.
   */
  lemma BatchingIrrelevant(batches: seq<Batch>)
    requires AllValid(batches)
    ensures Represents(AfterBatches(batches), AllFlows(batches)) <==> AllStorable(AllFlows(batches))
  {
    hide AfterBatches; hide AllFlows; hide BucketKeys; hide Total; hide StoredAlways; hide StoredOnce; hide AllValid;
    var t, flows := AfterBatches(batches), AllFlows(batches);
    forall k ensures k in t ==> k in BucketKeys(flows) {
      TableIsRecorded(batches, k);
      StoredWasReceived(batches, k);
    }
    forall k | k in BucketKeys(flows)
      ensures k in t && t[k] == Exactly(Total(flows, k)) ==> Storable(Total(flows, k))
      ensures AllStorable(flows) ==> k in t && t[k] == Exactly(Total(flows, k))
    {
      BucketExactly(batches, k);
      if AllStorable(flows) { FittingIsStored(batches, k); }
    }
  }

  // ----- any order of the writes -----

  ghost function Listing(keys: set<Bucket>): (order: seq<Bucket>)
    ensures Lists(order, keys)
    decreases |keys|
  {
    if keys == {} then [] else
      var k :| k in keys;
      [k] + Listing(keys - {k})
  }

  /** The flows of the batches, with every order of the writes. */
  ghost predicate ExactInAnyOrder(flows: seq<seq<Flow>>, k: Bucket) {
    forall batches: seq<Batch> :: AllValid(batches) && FlowsOf(batches) == flows ==>
      k in AfterBatches(batches) && AfterBatches(batches)[k] == Exactly(Total(Flatten(flows), k))
  }

  /** A batch with the given bucket listed first. */
  ghost function Starting(flows: seq<Flow>, first: Bucket): (batch: Batch)
    requires first in BucketKeys(flows)
    ensures batch.Valid() && batch.flows == flows && batch.order != [] && batch.order[0] == first
  {
    Batch(flows, [first] + Listing(BucketKeys(flows) - {first}))
  }

  ghost function AnyBatch(flows: seq<Flow>): (batch: Batch)
    ensures batch.Valid() && batch.flows == flows
  {
    Batch(flows, Listing(BucketKeys(flows)))
  }

  /**
   * A bucket is exact whatever the order of the writes if and only if its total is a signed 64-bit number and no
   * batch in which it occurs has any bucket whose total is not.
   */
  lemma AnyOrderExactly(flows: seq<seq<Flow>>, k: Bucket)
    requires k in BucketKeys(Flatten(flows))
    ensures ExactInAnyOrder(flows, k)
       <==> Storable(Total(Flatten(flows), k)) && FitsWherever(flows, k)
  {
    hide *;
    if ExactInAnyOrder(flows, k) { ExactMustFit(flows, k); }
    if Storable(Total(Flatten(flows), k)) && FitsWherever(flows, k) { FittingIsExact(flows, k); }
  }

  /** Every batch that has the bucket has only totals that fit. */
  predicate FitsWherever(flows: seq<seq<Flow>>, k: Bucket) {
    forall i :: 0 <= i < |flows| && k in BucketKeys(flows[i]) ==> AllStorable(flows[i])
  }

  lemma ExactMustFit(flows: seq<seq<Flow>>, k: Bucket)
    requires k in BucketKeys(Flatten(flows)) && ExactInAnyOrder(flows, k)
    ensures Storable(Total(Flatten(flows), k)) && FitsWherever(flows, k)
  {
    hide AfterBatches; hide BucketKeys; hide Total; hide Flatten; hide StoredAlways; hide Storable;
    var plain := seq(|flows|, i requires 0 <= i < |flows| => AnyBatch(flows[i]));
    assert FlowsOf(plain) == flows;
    BucketExactly(plain, k);
    forall i, j | 0 <= i < |flows| && k in BucketKeys(flows[i]) && j in BucketKeys(flows[i])
      ensures Storable(Total(flows[i], j))
    {
      var batches := plain[i := Starting(flows[i], j)];
      assert FlowsOf(batches) == flows;
      BucketExactly(batches, k);
      FirstMustFit(batches, i, k);
    }
  }

  lemma FittingIsExact(flows: seq<seq<Flow>>, k: Bucket)
    requires k in BucketKeys(Flatten(flows)) && Storable(Total(Flatten(flows), k)) && FitsWherever(flows, k)
    ensures ExactInAnyOrder(flows, k)
  {
    hide AfterBatches; hide BucketKeys; hide Total; hide Flatten; hide StoredAlways; hide Storable; hide AllStorable;
    forall batches: seq<Batch> | AllValid(batches) && FlowsOf(batches) == flows
      ensures k in AfterBatches(batches) && AfterBatches(batches)[k] == Exactly(Total(Flatten(flows), k))
    {
      assert forall i :: 0 <= i < |flows| ==> FlowsOf(batches)[i] == batches[i].flows;
      FittingBatches(batches, k);
      BucketExactly(batches, k);
    }
  }

  lemma FirstMustFit(batches: seq<Batch>, i: nat, k: Bucket)
    requires i < |batches| && batches[i].order != [] && k in BucketKeys(batches[i].flows) && StoredAlways(batches, k)
    ensures Storable(Total(batches[i].flows, batches[i].order[0]))
  {
    hide BucketKeys; hide Total; hide Storable;
    assert Stored(batches[i], k);
  }

  lemma FittingBatches(batches: seq<Batch>, k: Bucket)
    requires AllValid(batches)
    requires forall i :: 0 <= i < |batches| && k in BucketKeys(batches[i].flows) ==> AllStorable(batches[i].flows)
    ensures StoredAlways(batches, k)
  {
    hide BucketKeys; hide Total; hide Storable;
    forall i | 0 <= i < |batches| && k in BucketKeys(batches[i].flows) ensures Stored(batches[i], k) {
      var batch := batches[i];
      assert AllStorable(batch.flows) && batch.Valid() && k in batch.order;
      assert forall j :: 0 <= j < |batch.order| ==> batch.order[j] in batch.order;
      var at :| 0 <= at < |batch.order| && batch.order[at] == k;
      assert StorableUpTo(batch, at + 1);
    }
  }

  // ----- instances -----

  lemma TotalOfOne(flow: Flow)
    ensures Total([flow], BucketOf(flow)) == One(flow) && BucketKeys([flow]) == {BucketOf(flow)}
  {
    assert [flow][..0] == [] && flow in [flow];
    assert Total([], BucketOf(flow)) == ZERO;
  }

  lemma TotalOfTwo(a: Flow, b: Flow)
    ensures BucketKeys([a, b]) == {BucketOf(a), BucketOf(b)}
    ensures BucketOf(a) != BucketOf(b) ==>
              Total([a, b], BucketOf(a)) == One(a) && Total([a, b], BucketOf(b)) == One(b)
  {
    hide *;
    TotalOfOne(a);
    TotalOfOne(b);
    assert [a] + [b] == [a, b];
    KeysConcat([a], [b]);
    if BucketOf(a) != BucketOf(b) {
      TotalConcat([a], [b], BucketOf(a));
      TotalConcat([a], [b], BucketOf(b));
      AbsentTotal([b], BucketOf(a));
      AbsentTotal([a], BucketOf(b));
      PlusZero(One(a));
      ZeroPlus(One(b));
    }
  }

  /** A flow of 2^63 octets takes a flow of another protocol along, or not, as the hash map has it. */
  lemma LossDependsOnOrder(big: Flow, small: Flow)
    requires big.octets == I64_MAX + 1 && small.octets <= I64_MAX && small.packets <= I64_MAX
    requires BucketOf(big) != BucketOf(small)
    ensures var one, other := Batch([big, small], [BucketOf(big), BucketOf(small)]),
                              Batch([big, small], [BucketOf(small), BucketOf(big)]);
            one.Valid() && other.Valid() && AfterBatches([one]) == map[]
            && AfterBatches([other]) == map[BucketOf(small) := Exactly(One(small))]
  {
    hide BucketOf; hide Buckets; hide Total; hide BucketKeys;
    var kb, ks := BucketOf(big), BucketOf(small);
    TotalOfTwo(big, small);
    BucketsAreCappedTotals([big, small]);
    var one, other := Batch([big, small], [kb, ks]), Batch([big, small], [ks, kb]);
    assert one.order[0] == kb && one.order[1] == ks && other.order[0] == ks && other.order[1] == kb;
    OneBatch(one);
    OneBatch(other);
    assert other.order[1..] == [kb];
    assert Write(map[], ks, One(small)) == map[ks := Exactly(One(small))];
  }

  lemma OneBatch(batch: Batch)
    requires batch.Valid()
    ensures Within(batch.order, Buckets(batch.flows))
    ensures AfterBatches([batch]) == WriteAll(map[], Buckets(batch.flows), batch.order)
  {
    hide Buckets; hide WriteAll;
    OrderWithin(batch);
    assert [batch][..0] == [];
    var none: seq<Batch> := [];
    assert AfterBatches(none) == map[];
  }

  /** Two batches that fit, of a minute that does not: its octets are no longer a whole number. */
  lemma SumIsRounded(flow: Flow)
    requires flow.octets == I64_MAX && flow.packets <= I64_MAX
    ensures var batch := Batch([flow], [BucketOf(flow)]);
            && batch.Valid() && BucketOf(flow) in AfterBatches([batch, batch])
            && AfterBatches([batch, batch])[BucketOf(flow)].octets == Rounded
  {
    hide BucketOf; hide Buckets; hide Total; hide BucketKeys; hide AfterBatches;
    var k, batch := BucketOf(flow), Batch([flow], [BucketOf(flow)]);
    TotalOfOne(flow);
    assert batch.order[0] == k && batch.Valid();
    assert StorableUpTo(batch, 1) && Stored(batch, k);
    assert Stored([batch, batch][0], k);
    TableIsRecorded([batch, batch], k);
    RecordedOf([batch, batch], k);
    RecordedOf([batch], k);
    assert [batch, batch][..1] == [batch] && [batch][..0] == [];
    var none: seq<Batch> := [];
    assert Recorded(none, k) == ZERO;
  }

  lemma RecordedOf(batches: seq<Batch>, k: Bucket)
    requires batches != [] && Stored(batches[|batches| - 1], k)
    ensures Recorded(batches, k) == Plus(Recorded(batches[..|batches| - 1], k), Total(batches[|batches| - 1].flows, k))
  {
    hide Stored; hide Total;
  }

  // ----- the repository -----

  class Repository {
    var flows1m: Table

    constructor ()
      ensures flows1m == map[]
    {
      flows1m := map[];
    }

    /** `order` is the order in which the hash map happens to list the buckets. */
    method AggregateFlowRecords1m(flows: seq<Flow>) returns (ok: bool, ghost order: seq<Bucket>)
      modifies this
      ensures Batch(flows, order).Valid() && Within(order, Buckets(flows))
      ensures flows1m == WriteAll(old(flows1m), Buckets(flows), order)
      ensures ok <==> AllStorable(flows)
    {
      var buckets := CollectBuckets(flows);
      BucketsAreCappedTotals(flows);
      ok, order := UpsertAll(buckets);
      forall k | k in BucketKeys(flows) ensures Storable(buckets[k]) <==> Storable(Total(flows, k)) {
        SaturatedIsRefused(Total(flows, k));
      }
    }

    /** The first loop: one saturating entry per bucket. */
    static method CollectBuckets(flows: seq<Flow>) returns (buckets: Entries)
      ensures buckets == Buckets(flows)
    {
      hide BucketOf;
      buckets := map[];
      var i := 0;
      while i < |flows|
        invariant 0 <= i <= |flows| && buckets == Buckets(flows[..i])
      {
        var key := BucketOf(flows[i]);
        var entry := Lookup(buckets, key);
        entry := Totals(Min(entry.octets + flows[i].octets, U64_MAX), Min(entry.packets + flows[i].packets, U64_MAX),
                        Min(entry.flows + 1, U64_MAX));
        buckets := buckets[key := entry];
        assert flows[..i + 1][..i] == flows[..i];
        i := i + 1;
      }
      assert flows[..i] == flows;
    }

    /** The second loop: additive upserts, in whatever order the entries come, until one fails. */
    method UpsertAll(buckets: Entries) returns (ok: bool, ghost order: seq<Bucket>)
      modifies this
      ensures Lists(order, buckets.Keys) && Within(order, buckets)
      ensures flows1m == WriteAll(old(flows1m), buckets, order)
      ensures ok <==> forall k :: k in buckets ==> Storable(buckets[k])
    {
      hide *;
      var todo := buckets.Keys;
      order := [];
      NothingWritten(flows1m, buckets);
      while todo != {}
        invariant todo <= buckets.Keys && Lists(order, buckets.Keys - todo) && Within(order, buckets)
        invariant forall k :: k in buckets && k !in todo ==> Storable(buckets[k])
        invariant flows1m == WriteAll(old(flows1m), buckets, order)
        decreases todo
      {
        var k :| k in todo;
        if !Storable(buckets[k]) {
          order := WriteFails(old(flows1m), buckets, order, todo, k);
          return false, order;
        }
        WriteOne(old(flows1m), buckets, order, todo, k);
        flows1m := Write(flows1m, k, buckets[k]);
        order := order + [k];
        todo := todo - {k};
      }
      assert buckets.Keys - todo == buckets.Keys;
      ok := true;
    }
  }

  lemma NothingWritten(t: Table, entries: Entries)
    ensures Lists([], entries.Keys - entries.Keys) && Within([], entries) && WriteAll(t, entries, []) == t
  {
  }

  lemma AllWithin(entries: Entries, order: seq<Bucket>, keys: set<Bucket>)
    requires Lists(order, keys) && keys <= entries.Keys && forall k :: k in keys ==> Storable(entries[k])
    ensures Within(order, entries) && forall i :: 0 <= i < |order| ==> Storable(entries[order[i]])
  {
    assert forall i :: 0 <= i < |order| ==> order[i] in order;
  }

  /** One more upsert that succeeds. */
  lemma WriteOne(t: Table, entries: Entries, order: seq<Bucket>, todo: set<Bucket>, k: Bucket)
    requires todo <= entries.Keys && Lists(order, entries.Keys - todo) && Within(order, entries)
    requires forall k :: k in entries && k !in todo ==> Storable(entries[k])
    requires k in todo && Storable(entries[k])
    ensures Lists(order + [k], entries.Keys - (todo - {k})) && Within(order + [k], entries)
    ensures WriteAll(t, entries, order + [k]) == Write(WriteAll(t, entries, order), k, entries[k])
  {
    hide Write; hide Storable;
    AllWithin(entries, order, entries.Keys - todo);
    WriteOn(t, entries, order, [k]);
    ListsOn(order, entries.Keys - todo, [k], {k});
    assert entries.Keys - (todo - {k}) == (entries.Keys - todo) + {k};
    assert [k][1..] == [];
  }

  /** One that fails; the other buckets of the hash map come after it. */
  lemma WriteFails(t: Table, entries: Entries, order: seq<Bucket>, todo: set<Bucket>, k: Bucket)
    returns (all: seq<Bucket>)
    requires todo <= entries.Keys && Lists(order, entries.Keys - todo) && Within(order, entries)
    requires forall k :: k in entries && k !in todo ==> Storable(entries[k])
    requires k in todo && !Storable(entries[k])
    ensures Lists(all, entries.Keys) && Within(all, entries)
    ensures WriteAll(t, entries, all) == WriteAll(t, entries, order)
  {
    hide Write; hide Storable;
    var rest := [k] + Listing(todo - {k});
    AllWithin(entries, order, entries.Keys - todo);
    ListsOn(order, entries.Keys - todo, rest, todo);
    assert (entries.Keys - todo) + todo == entries.Keys;
    WriteOn(t, entries, order, rest);
    all := order + rest;
  }

  lemma ListsOn(a: seq<Bucket>, as_: set<Bucket>, b: seq<Bucket>, bs: set<Bucket>)
    requires Lists(a, as_) && Lists(b, bs) && as_ !! bs
    ensures Lists(a + b, as_ + bs)
    ensures forall i :: 0 <= i < |a| ==> a[i] in as_
    ensures forall i :: 0 <= i < |b| ==> b[i] in bs
  {
    forall i, j | 0 <= i < |a| && 0 <= j < |b| ensures a[i] != b[j] { assert a[i] in a && b[j] in b; }
  }

  /** Writing goes on where it stopped, if all fitted so far. */
  lemma {:induction false} WriteOn(t: Table, entries: Entries, a: seq<Bucket>, b: seq<Bucket>)
    requires Within(a, entries) && Within(b, entries) && forall i :: 0 <= i < |a| ==> Storable(entries[a[i]])
    ensures Within(a + b, entries)
    ensures WriteAll(t, entries, a + b) == WriteAll(WriteAll(t, entries, a), entries, b)
    decreases |a|
  {
    hide Write; hide Storable;
    if a == [] {
      assert a + b == b;
    } else {
      assert (a + b)[0] == a[0] && (a + b)[1..] == a[1..] + b;
      WriteOn(Write(t, a[0], entries[a[0]]), entries, a[1..], b);
    }
  }
}
