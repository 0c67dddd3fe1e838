/** The rows of the one-minute aggregate, in terms of the flow records themselves (src/db/repository.rs). */
module FlowMinutes {
  import opened FlowRing
  import opened FlowAggregate
  import opened FlowRollup

  /**
   * The flow belongs to the row: its protocol, and the first 16 characters of its time stamp with ":00Z" behind them.
   */
  predicate InRow(f: Flow, start: string, protocol: string) {
    f.protocol == protocol && start == if |f.observedAt| < 16 then f.observedAt else f.observedAt[..16] + ":00Z"
  }

  function RowFlows(flows: seq<Flow>, start: string, protocol: string): seq<Flow> {
    if flows == [] then []
    else
      var last := flows[|flows| - 1];
      RowFlows(flows[..|flows| - 1], start, protocol) + if InRow(last, start, protocol) then [last] else []
  }

  function Octets(flows: seq<Flow>): nat {
    if flows == [] then 0 else flows[0].octets + Octets(flows[1..])
  }

  function Packets(flows: seq<Flow>): nat {
    if flows == [] then 0 else flows[0].packets + Packets(flows[1..])
  }

  lemma {:induction false} SumsSnoc(flows: seq<Flow>, last: Flow)
    ensures Octets(flows + [last]) == Octets(flows) + last.octets
    ensures Packets(flows + [last]) == Packets(flows) + last.packets
  {
    if flows == [] {
      assert flows + [last] == [last];
    } else {
      assert (flows + [last])[1..] == flows[1..] + [last];
      SumsSnoc(flows[1..], last);
    }
  }

  lemma RowOfFlow(f: Flow, start: string, protocol: string)
    ensures BucketOf(f) == Bucket(start, protocol) <==> InRow(f, start, protocol)
  {
  }

  /** Two flows share a row exactly if minute and protocol are the same, and the row starts with the minute. */
  lemma SameRowExactly(f: Flow, g: Flow)
    requires |f.observedAt| >= 16 && |g.observedAt| >= 16
    ensures BucketOf(f) == BucketOf(g) <==> f.observedAt[..16] == g.observedAt[..16] && f.protocol == g.protocol
    ensures BucketOf(f).start == f.observedAt[..16] + ":00Z" && BucketOf(f).protocol == f.protocol
  {
    var a, b := f.observedAt[..16], g.observedAt[..16];
    assert (a + ":00Z")[..16] == a && (b + ":00Z")[..16] == b;
  }

  lemma {:induction false} TotalIsSums(flows: seq<Flow>, start: string, protocol: string)
    ensures var row := RowFlows(flows, start, protocol);
            Total(flows, Bucket(start, protocol)) == Totals(Octets(row), Packets(row), |row|)
    ensures Bucket(start, protocol) in BucketKeys(flows) <==> RowFlows(flows, start, protocol) != []
  {
    hide *;
    if flows == [] {
      NothingSummed(start, protocol);
    } else {
      var n, k := |flows| - 1, Bucket(start, protocol);
      var before := RowFlows(flows[..n], start, protocol);
      TotalIsSums(flows[..n], start, protocol);
      TotalSnoc(flows, k);
      KeysSnoc(flows);
      RowOfFlow(flows[n], start, protocol);
      RowSnoc(flows, start, protocol);
      SumsSnoc(before, flows[n]);
      OneMore(Totals(Octets(before), Packets(before), |before|), flows[n]);
    }
  }

  lemma NothingSummed(start: string, protocol: string)
    ensures RowFlows([], start, protocol) == [] && Octets([]) == Packets([]) == 0
    ensures Total([], Bucket(start, protocol)) == Totals(0, 0, 0) && BucketKeys([]) == {}
  {
  }

  lemma RowSnoc(flows: seq<Flow>, start: string, protocol: string)
    requires flows != []
    ensures var before, last := RowFlows(flows[..|flows| - 1], start, protocol), flows[|flows| - 1];
            RowFlows(flows, start, protocol) == if InRow(last, start, protocol) then before + [last] else before
  {
    var before := RowFlows(flows[..|flows| - 1], start, protocol);
    assert before + [] == before;
  }

  lemma OneMore(t: Totals, f: Flow)
    ensures Plus(t, One(f)) == Totals(t.octets + f.octets, t.packets + f.packets, t.flows + 1) && Plus(t, ZERO) == t
  {
  }

  /** Each row holds the sums of octets, of packets and of ones over exactly its flows; without flows there is none. */
  ghost predicate RowsExact(t: Table, flows: seq<Flow>) {
    forall start, protocol :: RowExact(t, RowFlows(flows, start, protocol), start, protocol)
  }

  predicate RowExact(t: Table, row: seq<Flow>, start: string, protocol: string) {
    && (Bucket(start, protocol) in t <==> row != [])
    && (row != [] ==> t[Bucket(start, protocol)] == Row(Whole(Octets(row)), Whole(Packets(row)), Whole(|row|)))
  }

  /** All sums of a row are signed 64-bit numbers. */
  ghost predicate SumsFit(flows: seq<Flow>) {
    forall start, protocol :: RowFits(RowFlows(flows, start, protocol))
  }

  predicate RowFits(row: seq<Flow>) {
    && Octets(row) <= 9_223_372_036_854_775_807 && Packets(row) <= 9_223_372_036_854_775_807
    && |row| <= 9_223_372_036_854_775_807
  }

  lemma RepresentsExactly(t: Table, flows: seq<Flow>)
    ensures Represents(t, flows) <==> RowsExact(t, flows)
    ensures AllStorable(flows) <==> SumsFit(flows)
  {
    hide RowFlows; hide Total; hide BucketKeys; hide Octets; hide Packets;
    forall start, protocol
      ensures var row := RowFlows(flows, start, protocol);
              Total(flows, Bucket(start, protocol)) == Totals(Octets(row), Packets(row), |row|)
      ensures Bucket(start, protocol) in BucketKeys(flows) <==> RowFlows(flows, start, protocol) != []
    {
      TotalIsSums(flows, start, protocol);
    }
    if RowsExact(t, flows) {
      forall k ensures k in t <==> k in BucketKeys(flows) {
        assert RowExact(t, RowFlows(flows, k.start, k.protocol), k.start, k.protocol);
      }
      forall k | k in t ensures t[k] == Exactly(Total(flows, k)) {
        assert RowExact(t, RowFlows(flows, k.start, k.protocol), k.start, k.protocol);
      }
    }
    if SumsFit(flows) {
      forall k | k in BucketKeys(flows) ensures Storable(Total(flows, k)) {
        assert RowFits(RowFlows(flows, k.start, k.protocol));
      }
    }
    if AllStorable(flows) {
      forall start, protocol ensures RowFits(RowFlows(flows, start, protocol)) {
        if RowFlows(flows, start, protocol) == [] { NoSums(); }
      }
    }
  }

  lemma NoSums()
    ensures Octets([]) == 0 && Packets([]) == 0
  {
  }

  /**
   * End to end, in the terms of the flow records: after any interleaving, with any order of the writes, every row of
   * the table holds the sums over exactly the delivered flows of its minute and protocol, if and only if they all fit.
   */
  lemma TableSumsDelivered(now: nat, events: seq<Event>, batches: seq<Batch>)
    requires Legal(Initial(now), events) && AllValid(batches) && FlowsOf(batches) == Run(Initial(now), events).batches
    ensures Ledger(Run(Initial(now), events))
    ensures var flows := FlowsAt(Run(Initial(now), events).history, Run(Initial(now), events).delivered);
            RowsExact(AfterBatches(batches), flows) <==> SumsFit(flows)
  {
    hide *;
    TableHoldsDelivered(now, events, batches);
    var s := Run(Initial(now), events);
    assert forall i :: i in s.delivered ==> i < |s.history| by { DeliveredInHistory(s); }
    RepresentsExactly(AfterBatches(batches), FlowsAt(s.history, s.delivered));
  }

  lemma DeliveredInHistory(s: State)
    requires Ledger(s)
    ensures forall i :: i in s.delivered ==> i < |s.history|
  {
  }
}
