/** The live ring of recent flows (the insert and evict block of run_listener in src/flow.rs). */
module FlowRing {
  import opened Basics

  const MEMORY_FLOW_TTL := 600_000_000_000        // nanoseconds
  const MEMORY_FLOW_LIMIT := 250_000
  const MEMORY_FLOW_BYTES_LIMIT := 536_870_912

  /** What the ring and the roll-up need of a flow record. */
  datatype Flow = Flow(observedAt: string, protocol: string, octets: nat, packets: nat)

  datatype Entry = Entry(at: nat, flow: Flow, size: nat)

  function Bytes(entries: seq<Entry>): nat {
    if entries == [] then 0 else entries[0].size + Bytes(entries[1..])
  }

  predicate Young(e: Entry, now: nat) { now <= e.at + MEMORY_FLOW_TTL }

  /** The three limits on the ring at time `now`. */
  predicate Fits(entries: seq<Entry>, now: nat) {
    && (forall i :: 0 <= i < |entries| ==> Young(entries[i], now))
    && |entries| <= MEMORY_FLOW_LIMIT
    && Bytes(entries) <= MEMORY_FLOW_BYTES_LIMIT
  }

  /** The longest suffix of a history that satisfies the limits. */
  function Window(history: seq<Entry>, now: nat): (w: seq<Entry>)
    ensures |w| <= |history| && w == history[|history| - |w|..] && Fits(w, now)
  {
    if Fits(history, now) then history
    else
      assert history != [] by { if history == [] { assert Bytes(history) == 0; } }
      var w := Window(history[1..], now);
      assert history[1..][|history| - 1 - |w|..] == history[|history| - |w|..];
      w
  }

  lemma {:induction false} LongerFits(history: seq<Entry>, now: nat, k: nat)
    requires k <= |history| && Fits(history[k..], now)
    ensures |history| - k <= |Window(history, now)|
  {
    if k > 0 && !Fits(history, now) {
      assert history[1..][k - 1..] == history[k..];
      LongerFits(history[1..], now, k - 1);
    } else if k == 0 {
      assert history[0..] == history;
    }
  }

  /** From `k` on, all flows are at most ten minutes old, they are at most 250,000, and they take at most 512 MiB. */
  predicate FitsFrom(history: seq<Entry>, now: nat, k: nat) {
    && k <= |history| <= k + 250_000 && Bytes(history[k..]) <= 536_870_912
    && forall i :: k <= i < |history| ==> now - history[i].at <= 600_000_000_000
  }

  /** The window starts at the first place from which everything fits. */
  lemma WindowIsLongest(history: seq<Entry>, now: nat)
    ensures FitsFrom(history, now, |history| - |Window(history, now)|)
    ensures forall k :: 0 <= k < |history| - |Window(history, now)| ==> !FitsFrom(history, now, k)
  {
    hide Window; hide Bytes;
    var w := Window(history, now);
    forall i | |history| - |w| <= i < |history| ensures now - history[i].at <= 600_000_000_000 {
      assert w[i - (|history| - |w|)] == history[i];
    }
    forall k | 0 <= k < |history| - |w| && FitsFrom(history, now, k) ensures false {
      LongerFits(history, now, k);
    }
  }

  predicate Chronological(entries: seq<Entry>) {
    forall i, j :: 0 <= i < j < |entries| ==> entries[i].at <= entries[j].at
  }

  /** `retain` by age. */
  function Retain(entries: seq<Entry>, now: nat): seq<Entry> {
    if entries == [] then []
    else (if Young(entries[0], now) then [entries[0]] else []) + Retain(entries[1..], now)
  }

  lemma {:induction false} BytesConcat(a: seq<Entry>, b: seq<Entry>)
    ensures Bytes(a + b) == Bytes(a) + Bytes(b)
  {
    if a == [] {
      assert a + b == b;
    } else {
      assert (a + b)[1..] == a[1..] + b;
      BytesConcat(a[1..], b);
    }
  }

  /** What did not fit before fits even less later, with one entry more. */
  lemma FitsLess(history: seq<Entry>, e: Entry, before: nat, now: nat)
    requires before <= now && !Fits(history, before)
    ensures !Fits(history + [e], now)
  {
    BytesConcat(history, [e]);
    if i :| 0 <= i < |history| && !Young(history[i], before) {
      assert (history + [e])[i] == history[i];
    }
  }

  /** Nothing that the ring has dropped would be needed again. */
  lemma {:induction false} WindowSuffices(history: seq<Entry>, e: Entry, before: nat, now: nat)
    requires before <= now
    ensures Window(history + [e], now) == Window(Window(history, before) + [e], now)
  {
    if !Fits(history, before) {
      FitsLess(history, e, before, now);
      assert (history + [e])[1..] == history[1..] + [e];
      WindowSuffices(history[1..], e, before, now);
    }
  }

  lemma {:induction false} RetainSuffices(entries: seq<Entry>, e: Entry, now: nat)
    requires Chronological(entries)
    ensures Window(entries + [e], now) == Window(Retain(entries, now) + [e], now)
  {
    if entries != [] {
      if Young(entries[0], now) {
        RetainAll(entries, now);
      } else {
        hide Bytes;
        assert (entries + [e])[0] == entries[0] && (entries + [e])[1..] == entries[1..] + [e];
        RetainSuffices(entries[1..], e, now);
        assert Retain(entries, now) == Retain(entries[1..], now);
      }
    }
  }

  lemma {:induction false} RetainAll(entries: seq<Entry>, now: nat)
    requires forall i :: 0 <= i < |entries| ==> Young(entries[i], now)
    ensures Retain(entries, now) == entries
  {
    if entries != [] { RetainAll(entries[1..], now); }
  }

  lemma {:induction false} RetainYoung(entries: seq<Entry>, now: nat)
    ensures forall e :: e in Retain(entries, now) ==> Young(e, now)
  {
    if entries != [] { RetainYoung(entries[1..], now); }
  }

  lemma WindowStep(entries: seq<Entry>, now: nat)
    requires |entries| > MEMORY_FLOW_LIMIT || Bytes(entries) > MEMORY_FLOW_BYTES_LIMIT
    ensures entries != [] && Window(entries, now) == Window(entries[1..], now)
    ensures Bytes(entries) == entries[0].size + Bytes(entries[1..])
  {
    assert Bytes([]) == 0;
  }

  lemma WindowWhole(entries: seq<Entry>, now: nat)
    requires Fits(entries, now)
    ensures Window(entries, now) == entries
  {
  }

  /** Retaining and appending leaves the right window to be found among the young entries. */
  lemma PushPlan(history: seq<Entry>, entries: seq<Entry>, e: Entry, before: nat, now: nat)
    requires Chronological(history) && entries == Window(history, before) && before <= now == e.at
    requires forall i :: 0 <= i < |history| ==> history[i].at <= before
    ensures var kept := Retain(entries, now) + [e];
            Window(kept, now) == Window(history + [e], now) && forall i :: 0 <= i < |kept| ==> Young(kept[i], now)
    ensures Chronological(history + [e])
  {
    hide Window; hide Retain; hide Bytes;
    WindowSuffices(history, e, before, now);
    SuffixChronological(history, |history| - |entries|);
    RetainSuffices(entries, e, now);
    RetainYoung(entries, now);
  }

  class Ring {
    var entries: seq<Entry>
    ghost var history: seq<Entry>   // everything ever pushed
    ghost var last: nat             // the time of the last push

    ghost predicate Valid()
      reads this
    {
      && Chronological(history)
      && (forall i :: 0 <= i < |history| ==> history[i].at <= last)
      && entries == Window(history, last)
    }

    constructor ()
      ensures Valid() && history == [] && last == 0
    {
      entries, history, last := [], [], 0;
    }

    /** Inserts a flow under the lock: afterwards the ring is the longest suffix of all pushes that fits. */
    method Push(now: nat, flow: Flow, size: nat)
      requires Valid() && last <= now
      modifies this
      ensures Valid() && last == now
      ensures history == old(history) + [Entry(now, flow, size)]
      ensures entries == Window(history, now)
    {
      hide Window; hide Retain; hide Bytes;
      var e := Entry(now, flow, size);
      PushPlan(history, entries, e, last, now);
      history, last := history + [e], now;
      entries := Retain(entries, now) + [e];
      EvictOverflow(now);
    }

    /** Pops entries off the front until the count and byte limits hold, keeping the byte total up to date. */
    method EvictOverflow(now: nat)
      requires forall i :: 0 <= i < |entries| ==> Young(entries[i], now)
      modifies this`entries
      ensures entries == Window(old(entries), now)
    {
      hide Window; hide Bytes;
      var total := TotalBytes(entries);
      while |entries| > MEMORY_FLOW_LIMIT || total > MEMORY_FLOW_BYTES_LIMIT
        invariant total == Bytes(entries)
        invariant Window(entries, now) == Window(old(entries), now)
        invariant forall i :: 0 <= i < |entries| ==> Young(entries[i], now)
        decreases |entries|
      {
        WindowStep(entries, now);
        total := Max(total - entries[0].size, 0);
        entries := entries[1..];
      }
      WindowWhole(entries, now);
    }
  }

  lemma SuffixChronological(history: seq<Entry>, k: nat)
    requires Chronological(history) && k <= |history|
    ensures Chronological(history[k..])
  {
  }

  method TotalBytes(entries: seq<Entry>) returns (total: nat)
    ensures total == Bytes(entries)
  {
    total := 0;
    var i := 0;
    assert entries[0..] == entries;
    while i < |entries|
      invariant 0 <= i <= |entries| && total + Bytes(entries[i..]) == Bytes(entries)
    {
      assert entries[i..][1..] == entries[i + 1..];
      total := total + entries[i].size;
      i := i + 1;
    }
  }
}
