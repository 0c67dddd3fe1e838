/** Optical power per port: the entity join of src/snmp/dom.rs. */
module Dom {
  import opened Basics
  import opened Snmp
  import opened Sums

  const MAX_DEPTH := 32
  const I32_MAX := 0x7fff_ffff

  // ----- the containment graph -----

  /** `entPhysicalContainedIn` by entity; values that are no number are left out. */
  type Containment = map<nat, int>

  /** The aliases of entities: a port, or None where the rows disagree. */
  type Aliases = map<nat, Option<nat>>

  /** The containing entity, if there is one. */
  function Parent(parents: Containment, entity: nat): Option<nat> {
    if entity in parents && 0 < parents[entity] <= U32_MAX then Some(parents[entity]) else None
  }

  /** The n-th container of an entity. */
  function Ancestor(parents: Containment, entity: nat, n: nat): Option<nat> {
    if n == 0 then Some(entity)
    else match Ancestor(parents, entity, n - 1) case None => None case Some(e) => Parent(parents, e)
  }

  /** The n-th container exists and has an alias. */
  predicate AliasedAt(parents: Containment, aliases: Aliases, entity: nat, n: nat) {
    Ancestor(parents, entity, n).Some? && Ancestor(parents, entity, n).value in aliases
  }

  /** The alias of the nearest aliased entity among the first 32 of the containment chain. */
  ghost function NearestAlias(parents: Containment, aliases: Aliases, entity: nat): (r: Option<nat>)
  {
    if n: nat :| n < MAX_DEPTH && AliasedAt(parents, aliases, entity, n)
                 && forall m: nat :: m < n ==> !AliasedAt(parents, aliases, entity, m)
    then aliases[Ancestor(parents, entity, n).value] else None
  }

  lemma NearestIs(parents: Containment, aliases: Aliases, entity: nat, n: nat)
    requires n < MAX_DEPTH && AliasedAt(parents, aliases, entity, n)
    requires forall m: nat :: m < n ==> !AliasedAt(parents, aliases, entity, m)
    ensures NearestAlias(parents, aliases, entity) == aliases[Ancestor(parents, entity, n).value]
  {
  }

  lemma NearestIsNone(parents: Containment, aliases: Aliases, entity: nat)
    requires forall m: nat :: m < MAX_DEPTH ==> !AliasedAt(parents, aliases, entity, m)
    ensures NearestAlias(parents, aliases, entity) == None
  {
  }

  /** Equal ancestors have equal chains above them. */
  lemma {:induction false} Shift(parents: Containment, entity: nat, a: nat, b: nat, j: nat)
    requires Ancestor(parents, entity, a) == Ancestor(parents, entity, b)
    ensures Ancestor(parents, entity, a + j) == Ancestor(parents, entity, b + j)
  {
    if j > 0 { Shift(parents, entity, a, b, j - 1); }
  }

  /** A chain that returns to an entity never leaves the entities seen so far. */
  lemma {:induction false} CycleStaysUnaliased(parents: Containment, aliases: Aliases, entity: nat, m: nat, n: nat,
                                               k: nat)
    requires m < n && Ancestor(parents, entity, m) == Ancestor(parents, entity, n)
    requires forall i: nat :: i < n ==> !AliasedAt(parents, aliases, entity, i)
    ensures !AliasedAt(parents, aliases, entity, k)
    decreases k
  {
    if k >= n {
      CycleStaysUnaliased(parents, aliases, entity, m, n, k - (n - m));
      Shift(parents, entity, m, n, k - n);
    }
  }

  /** A chain that ends has no later containers. */
  lemma {:induction false} EndedChain(parents: Containment, entity: nat, n: nat, k: nat)
    requires n <= k && Ancestor(parents, entity, n).None?
    ensures Ancestor(parents, entity, k).None?
    decreases k
  {
    if n < k { EndedChain(parents, entity, n, k - 1); }
  }

  method EntityPort(entity: nat, aliases: Aliases, parents: Containment) returns (port: Option<nat>)
    ensures port == NearestAlias(parents, aliases, entity)
  {
    var current := entity;
    var visited: set<nat> := {};
    for n := 0 to MAX_DEPTH
      invariant Ancestor(parents, entity, n) == Some(current)
      invariant forall e :: e in visited ==> exists m: nat :: m < n && Ancestor(parents, entity, m) == Some(e)
      invariant forall m: nat :: m < n ==> !AliasedAt(parents, aliases, entity, m)
    {
      if current in visited {
        var m: nat :| m < n && Ancestor(parents, entity, m) == Some(current);
        forall k: nat | k < MAX_DEPTH ensures !AliasedAt(parents, aliases, entity, k) {
          CycleStaysUnaliased(parents, aliases, entity, m, n, k);
        }
        NearestIsNone(parents, aliases, entity);
        return None;
      }
      visited := visited + {current};
      if current in aliases {
        NearestIs(parents, aliases, entity, n);
        return aliases[current];
      }
      var parent := Parent(parents, current);
      if parent.None? {
        forall k: nat | k < MAX_DEPTH ensures !AliasedAt(parents, aliases, entity, k) {
          if k > n { EndedChain(parents, entity, n + 1, k); }
        }
        NearestIsNone(parents, aliases, entity);
        return None;
      }
      current := parent.value;
    }
    NearestIsNone(parents, aliases, entity);
    return None;
  }

  /** The same climb without a memory of visited entities. */
  function Climb(entity: nat, aliases: Aliases, parents: Containment, steps: nat): Option<nat>
    decreases steps
  {
    if steps == 0 then None
    else if entity in aliases then aliases[entity]
    else match Parent(parents, entity) case None => None case Some(parent) => Climb(parent, aliases, parents, steps - 1)
  }

  /** Remembering visited entities never changes the answer, even when the containment graph has cycles. */
  lemma VisitedCheckIsRedundant(entity: nat, aliases: Aliases, parents: Containment)
    ensures Climb(entity, aliases, parents, MAX_DEPTH) == NearestAlias(parents, aliases, entity)
  {
    ClimbFinds(entity, aliases, parents, 0, entity);
  }

  lemma {:induction false} ClimbFinds(entity: nat, aliases: Aliases, parents: Containment, n: nat, current: nat)
    requires n <= MAX_DEPTH && Ancestor(parents, entity, n) == Some(current)
    requires forall m: nat :: m < n ==> !AliasedAt(parents, aliases, entity, m)
    ensures Climb(current, aliases, parents, MAX_DEPTH - n) == NearestAlias(parents, aliases, entity)
    decreases MAX_DEPTH - n
  {
    if n == MAX_DEPTH {
      NearestIsNone(parents, aliases, entity);
    } else if current in aliases {
      NearestIs(parents, aliases, entity, n);
    } else if Parent(parents, current).Some? {
      ClimbFinds(entity, aliases, parents, n + 1, Parent(parents, current).value);
    } else {
      forall k: nat | k < MAX_DEPTH ensures !AliasedAt(parents, aliases, entity, k) {
        if k > n { EndedChain(parents, entity, n + 1, k); }
      }
      NearestIsNone(parents, aliases, entity);
    }
  }

  // ----- the alias map -----

  const IF_INDEX: Oid := [1, 3, 6, 1, 2, 1, 2, 2, 1, 1]

  /** A row of the alias mapping table: its index, and its value if that is an object identifier. */
  datatype AliasRow = AliasRow(index: Oid, target: Option<Oid>)

  /** The entity and the port that a row maps. */
  function Mapping(row: AliasRow): Option<(nat, nat)> {
    if |row.index| == 2 && row.target.Some? && |row.target.value| == 11 && IF_INDEX <= row.target.value
       && 0 < row.target.value[10] <= I32_MAX
    then Some((row.index[0], row.target.value[10])) else None
  }

  function FoldAlias(aliases: Aliases, row: AliasRow): Aliases {
    match Mapping(row)
    case None => aliases
    case Some((entity, port)) =>
      if entity !in aliases then aliases[entity := Some(port)]
      else if aliases[entity] != Some(port) then aliases[entity := None]
      else aliases
  }

  function FoldAliases(rows: seq<AliasRow>): Aliases {
    if rows == [] then map[] else FoldAlias(FoldAliases(rows[..|rows| - 1]), rows[|rows| - 1])
  }

  method CollectAliases(rows: seq<AliasRow>) returns (aliases: Aliases)
    ensures aliases == FoldAliases(rows)
  {
    aliases := map[];
    for i := 0 to |rows|
      invariant aliases == FoldAliases(rows[..i])
    {
      assert rows[..i + 1][..i] == rows[..i];
      var mapping := Mapping(rows[i]);
      if mapping.Some? {
        var (entity, port) := mapping.value;
        if entity in aliases {
          if aliases[entity] != Some(port) { aliases := aliases[entity := None]; }
        } else {
          aliases := aliases[entity := Some(port)];
        }
      }
    }
    assert rows[..|rows|] == rows;
  }

  predicate Maps(rows: seq<AliasRow>, entity: nat, port: nat) {
    exists r :: r in rows && Mapping(r) == Some((entity, port))
  }

  /** All rows of an entity name the same port. */
  ghost predicate Agreed(rows: seq<AliasRow>, entity: nat, port: nat) {
    Maps(rows, entity, port) && forall other: nat :: Maps(rows, entity, other) ==> other == port
  }

  /** An entity is aliased if some row maps it; its port is known exactly if all its rows agree. */
  lemma {:induction false} AliasesAreAgreements(rows: seq<AliasRow>, entity: nat)
    ensures entity in FoldAliases(rows) <==> exists port: nat :: Maps(rows, entity, port)
    ensures entity in FoldAliases(rows) ==>
              forall port: nat :: FoldAliases(rows)[entity] == Some(port) <==> Agreed(rows, entity, port)
  {
    if rows != [] {
      var n := |rows| - 1;
      AliasesAreAgreements(rows[..n], entity);
      forall port: nat
        ensures Maps(rows, entity, port) <==> Maps(rows[..n], entity, port) || Mapping(rows[n]) == Some((entity, port))
      {
        MapsSnoc(rows, entity, port);
      }
    }
  }

  lemma MapsSnoc(rows: seq<AliasRow>, entity: nat, port: nat)
    requires rows != []
    ensures Maps(rows, entity, port)
       <==> Maps(rows[..|rows| - 1], entity, port) || Mapping(rows[|rows| - 1]) == Some((entity, port))
  {
    var n := |rows| - 1;
    assert rows == rows[..n] + [rows[n]];
    if Maps(rows[..n], entity, port) {
      var r :| r in rows[..n] && Mapping(r) == Some((entity, port));
      assert r in rows;
    }
    assert rows[n] in rows;
  }

  /** So the alias map does not depend on the order of the rows. */
  lemma AliasesIgnoreOrder(rows: seq<AliasRow>, rows': seq<AliasRow>)
    requires multiset(rows) == multiset(rows')
    ensures FoldAliases(rows) == FoldAliases(rows')
  {
    hide FoldAliases;
    assert forall r :: r in rows <==> r in multiset(rows);
    assert forall r :: r in rows' <==> r in multiset(rows');
    forall entity: nat, port: nat ensures Maps(rows, entity, port) <==> Maps(rows', entity, port) { }
    var a, b := FoldAliases(rows), FoldAliases(rows');
    forall entity
      ensures entity in a <==> entity in b
      ensures entity in a ==> a[entity] == b[entity]
    {
      AliasesAreAgreements(rows, entity);
      AliasesAreAgreements(rows', entity);
      if entity in a {
        forall port: nat ensures a[entity] == Some(port) <==> b[entity] == Some(port) {
          assert Agreed(rows, entity, port) <==> Agreed(rows', entity, port);
        }
        if a[entity].Some? { assert b[entity] == Some(a[entity].value); }
        if b[entity].Some? { assert a[entity] == Some(b[entity].value); }
      }
    }
  }

  // ----- the ambiguity rule -----

  datatype MetricKey = RxPower | TxPower

  /** A usable reading, joined to its port. */
  datatype Reading<V> = Reading(port: nat, key: MetricKey, value: V)

  datatype OpticalPower<V> = OpticalPower(rx: Option<V>, tx: Option<V>)

  datatype Slot = Slot(port: nat, key: MetricKey)

  function Values<V>(readings: seq<Reading<V>>, slot: Slot): seq<V> {
    if readings == [] then []
    else
      var n := |readings| - 1;
      Values(readings[..n], slot)
      + if readings[n].port == slot.port && readings[n].key == slot.key then [readings[n].value] else []
  }

  /** The value of a slot with exactly one reading. */
  function Only<V>(values: seq<V>): Option<V> { if |values| == 1 then Some(values[0]) else None }

  predicate HasReading<V(==)>(readings: seq<Reading<V>>, port: nat) { exists r :: r in readings && r.port == port }

  /** `power` gives each port with a reading the unambiguous value of each metric. */
  predicate Joined<V(==)>(readings: seq<Reading<V>>, power: map<nat, OpticalPower<V>>) {
    && (forall port :: port in power ==> HasReading(readings, port))
    && (forall r :: r in readings ==> r.port in power)
    && (forall port :: port in power ==>
          power[port]
            == OpticalPower(Only(Values(readings, Slot(port, RxPower))), Only(Values(readings, Slot(port, TxPower)))))
  }

  method JoinReadings<V(==)>(readings: seq<Reading<V>>) returns (power: map<nat, OpticalPower<V>>)
    ensures Joined(readings, power)
  {
    hide Values; hide Only; hide Gathered;
    var slots: map<Slot, seq<V>> := map[];
    GatheredNothing<V>();
    for i := 0 to |readings|
      invariant readings[..0] == [] && Gathered(readings[..i], slots)
    {
      var slot := Slot(readings[i].port, readings[i].key);
      GatheredSnoc(readings, i, slots);
      slots := slots[slot := (if slot in slots then slots[slot] else []) + [readings[i].value]];
    }
    assert readings[..|readings|] == readings;
    power := map[];
    var todo := slots.Keys;
    while todo != {}
      invariant todo <= slots.Keys
      invariant forall port :: port in power <==> exists s :: s in slots && s !in todo && s.port == port
      invariant forall port :: port in power ==> power[port] == OpticalPower(
                  Done(slots, todo, Slot(port, RxPower)), Done(slots, todo, Slot(port, TxPower)))
      decreases todo
    {
      var s :| s in todo;
      var entry := if s.port in power then power[s.port] else OpticalPower(None, None);
      entry := if s.key == RxPower then entry.(rx := Only(slots[s])) else entry.(tx := Only(slots[s]));
      power := power[s.port := entry];
      todo := todo - {s};
    }
    JoinedFromSlots(readings, slots, power);
  }

  /** The readings collected per slot. */
  predicate Gathered<V(==)>(readings: seq<Reading<V>>, slots: map<Slot, seq<V>>) {
    && (forall s :: s in slots ==> slots[s] == Values(readings, s) && slots[s] != [])
    && (forall r :: r in readings ==> Slot(r.port, r.key) in slots)
  }

  /** What has been transferred to the result so far. */
  function Done<V>(slots: map<Slot, seq<V>>, todo: set<Slot>, s: Slot): Option<V> {
    if s in slots && s !in todo then Only(slots[s]) else None
  }

  lemma {:induction false} NoValues<V>(readings: seq<Reading<V>>, slot: Slot)
    ensures Values(readings, slot) != [] <==> exists r :: r in readings && Slot(r.port, r.key) == slot
  {
    if readings != [] {
      var n := |readings| - 1;
      NoValues(readings[..n], slot);
      assert forall r :: r in readings <==> r in readings[..n] || r == readings[n] by {
        assert readings == readings[..n] + [readings[n]];
      }
    }
  }

  lemma GatheredNothing<V>()
    ensures Gathered<V>([], map[])
  {
  }

  lemma GatheredSnoc<V>(readings: seq<Reading<V>>, i: nat, slots: map<Slot, seq<V>>)
    requires i < |readings| && Gathered(readings[..i], slots)
    ensures var s := Slot(readings[i].port, readings[i].key);
            Gathered(readings[..i + 1], slots[s := (if s in slots then slots[s] else []) + [readings[i].value]])
  {
    var s := Slot(readings[i].port, readings[i].key);
    assert readings[..i + 1][..i] == readings[..i];
    assert forall r :: r in readings[..i + 1] <==> r in readings[..i] || r == readings[i] by {
      assert readings[..i + 1] == readings[..i] + [readings[i]];
    }
    if s !in slots { NoValues(readings[..i], s); }
  }

  lemma JoinedFromSlots<V>(readings: seq<Reading<V>>, slots: map<Slot, seq<V>>, power: map<nat, OpticalPower<V>>)
    requires Gathered(readings, slots)
    requires forall port :: port in power <==> exists s :: s in slots && s.port == port
    requires forall port :: port in power ==> power[port] == OpticalPower(
               Done(slots, {}, Slot(port, RxPower)), Done(slots, {}, Slot(port, TxPower)))
    ensures Joined(readings, power)
  {
    forall port: nat, key ensures Done(slots, {}, Slot(port, key)) == Only(Values(readings, Slot(port, key))) {
      if Slot(port, key) !in slots { NoValues(readings, Slot(port, key)); }
    }
    forall port | port in power ensures HasReading(readings, port) {
      var s :| s in slots && s.port == port;
      NoValues(readings, s);
      var r :| r in readings && Slot(r.port, r.key) == s;
    }
    forall r | r in readings ensures r.port in power {
      assert Slot(r.port, r.key) in slots;
    }
  }

  // ----- the order of the readings -----

  function PickSlot<V>(slot: Slot): Reading<V> -> multiset<V> {
    (r: Reading<V>) => if r.port == slot.port && r.key == slot.key then multiset{r.value} else multiset{}
  }

  lemma {:induction false} ValuesAreSum<V>(readings: seq<Reading<V>>, slot: Slot)
    ensures multiset(Values(readings, slot)) == Sum(readings, PickSlot(slot))
  {
    if readings != [] {
      var n := |readings| - 1;
      ValuesAreSum(readings[..n], slot);
      SumRemove(readings, PickSlot(slot), n);
      assert readings[..n] + readings[n + 1..] == readings[..n];
    }
  }

  lemma OnlyIgnoresOrder<V>(readings: seq<Reading<V>>, readings': seq<Reading<V>>, slot: Slot)
    requires multiset(readings) == multiset(readings')
    ensures Only(Values(readings, slot)) == Only(Values(readings', slot))
  {
    hide Sum;
    ValuesAreSum(readings, slot);
    ValuesAreSum(readings', slot);
    SumPermutation(readings, readings', PickSlot(slot));
    OnlyOfMultiset(Values(readings, slot), Values(readings', slot));
  }

  lemma SameElements<T>(s: seq<T>, t: seq<T>, x: T)
    requires multiset(s) == multiset(t)
    ensures x in s <==> x in t
  {
    assert x in s <==> x in multiset(s);
    assert x in t <==> x in multiset(t);
  }

  /** The join is determined by the readings, in whatever order the tables were traversed. */
  lemma JoinIgnoresOrder<V>(readings: seq<Reading<V>>, readings': seq<Reading<V>>, power: map<nat, OpticalPower<V>>)
    requires multiset(readings) == multiset(readings') && Joined(readings, power)
    ensures Joined(readings', power)
  {
    hide Only;
    hide Values;
    forall r ensures r in readings <==> r in readings' { SameElements(readings, readings', r); }
    forall port | port in power ensures HasReading(readings', port) {
      assert HasReading(readings, port);
      var r :| r in readings && r.port == port;
    }
    forall port | port in power
      ensures power[port] ==
              OpticalPower(Only(Values(readings', Slot(port, RxPower))), Only(Values(readings', Slot(port, TxPower))))
    {
      OnlyIgnoresOrder(readings, readings', Slot(port, RxPower));
      OnlyIgnoresOrder(readings, readings', Slot(port, TxPower));
    }
  }

  lemma OnlyOfMultiset<V>(a: seq<V>, b: seq<V>)
    requires multiset(a) == multiset(b)
    ensures Only(a) == Only(b)
  {
    assert |a| == |multiset(a)| == |multiset(b)| == |b|;
    if |a| == 1 { assert a[0] in multiset(b); }
  }

  // ----- one reading per slot -----

  predicate InSlot<V>(r: Reading<V>, slot: Slot) { r.port == slot.port && r.key == slot.key }

  /** The k-th reading is the only one of the slot. */
  predicate OnlyReading<V>(readings: seq<Reading<V>>, k: nat, slot: Slot) {
    k < |readings| && InSlot(readings[k], slot) && forall j :: 0 <= j < |readings| && j != k ==>
      !InSlot(readings[j], slot)
  }

  lemma {:induction false} NoReading<V>(readings: seq<Reading<V>>, slot: Slot)
    ensures Values(readings, slot) == [] <==> forall j :: 0 <= j < |readings| ==> !InSlot(readings[j], slot)
  {
    if readings != [] { NoReading(readings[..|readings| - 1], slot); }
  }

  /** A slot has a value if and only if there is exactly one reading of it, and then it is that reading's. */
  lemma {:induction false} OnlyFromOne<V>(readings: seq<Reading<V>>, slot: Slot, value: V)
    ensures Only(Values(readings, slot)) == Some(value)
       <==> exists k: nat :: OnlyReading(readings, k, slot) && readings[k].value == value
  {
    if readings != [] {
      var n := |readings| - 1;
      var init := readings[..n];
      NoReading(init, slot);
      LastReading(readings, slot);
      hide Values; hide InSlot;
      if InSlot(readings[n], slot) {
        if Values(init, slot) == [] { assert OnlyReading(readings, n, slot); }
        if k: nat :| OnlyReading(readings, k, slot) {
          assert k == n;
          forall j | 0 <= j < n ensures !InSlot(init[j], slot) { assert !InSlot(readings[j], slot); }
        }
      } else {
        OnlyFromOne(init, slot, value);
        if k: nat :| OnlyReading(init, k, slot) && init[k].value == value {
          forall j | 0 <= j < |readings| && j != k ensures !InSlot(readings[j], slot) {
            if j < n { assert !InSlot(init[j], slot); }
          }
          assert OnlyReading(readings, k, slot);
        }
        if k: nat :| OnlyReading(readings, k, slot) && readings[k].value == value {
          forall j | 0 <= j < n && j != k ensures !InSlot(init[j], slot) { assert !InSlot(readings[j], slot); }
          assert OnlyReading(init, k, slot);
        }
      }
    }
  }

  lemma LastReading<V>(readings: seq<Reading<V>>, slot: Slot)
    requires readings != []
    ensures var n := |readings| - 1;
            Values(readings, slot)
            == Values(readings[..n], slot) + if InSlot(readings[n], slot) then [readings[n].value] else []
  {
  }
}
