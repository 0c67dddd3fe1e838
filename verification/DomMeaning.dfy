/** What a row of an optical power table contributes, in terms of the walked columns (join in src/snmp/dom.rs). */
module DomMeaning {
  import opened Basics
  import opened Snmp
  import opened Dom
  import opened DomTable

  predicate IsNumber(column: Column, index: Oid, n: int) { index in column && column[index] == Number(n) }

  // ----- the port of a sensor -----

  /** The entities up to the first one with an alias, each contained in the next; there are at most 32. */
  predicate IsClimb(parents: Column, aliases: Aliases, entity: nat, chain: seq<nat>) {
    && 1 <= |chain| <= 32 && chain[0] == entity && chain[|chain| - 1] in aliases
    && (forall j :: 0 <= j < |chain| - 1 ==> chain[j] !in aliases)
    && forall j: nat :: j < |chain| - 1 ==> NextContains(parents, chain, j)
  }

  predicate NextContains(parents: Column, chain: seq<nat>, j: nat)
    requires j < |chain| - 1
  {
    1 <= chain[j + 1] <= 4_294_967_295 && IsNumber(parents, [chain[j]], chain[j + 1])
  }

  lemma ParentExactly(parents: Column, entity: nat, container: nat)
    ensures Parent(Containers(parents), entity) == Some(container)
       <==> 1 <= container <= 4_294_967_295 && IsNumber(parents, [entity], container)
  {
    ContainersAt(parents, entity);
  }

  lemma ContainersAt(parents: Column, entity: nat)
    ensures entity in Containers(parents) <==> IntegerAt(parents, [entity]).Some?
    ensures entity in Containers(parents) ==> Some(Containers(parents)[entity]) == IntegerAt(parents, [entity])
  {
    if IntegerAt(parents, [entity]).Some? { assert [entity][0] == entity; }
  }

  lemma {:induction false} ClimbIsAncestors(parents: Column, aliases: Aliases, entity: nat, chain: seq<nat>, j: nat)
    requires IsClimb(parents, aliases, entity, chain) && j < |chain|
    ensures Ancestor(Containers(parents), entity, j) == Some(chain[j])
  {
    if j > 0 {
      ClimbIsAncestors(parents, aliases, entity, chain, j - 1);
      assert NextContains(parents, chain, j - 1);
      ParentExactly(parents, chain[j - 1], chain[j]);
    }
  }

  lemma {:induction false} AncestorsClimb(parents: Column, aliases: Aliases, entity: nat, n: nat)
    returns (chain: seq<nat>)
    requires n < 32 && AliasedAt(Containers(parents), aliases, entity, n)
    requires forall m: nat :: m < n ==> !AliasedAt(Containers(parents), aliases, entity, m)
    ensures IsClimb(parents, aliases, entity, chain) && |chain| == n + 1
  {
    hide Containers;
    chain := [entity];
    for k := 0 to n
      invariant |chain| == k + 1 && chain[0] == entity
      invariant forall j :: 0 <= j <= k ==> Ancestor(Containers(parents), entity, j) == Some(chain[j])
      invariant forall j: nat :: j < k ==> NextContains(parents, chain, j)
    {
      if Ancestor(Containers(parents), entity, k + 1).None? { EndedChain(Containers(parents), entity, k + 1, n); }
      var next := Ancestor(Containers(parents), entity, k + 1).value;
      ParentExactly(parents, chain[k], next);
      ghost var longer := chain + [next];
      forall j: nat | j < k + 1 ensures NextContains(parents, longer, j) {
        if j < k { assert NextContains(parents, chain, j); }
      }
      chain := longer;
    }
    forall j | 0 <= j < n ensures chain[j] !in aliases { assert !AliasedAt(Containers(parents), aliases, entity, j); }
  }

  /** An entity belongs to a port exactly if the first aliased entity that it is contained in has this port. */
  lemma PortExactly(parents: Column, aliases: Aliases, entity: nat, port: nat)
    ensures NearestAlias(Containers(parents), aliases, entity) == Some(port)
       <==> exists chain :: IsClimb(parents, aliases, entity, chain) && aliases[chain[|chain| - 1]] == Some(port)
  {
    hide NearestAlias; hide Containers;
    var containers := Containers(parents);
    if chain :| IsClimb(parents, aliases, entity, chain) && aliases[chain[|chain| - 1]] == Some(port) {
      hide IsClimb;
      forall j: nat | j < |chain| ensures Ancestor(containers, entity, j) == Some(chain[j]) {
        ClimbIsAncestors(parents, aliases, entity, chain, j);
      }
      NearestIs(containers, aliases, entity, ClimbEnd(parents, aliases, entity, chain));
    }
    if n: nat :| n < 32 && AliasedAt(containers, aliases, entity, n) {
      var first := FirstAliased(containers, aliases, entity, n);
      NearestIs(containers, aliases, entity, first);
      var chain := AncestorsClimb(parents, aliases, entity, first);
      ClimbIsAncestors(parents, aliases, entity, chain, first);
    } else {
      NearestIsNone(containers, aliases, entity);
    }
  }

  function ClimbEnd(parents: Column, aliases: Aliases, entity: nat, chain: seq<nat>): (n: nat)
    requires IsClimb(parents, aliases, entity, chain)
    ensures n < 32 && n == |chain| - 1 && chain[n] in aliases
    ensures forall j :: 0 <= j < n ==> chain[j] !in aliases
  {
    |chain| - 1
  }

  lemma {:induction false} FirstAliased(parents: Containment, aliases: Aliases, entity: nat, n: nat)
    returns (first: nat)
    requires AliasedAt(parents, aliases, entity, n)
    ensures first <= n && AliasedAt(parents, aliases, entity, first)
    ensures forall m: nat :: m < first ==> !AliasedAt(parents, aliases, entity, m)
  {
    if m: nat :| m < n && AliasedAt(parents, aliases, entity, m) {
      first := FirstAliased(parents, aliases, entity, m);
    } else {
      first := n;
    }
  }

  /** A row of the alias table names an ifIndex for the entity in the first of its two index arcs. */
  predicate NamesPort(index: Oid, value: SnmpValue, entity: nat, port: nat) {
    && |index| == 2 && index[0] == entity && value == ObjectId([1, 3, 6, 1, 2, 1, 2, 2, 1, 1, port])
    && 1 <= port <= 2_147_483_647
  }

  lemma AliasRowExactly(index: Oid, value: SnmpValue, entity: nat, port: nat)
    ensures Mapping(AliasOf(index, value)) == Some((entity, port)) <==> NamesPort(index, value, entity, port)
  {
    if value.ObjectId? && |value.oid| == 11 {
      assert IF_INDEX <= value.oid <==> value.oid == [1, 3, 6, 1, 2, 1, 2, 2, 1, 1, value.oid[10]];
    }
  }

  // ----- the power of a sensor -----

  /** `w` is `x` with its decimal point moved `places` to the right. */
  predicate Moved(x: real, w: real, places: int)
    decreases if places < 0 then -places else places
  {
    if places == 0 then x == w
    else if places > 0 then Moved(10.0 * x, w, places - 1)
    else Moved(x, 10.0 * w, places + 1)
  }

  lemma {:induction false} MovedUp(x: real, w: real, n: nat)
    ensures Moved(x, w, n) <==> w == x * Power10(n)
    decreases n
  {
    if n > 0 {
      MovedUp(10.0 * x, w, n - 1);
      assert (10.0 * x) * Power10(n - 1) == x * (10.0 * Power10(n - 1));
    }
  }

  lemma {:induction false} MovedDown(x: real, w: real, n: int)
    requires n >= 0
    ensures Moved(x, w, -n) <==> x == w * Power10(n)
    decreases n
  {
    if n > 0 {
      MovedDown(x, 10.0 * w, n - 1);
      assert (10.0 * w) * Power10(n - 1) == w * (10.0 * Power10(n - 1));
    }
  }

  lemma ScaledIsMoved(x: real, w: real, exponent: int)
    ensures Scaled(x, exponent) == w <==> Moved(x, w, exponent)
  {
    if exponent >= 0 {
      MovedUp(x, w, exponent);
    } else {
      MovedDown(x, w, -exponent);
      Quotient(x, w, Power10(-exponent));
    }
  }

  lemma Quotient(x: real, w: real, p: real)
    requires p >= 1.0
    ensures x / p == w <==> x == w * p
  {
    assert x / p * p == x;
  }

  /** The powers of ten of the scales 1 (yocto) to 17 (yotta) of RFC 3433, where exa comes before peta. */
  const SCALES: seq<int> := [-24, -21, -18, -15, -12, -9, -6, -3, 0, 3, 6, 9, 12, 18, 15, 21, 24]

  /** The number of a sensor stands for this power: its scale and, if positive, its precision move the decimal point. */
  ghost predicate IsPowerOf(e: Entities, index: Oid, x: real, w: real) {
    exists scale: int, precision: int ::
      && IsNumber(e.scales, index, scale) && 1 <= scale <= 17
      && IsNumber(e.precisions, index, precision) && -8 <= precision <= 9
      && Moved(x, w, SCALES[scale - 1] - (if precision > 0 then precision else 0))
  }

  lemma ExponentIsScale(scale: int)
    ensures Exponent(scale) == if 1 <= scale <= 17 then Some(SCALES[scale - 1]) else None
  {
  }

  lemma WattsExactly(e: Entities, index: Oid, x: real, w: real)
    ensures Watts(e, index, x) == Some(w) <==> IsPowerOf(e, index, x, w)
  {
    var scale, precision := IntegerAt(e.scales, index), IntegerAt(e.precisions, index);
    hide Exponent; hide Scaled; hide Moved;
    if scale.Some? && precision.Some? {
      var s, p := scale.value, precision.value;
      assert IsNumber(e.scales, index, s) && IsNumber(e.precisions, index, p);
      ExponentIsScale(s);
      if 1 <= s <= 17 { ScaledIsMoved(x, w, SCALES[s - 1] - (if p > 0 then p else 0)); }
    }
  }

  // ----- names -----

  /** The text contains the pattern, whose capital letters stand for small ones. */
  ghost predicate Mentions(text: string, pattern: string) {
    exists i: nat :: SpelledAt(text, pattern, i)
  }

  predicate SpelledAt(text: string, pattern: string, i: nat) {
    i + |pattern| <= |text| && forall j :: 0 <= j < |pattern| ==> text[i + j] == Small(pattern[j])
  }

  function Small(c: char): char {
    if 'A' <= c <= 'Z' then "abcdefghijklmnopqrstuvwxyz"[c as int - 'A' as int] else c
  }

  lemma LowerIsSmall(s: string)
    ensures |Lower(s)| == |s| && forall i :: 0 <= i < |s| ==> Lower(s)[i] == Small(s[i])
  {
  }

  lemma ContainsExactly(text: string, pattern: string)
    ensures Contains(text, Lower(pattern)) <==> Mentions(text, pattern)
  {
    LowerIsSmall(pattern);
    hide Lower; hide Small;
    if i: nat :| i <= |text| && StandsAt(text, Lower(pattern), i) {
      forall j | 0 <= j < |pattern| ensures text[i + j] == Small(pattern[j]) {
        assert text[i..i + |pattern|][j] == text[i + j];
      }
      assert SpelledAt(text, pattern, i);
    }
    if i: nat :| SpelledAt(text, pattern, i) {
      assert text[i..i + |pattern|] == Lower(pattern);
      assert StandsAt(text, Lower(pattern), i);
    }
  }

  /** Some pattern of the metric stands in the text. */
  ghost predicate Describes(metric: Metric, text: string) {
    exists k :: 0 <= k < |metric.patterns| && Mentions(text, metric.patterns[k])
  }

  lemma MatchesExactly(metric: Metric, text: string)
    ensures Matches(metric, text) <==> Describes(metric, text)
  {
    hide Contains; hide Mentions; hide Lower;
    forall k | 0 <= k < |metric.patterns|
      ensures Contains(text, Lower(metric.patterns[k])) <==> Mentions(text, metric.patterns[k])
    {
      ContainsExactly(text, metric.patterns[k]);
    }
  }

  /** The i-th metric, and no other, describes the text. */
  ghost predicate DescribesOnly(metrics: seq<Metric>, i: nat, text: string) {
    i < |metrics| && forall j :: 0 <= j < |metrics| ==> (Describes(metrics[j], text) <==> j == i)
  }

  lemma {:induction false} CountIsOne(metrics: seq<Metric>, i: nat, text: string)
    requires i < |metrics| && Matches(metrics[i], text)
    ensures MatchCount(metrics, text) == 1 <==> DescribesOnly(metrics, i, text)
  {
    hide Matches; hide Describes;
    forall j | 0 <= j < |metrics| ensures Matches(metrics[j], text) <==> Describes(metrics[j], text) {
      MatchesExactly(metrics[j], text);
    }
    if MatchCount(metrics, text) == 1 {
      forall j | 0 <= j < |metrics| && Matches(metrics[j], text) ensures j == i { UniqueMatch(metrics, text, i, j); }
    }
    if DescribesOnly(metrics, i, text) { OneMatch(metrics, i, text); }
  }

  lemma {:induction false} OneMatch(metrics: seq<Metric>, i: nat, text: string)
    requires i < |metrics| && forall j :: 0 <= j < |metrics| ==> (Matches(metrics[j], text) <==> j == i)
    ensures MatchCount(metrics, text) == 1
  {
    hide Matches;
    var n := |metrics| - 1;
    if i == n { NoMatch(metrics[..n], text); } else { OneMatch(metrics[..n], i, text); }
  }

  // ----- rows -----

  /**
   * A working sensor (status 1) for watts (type 6) whose name, in small letters, is of this metric and a whole port.
   */
  ghost predicate IsWattSensor(table: Table, e: Entities, r: Rendering, i: nat, index: Oid) {
    && IsNumber(e.statuses, index, 1) && IsNumber(e.types, index, 6)
    && index in e.names && r.text(e.names[index]).Some?
    && var text := Lower(r.text(e.names[index]).value);
       DescribesOnly(table.metrics, i, text) && !Mentions(text, "lane") && !Mentions(text, "channel")
  }

  /** The port of a row without entities: the number in the index column, or the one arc of the index. */
  predicate IsDirectPort(table: Table, index: Oid, port: nat) {
    && 1 <= port <= 2_147_483_647
    && if table.indexes.Some? then IsNumber(table.indexes.value, index, port) else index == [port]
  }

  function Product(n: int, scale: real): real { n as real * scale }

  /** The row of the i-th metric holds a number that is not one of the invalid ones, and the reading is made of it. */
  ghost predicate Gives(table: Table, aliases: Aliases, r: Rendering, i: nat, index: Oid, reading: Reading<real>) {
    && HasRow(table, i, index) && reading.key == table.metrics[i].key
    && exists n: int ::
         && IsNumber(table.metrics[i].rows, index, n) && n as real !in table.metrics[i].invalid
         && GivesNumber(table, aliases, r, i, index, Product(n, table.metrics[i].scale), reading)
  }

  ghost predicate GivesNumber(table: Table, aliases: Aliases, r: Rendering, i: nat, index: Oid, x: real,
                              reading: Reading<real>) {
    match table.entities
    case None => IsDirectPort(table, index, reading.port) && reading.value == x
    case Some(e) =>
      && |index| == 1 && IsWattSensor(table, e, r, i, index)
      && (exists chain ::
            IsClimb(e.parents, aliases, index[0], chain) && aliases[chain[|chain| - 1]] == Some(reading.port))
      && exists w :: IsPowerOf(e, index, x, w) && w > 0.0 && reading.value == r.dbm(w)
  }

  lemma SensorExactly(table: Table, e: Entities, r: Rendering, i: nat, index: Oid)
    requires i < |table.metrics|
    ensures IsSensor(table.metrics, table.metrics[i], e, index, r)
       <==> |index| == 1 && IsWattSensor(table, e, r, i, index)
  {
    var metrics := table.metrics;
    if index in e.names && r.text(e.names[index]).Some? {
      var text := Lower(r.text(e.names[index]).value);
      ContainsExactly(text, "lane");
      ContainsExactly(text, "channel");
      SmallWords();
      MatchesExactly(metrics[i], text);
      hide Lower; hide Contains; hide Mentions; hide Matches; hide Describes;
      if Matches(metrics[i], text) { CountIsOne(metrics, i, text); }
    }
  }

  lemma SmallWords()
    ensures Lower("lane") == "lane" && Lower("channel") == "channel"
  {
  }

  lemma DirectPortExactly(table: Table, index: Oid, port: nat)
    ensures DirectPort(table, index) == Some(port) <==> IsDirectPort(table, index, port)
  {
  }

  lemma DirectRowExactly(table: Table, aliases: Aliases, r: Rendering, i: nat, index: Oid, n: int,
                         reading: Reading<real>)
    requires HasRow(table, i, index) && table.metrics[i].rows[index] == Number(n) && table.entities.None?
    ensures ReadingOf(table, aliases, r, i, index) == Some(reading)
       <==> reading.key == table.metrics[i].key && n as real !in table.metrics[i].invalid
            && GivesNumber(table, aliases, r, i, index, Product(n, table.metrics[i].scale), reading)
  {
    hide DirectPort; hide IsDirectPort;
    DirectPortExactly(table, index, reading.port);
    assert table.metrics[i].Of(n as real) == Product(n, table.metrics[i].scale);
    assert reading == Reading(reading.port, reading.key, reading.value);
  }

  lemma SensorRowExactly(table: Table, aliases: Aliases, r: Rendering, i: nat, index: Oid, n: int,
                         reading: Reading<real>)
    requires HasRow(table, i, index) && table.metrics[i].rows[index] == Number(n) && table.entities.Some?
    ensures ReadingOf(table, aliases, r, i, index) == Some(reading)
       <==> reading.key == table.metrics[i].key && n as real !in table.metrics[i].invalid
            && GivesNumber(table, aliases, r, i, index, Product(n, table.metrics[i].scale), reading)
  {
    var e, x := table.entities.value, Product(n, table.metrics[i].scale);
    SensorExactly(table, e, r, i, index);
    if IsSensor(table.metrics, table.metrics[i], e, index, r) {
      assert |index| == 1;
      PortExactly(e.parents, aliases, index[0], reading.port);
      forall w ensures Watts(e, index, x) == Some(w) <==> IsPowerOf(e, index, x, w) { WattsExactly(e, index, x, w); }
    }
    hide IsSensor; hide IsWattSensor; hide NearestAlias; hide IsClimb; hide Watts; hide IsPowerOf; hide Containers;
    assert table.metrics[i].Of(n as real) == x;
    assert reading == Reading(reading.port, reading.key, reading.value);
  }

  lemma RowExactly(table: Table, aliases: Aliases, r: Rendering, i: nat, index: Oid, reading: Reading<real>)
    requires HasRow(table, i, index)
    ensures ReadingOf(table, aliases, r, i, index) == Some(reading) <==> Gives(table, aliases, r, i, index, reading)
  {
    hide GivesNumber; hide Product;
    if table.metrics[i].rows[index].Number? {
      var n := table.metrics[i].rows[index].n;
      assert IsNumber(table.metrics[i].rows, index, n);
      if table.entities.None? {
        DirectRowExactly(table, aliases, r, i, index, n, reading);
      } else {
        SensorRowExactly(table, aliases, r, i, index, n, reading);
      }
      hide ReadingOf;
    }
  }

  /** A row contributes a reading exactly if the walked columns give it. */
  lemma ContributesExactly(table: Table, aliases: Aliases, r: Rendering, i: nat, index: Oid, reading: Reading<real>)
    ensures Contributes(table, aliases, r, Origin(i, index), reading) <==> Gives(table, aliases, r, i, index, reading)
  {
    if HasRow(table, i, index) {
      RowExactly(table, aliases, r, i, index, reading);
      hide Gives; hide ReadingOf;
    }
  }
}
