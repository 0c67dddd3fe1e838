/** From the walked columns of an optical power table to the power of each port: the whole join of src/snmp/dom.rs. */
module DomTable {
  import opened Basics
  import opened Snmp
  import opened Dom

  type Column = map<Oid, SnmpValue>

  /** A metric of the template with its walked column. */
  datatype Metric = Metric(key: MetricKey, rows: Column, scale: real, invalid: set<real>, patterns: seq<string>)
  {
    function Of(raw: real): real { raw * scale }
  }

  /** The walked columns of the entity tables. */
  datatype Entities = Entities(
    names: Column, parents: Column, aliases: Column, types: Column, scales: Column, precisions: Column,
    statuses: Column)

  datatype Table = Table(metrics: seq<Metric>, indexes: Option<Column>, entities: Option<Entities>)

  /** How a value reads as text, and the power in dBm of a number of watts. */
  datatype Rendering = Rendering(text: SnmpValue -> Option<string>, dbm: real -> real)

  function NumberOf(value: SnmpValue): Option<real> { if value.Number? then Some(value.n as real) else None }

  function IntegerAt(column: Column, index: Oid): Option<int> {
    if index in column && column[index].Number? && -I64_MAX - 1 <= column[index].n <= I64_MAX
    then Some(column[index].n) else None
  }

  // ----- names -----

  function Lower(s: string): string {
    seq(|s|, i requires 0 <= i < |s| => if 'A' <= s[i] <= 'Z' then (s[i] as int + 32) as char else s[i])
  }

  predicate StandsAt(s: string, part: string, i: nat) { i + |part| <= |s| && s[i..i + |part|] == part }

  predicate Contains(s: string, part: string) { exists i: nat :: i <= |s| && StandsAt(s, part, i) }

  predicate Matches(metric: Metric, name: string) {
    exists k :: 0 <= k < |metric.patterns| && Contains(name, Lower(metric.patterns[k]))
  }

  function MatchCount(metrics: seq<Metric>, name: string): nat {
    if metrics == [] then 0
    else MatchCount(metrics[..|metrics| - 1], name) + if Matches(metrics[|metrics| - 1], name) then 1 else 0
  }

  lemma {:induction false} NoMatch(metrics: seq<Metric>, name: string)
    ensures MatchCount(metrics, name) == 0 <==> forall i :: 0 <= i < |metrics| ==> !Matches(metrics[i], name)
  {
    if metrics != [] { NoMatch(metrics[..|metrics| - 1], name); }
  }

  /** A name that matches one metric matches no other. */
  lemma {:induction false} UniqueMatch(metrics: seq<Metric>, name: string, i: nat, j: nat)
    requires MatchCount(metrics, name) == 1 && i < |metrics| && j < |metrics|
    requires Matches(metrics[i], name) && Matches(metrics[j], name)
    ensures i == j
  {
    hide Matches;
    var n := |metrics| - 1;
    var init := metrics[..n];
    NoMatch(init, name);
    if i < n { assert Matches(init[i], name); }
    if j < n { assert Matches(init[j], name); }
    if i < n && j < n { UniqueMatch(init, name, i, j); }
  }

  // ----- one row -----

  /** The decimal exponent of an EntitySensorDataScale (RFC 3433). */
  function Exponent(scale: int): Option<int> {
    if 1 <= scale <= 13 then Some((scale - 9) * 3)
    else if scale == 14 then Some(18)
    else if scale == 15 then Some(15)
    else if scale == 16 then Some(21)
    else if scale == 17 then Some(24)
    else None
  }

  function Power10(n: nat): (p: real)
    ensures p >= 1.0
  {
    if n == 0 then 1.0 else 10.0 * Power10(n - 1)
  }

  function Scaled(x: real, exponent: int): real {
    if exponent >= 0 then x * Power10(exponent) else x / Power10(-exponent)
  }

  /**
   * The watts of a sensor row, if its scale and precision are allowed; precisions below 0 are not fractional digits.
   */
  function Watts(e: Entities, index: Oid, x: real): Option<real> {
    var scale, precision := IntegerAt(e.scales, index), IntegerAt(e.precisions, index);
    if scale.Some? && Exponent(scale.value).Some? && precision.Some? && -8 <= precision.value <= 9
    then Some(Scaled(x, Exponent(scale.value).value - Max(precision.value, 0))) else None
  }

  function NameAt(e: Entities, index: Oid, r: Rendering): Option<string> {
    if index in e.names && r.text(e.names[index]).Some? then Some(Lower(r.text(e.names[index]).value)) else None
  }

  /** The name is of this metric alone, and of a whole port. */
  predicate NameFits(metrics: seq<Metric>, metric: Metric, name: string) {
    && !Contains(name, "lane") && !Contains(name, "channel")
    && Matches(metric, name) && MatchCount(metrics, name) == 1
  }

  /** The row is a working sensor for watts whose name is of this metric. */
  predicate IsSensor(metrics: seq<Metric>, metric: Metric, e: Entities, index: Oid, r: Rendering) {
    && |index| == 1
    && NameAt(e, index, r).Some? && NameFits(metrics, metric, NameAt(e, index, r).value)
    && IntegerAt(e.statuses, index) == Some(1) && IntegerAt(e.types, index) == Some(6)
  }

  /** The measured number of a row, unless it is one that stands for a missing value. */
  function RawAt(metric: Metric, index: Oid): Option<real>
    requires index in metric.rows
  {
    var raw := NumberOf(metric.rows[index]);
    if raw.Some? && raw.value !in metric.invalid then raw else None
  }

  /** The port of a row in a table without entities. */
  function DirectPort(table: Table, index: Oid): Option<nat> {
    var port: Option<int> :=
      if table.indexes.Some? then IntegerAt(table.indexes.value, index)
      else if |index| == 1 then Some(index[0]) else None;
    if port.Some? && 0 < port.value <= I32_MAX then Some(port.value) else None
  }

  /** The containing entity of each entity that has a number for it. */
  function Containers(parents: Column): Containment {
    map entity | entity in Indexed(parents) && IntegerAt(parents, [entity]).Some? ::
      IntegerAt(parents, [entity]).value
  }

  /** The entities with a row of one arc. */
  function Indexed(column: Column): set<nat> { set index | index in column && |index| == 1 :: index[0] }

  /** The i-th metric has a row with this index. */
  predicate HasRow(table: Table, i: nat, index: Oid) { i < |table.metrics| && index in table.metrics[i].rows }

  /** What a row contributes, and to which port. */
  ghost function ReadingOf(table: Table, aliases: Aliases, r: Rendering, i: nat, index: Oid): Option<Reading<real>>
    requires HasRow(table, i, index)
  {
    var metric := table.metrics[i];
    var raw := RawAt(metric, index);
    if raw.None? then None
    else match table.entities
      case Some(e) =>
        if !IsSensor(table.metrics, metric, e, index, r) then None
        else
          var port := NearestAlias(Containers(e.parents), aliases, index[0]);
          var watts := Watts(e, index, metric.Of(raw.value));
          if port.Some? && watts.Some? && watts.value > 0.0
          then Some(Reading(port.value, metric.key, r.dbm(watts.value))) else None
      case None =>
        var port := DirectPort(table, index);
        if port.Some? then Some(Reading(port.value, metric.key, metric.Of(raw.value))) else None
  }

  /** A sensor never counts for two metrics, even when several metrics share its column. */
  lemma OneMetricPerSensor(table: Table, aliases: Aliases, r: Rendering, i: nat, j: nat, index: Oid)
    requires table.entities.Some? && HasRow(table, i, index) && HasRow(table, j, index)
    requires ReadingOf(table, aliases, r, i, index).Some? && ReadingOf(table, aliases, r, j, index).Some?
    ensures i == j
  {
    hide Matches; hide MatchCount; hide Contains; hide Lower;
    UniqueMatch(table.metrics, NameAt(table.entities.value, index, r).value, i, j);
  }

  // ----- the alias table -----

  function AliasOf(index: Oid, value: SnmpValue): AliasRow {
    AliasRow(index, if value.ObjectId? then Some(value.oid) else None)
  }

  /** Some row of the alias column maps the entity to the port. */
  predicate ColumnMaps(column: Column, entity: nat, port: nat) {
    exists index :: index in column && Mapping(AliasOf(index, column[index])) == Some((entity, port))
  }

  /** Entities with an alias, and the port of those on which all rows agree. */
  ghost predicate IsAliasTable(column: Column, aliases: Aliases) {
    forall entity: nat ::
      && (entity in aliases <==> exists port: nat :: ColumnMaps(column, entity, port))
      && (entity in aliases ==>
            forall port: nat :: aliases[entity] == Some(port) <==> ColumnAgrees(column, entity, port))
  }

  ghost predicate ColumnAgrees(column: Column, entity: nat, port: nat) {
    ColumnMaps(column, entity, port) && forall other: nat :: ColumnMaps(column, entity, other) ==> other == port
  }

  method AliasTable(column: Column) returns (aliases: Aliases)
    ensures IsAliasTable(column, aliases)
  {
    var rows: seq<AliasRow> := [];
    var todo := column.Keys;
    while todo != {}
      invariant todo <= column.Keys
      invariant forall row ::
                  row in rows <==>
                  exists index :: index in column && index !in todo && row == AliasOf(index, column[index])
      decreases todo
    {
      var index :| index in todo;
      rows := rows + [AliasOf(index, column[index])];
      todo := todo - {index};
    }
    aliases := CollectAliases(rows);
    forall entity: nat
      ensures entity in aliases <==> exists port: nat :: ColumnMaps(column, entity, port)
      ensures entity in aliases ==>
                forall port: nat :: aliases[entity] == Some(port) <==> ColumnAgrees(column, entity, port)
    {
      forall port: nat ensures Maps(rows, entity, port) <==> ColumnMaps(column, entity, port) {
        SameMaps(column, rows, entity, port);
      }
      AliasesAreAgreements(rows, entity);
    }
  }

  lemma SameMaps(column: Column, rows: seq<AliasRow>, entity: nat, port: nat)
    requires forall row :: row in rows <==> exists index :: index in column && row == AliasOf(index, column[index])
    ensures Maps(rows, entity, port) <==> ColumnMaps(column, entity, port)
  {
    hide Mapping;
    if ColumnMaps(column, entity, port) {
      var index :| index in column && Mapping(AliasOf(index, column[index])) == Some((entity, port));
      assert AliasOf(index, column[index]) in rows;
    }
  }

  // ----- all rows -----

  /** A row of a metric. */
  datatype Origin = Origin(metric: nat, index: Oid)

  ghost predicate Contributes(table: Table, aliases: Aliases, r: Rendering, o: Origin, reading: Reading<real>) {
    HasRow(table, o.metric, o.index) && ReadingOf(table, aliases, r, o.metric, o.index) == Some(reading)
  }

  /** The readings, each with the row it comes from. */
  ghost predicate Traced(table: Table, aliases: Aliases, r: Rendering, readings: seq<Reading<real>>,
                         origins: seq<Origin>) {
    && |readings| == |origins|
    && (forall k :: 0 <= k < |readings| ==> Contributes(table, aliases, r, origins[k], readings[k]))
    && (forall k, l :: 0 <= k < l < |origins| ==> origins[k] != origins[l])
  }

  /** Nothing that contributes is missing among the rows before metric `i`, and among those of `i` that are done. */
  ghost predicate Covered(table: Table, aliases: Aliases, r: Rendering, origins: seq<Origin>, i: nat, todo: set<Oid>) {
    forall o, reading ::
      Contributes(table, aliases, r, o, reading) && (o.metric < i || (o.metric == i && o.index !in todo)) ==>
        o in origins
  }

  function RowKeys(table: Table, i: nat): set<Oid> { if i < |table.metrics| then table.metrics[i].rows.Keys else {} }

  method RowReading(table: Table, aliases: Aliases, r: Rendering, i: nat, index: Oid)
    returns (reading: Option<Reading<real>>)
    requires HasRow(table, i, index)
    ensures reading == ReadingOf(table, aliases, r, i, index)
  {
    hide NearestAlias; hide IsSensor; hide Watts; hide Containers; hide Metric.Of;
    var metric := table.metrics[i];
    var raw := RawAt(metric, index);
    if raw.None? { return None; }
    if table.entities.Some? {
      var e := table.entities.value;
      if !IsSensor(table.metrics, metric, e, index, r) { return None; }
      assert |index| == 1 by { SensorIndex(table.metrics, metric, e, index, r); }
      var port := EntityPort(index[0], aliases, Containers(e.parents));
      if port.None? { return None; }
      var watts := Watts(e, index, metric.Of(raw.value));
      if watts.None? || watts.value <= 0.0 { return None; }
      return Some(Reading(port.value, metric.key, r.dbm(watts.value)));
    }
    var port := DirectPort(table, index);
    if port.None? { return None; }
    return Some(Reading(port.value, metric.key, metric.Of(raw.value)));
  }

  lemma SensorIndex(metrics: seq<Metric>, metric: Metric, e: Entities, index: Oid, r: Rendering)
    requires IsSensor(metrics, metric, e, index, r)
    ensures |index| == 1
  {
  }

  /** The readings are those of all rows that contribute, each once. */
  ghost predicate AllReadings(table: Table, aliases: Aliases, r: Rendering, readings: seq<Reading<real>>) {
    exists origins ::
      Traced(table, aliases, r, readings, origins) && Covered(table, aliases, r, origins, |table.metrics|, {})
  }

  /** The loop over all rows of all metrics, the rows of a metric in any order. */
  method CollectReadings(table: Table, aliases: Aliases, r: Rendering) returns (readings: seq<Reading<real>>)
    ensures AllReadings(table, aliases, r, readings)
  {
    hide ReadingOf;
    readings := [];
    ghost var origins: seq<Origin> := [];
    for i := 0 to |table.metrics|
      invariant Traced(table, aliases, r, readings, origins)
      invariant Covered(table, aliases, r, origins, i, RowKeys(table, i))
      invariant forall o :: o in origins ==> o.metric < i
    {
      var todo := table.metrics[i].rows.Keys;
      while todo != {}
        invariant todo <= table.metrics[i].rows.Keys
        invariant Traced(table, aliases, r, readings, origins) && Covered(table, aliases, r, origins, i, todo)
        invariant forall o :: o in origins ==> o.metric < i || (o.metric == i && o.index !in todo)
        decreases todo
      {
        var index :| index in todo;
        var reading := RowReading(table, aliases, r, i, index);
        if reading.Some? {
          readings, origins := readings + [reading.value], origins + [Origin(i, index)];
        }
        todo := todo - {index};
      }
    }
  }

  // ----- the join -----

  function Metered(power: OpticalPower<real>, key: MetricKey): Option<real> {
    if key == RxPower then power.rx else power.tx
  }

  /** Some row contributes to the port. */
  ghost predicate Observed(table: Table, aliases: Aliases, r: Rendering, port: nat) {
    exists o, reading :: Contributes(table, aliases, r, o, reading) && reading.port == port
  }

  /** The row is the only one that contributes to the slot, and contributes this value. */
  ghost predicate OnlyRow(table: Table, aliases: Aliases, r: Rendering, slot: Slot, o: Origin, value: real) {
    && Contributes(table, aliases, r, o, Reading(slot.port, slot.key, value))
    && forall other, reading :: Contributes(table, aliases, r, other, reading) && InSlot(reading, slot) ==> other == o
  }

  ghost predicate HasOnlyRow(table: Table, aliases: Aliases, r: Rendering, slot: Slot, value: real) {
    exists o :: OnlyRow(table, aliases, r, slot, o, value)
  }

  /**
   * The join as the tables have it: a port is listed if and only if some row contributes to it, and a metric of it has
   * a value if and only if exactly one row of all metrics contributes to it, and then it is that row's.
   */
  ghost predicate IsJoin(table: Table, aliases: Aliases, r: Rendering, power: map<nat, OpticalPower<real>>) {
    && (forall port :: port in power <==> Observed(table, aliases, r, port))
    && (forall port, key, value :: port in power ==>
          (Metered(power[port], key) == Some(value) <==> HasOnlyRow(table, aliases, r, Slot(port, key), value)))
  }

  lemma OnlyRowIsOnlyReading(table: Table, aliases: Aliases, r: Rendering, readings: seq<Reading<real>>,
                             origins: seq<Origin>, slot: Slot, value: real)
    requires Traced(table, aliases, r, readings, origins) && Covered(table, aliases, r, origins, |table.metrics|, {})
    ensures HasOnlyRow(table, aliases, r, slot, value)
       <==> exists k: nat :: OnlyReading(readings, k, slot) && readings[k].value == value
  {
    hide ReadingOf;
    if o :| OnlyRow(table, aliases, r, slot, o, value) {
      assert o in origins;
      var k :| 0 <= k < |origins| && origins[k] == o;
      assert Contributes(table, aliases, r, origins[k], readings[k]);
      forall j | 0 <= j < |readings| && j != k ensures !InSlot(readings[j], slot) {
        assert Contributes(table, aliases, r, origins[j], readings[j]);
      }
      assert OnlyReading(readings, k, slot);
    }
    if k: nat :| OnlyReading(readings, k, slot) && readings[k].value == value {
      assert Contributes(table, aliases, r, origins[k], readings[k]);
      forall other, reading | Contributes(table, aliases, r, other, reading) && InSlot(reading, slot)
        ensures other == origins[k]
      {
        assert other in origins;
        var j :| 0 <= j < |origins| && origins[j] == other;
        assert Contributes(table, aliases, r, origins[j], readings[j]);
      }
      assert OnlyRow(table, aliases, r, slot, origins[k], value);
    }
  }

  lemma JoinedIsJoin(table: Table, aliases: Aliases, r: Rendering, readings: seq<Reading<real>>,
                     power: map<nat, OpticalPower<real>>)
    requires AllReadings(table, aliases, r, readings) && Joined(readings, power)
    ensures IsJoin(table, aliases, r, power)
  {
    var origins: seq<Origin> :|
      Traced(table, aliases, r, readings, origins) && Covered(table, aliases, r, origins, |table.metrics|, {});
    hide *;
    PortsObserved(table, aliases, r, readings, origins, power);
    forall port, key, value | port in power
      ensures Metered(power[port], key) == Some(value) <==> HasOnlyRow(table, aliases, r, Slot(port, key), value)
    {
      OnlyRowIsOnlyReading(table, aliases, r, readings, origins, Slot(port, key), value);
      OnlyFromOne(readings, Slot(port, key), value);
      JoinedValue(readings, power, port, key);
    }
    IsJoinFrom(table, aliases, r, power);
  }

  lemma PortsObserved(table: Table, aliases: Aliases, r: Rendering, readings: seq<Reading<real>>, origins: seq<Origin>,
                      power: map<nat, OpticalPower<real>>)
    requires Traced(table, aliases, r, readings, origins) && Covered(table, aliases, r, origins, |table.metrics|, {})
    requires Joined(readings, power)
    ensures forall port :: port in power <==> Observed(table, aliases, r, port)
  {
    hide ReadingOf; hide Values; hide Only;
    forall port ensures port in power <==> Observed(table, aliases, r, port) {
      if port in power {
        assert HasReading(readings, port);
        var reading :| reading in readings && reading.port == port;
        var k :| 0 <= k < |readings| && readings[k] == reading;
        assert Contributes(table, aliases, r, origins[k], readings[k]);
      }
      if Observed(table, aliases, r, port) {
        var o, reading :| Contributes(table, aliases, r, o, reading) && reading.port == port;
        assert o in origins;
        var k :| 0 <= k < |origins| && origins[k] == o;
        assert Contributes(table, aliases, r, origins[k], readings[k]);
        assert readings[k] in readings;
      }
    }
  }

  lemma JoinedValue(readings: seq<Reading<real>>, power: map<nat, OpticalPower<real>>, port: nat, key: MetricKey)
    requires Joined(readings, power) && port in power
    ensures Metered(power[port], key) == Only(Values(readings, Slot(port, key)))
  {
    hide Values; hide Only;
  }

  lemma IsJoinFrom(table: Table, aliases: Aliases, r: Rendering, power: map<nat, OpticalPower<real>>)
    requires forall port :: port in power <==> Observed(table, aliases, r, port)
    requires forall port, key, value :: port in power ==>
               (Metered(power[port], key) == Some(value) <==> HasOnlyRow(table, aliases, r, Slot(port, key), value))
    ensures IsJoin(table, aliases, r, power)
  {
    hide Observed; hide HasOnlyRow; hide Metered;
  }

  /** The aliases of the entities, if the table has any. */
  ghost predicate IsAliasesOf(table: Table, aliases: Aliases) {
    if table.entities.Some? then IsAliasTable(table.entities.value.aliases, aliases) else aliases == map[]
  }

  /** The power is the join of the table, with the aliases that the table has. */
  ghost predicate IsPower(table: Table, r: Rendering, power: map<nat, OpticalPower<real>>) {
    exists aliases :: IsAliasesOf(table, aliases) && IsJoin(table, aliases, r, power)
  }

  method Join(table: Table, r: Rendering) returns (power: map<nat, OpticalPower<real>>)
    ensures IsPower(table, r, power)
  {
    hide IsJoin; hide IsAliasTable; hide AllReadings;
    var aliases: Aliases := map[];
    if table.entities.Some? { aliases := AliasTable(table.entities.value.aliases); }
    var readings := CollectReadings(table, aliases, r);
    power := JoinReadings(readings);
    JoinedIsJoin(table, aliases, r, readings, power);
    assert IsAliasesOf(table, aliases);
  }

  lemma AliasTableUnique(column: Column, a: Aliases, b: Aliases)
    requires IsAliasTable(column, a) && IsAliasTable(column, b)
    ensures a == b
  {
    hide ColumnMaps; hide ColumnAgrees;
    forall entity
      ensures entity in a <==> entity in b
      ensures entity in a ==> a[entity] == b[entity]
    {
      if entity in a && entity in b {
        if a[entity].Some? { assert ColumnAgrees(column, entity, a[entity].value); }
        if b[entity].Some? { assert ColumnAgrees(column, entity, b[entity].value); }
      }
    }
  }

  /** So the tables determine the join, in whatever order hash maps are traversed. */
  lemma JoinIsDetermined(table: Table, r: Rendering, power: map<nat, OpticalPower<real>>,
                         power': map<nat, OpticalPower<real>>)
    requires IsPower(table, r, power) && IsPower(table, r, power')
    ensures power == power'
  {
    hide IsAliasTable; hide IsJoin;
    var aliases :| IsAliasesOf(table, aliases) && IsJoin(table, aliases, r, power);
    var aliases' :| IsAliasesOf(table, aliases') && IsJoin(table, aliases', r, power');
    if table.entities.Some? { AliasTableUnique(table.entities.value.aliases, aliases, aliases'); }
    SameJoin(table, aliases, r, power, power');
  }

  lemma SameJoin(table: Table, aliases: Aliases, r: Rendering, power: map<nat, OpticalPower<real>>,
                 power': map<nat, OpticalPower<real>>)
    requires IsJoin(table, aliases, r, power) && IsJoin(table, aliases, r, power')
    ensures power == power'
  {
    hide Observed; hide HasOnlyRow;
    forall port ensures port in power <==> port in power' { }
    forall port | port in power ensures power[port] == power'[port] {
      SamePower(table, aliases, r, port, RxPower, power, power');
      SamePower(table, aliases, r, port, TxPower, power, power');
    }
  }

  lemma SamePower(table: Table, aliases: Aliases, r: Rendering, port: nat, key: MetricKey,
                  power: map<nat, OpticalPower<real>>, power': map<nat, OpticalPower<real>>)
    requires IsJoin(table, aliases, r, power) && IsJoin(table, aliases, r, power') && port in power && port in power'
    ensures Metered(power[port], key) == Metered(power'[port], key)
  {
    hide Observed; hide HasOnlyRow;
    var a, b := Metered(power[port], key), Metered(power'[port], key);
    if a.Some? { assert HasOnlyRow(table, aliases, r, Slot(port, key), a.value); }
    if b.Some? { assert HasOnlyRow(table, aliases, r, Slot(port, key), b.value); }
  }
}
