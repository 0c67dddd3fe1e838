/** Joining the walked LLDP tables into neighbors (normalize_lldp_neighbors in src/snmp/topology.rs). */
module LldpTables {
  import opened Basics
  import opened Snmp

  const LLDP_REM_TABLE: Oid := [1, 0, 8802, 1, 1, 2, 1, 4, 1, 1]
  const LLDP_REM_MAN_ADDR: Oid := [1, 0, 8802, 1, 1, 2, 1, 4, 2, 1, 4]
  const LLDP_LOC_PORT_TABLE: Oid := [1, 0, 8802, 1, 1, 2, 1, 3, 7, 1]
  const IF_TABLE: Oid := [1, 3, 6, 1, 2, 1, 2, 2, 1]
  const IF_X_TABLE: Oid := [1, 3, 6, 1, 2, 1, 31, 1, 1, 1]

  /** Chassis id subtype, chassis id, port id subtype, port id, system name. */
  const REMOTE_COLUMNS: seq<Oid> :=
    [LLDP_REM_TABLE + [4], LLDP_REM_TABLE + [5], LLDP_REM_TABLE + [6], LLDP_REM_TABLE + [7], LLDP_REM_TABLE + [9]]

  /** Port id subtype, port id, port description. */
  const LOCAL_COLUMNS: seq<Oid> := [LLDP_LOC_PORT_TABLE + [2], LLDP_LOC_PORT_TABLE + [3], LLDP_LOC_PORT_TABLE + [4]]

  /** Name, description, alias, physical address. */
  const INTERFACE_COLUMNS: seq<Oid> := [IF_X_TABLE + [1], IF_TABLE + [2], IF_X_TABLE + [18], IF_TABLE + [6]]

  // ----- values -----

  function AsU32(value: SnmpValue): Option<nat> {
    if value.Number? && 0 <= value.n <= U32_MAX then Some(value.n) else None
  }

  function AsBytes(value: SnmpValue): Option<seq<byte>> {
    if value.Octets? then Some(value.octets) else None
  }

  /** A text is kept as its octets, or as the value that would be rendered. */
  datatype Text = Raw(octets: seq<byte>) | Rendered(value: SnmpValue)

  function TrimFront(octets: seq<byte>): seq<byte> {
    if octets == [] || octets[0] != 0 then octets else TrimFront(octets[1..])
  }

  function TrimBack(octets: seq<byte>): seq<byte> {
    if octets == [] || octets[|octets| - 1] != 0 then octets else TrimBack(octets[..|octets| - 1])
  }

  function AsText(value: SnmpValue): Option<Text> {
    match value
    case Octets(octets) => var t := TrimBack(TrimFront(octets)); if t == [] then None else Some(Raw(t))
    case Null => None
    case Unsupported => None
    case ObjectId(oid) => if oid == [] then None else Some(Rendered(value))
    case _ => Some(Rendered(value))
  }

  // ----- columns and cells -----

  function Suffix(oid: Oid, prefix: Oid): Option<Oid> {
    if prefix <= oid then Some(oid[|prefix|..]) else None
  }

  /** The first column that `oid` belongs to, with a nonempty index. */
  function MatchColumn(oid: Oid, columns: seq<Oid>, from: nat := 0): (r: Option<(nat, Oid)>)
    ensures match r
            case Some((column, index)) =>
              && from <= column < |columns| && index != [] && oid == columns[column] + index
              && forall c :: from <= c < column ==> !(columns[c] < oid)
            case None => forall c :: from <= c < |columns| ==> !(columns[c] < oid)
    decreases |columns| - from
  {
    if from >= |columns| then None
    else
      var suffix := Suffix(oid, columns[from]);
      if suffix.Some? && suffix.value != [] then Some((from, suffix.value)) else MatchColumn(oid, columns, from + 1)
  }

  datatype Cell = Cell(column: nat, key: Oid)

  /** The table cell that a row fills; keys are the first `width` arcs of the index. */
  function CellOf(row: VarBind, columns: seq<Oid>, width: nat): Option<Cell> {
    match MatchColumn(row.oid, columns)
    case None => None
    case Some((column, suffix)) => if |suffix| < width then None else Some(Cell(column, suffix[..width]))
  }

  /** The cells of a table; a later row overwrites an earlier one. */
  function Cells(rows: seq<VarBind>, columns: seq<Oid>, width: nat): map<Cell, SnmpValue> {
    if rows == [] then map[]
    else
      var n := |rows| - 1;
      var cells := Cells(rows[..n], columns, width);
      match CellOf(rows[n], columns, width) case None => cells case Some(cell) => cells[cell := rows[n].value]
  }

  function KeysOf(cells: map<Cell, SnmpValue>): set<Oid> { set cell | cell in cells :: cell.key }

  function At(cells: map<Cell, SnmpValue>, column: nat, key: Oid): Option<SnmpValue> {
    if Cell(column, key) in cells then Some(cells[Cell(column, key)]) else None
  }

  function BytesAt(cells: map<Cell, SnmpValue>, column: nat, key: Oid): Option<seq<byte>> {
    match At(cells, column, key) case None => None case Some(value) => AsBytes(value)
  }

  function NumberAt(cells: map<Cell, SnmpValue>, column: nat, key: Oid): Option<nat> {
    match At(cells, column, key) case None => None case Some(value) => AsU32(value)
  }

  function TextAt(cells: map<Cell, SnmpValue>, column: nat, key: Oid): Option<Text> {
    match At(cells, column, key) case None => None case Some(value) => AsText(value)
  }

  /** Rows that fill the same cell agree on its value. */
  predicate Unambiguous(rows: seq<VarBind>, columns: seq<Oid>, width: nat, cell: Cell) {
    forall r, q :: r in rows && q in rows && CellOf(r, columns, width) == Some(cell) == CellOf(q, columns, width) ==>
      r.value == q.value
  }

  /** An unambiguous cell holds the value of any row that fills it. */
  lemma {:induction false} CellHolds(rows: seq<VarBind>, columns: seq<Oid>, width: nat, cell: Cell)
    requires Unambiguous(rows, columns, width, cell)
    ensures cell in Cells(rows, columns, width) <==> exists r :: r in rows && CellOf(r, columns, width) == Some(cell)
    ensures forall r :: r in rows && CellOf(r, columns, width) == Some(cell) ==>
              Cells(rows, columns, width)[cell] == r.value
  {
    if rows != [] {
      var n := |rows| - 1;
      assert forall r :: r in rows <==> r in rows[..n] || r == rows[n] by { assert rows == rows[..n] + [rows[n]]; }
      CellHolds(rows[..n], columns, width, cell);
    }
  }

  /** So it does not depend on the order of the rows. */
  lemma CellsAgree(rows: seq<VarBind>, rows': seq<VarBind>, columns: seq<Oid>, width: nat, cell: Cell)
    requires Unambiguous(rows, columns, width, cell) && forall r :: r in rows <==> r in rows'
    ensures cell in Cells(rows, columns, width) <==> cell in Cells(rows', columns, width)
    ensures cell in Cells(rows, columns, width) ==>
              Cells(rows, columns, width)[cell] == Cells(rows', columns, width)[cell]
  {
    CellHolds(rows, columns, width, cell);
    CellHolds(rows', columns, width, cell);
  }

  // ----- interfaces and local ports -----

  datatype Interface = Interface(
    name: Option<seq<byte>>, description: Option<seq<byte>>, alias: Option<seq<byte>>,
    physicalAddress: Option<seq<byte>>)

  datatype LocalPort = LocalPort(subtype: Option<nat>, id: Option<seq<byte>>, description: Option<seq<byte>>)

  datatype LldpRow = LldpRow(
    chassisSubtype: Option<nat>, chassisId: Option<seq<byte>>, portSubtype: Option<nat>, portId: Option<seq<byte>>,
    hostname: Option<Text>)

  /** The entries of a table by key, each put together from the cells of its row. */
  function Entries<R>(cells: map<Cell, SnmpValue>, at: (map<Cell, SnmpValue>, Oid) -> R): map<Oid, R> {
    map key | key in KeysOf(cells) :: at(cells, key)
  }

  function InterfaceAt(cells: map<Cell, SnmpValue>, key: Oid): Interface {
    Interface(BytesAt(cells, 0, key), BytesAt(cells, 1, key), BytesAt(cells, 2, key), BytesAt(cells, 3, key))
  }

  function LocalPortAt(cells: map<Cell, SnmpValue>, key: Oid): LocalPort {
    LocalPort(NumberAt(cells, 0, key), BytesAt(cells, 1, key), BytesAt(cells, 2, key))
  }

  function LldpRowAt(cells: map<Cell, SnmpValue>, key: Oid): LldpRow {
    LldpRow(NumberAt(cells, 0, key), BytesAt(cells, 1, key), NumberAt(cells, 2, key), BytesAt(cells, 3, key),
            TextAt(cells, 4, key))
  }

  function Interfaces(rows: seq<VarBind>): map<Oid, Interface> {
    Entries(Cells(rows, INTERFACE_COLUMNS, 1), InterfaceAt)
  }

  function LocalPorts(rows: seq<VarBind>): map<Oid, LocalPort> { Entries(Cells(rows, LOCAL_COLUMNS, 1), LocalPortAt) }

  function RemoteRows(rows: seq<VarBind>): map<Oid, LldpRow> { Entries(Cells(rows, REMOTE_COLUMNS, 3), LldpRowAt) }

  function EqualBytes(left: Option<seq<byte>>, right: Option<seq<byte>>): bool {
    left.Some? && right.Some? && left.value != [] && left.value == right.value
  }

  predicate Matches(port: LocalPort, i: Interface) {
    || (port.subtype == Some(1) && EqualBytes(port.id, i.alias))
    || (port.subtype == Some(3) && EqualBytes(port.id, i.physicalAddress))
    || (port.subtype == Some(5) && EqualBytes(port.id, i.name))
    || EqualBytes(port.description, i.name)
    || EqualBytes(port.description, i.description)
  }

  function Candidates(port: LocalPort, interfaces: map<Oid, Interface>): set<Oid> {
    set key | key in interfaces && Matches(port, interfaces[key])
  }

  /** The interface of a local port, if exactly one matches. */
  ghost function Resolve(port: LocalPort, interfaces: map<Oid, Interface>): (r: Option<Oid>)
    ensures r.Some? <==> |Candidates(port, interfaces)| == 1
    ensures r.Some? ==> Candidates(port, interfaces) == {r.value}
  {
    var candidates := Candidates(port, interfaces);
    if |candidates| == 1 then
      var key :| key in candidates;
      assert |candidates - {key}| == 0;
      assert candidates == {key};
      Some(key)
    else None
  }

  method ResolveLocalPort(port: LocalPort, interfaces: map<Oid, Interface>) returns (r: Option<Oid>)
    ensures r == Resolve(port, interfaces)
  {
    var candidates: set<Oid> := {};
    var todo := interfaces.Keys;
    while todo != {}
      invariant todo <= interfaces.Keys
      invariant candidates == set key | key in interfaces && key !in todo && Matches(port, interfaces[key])
      decreases todo
    {
      var key :| key in todo;
      if Matches(port, interfaces[key]) { candidates := candidates + {key}; }
      todo := todo - {key};
    }
    assert candidates == Candidates(port, interfaces);
    if |candidates| == 1 {
      var key :| key in candidates;
      return Some(key);
    }
    return None;
  }

  // ----- management addresses -----

  /** The address in the index of a management address row, behind its type and length. */
  function IndexedAddress(suffix: Oid): Option<seq<byte>> {
    if |suffix| < 2 || |suffix| < 2 + suffix[1] then None
    else
      var octets := suffix[2..2 + suffix[1]];
      if !(forall i :: 0 <= i < |octets| ==> octets[i] < 256) then None
      else if (suffix[0] == 1 && |octets| == 4) || (suffix[0] == 2 && |octets| == 16) then
        Some(seq(|octets|, i requires 0 <= i < |octets| => octets[i] as byte))
      else None
  }

  function LldpAddress(value: SnmpValue, suffix: Oid): Option<seq<byte>> {
    match value
    case IpAddress(octets) => Some(octets)
    case Octets(octets) => if |octets| == 4 || |octets| == 16 then Some(octets) else IndexedAddress(suffix)
    case _ => IndexedAddress(suffix)
  }

  /** The key and the address that a management address row contributes. */
  function Contribution(row: VarBind): Option<(Oid, seq<byte>)> {
    match Suffix(row.oid, LLDP_REM_MAN_ADDR)
    case None => None
    case Some(suffix) =>
      if |suffix| < 6 then None
      else
        match LldpAddress(row.value, suffix[3..])
        case None => None
        case Some(address) => Some((suffix[..3], address))
  }

  /** The first address of each remote row wins. */
  function Addresses(rows: seq<VarBind>): map<Oid, seq<byte>> {
    if rows == [] then map[]
    else
      var n := |rows| - 1;
      var earlier := Addresses(rows[..n]);
      match Contribution(rows[n])
      case None => earlier
      case Some((key, address)) => if key in earlier then earlier else earlier[key := address]
  }

  // ----- neighbors -----

  datatype Identifier = Identifier(subtype: Option<nat>, value: seq<byte>)

  datatype Neighbor = Neighbor(
    localIfIndex: Option<nat>, localPortId: Option<seq<byte>>, localPortName: Option<seq<byte>>,
    chassis: Option<Identifier>, hostname: Option<Text>, ip: Option<seq<byte>>,
    portId: Option<seq<byte>>, portSubtype: Option<nat>)

  function InterfaceName(i: Interface): Option<seq<byte>> { if i.name.Some? then i.name else i.description }

  function Lookup<K, V>(m: map<K, V>, k: K): Option<V> { if k in m then Some(m[k]) else None }

  ghost function NeighborOf(key: Oid, row: LldpRow, ports: map<Oid, LocalPort>, interfaces: map<Oid, Interface>,
                            addresses: map<Oid, seq<byte>>): Neighbor
    requires |key| == 3
  {
    var port := Lookup(ports, [key[1]]);
    var resolved := if port.Some? then Resolve(port.value, interfaces) else None;
    MakeNeighbor(key, row, port, resolved, interfaces, addresses)
  }

  function MakeNeighbor(key: Oid, row: LldpRow, port: Option<LocalPort>, resolved: Option<Oid>,
                        interfaces: map<Oid, Interface>, addresses: map<Oid, seq<byte>>): Neighbor
  {
    Neighbor(
      if resolved.Some? && resolved.value != [] then Some(resolved.value[0]) else None,
      if port.Some? then port.value.id else None,
      if resolved.Some? && resolved.value in interfaces then InterfaceName(interfaces[resolved.value]) else None,
      if row.chassisId.Some? then Some(Identifier(row.chassisSubtype, row.chassisId.value)) else None,
      row.hostname, Lookup(addresses, key), row.portId, row.portSubtype)
  }

  lemma {:induction false} CellsWidth(rows: seq<VarBind>, columns: seq<Oid>, width: nat)
    ensures forall cell :: cell in Cells(rows, columns, width) ==> |cell.key| == width && cell.column < |columns|
  {
    if rows != [] { CellsWidth(rows[..|rows| - 1], columns, width); }
  }

  /** The neighbors by remote row key; the program lists them in the order of the keys. */
  ghost function Neighbors(remote: seq<VarBind>, management: seq<VarBind>, local: seq<VarBind>,
                           ifs: seq<VarBind>): map<Oid, Neighbor> {
    RemoteKeyWidth(remote);
    var rows := RemoteRows(remote);
    map key | key in rows :: NeighborOf(key, rows[key], LocalPorts(local), Interfaces(ifs), Addresses(management))
  }

  // ----- the loops -----

  lemma CellsSnoc(rows: seq<VarBind>, columns: seq<Oid>, width: nat)
    requires rows != []
    ensures var n := |rows| - 1;
            var earlier := Cells(rows[..n], columns, width);
            Cells(rows, columns, width) ==
              match CellOf(rows[n], columns, width)
              case None => earlier
              case Some(cell) => earlier[cell := rows[n].value]
  {
  }

  lemma CellColumn(row: VarBind, columns: seq<Oid>, width: nat)
    ensures var cell := CellOf(row, columns, width); cell.Some? ==>
              cell.value.column < |columns| && |cell.value.key| == width
  {
  }

  lemma FillCell(cells: map<Cell, SnmpValue>, cell: Cell, value: SnmpValue)
    ensures KeysOf(cells[cell := value]) == KeysOf(cells) + {cell.key}
    ensures cell.key !in KeysOf(cells) ==> forall column :: Cell(column, cell.key) !in cells
  {
    var filled := cells[cell := value];
    forall key ensures key in KeysOf(filled) <==> key in KeysOf(cells) + {cell.key} {
      if key in KeysOf(filled) {
        var c :| c in filled && c.key == key;
      }
      if key in KeysOf(cells) {
        var c :| c in cells && c.key == key;
        assert c in filled;
      }
      if key == cell.key { assert cell in filled; }
    }
    forall column | Cell(column, cell.key) in cells ensures cell.key in KeysOf(cells) {
      assert Cell(column, cell.key).key == cell.key;
    }
  }

  /** Filling a cell updates the entry of its row, which starts blank, and no other. */
  ghost predicate Fills<R(!new)>(at: (map<Cell, SnmpValue>, Oid) -> R, fill: (R, nat, SnmpValue) -> R, blank: R,
                          columns: nat) {
    && (forall cells, cell: Cell, value :: cell.column < columns ==>
          at(cells[cell := value], cell.key) == fill(at(cells, cell.key), cell.column, value))
    && (forall cells, cells', key :: SameRow(cells, cells', key) ==> at(cells, key) == at(cells', key))
    && (forall cells, key :: (forall column: nat :: Cell(column, key) !in cells) ==> at(cells, key) == blank)
  }

  ghost predicate SameRow(cells: map<Cell, SnmpValue>, cells': map<Cell, SnmpValue>, key: Oid) {
    forall column: nat :: At(cells, column, key) == At(cells', column, key)
  }

  /** One turn of the loops that build the tables. */
  lemma TableStep<R(!new)>(rows: seq<VarBind>, i: nat, columns: seq<Oid>, width: nat,
                           at: (map<Cell, SnmpValue>, Oid) -> R, fill: (R, nat, SnmpValue) -> R, blank: R)
    requires i < |rows| && Fills(at, fill, blank, |columns|)
    ensures var before := Entries(Cells(rows[..i], columns, width), at);
            var after := Entries(Cells(rows[..i + 1], columns, width), at);
            match CellOf(rows[i], columns, width)
            case None => after == before
            case Some(cell) =>
              var entry := if cell.key in before then before[cell.key] else blank;
              after == before[cell.key := fill(entry, cell.column, rows[i].value)]
  {
    hide CellOf; hide KeysOf;
    assert rows[..i + 1][..i] == rows[..i];
    var cells := Cells(rows[..i], columns, width);
    CellsSnoc(rows[..i + 1], columns, width);
    hide Cells;
    match CellOf(rows[i], columns, width)
    case None =>
    case Some(cell) =>
      CellColumn(rows[i], columns, width);
      FillCell(cells, cell, rows[i].value);
      if cell.key !in KeysOf(cells) { assert at(cells, cell.key) == blank; }
      var filled := cells[cell := rows[i].value];
      forall key | key != cell.key ensures at(filled, key) == at(cells, key) { assert SameRow(filled, cells, key); }
      assert at(filled, cell.key) == fill(at(cells, cell.key), cell.column, rows[i].value);
  }

  lemma NoEntries<R>(at: (map<Cell, SnmpValue>, Oid) -> R)
    ensures forall columns, width: nat :: Entries(Cells([], columns, width), at) == map[]
  {
  }

  function FillInterface(old_: Interface, column: nat, value: SnmpValue): Interface {
    match column
    case 0 => old_.(name := AsBytes(value))
    case 1 => old_.(description := AsBytes(value))
    case 2 => old_.(alias := AsBytes(value))
    case _ => old_.(physicalAddress := AsBytes(value))
  }

  const BLANK_INTERFACE := Interface(None, None, None, None)

  lemma InterfaceFills()
    ensures Fills(InterfaceAt, FillInterface, BLANK_INTERFACE, |INTERFACE_COLUMNS|)
  {
    forall cells, cells', key | SameRow(cells, cells', key)
      ensures InterfaceAt(cells, key) == InterfaceAt(cells', key)
    {
      assert forall column: nat :: At(cells, column, key) == At(cells', column, key);
    }
  }

  /** interface_map */
  method InterfaceMap(rows: seq<VarBind>) returns (result: map<Oid, Interface>)
    ensures result == Interfaces(rows)
  {
    hide MatchColumn; hide Fills; hide Cells; hide KeysOf;
    result := map[];
    assert Fills(InterfaceAt, FillInterface, BLANK_INTERFACE, |INTERFACE_COLUMNS|) by { InterfaceFills(); }
    assert rows[..0] == [] && Interfaces([]) == map[] by { NoEntries(InterfaceAt); }
    var i := 0;
    while i < |rows|
      invariant 0 <= i <= |rows| && result == Interfaces(rows[..i])
    {
      TableStep(rows, i, INTERFACE_COLUMNS, 1, InterfaceAt, FillInterface, BLANK_INTERFACE);
      var matched := MatchColumn(rows[i].oid, INTERFACE_COLUMNS);
      if matched.Some? && |matched.value.1| >= 1 {
        var (column, suffix) := matched.value;
        var key := suffix[..1];
        var entry := if key in result then result[key] else BLANK_INTERFACE;
        result := result[key := FillInterface(entry, column, rows[i].value)];
      }
      i := i + 1;
    }
    assert rows[..i] == rows;
  }

  function FillLocalPort(old_: LocalPort, column: nat, value: SnmpValue): LocalPort {
    match column
    case 0 => old_.(subtype := AsU32(value))
    case 1 => old_.(id := AsBytes(value))
    case _ => old_.(description := AsBytes(value))
  }

  const BLANK_LOCALPORT := LocalPort(None, None, None)

  lemma LocalPortFills()
    ensures Fills(LocalPortAt, FillLocalPort, BLANK_LOCALPORT, |LOCAL_COLUMNS|)
  {
    forall cells, cells', key | SameRow(cells, cells', key)
      ensures LocalPortAt(cells, key) == LocalPortAt(cells', key)
    {
      assert forall column: nat :: At(cells, column, key) == At(cells', column, key);
    }
  }

  /** local_port_map */
  method LocalPortMap(rows: seq<VarBind>) returns (result: map<Oid, LocalPort>)
    ensures result == LocalPorts(rows)
  {
    hide MatchColumn; hide Fills; hide Cells; hide KeysOf;
    result := map[];
    assert Fills(LocalPortAt, FillLocalPort, BLANK_LOCALPORT, |LOCAL_COLUMNS|) by { LocalPortFills(); }
    assert rows[..0] == [] && LocalPorts([]) == map[] by { NoEntries(LocalPortAt); }
    var i := 0;
    while i < |rows|
      invariant 0 <= i <= |rows| && result == LocalPorts(rows[..i])
    {
      TableStep(rows, i, LOCAL_COLUMNS, 1, LocalPortAt, FillLocalPort, BLANK_LOCALPORT);
      var matched := MatchColumn(rows[i].oid, LOCAL_COLUMNS);
      if matched.Some? && |matched.value.1| >= 1 {
        var (column, suffix) := matched.value;
        var key := suffix[..1];
        var entry := if key in result then result[key] else BLANK_LOCALPORT;
        result := result[key := FillLocalPort(entry, column, rows[i].value)];
      }
      i := i + 1;
    }
    assert rows[..i] == rows;
  }

  function FillLldpRow(old_: LldpRow, column: nat, value: SnmpValue): LldpRow {
    match column
    case 0 => old_.(chassisSubtype := AsU32(value))
    case 1 => old_.(chassisId := AsBytes(value))
    case 2 => old_.(portSubtype := AsU32(value))
    case 3 => old_.(portId := AsBytes(value))
    case _ => old_.(hostname := AsText(value))
  }

  const BLANK_LLDPROW := LldpRow(None, None, None, None, None)

  lemma LldpRowFills()
    ensures Fills(LldpRowAt, FillLldpRow, BLANK_LLDPROW, |REMOTE_COLUMNS|)
  {
    hide AsU32; hide AsBytes; hide AsText;
    forall cells, cells', key | SameRow(cells, cells', key) ensures LldpRowAt(cells, key) == LldpRowAt(cells', key) {
      assert forall column: nat :: At(cells, column, key) == At(cells', column, key);
    }
  }

  /** The first loop of normalize_lldp_neighbors. */
  method RemoteRowMap(rows: seq<VarBind>) returns (result: map<Oid, LldpRow>)
    ensures result == RemoteRows(rows)
  {
    hide MatchColumn; hide Fills; hide Cells; hide KeysOf;
    result := map[];
    assert Fills(LldpRowAt, FillLldpRow, BLANK_LLDPROW, |REMOTE_COLUMNS|) by { LldpRowFills(); }
    assert rows[..0] == [] && RemoteRows([]) == map[] by { NoEntries(LldpRowAt); }
    var i := 0;
    while i < |rows|
      invariant 0 <= i <= |rows| && result == RemoteRows(rows[..i])
    {
      TableStep(rows, i, REMOTE_COLUMNS, 3, LldpRowAt, FillLldpRow, BLANK_LLDPROW);
      var matched := MatchColumn(rows[i].oid, REMOTE_COLUMNS);
      if matched.Some? && |matched.value.1| >= 3 {
        var (column, suffix) := matched.value;
        var key := suffix[..3];
        var entry := if key in result then result[key] else BLANK_LLDPROW;
        result := result[key := FillLldpRow(entry, column, rows[i].value)];
      }
      i := i + 1;
    }
    assert rows[..i] == rows;
  }

  method AddressMap(rows: seq<VarBind>) returns (result: map<Oid, seq<byte>>)
    ensures result == Addresses(rows)
  {
    result := map[];
    var i := 0;
    while i < |rows|
      invariant 0 <= i <= |rows| && result == Addresses(rows[..i])
    {
      assert rows[..i + 1][..i] == rows[..i];
      var contribution := Contribution(rows[i]);
      if contribution.Some? && contribution.value.0 !in result {
        result := result[contribution.value.0 := contribution.value.1];
      }
      i := i + 1;
    }
    assert rows[..i] == rows;
  }

  method NormalizeLldpNeighbors(remote: seq<VarBind>, management: seq<VarBind>, local: seq<VarBind>, ifs: seq<VarBind>)
    returns (neighbors: map<Oid, Neighbor>)
    ensures neighbors == Neighbors(remote, management, local, ifs)
  {
    hide RemoteRows; hide LocalPorts; hide Interfaces; hide Addresses; hide Neighbors;
    var rows := RemoteRowMap(remote);
    RemoteKeyWidth(remote);
    var ports := LocalPortMap(local);
    var interfaces := InterfaceMap(ifs);
    var addresses := AddressMap(management);
    neighbors := map[];
    var todo := rows.Keys;
    while todo != {}
      invariant todo <= rows.Keys && neighbors.Keys == rows.Keys - todo
      invariant forall key :: key in neighbors ==>
                  |key| == 3 && neighbors[key] == NeighborOf(key, rows[key], ports, interfaces, addresses)
      decreases todo
    {
      var key :| key in todo;
      var neighbor := JoinNeighbor(key, rows[key], ports, interfaces, addresses);
      neighbors := neighbors[key := neighbor];
      todo := todo - {key};
    }
    NeighborsAre(remote, management, local, ifs, neighbors);
  }

  lemma RemoteKeyWidth(remote: seq<VarBind>)
    ensures forall key :: key in RemoteRows(remote) ==> |key| == 3
  {
    CellsWidth(remote, REMOTE_COLUMNS, 3);
  }

  lemma NeighborsAre(remote: seq<VarBind>, management: seq<VarBind>, local: seq<VarBind>, ifs: seq<VarBind>,
                     neighbors: map<Oid, Neighbor>)
    requires neighbors.Keys == RemoteRows(remote).Keys
    requires forall key :: key in neighbors ==> |key| == 3
    requires var rows, ports, interfaces := RemoteRows(remote), LocalPorts(local), Interfaces(ifs);
             var addresses := Addresses(management);
             forall key :: key in neighbors ==>
               neighbors[key] == NeighborOf(key, rows[key], ports, interfaces, addresses)
    ensures neighbors == Neighbors(remote, management, local, ifs)
  {
    hide RemoteRows; hide LocalPorts; hide Interfaces; hide Addresses; hide NeighborOf;
    RemoteKeyWidth(remote);
  }

  /** One turn of the closing map over the rows. */
  method JoinNeighbor(key: Oid, row: LldpRow, ports: map<Oid, LocalPort>, interfaces: map<Oid, Interface>,
                      addresses: map<Oid, seq<byte>>)
    returns (neighbor: Neighbor)
    requires |key| == 3
    ensures neighbor == NeighborOf(key, row, ports, interfaces, addresses)
  {
    var port := Lookup(ports, [key[1]]);
    var resolved := None;
    if port.Some? { resolved := ResolveLocalPort(port.value, interfaces); }
    neighbor := MakeNeighbor(key, row, port, resolved, interfaces, addresses);
  }
}
