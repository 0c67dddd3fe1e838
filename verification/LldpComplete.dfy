/** What a complete quality report on LLDP tables guarantees about the neighbors. */
module LldpComplete {
  import opened Basics
  import opened Snmp
  import opened LldpTables
  import opened LldpQuality

  // ----- the two passes over the remote rows see the same cells -----

  const COLUMN_NUMBERS: seq<nat> := [4, 5, 6, 7, 9]

  predicate AllWellIndexed(rows: seq<VarBind>) {
    forall r :: r in rows && RemoteIndex(r).Some? ==> WellIndexed(RemoteIndex(r).value)
  }

  lemma {:induction false} RejectedNone(rows: seq<VarBind>)
    ensures ScanRows(rows).rejected == {} ==> AllWellIndexed(rows)
  {
    if rows != [] {
      var n := |rows| - 1;
      RejectedNone(rows[..n]);
      assert rows == rows[..n] + [rows[n]];
      if RemoteIndex(rows[n]).Some? && !WellIndexed(RemoteIndex(rows[n]).value) {
        assert Tail(RemoteIndex(rows[n]).value) in ScanRows(rows).rejected;
      }
    }
  }

  /** The column of REMOTE_COLUMNS that holds a given column number. */
  function ColumnIndex(number: nat): Option<nat> {
    if number == 4 then Some(0) else if number == 5 then Some(1) else if number == 6 then Some(2)
    else if number == 7 then Some(3) else if number == 9 then Some(4) else None
  }

  lemma ColumnPrefix(oid: Oid, number: nat)
    ensures var index := Suffix(oid, LLDP_REM_TABLE);
            var column := Suffix(oid, LLDP_REM_TABLE + [number]);
            if index.Some? && index.value != [] && index.value[0] == number then column == Some(index.value[1..])
            else column == None
  {
    var full := LLDP_REM_TABLE + [number];
    if full <= oid {
      assert LLDP_REM_TABLE <= oid && oid[10] == full[10];
      assert oid[|full|..] == oid[10..][1..];
    } else if |oid| > 10 {
      assert oid[..11] == oid[..10] + [oid[10]];
    }
  }

  lemma RemoteCell(row: VarBind)
    requires RemoteIndex(row).Some? ==> WellIndexed(RemoteIndex(row).value)
    ensures CellOf(row, REMOTE_COLUMNS, 3) ==
            match RemoteIndex(row)
            case None => None
            case Some(suffix) =>
              match ColumnIndex(suffix[0]) case None => None case Some(column) => Some(Cell(column, suffix[1..]))
  {
    ColumnPrefix(row.oid, 4);
    ColumnPrefix(row.oid, 5);
    ColumnPrefix(row.oid, 6);
    ColumnPrefix(row.oid, 7);
    ColumnPrefix(row.oid, 9);
    assert MatchColumn(row.oid, REMOTE_COLUMNS, 5) == None;
    var m4 := MatchColumn(row.oid, REMOTE_COLUMNS, 4);
    var m3 := MatchColumn(row.oid, REMOTE_COLUMNS, 3);
    var m2 := MatchColumn(row.oid, REMOTE_COLUMNS, 2);
    var m1 := MatchColumn(row.oid, REMOTE_COLUMNS, 1);
    var m0 := MatchColumn(row.oid, REMOTE_COLUMNS, 0);
    if RemoteIndex(row).Some? {
      var key := RemoteIndex(row).value[1..];
      assert key[..3] == key;
    }
  }

  lemma {:induction false} SameCells(rows: seq<VarBind>, column: nat, key: Oid)
    requires AllWellIndexed(rows) && column < 5
    ensures At(Cells(rows, REMOTE_COLUMNS, 3), column, key) == At(ScanRows(rows).indexed, COLUMN_NUMBERS[column], key)
  {
    if rows != [] {
      var n := |rows| - 1;
      assert rows[n] in rows && forall r :: r in rows[..n] ==> r in rows;
      SameCells(rows[..n], column, key);
      CellsSnoc(rows, REMOTE_COLUMNS, 3);
      ScanSnoc(rows);
      hide Cells; hide ScanRows; hide CellOf; hide RemoteIndex;
      SameCell(Cells(rows[..n], REMOTE_COLUMNS, 3), ScanRows(rows[..n]), rows[n], column, key);
    }
  }

  lemma ScanSnoc(rows: seq<VarBind>)
    requires rows != []
    ensures ScanRows(rows) == ScanRow(ScanRows(rows[..|rows| - 1]), rows[|rows| - 1])
  {
  }

  /** The same after one more row. */
  lemma SameCell(cells: map<Cell, SnmpValue>, scan: Scan, row: VarBind, column: nat, key: Oid)
    requires column < 5 && (RemoteIndex(row).Some? ==> WellIndexed(RemoteIndex(row).value))
    requires At(cells, column, key) == At(scan.indexed, COLUMN_NUMBERS[column], key)
    ensures var cell := CellOf(row, REMOTE_COLUMNS, 3);
            At(if cell.Some? then cells[cell.value := row.value] else cells, column, key)
            == At(ScanRow(scan, row).indexed, COLUMN_NUMBERS[column], key)
  {
    RemoteCell(row);
    hide CellOf; hide RemoteIndex;
  }

  /** The keys of the scan are the remote row keys. */
  lemma {:induction false} ScanKeys(rows: seq<VarBind>)
    requires AllWellIndexed(rows)
    ensures KeysOf(ScanRows(rows).indexed) == RemoteKeys(rows)
  {
    if rows != [] {
      var n := |rows| - 1;
      var row := rows[n];
      assert forall r :: r in rows <==> r in rows[..n] || r == row by { assert rows == rows[..n] + [row]; }
      ScanKeys(rows[..n]);
      if RemoteIndex(row).Some? {
        var suffix := RemoteIndex(row).value;
        FillCell(ScanRows(rows[..n]).indexed, Cell(suffix[0], suffix[1..]), row.value);
        assert RemoteKeys(rows) == RemoteKeys(rows[..n]) + {suffix[1..]};
      } else {
        assert RemoteKeys(rows) == RemoteKeys(rows[..n]);
      }
    }
  }

  /** Every row of the remote table is remembered under its cell. */
  lemma {:induction false} Remembered(rows: seq<VarBind>, i: nat)
    requires i < |rows| && RemoteIndex(rows[i]).Some? && WellIndexed(RemoteIndex(rows[i]).value)
    ensures var suffix := RemoteIndex(rows[i]).value; Cell(suffix[0], suffix[1..]) in ScanRows(rows).indexed
  {
    if i < |rows| - 1 { Remembered(rows[..|rows| - 1], i); }
  }

  /** A last row whose cell is already taken is flagged. */
  lemma Flagged(rows: seq<VarBind>)
    requires rows != [] && RemoteIndex(rows[|rows| - 1]).Some? && WellIndexed(RemoteIndex(rows[|rows| - 1]).value)
    requires var suffix := RemoteIndex(rows[|rows| - 1]).value;
             Cell(suffix[0], suffix[1..]) in ScanRows(rows[..|rows| - 1]).indexed
    ensures RemoteIndex(rows[|rows| - 1]).value[1..] in ScanRows(rows).duplicates
  {
  }

  /** Without duplicates, no two rows of the remote table have the same name. */
  lemma {:induction false} NoDuplicates(rows: seq<VarBind>, i: nat, j: nat)
    requires AllWellIndexed(rows) && ScanRows(rows).duplicates == {}
    requires i < j < |rows| && RemoteIndex(rows[i]).Some?
    ensures rows[i].oid != rows[j].oid
  {
    var n := |rows| - 1;
    var init := rows[..n];
    assert forall r :: r in init ==> r in rows;
    assert ScanRows(init).duplicates <= ScanRows(rows).duplicates;
    if j < n {
      NoDuplicates(init, i, j);
    } else if rows[i].oid == rows[j].oid {
      assert rows[i] in rows;
      Remembered(init, i);
      Flagged(rows);
    }
  }

  lemma RemoteUnambiguous(rows: seq<VarBind>, cell: Cell)
    requires AllWellIndexed(rows) && ScanRows(rows).duplicates == {}
    ensures Unambiguous(rows, REMOTE_COLUMNS, 3, cell)
  {
    hide CellOf; hide ScanRows; hide RemoteIndex;
    forall r, q | r in rows && q in rows && CellOf(r, REMOTE_COLUMNS, 3) == Some(cell) == CellOf(q, REMOTE_COLUMNS, 3)
      ensures r.value == q.value
    {
      RemoteCell(r);
      RemoteCell(q);
      SameName(r, q);
      var i :| 0 <= i < |rows| && rows[i] == r;
      var j :| 0 <= j < |rows| && rows[j] == q;
      if i < j { NoDuplicates(rows, i, j); } else if j < i { NoDuplicates(rows, j, i); }
    }
  }

  lemma SameName(r: VarBind, q: VarBind)
    requires RemoteIndex(r).Some? && RemoteIndex(q).Some?
    requires WellIndexed(RemoteIndex(r).value) && WellIndexed(RemoteIndex(q).value)
    requires ColumnIndex(RemoteIndex(r).value[0]).Some?
    requires ColumnIndex(RemoteIndex(r).value[0]) == ColumnIndex(RemoteIndex(q).value[0])
    requires RemoteIndex(r).value[1..] == RemoteIndex(q).value[1..]
    ensures r.oid == q.oid
  {
    var a, b := RemoteIndex(r).value, RemoteIndex(q).value;
    assert a == [a[0]] + a[1..] && b == [b[0]] + b[1..];
    assert r.oid == LLDP_REM_TABLE + a && q.oid == LLDP_REM_TABLE + b;
  }

  // ----- local tables -----

  lemma {:induction false} FindAndMatch(oid: Oid, columns: seq<Oid>, from: nat)
    ensures MatchColumn(oid, columns, from).Some? ==> FindColumn(oid, columns, from).Some?
    ensures var found := FindColumn(oid, columns, from);
            found.Some? && found.value.key != [] ==>
              MatchColumn(oid, columns, from) == Some((found.value.column, found.value.key))
    decreases |columns| - from
  {
    if from < |columns| { FindAndMatch(oid, columns, from + 1); }
  }

  /** A row accepted by the scan of a local table is remembered. */
  lemma {:induction false} LocalAccepted(rows: seq<VarBind>, columns: seq<Oid>, referenced: Option<set<nat>>,
                                         lldp: bool, ports: map<Oid, LocalPort>, i: nat)
    requires i < |rows| && ScanLocalRows(rows, columns, referenced, lldp, ports).malformed == {}
    requires FindColumn(rows[i].oid, columns).Some?
    requires LocalRelevant(FindColumn(rows[i].oid, columns).value.key, referenced)
    ensures |FindColumn(rows[i].oid, columns).value.key| == 1
    ensures FindColumn(rows[i].oid, columns).value in ScanLocalRows(rows, columns, referenced, lldp, ports).seen
  {
    hide FindColumn; hide LocalValueValid;
    var n := |rows| - 1;
    var before := ScanLocalRows(rows[..n], columns, referenced, lldp, ports);
    assert before.malformed <= ScanLocalRows(rows, columns, referenced, lldp, ports).malformed;
    if i < n { LocalAccepted(rows[..n], columns, referenced, lldp, ports, i); }
  }

  lemma {:induction false} LocalDistinct(rows: seq<VarBind>, columns: seq<Oid>, referenced: Option<set<nat>>,
                                         lldp: bool, ports: map<Oid, LocalPort>, i: nat, j: nat)
    requires i < j < |rows| && ScanLocalRows(rows, columns, referenced, lldp, ports).malformed == {}
    requires FindColumn(rows[i].oid, columns).Some?
    requires LocalRelevant(FindColumn(rows[i].oid, columns).value.key, referenced)
    ensures FindColumn(rows[j].oid, columns) != FindColumn(rows[i].oid, columns)
  {
    hide FindColumn; hide LocalValueValid;
    var n := |rows| - 1;
    var before := ScanLocalRows(rows[..n], columns, referenced, lldp, ports);
    assert before.malformed <= ScanLocalRows(rows, columns, referenced, lldp, ports).malformed;
    if j < n {
      LocalDistinct(rows[..n], columns, referenced, lldp, ports, i, j);
    } else {
      LocalAccepted(rows[..n], columns, referenced, lldp, ports, i);
    }
  }

  /** A local row that fills a relevant cell is exactly its column and index. */
  lemma LocalCell(rows: seq<VarBind>, columns: seq<Oid>, referenced: Option<set<nat>>, lldp: bool,
                  ports: map<Oid, LocalPort>, i: nat, cell: Cell)
    requires i < |rows| && ScanLocalRows(rows, columns, referenced, lldp, ports).malformed == {}
    requires CellOf(rows[i], columns, 1) == Some(cell) && LocalRelevant(cell.key, referenced)
    ensures FindColumn(rows[i].oid, columns) == Some(cell)
  {
    FindAndMatch(rows[i].oid, columns, 0);
    var found := FindColumn(rows[i].oid, columns).value;
    if found.key == [] {
      LocalAccepted(rows, columns, referenced, lldp, ports, i);
    } else {
      assert found.key[..1][0] == found.key[0] == cell.key[0];
      LocalAccepted(rows, columns, referenced, lldp, ports, i);
      assert found.key[..1] == found.key;
    }
  }

  lemma LocalUnambiguous(rows: seq<VarBind>, columns: seq<Oid>, referenced: Option<set<nat>>, lldp: bool,
                         ports: map<Oid, LocalPort>, cell: Cell)
    requires ScanLocalRows(rows, columns, referenced, lldp, ports).malformed == {}
    requires LocalRelevant(cell.key, referenced)
    ensures Unambiguous(rows, columns, 1, cell)
  {
    hide ScanLocalRows; hide CellOf; hide FindColumn;
    forall r, q | r in rows && q in rows && CellOf(r, columns, 1) == Some(cell) == CellOf(q, columns, 1)
      ensures r.value == q.value
    {
      var i :| 0 <= i < |rows| && rows[i] == r;
      var j :| 0 <= j < |rows| && rows[j] == q;
      LocalCell(rows, columns, referenced, lldp, ports, i, cell);
      LocalCell(rows, columns, referenced, lldp, ports, j, cell);
      if i < j { LocalDistinct(rows, columns, referenced, lldp, ports, i, j); }
      if j < i { LocalDistinct(rows, columns, referenced, lldp, ports, j, i); }
    }
  }

  // ----- permuting the tables -----

  ghost predicate SameRows(rows: seq<VarBind>, rows': seq<VarBind>) { forall r :: r in rows <==> r in rows' }

  lemma RemoteRowsAgree(rows: seq<VarBind>, rows': seq<VarBind>)
    requires SameRows(rows, rows') && AllWellIndexed(rows) && ScanRows(rows).duplicates == {}
    ensures RemoteRows(rows) == RemoteRows(rows')
  {
    var a, b := Cells(rows, REMOTE_COLUMNS, 3), Cells(rows', REMOTE_COLUMNS, 3);
    forall cell ensures (cell in a <==> cell in b) && (cell in a ==> a[cell] == b[cell]) {
      RemoteUnambiguous(rows, cell);
      CellsAgree(rows, rows', REMOTE_COLUMNS, 3, cell);
    }
    assert a == b;
  }

  lemma InterfacesAgree(rows: seq<VarBind>, rows': seq<VarBind>)
    requires SameRows(rows, rows') && MalformedLocal(rows, INTERFACE_COLUMNS, None, false) == {}
    ensures Interfaces(rows) == Interfaces(rows')
  {
    var a, b := Cells(rows, INTERFACE_COLUMNS, 1), Cells(rows', INTERFACE_COLUMNS, 1);
    forall cell ensures (cell in a <==> cell in b) && (cell in a ==> a[cell] == b[cell]) {
      LocalUnambiguous(rows, INTERFACE_COLUMNS, None, false, map[], cell);
      CellsAgree(rows, rows', INTERFACE_COLUMNS, 1, cell);
    }
    assert a == b;
  }

  lemma LocalPortsAgree(rows: seq<VarBind>, rows': seq<VarBind>, referenced: set<nat>, port: nat)
    requires SameRows(rows, rows') && MalformedLocal(rows, LOCAL_COLUMNS, Some(referenced), true) == {}
    requires port in referenced
    ensures Lookup(LocalPorts(rows), [port]) == Lookup(LocalPorts(rows'), [port])
  {
    var a, b := Cells(rows, LOCAL_COLUMNS, 1), Cells(rows', LOCAL_COLUMNS, 1);
    forall column ensures At(a, column, [port]) == At(b, column, [port]) {
      LocalUnambiguous(rows, LOCAL_COLUMNS, Some(referenced), true, LocalPorts(rows), Cell(column, [port]));
      CellsAgree(rows, rows', LOCAL_COLUMNS, 1, Cell(column, [port]));
    }
    SameKey(a, b, [port]);
    SameKey(b, a, [port]);
  }

  lemma SameKey(a: map<Cell, SnmpValue>, b: map<Cell, SnmpValue>, key: Oid)
    requires forall column :: At(a, column, key) == At(b, column, key)
    ensures key in KeysOf(a) ==> key in KeysOf(b)
  {
    if key in KeysOf(a) {
      var cell :| cell in a && cell.key == key;
      assert At(a, cell.column, key).Some? && Cell(cell.column, key) == cell;
      assert At(b, cell.column, key).Some?;
    }
  }

  // ----- what completeness gives -----

  ghost predicate Complete(remote: seq<VarBind>, management: seq<VarBind>, local: seq<VarBind>, ifs: seq<VarBind>) {
    IsComplete(QualityOf(remote, management, local, ifs))
  }

  /** A complete report, counter by counter. */
  lemma CompleteMeans(remote: seq<VarBind>, management: seq<VarBind>, local: seq<VarBind>, ifs: seq<VarBind>)
    requires Complete(remote, management, local, ifs)
    ensures AllWellIndexed(remote) && ScanRows(remote).duplicates * KeysOf(ScanRows(remote).indexed) == {}
    ensures forall key :: key in KeysOf(ScanRows(remote).indexed) ==> !RowIncomplete(ScanRows(remote), key)
    ensures remote != [] ==>
              && BadAddresses(management, RemoteKeys(remote)) == {}
              && MalformedLocal(local, LOCAL_COLUMNS, Some(ReferencedPorts(remote)), true) == {}
              && MalformedLocal(ifs, INTERFACE_COLUMNS, None, false) == {}
    ensures Unresolved(Neighbors(remote, management, local, ifs)) == {}
  {
    hide Neighbors; hide ScanRows; hide BadAddresses; hide MalformedLocal; hide KeysOf; hide RowIncomplete;
    hide IdentityOk; hide PortOk;
    var scan := ScanRows(remote);
    RejectedNone(remote);
    assert |scan.rejected| == 0 && |IncompleteKeys(scan)| == 0;
    assert IncompleteKeys(scan) == {};
    forall key | key in KeysOf(scan.indexed) ensures !RowIncomplete(scan, key) {
      assert key !in IncompleteKeys(scan);
    }
    forall key | key in KeysOf(scan.indexed) ensures key !in scan.duplicates {
      DuplicateIncomplete(scan, key);
    }
  }

  lemma DuplicateIncomplete(scan: Scan, key: Oid)
    ensures key in scan.duplicates ==> RowIncomplete(scan, key)
  {
  }

  lemma {:induction false} DuplicatesAreKeys(rows: seq<VarBind>)
    ensures ScanRows(rows).duplicates <= KeysOf(ScanRows(rows).indexed)
  {
    if rows != [] {
      var n := |rows| - 1;
      DuplicatesAreKeys(rows[..n]);
      if RemoteIndex(rows[n]).Some? && WellIndexed(RemoteIndex(rows[n]).value) {
        var suffix := RemoteIndex(rows[n]).value;
        FillCell(ScanRows(rows[..n]).indexed, Cell(suffix[0], suffix[1..]), rows[n].value);
      }
    }
  }

  lemma CompleteNoDuplicates(remote: seq<VarBind>, management: seq<VarBind>, local: seq<VarBind>, ifs: seq<VarBind>)
    requires Complete(remote, management, local, ifs)
    ensures AllWellIndexed(remote) && ScanRows(remote).duplicates == {}
  {
    hide Neighbors; hide ScanRows; hide Complete;
    CompleteMeans(remote, management, local, ifs);
    DuplicatesAreKeys(remote);
    assert ScanRows(remote).duplicates == ScanRows(remote).duplicates * KeysOf(ScanRows(remote).indexed);
  }

  /** A chassis id with its subtype, and a port id with its, as IEEE 802.1AB allows them. */
  predicate ValidNeighbor(n: Neighbor) {
    && n.localIfIndex.Some?
    && n.chassis.Some? && IdentifierValid(Octets(n.chassis.value.value), n.chassis.value.subtype, 4)
    && n.portId.Some? && IdentifierValid(Octets(n.portId.value), n.portSubtype, 3)
  }

  lemma CompleteRow(remote: seq<VarBind>, key: Oid)
    requires AllWellIndexed(remote) && !RowIncomplete(ScanRows(remote), key)
    ensures key in RemoteRows(remote)
    ensures var row := RemoteRows(remote)[key];
            && row.chassisId.Some? && IdentifierValid(Octets(row.chassisId.value), row.chassisSubtype, 4)
            && row.portId.Some? && IdentifierValid(Octets(row.portId.value), row.portSubtype, 3)
  {
    hide Cells; hide ScanRows;
    var cells, indexed := Cells(remote, REMOTE_COLUMNS, 3), ScanRows(remote).indexed;
    SameCells(remote, 0, key);
    SameCells(remote, 1, key);
    SameCells(remote, 2, key);
    SameCells(remote, 3, key);
    assert At(cells, 1, key) == At(indexed, 5, key);
    assert Cell(1, key) in cells;
    assert Cell(1, key).key in KeysOf(cells);
  }

  lemma RowKeysScanned(remote: seq<VarBind>, key: Oid)
    requires AllWellIndexed(remote) && key in RemoteRows(remote)
    ensures key in KeysOf(ScanRows(remote).indexed)
  {
    hide Cells; hide ScanRows;
    var cells, indexed := Cells(remote, REMOTE_COLUMNS, 3), ScanRows(remote).indexed;
    CellsWidth(remote, REMOTE_COLUMNS, 3);
    var cell :| cell in cells && cell.key == key;
    SameCells(remote, cell.column, key);
    assert cell == Cell(cell.column, key) && At(cells, cell.column, key).Some?;
    var number := COLUMN_NUMBERS[cell.column];
    assert Cell(number, key) in indexed;
    assert Cell(number, key).key in KeysOf(indexed);
  }

  // ----- addresses -----

  lemma {:induction false} AddressKeys(rows: seq<VarBind>, key: Oid)
    ensures key in Addresses(rows) <==> exists r :: r in rows && Contribution(r).Some? && Contribution(r).value.0 == key
  {
    if rows != [] {
      var n := |rows| - 1;
      assert forall r :: r in rows <==> r in rows[..n] || r == rows[n] by { assert rows == rows[..n] + [rows[n]]; }
      hide Contribution;
      AddressKeys(rows[..n], key);
    }
  }

  /** Some management address row carries the key of this remote row. */
  predicate Addressed(management: seq<VarBind>, key: Oid) {
    exists r :: r in management && Suffix(r.oid, LLDP_REM_MAN_ADDR).Some?
                && |Suffix(r.oid, LLDP_REM_MAN_ADDR).value| >= 3 && Suffix(r.oid, LLDP_REM_MAN_ADDR).value[..3] == key
  }

  lemma ValidContributes(r: VarBind)
    requires Suffix(r.oid, LLDP_REM_MAN_ADDR).Some? && AddressValid(r.value, Suffix(r.oid, LLDP_REM_MAN_ADDR).value)
    ensures Contribution(r).Some? && Contribution(r).value.0 == Suffix(r.oid, LLDP_REM_MAN_ADDR).value[..3]
  {
  }

  lemma AddressesComplete(management: seq<VarBind>, remoteKeys: set<Oid>, key: Oid)
    requires BadAddresses(management, remoteKeys) == {} && key in remoteKeys
    ensures key in Addresses(management) <==> Addressed(management, key)
  {
    hide Contribution; hide AddressValid;
    AddressKeys(management, key);
    if Addressed(management, key) {
      var r :| r in management && Suffix(r.oid, LLDP_REM_MAN_ADDR).Some?
               && |Suffix(r.oid, LLDP_REM_MAN_ADDR).value| >= 3 && Suffix(r.oid, LLDP_REM_MAN_ADDR).value[..3] == key;
      assert Suffix(r.oid, LLDP_REM_MAN_ADDR).value !in BadAddresses(management, remoteKeys);
      ValidContributes(r);
    }
    if key in Addresses(management) {
      var r :| r in management && Contribution(r).Some? && Contribution(r).value.0 == key;
      ContributionKey(r);
    }
  }

  lemma ContributionKey(r: VarBind)
    requires Contribution(r).Some?
    ensures Suffix(r.oid, LLDP_REM_MAN_ADDR).Some? && |Suffix(r.oid, LLDP_REM_MAN_ADDR).value| >= 3
    ensures Suffix(r.oid, LLDP_REM_MAN_ADDR).value[..3] == Contribution(r).value.0
  {
  }

  // ----- host names -----

  /** The row is the system name of this remote row. */
  predicate IsName(r: VarBind, key: Oid) { RemoteIndex(r) == Some([9] + key) }

  /** Some system name row of the key carries this text. */
  predicate Named(remote: seq<VarBind>, key: Oid, host: Text) {
    exists r :: r in remote && IsName(r, key) && AsText(r.value) == Some(host)
  }

  /** All system names of the key are well-formed text, so nothing in them is replaced. */
  predicate NamesDecodable(remote: seq<VarBind>, key: Oid) {
    forall r :: r in remote && IsName(r, key) ==> r.value.Octets? && Utf8.Valid(r.value.octets)
  }

  lemma NameCell(remote: seq<VarBind>, key: Oid, r: VarBind)
    requires AllWellIndexed(remote) && r in remote
    ensures CellOf(r, REMOTE_COLUMNS, 3) == Some(Cell(4, key)) <==> IsName(r, key)
  {
    RemoteCell(r);
    hide CellOf; hide RemoteIndex;
    if RemoteIndex(r).Some? {
      var suffix := RemoteIndex(r).value;
      assert suffix == [suffix[0]] + suffix[1..];
      assert ([9] + key)[0] == 9 && ([9] + key)[1..] == key;
    }
  }

  lemma HostnameKept(remote: seq<VarBind>, key: Oid, host: Text)
    requires AllWellIndexed(remote) && ScanRows(remote).duplicates == {} && key in RemoteRows(remote)
    requires !RowIncomplete(ScanRows(remote), key)
    ensures RemoteRows(remote)[key].hostname == Some(host) <==> Named(remote, key, host)
    ensures NamesDecodable(remote, key)
  {
    hide ScanRows; hide CellOf; hide AsText; hide Cells; hide IsName; hide IdentityOk; hide PortOk;
    var cell, cells := Cell(4, key), Cells(remote, REMOTE_COLUMNS, 3);
    RemoteUnambiguous(remote, cell);
    CellHolds(remote, REMOTE_COLUMNS, 3, cell);
    SameCells(remote, 4, key);
    assert RemoteRows(remote)[key].hostname == TextAt(cells, 4, key);
    forall r | r in remote
      ensures CellOf(r, REMOTE_COLUMNS, 3) == Some(cell) <==> IsName(r, key)
    {
      NameCell(remote, key, r);
    }
    assert cell in cells ==> At(ScanRows(remote).indexed, 9, key) == Some(cells[cell]);
  }

  // ----- main results -----

  /**
   * If the report is complete, nothing was lost: there is exactly one neighbor per remote row key, each with a
   * resolved local interface, a valid chassis id and a valid port id, with an address whenever a management
   * address row carries its key, and with a host name whenever a system name row of its key carries a nonempty text.
   */
  lemma CompleteLosesNothing(remote: seq<VarBind>, management: seq<VarBind>, local: seq<VarBind>, ifs: seq<VarBind>)
    requires Complete(remote, management, local, ifs)
    ensures var neighbors := Neighbors(remote, management, local, ifs);
            && neighbors.Keys == RemoteKeys(remote)
            && (forall r :: r in remote && RemoteIndex(r).Some? ==> |RemoteIndex(r).value| == 4)
            && (forall key :: key in neighbors ==> ValidNeighbor(neighbors[key]))
            && (forall key :: key in neighbors ==> (neighbors[key].ip.Some? <==> Addressed(management, key)))
            && (forall key :: key in neighbors ==> NamesDecodable(remote, key))
            && (forall key, host :: key in neighbors ==>
                  (neighbors[key].hostname == Some(host) <==> Named(remote, key, host)))
  {
    hide RowIncomplete; hide ScanRows; hide RemoteRows; hide Complete; hide Addresses; hide Interfaces; hide LocalPorts;
    hide MalformedLocal; hide KeysOf; hide Resolve; hide Addressed; hide BadAddresses; hide RemoteKeys; hide Named;
    hide NamesDecodable;
    var neighbors := Neighbors(remote, management, local, ifs);
    CompleteNoDuplicates(remote, management, local, ifs);
    CompleteMeans(remote, management, local, ifs);
    ScanKeys(remote);
    RemoteKeyWidth(remote);
    forall key ensures key in neighbors <==> key in RemoteKeys(remote) {
      if key in neighbors { RowKeysScanned(remote, key); }
      if key in RemoteKeys(remote) { CompleteRow(remote, key); }
    }
    assert neighbors.Keys == RemoteKeys(remote);
    forall key, host | key in neighbors
      ensures NamesDecodable(remote, key) && (neighbors[key].hostname == Some(host) <==> Named(remote, key, host))
    {
      CompleteRow(remote, key);
      HostnameKept(remote, key, host);
    }
    forall key | key in neighbors ensures NamesDecodable(remote, key) {
      assert neighbors[key].hostname == Some(Raw([])) <==> Named(remote, key, Raw([]));
    }
    forall key | key in neighbors
      ensures ValidNeighbor(neighbors[key]) && (neighbors[key].ip.Some? <==> Addressed(management, key))
    {
      CompleteRow(remote, key);
      assert key !in Unresolved(neighbors);
      assert remote != [] by { SomeRow(remote, key); }
      AddressesComplete(management, RemoteKeys(remote), key);
    }
  }

  lemma SomeRow(remote: seq<VarBind>, key: Oid)
    requires key in RemoteKeys(remote)
    ensures remote != []
  {
  }

  lemma KeyReferencesPort(remote: seq<VarBind>, key: Oid)
    requires key in RemoteKeys(remote)
    ensures |key| == 3 && key[1] in ReferencedPorts(remote)
  {
    var r :| r in remote && RemoteIndex(r).Some? && |RemoteIndex(r).value| == 4 && RemoteIndex(r).value[1..] == key;
    assert RemoteIndex(r).value[2] == key[1];
  }

  /** And the neighbors do not depend on the order of the remote, local or interface rows. */
  lemma CompleteIgnoresOrder(remote: seq<VarBind>, management: seq<VarBind>, local: seq<VarBind>, ifs: seq<VarBind>,
                             remote': seq<VarBind>, local': seq<VarBind>, ifs': seq<VarBind>)
    requires Complete(remote, management, local, ifs)
    requires multiset(remote) == multiset(remote') && multiset(local) == multiset(local')
    requires multiset(ifs) == multiset(ifs')
    ensures Neighbors(remote', management, local', ifs') == Neighbors(remote, management, local, ifs)
  {
    hide ScanRows; hide RemoteRows; hide Complete; hide Addresses; hide Interfaces; hide LocalPorts;
    hide MalformedLocal; hide KeysOf; hide Resolve;
    hide RowIncomplete; hide BadAddresses; hide RemoteKeys; hide ReferencedPorts;
    SameMembers(remote, remote');
    SameMembers(local, local');
    SameMembers(ifs, ifs');
    CompleteMeans(remote, management, local, ifs);
    CompleteNoDuplicates(remote, management, local, ifs);
    RemoteRowsAgree(remote, remote');
    RemoteKeyWidth(remote);
    ScanKeys(remote);
    forall key | key in RemoteRows(remote)
      ensures NeighborOf(key, RemoteRows(remote)[key], LocalPorts(local), Interfaces(ifs), Addresses(management))
           == NeighborOf(key, RemoteRows(remote)[key], LocalPorts(local'), Interfaces(ifs'), Addresses(management))
    {
      RowKeysScanned(remote, key);
      SomeRow(remote, key);
      KeyReferencesPort(remote, key);
      LocalPortsAgree(local, local', ReferencedPorts(remote), key[1]);
      InterfacesAgree(ifs, ifs');
    }
  }

  lemma SameMembers(a: seq<VarBind>, b: seq<VarBind>)
    requires multiset(a) == multiset(b)
    ensures SameRows(a, b)
  {
    assert forall r :: r in a <==> r in multiset(a);
    assert forall r :: r in b <==> r in multiset(b);
  }

  // ----- the order of the management addresses -----

  /** No remote row has two different addresses. */
  predicate OneAddressEach(rows: seq<VarBind>) {
    forall r, q :: r in rows && q in rows && SameContributor(r, q) ==> Contribution(r) == Contribution(q)
  }

  predicate SameContributor(r: VarBind, q: VarBind) {
    Contribution(r).Some? && Contribution(q).Some? && Contribution(r).value.0 == Contribution(q).value.0
  }

  lemma {:induction false} AddressOrigin(rows: seq<VarBind>, key: Oid)
    requires key in Addresses(rows)
    ensures exists r :: r in rows && Contribution(r) == Some((key, Addresses(rows)[key]))
  {
    hide Contribution;
    var n := |rows| - 1;
    if key in Addresses(rows[..n]) {
      AddressOrigin(rows[..n], key);
      var r :| r in rows[..n] && Contribution(r) == Some((key, Addresses(rows[..n])[key]));
      assert r in rows;
    } else {
      assert rows[n] in rows;
    }
  }

  /** The address of a first row is never overwritten. */
  lemma {:induction false} FirstAddressWins(first: VarBind, rest: seq<VarBind>, key: Oid, address: seq<byte>)
    requires Contribution(first) == Some((key, address))
    ensures key in Addresses([first] + rest) && Addresses([first] + rest)[key] == address
  {
    hide Contribution;
    var all := [first] + rest;
    if rest == [] {
      assert all[..0] == [] && all[0] == first;
    } else {
      var n := |rest| - 1;
      assert all[..|all| - 1] == [first] + rest[..n];
      FirstAddressWins(first, rest[..n], key, address);
    }
  }

  lemma AddressesAgree(rows: seq<VarBind>, rows': seq<VarBind>)
    requires SameRows(rows, rows') && OneAddressEach(rows)
    ensures Addresses(rows) == Addresses(rows')
  {
    hide Contribution; hide Addresses;
    forall key ensures key in Addresses(rows) <==> key in Addresses(rows') {
      AddressKeys(rows, key);
      AddressKeys(rows', key);
    }
    forall key | key in Addresses(rows) ensures Addresses(rows)[key] == Addresses(rows')[key] {
      AddressOrigin(rows, key);
      AddressOrigin(rows', key);
    }
  }

  /**
   * Unlike the other tables, management addresses may come in an order that matters even in a complete
   * report: the first address of a row wins. Their order is irrelevant exactly if no row has two.
   */
  lemma AddressesIgnoreOrderExactly(rows: seq<VarBind>)
    ensures OneAddressEach(rows)
       <==> forall rows' :: multiset(rows) == multiset(rows') ==> Addresses(rows) == Addresses(rows')
  {
    hide Contribution; hide Addresses;
    if OneAddressEach(rows) {
      forall rows' | multiset(rows) == multiset(rows') ensures Addresses(rows) == Addresses(rows') {
        SameMembers(rows, rows');
        AddressesAgree(rows, rows');
      }
    } else {
      var r, q :| r in rows && q in rows && SameContributor(r, q) && Contribution(r) != Contribution(q);
      var key := Contribution(r).value.0;
      var a := ToFront(rows, r);
      var b := ToFront(rows, q);
      FirstAddressWins(r, a, key, Contribution(r).value.1);
      FirstAddressWins(q, b, key, Contribution(q).value.1);
      assert Addresses([r] + a) != Addresses([q] + b);
    }
  }

  /** No remote row has two different addresses among the management rows. */
  predicate OneAddressPerRow(management: seq<VarBind>, keys: set<Oid>) {
    forall r, q :: r in management && q in management && SameContributor(r, q) && Contribution(r).value.0 in keys ==>
      Contribution(r) == Contribution(q)
  }

  lemma AddressOfKeyAgrees(rows: seq<VarBind>, rows': seq<VarBind>, keys: set<Oid>, key: Oid)
    requires SameRows(rows, rows') && OneAddressPerRow(rows, keys) && key in keys
    ensures Lookup(Addresses(rows), key) == Lookup(Addresses(rows'), key)
  {
    hide Contribution; hide Addresses;
    AddressKeys(rows, key);
    AddressKeys(rows', key);
    if key in Addresses(rows) {
      AddressOrigin(rows, key);
      AddressOrigin(rows', key);
    }
  }

  lemma NeighborsDifferByAddress(remote: seq<VarBind>, management: seq<VarBind>, management': seq<VarBind>,
                                 local: seq<VarBind>, ifs: seq<VarBind>)
    ensures Neighbors(remote, management, local, ifs) == Neighbors(remote, management', local, ifs) <==>
              forall key :: key in RemoteRows(remote) ==>
                Lookup(Addresses(management), key) == Lookup(Addresses(management'), key)
  {
    hide RemoteRows; hide Addresses; hide Interfaces; hide LocalPorts; hide Resolve;
    RemoteKeyWidth(remote);
    var a, b := Neighbors(remote, management, local, ifs), Neighbors(remote, management', local, ifs);
    forall key | key in RemoteRows(remote)
      ensures a[key] == b[key] <==> Lookup(Addresses(management), key) == Lookup(Addresses(management'), key)
    {
      assert a[key].ip == Lookup(Addresses(management), key) && b[key].ip == Lookup(Addresses(management'), key);
    }
  }

  /** The neighbors are the same in whatever order the management address rows come. */
  ghost predicate AddressOrderIrrelevant(remote: seq<VarBind>, management: seq<VarBind>, local: seq<VarBind>,
                                         ifs: seq<VarBind>) {
    forall management' :: multiset(management) == multiset(management') ==>
      Neighbors(remote, management', local, ifs) == Neighbors(remote, management, local, ifs)
  }

  /**
   * Even in a complete report the order of the management address rows can decide about the neighbors: it does not
   * if and only if no remote row has two different addresses.
   */
  lemma NeighborsIgnoreAddressOrderExactly(remote: seq<VarBind>, management: seq<VarBind>, local: seq<VarBind>,
                                           ifs: seq<VarBind>)
    requires Complete(remote, management, local, ifs)
    ensures AddressOrderIrrelevant(remote, management, local, ifs) <==> OneAddressPerRow(management, RemoteKeys(remote))
  {
    hide Contribution; hide Addresses; hide Neighbors; hide Complete; hide RemoteRows; hide RemoteKeys; hide Lookup;
    hide OneAddressPerRow;
    RowsAreKeys(remote, management, local, ifs);
    if OneAddressPerRow(management, RemoteKeys(remote)) {
      forall management' | multiset(management) == multiset(management')
        ensures Neighbors(remote, management', local, ifs) == Neighbors(remote, management, local, ifs)
      {
        SameMembers(management, management');
        forall key | key in RemoteRows(remote)
          ensures Lookup(Addresses(management'), key) == Lookup(Addresses(management), key)
        {
          AddressOfKeyAgrees(management, management', RemoteKeys(remote), key);
        }
        NeighborsDifferByAddress(remote, management', management, local, ifs);
      }
    } else {
      TwoOrders(remote, management, local, ifs);
    }
  }

  lemma RowsAreKeys(remote: seq<VarBind>, management: seq<VarBind>, local: seq<VarBind>, ifs: seq<VarBind>)
    requires Complete(remote, management, local, ifs)
    ensures RemoteRows(remote).Keys == RemoteKeys(remote)
  {
    hide Complete; hide RemoteRows; hide RemoteKeys; hide NeighborOf; hide Addresses; hide Interfaces; hide LocalPorts;
    hide ValidNeighbor; hide Addressed; hide Named; hide NamesDecodable;
    CompleteLosesNothing(remote, management, local, ifs);
  }

  /** Two different addresses of one remote row: whichever comes first is shown. */
  lemma TwoOrders(remote: seq<VarBind>, management: seq<VarBind>, local: seq<VarBind>, ifs: seq<VarBind>)
    requires RemoteRows(remote).Keys == RemoteKeys(remote) && !OneAddressPerRow(management, RemoteKeys(remote))
    ensures !AddressOrderIrrelevant(remote, management, local, ifs)
  {
    hide Contribution; hide Addresses; hide Neighbors; hide RemoteRows; hide RemoteKeys;
    var r, q :| r in management && q in management && SameContributor(r, q)
                && Contribution(r).value.0 in RemoteKeys(remote)
                && Contribution(r) != Contribution(q);
    var key := Contribution(r).value.0;
    var a := ToFront(management, r);
    var b := ToFront(management, q);
    FirstAddressWins(r, a, key, Contribution(r).value.1);
    FirstAddressWins(q, b, key, Contribution(q).value.1);
    NeighborsDifferByAddress(remote, [r] + a, [q] + b, local, ifs);
    assert Lookup(Addresses([r] + a), key) != Lookup(Addresses([q] + b), key);
    assert Neighbors(remote, [r] + a, local, ifs) != Neighbors(remote, [q] + b, local, ifs);
  }

  lemma ToFront(rows: seq<VarBind>, r: VarBind) returns (rest: seq<VarBind>)
    requires r in rows
    ensures multiset([r] + rest) == multiset(rows)
  {
    var i :| 0 <= i < |rows| && rows[i] == r;
    rest := rows[..i] + rows[i + 1..];
    assert rows == rows[..i] + [rows[i]] + rows[i + 1..];
  }
}
