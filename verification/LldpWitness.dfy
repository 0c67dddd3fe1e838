/** A complete LLDP report whose neighbors depend on the order of the management address rows. */
module LldpWitness {
  import opened Basics
  import opened Snmp
  import opened LldpTables
  import opened LldpQuality
  import opened LldpComplete

  // ----- one remote row on local port 1, with an IPv4 and an IPv6 address -----

  const KEY: Oid := [0, 1, 1]

  const IPV4: seq<byte> := [192, 0, 2, 1]
  const IPV6: seq<byte> := [32, 1, 13, 184, 0, 0, 0, 0, 0, 0, 0, 0, 0, 0, 0, 1]

  function RemoteRow(column: nat, value: SnmpValue): VarBind { VarBind(LLDP_REM_TABLE + ([column] + KEY), value) }

  const REMOTE: seq<VarBind> :=
    [RemoteRow(4, Number(7)), RemoteRow(5, Octets([1])), RemoteRow(6, Number(7)), RemoteRow(7, Octets([2]))]

  function AddressRow(kind: nat, address: seq<byte>): VarBind {
    VarBind(LLDP_REM_MAN_ADDR
            + (KEY + [kind, |address|] + seq(|address|, i requires 0 <= i < |address| => address[i] as nat)),
            Octets(address))
  }

  const MANAGEMENT: seq<VarBind> := [AddressRow(1, IPV4), AddressRow(2, IPV6)]

  const LOCAL: seq<VarBind> :=
    [VarBind(LLDP_LOC_PORT_TABLE + [2] + [1], Number(5)), VarBind(LLDP_LOC_PORT_TABLE + [3] + [1], Octets([6]))]

  const INTERFACES: seq<VarBind> := [VarBind(IF_X_TABLE + [1] + [1], Octets([6]))]

  // ----- what the two passes make of it -----

  lemma SuffixOf(prefix: Oid, index: Oid)
    ensures Suffix(prefix + index, prefix) == Some(index)
  {
  }

  /** One more row of the remote table in a column that is still free. */
  lemma ScanOne(scan: Scan, column: nat, value: SnmpValue)
    requires Cell(column, KEY) !in scan.indexed
    ensures ScanRow(scan, RemoteRow(column, value)) == scan.(indexed := scan.indexed[Cell(column, KEY) := value])
  {
    SuffixOf(LLDP_REM_TABLE, [column] + KEY);
    assert ([column] + KEY)[1..] == KEY;
  }

  function Scanned(): map<Cell, SnmpValue> {
    map[Cell(4, KEY) := Number(7), Cell(5, KEY) := Octets([1]), Cell(6, KEY) := Number(7), Cell(7, KEY) := Octets([2])]
  }

  lemma RemoteScanned()
    ensures ScanRows(REMOTE) == Scan(Scanned(), {}, {})
  {
    hide ScanRow;
    var one, two, three := [REMOTE[0]], [REMOTE[0], REMOTE[1]], [REMOTE[0], REMOTE[1], REMOTE[2]];
    assert one[..0] == [] && two[..1] == one && three[..2] == two && REMOTE[..3] == three;
    assert ScanRows([]) == Scan(map[], {}, {});
    ScanSnoc(one);
    ScanSnoc(two);
    ScanSnoc(three);
    ScanSnoc(REMOTE);
    ScanOne(ScanRows([]), 4, Number(7));
    ScanOne(ScanRows(one), 5, Octets([1]));
    ScanOne(ScanRows(two), 6, Number(7));
    ScanOne(ScanRows(three), 7, Octets([2]));
  }

  lemma RemoteKeysAre()
    ensures RemoteKeys(REMOTE) == {KEY} && ReferencedPorts(REMOTE) == {1}
  {
    forall column: nat, value ensures RemoteIndex(RemoteRow(column, value)) == Some([column] + KEY) {
      SuffixOf(LLDP_REM_TABLE, [column] + KEY);
    }
    forall r | r in REMOTE
      ensures RemoteIndex(r).Some? && |RemoteIndex(r).value| == 4
      ensures RemoteIndex(r).value[1..] == KEY && RemoteIndex(r).value[2] == 1
    {
      assert r == REMOTE[0] || r == REMOTE[1] || r == REMOTE[2] || r == REMOTE[3];
    }
    assert REMOTE[0] in REMOTE;
  }

  lemma RemoteIsFine()
    ensures var scan := ScanRows(REMOTE);
            scan.rejected == {} && IncompleteKeys(scan) == {} && BadIdentities(scan) == {} && BadPorts(scan) == {}
  {
    RemoteScanned();
    forall key | key in KeysOf(Scanned()) ensures key == KEY {
      var c :| c in Scanned() && c.key == key;
    }
  }

  lemma AddressContributes(kind: nat, address: seq<byte>)
    requires (kind == 1 && address == IPV4) || (kind == 2 && address == IPV6)
    ensures Contribution(AddressRow(kind, address)) == Some((KEY, address))
    ensures Suffix(AddressRow(kind, address).oid, LLDP_REM_MAN_ADDR).Some?
    ensures AddressValid(Octets(address), Suffix(AddressRow(kind, address).oid, LLDP_REM_MAN_ADDR).value)
  {
    var octets := seq(|address|, i requires 0 <= i < |address| => address[i] as nat);
    var suffix := KEY + [kind, |address|] + octets;
    SuffixOf(LLDP_REM_MAN_ADDR, suffix);
    assert suffix[..3] == KEY && suffix[4] == |address|;
    var rest := suffix[3..];
    assert rest == [kind, |address|] + octets;
    assert rest[0] == kind && rest[1] == |address| == |octets| && rest[2..] == octets;
    assert rest[2..2 + rest[1]] == octets;
    assert IndexedAddress(rest).Some?;
  }

  lemma AddressesAreFine()
    ensures BadAddresses(MANAGEMENT, {KEY}) == {} && !OneAddressPerRow(MANAGEMENT, {KEY})
  {
    hide AddressValid; hide Contribution;
    AddressContributes(1, IPV4);
    AddressContributes(2, IPV6);
    forall r | r in MANAGEMENT ensures r == AddressRow(1, IPV4) || r == AddressRow(2, IPV6) { }
    assert MANAGEMENT[0] in MANAGEMENT && MANAGEMENT[1] in MANAGEMENT;
    assert SameContributor(MANAGEMENT[0], MANAGEMENT[1]);
  }

  /** A row of a column that is no continuation of an earlier one. */
  lemma {:induction false} ColumnFound(columns: seq<Oid>, c: nat, index: Oid, from: nat)
    requires from <= c < |columns| && index != []
    requires forall d :: from <= d < c ==> !(columns[d] <= columns[c] + index)
    ensures MatchColumn(columns[c] + index, columns, from) == Some((c, index))
    ensures FindColumn(columns[c] + index, columns, from) == Some(Cell(c, index))
    decreases c - from
  {
    SuffixOf(columns[c], index);
    if from < c { ColumnFound(columns, c, index, from + 1); }
  }

  lemma LocalCells()
    ensures CellOf(LOCAL[0], LOCAL_COLUMNS, 1) == FindColumn(LOCAL[0].oid, LOCAL_COLUMNS) == Some(Cell(0, [1]))
    ensures CellOf(LOCAL[1], LOCAL_COLUMNS, 1) == FindColumn(LOCAL[1].oid, LOCAL_COLUMNS) == Some(Cell(1, [1]))
    ensures CellOf(INTERFACES[0], INTERFACE_COLUMNS, 1) == FindColumn(INTERFACES[0].oid, INTERFACE_COLUMNS)
         == Some(Cell(0, [1]))
  {
    var t := LLDP_LOC_PORT_TABLE;
    assert (t + [2])[|t|] == 2 && (t + [3] + [1])[|t|] == 3;
    assert [1][..1] == [1];
    ColumnFound(LOCAL_COLUMNS, 0, [1], 0);
    ColumnFound(LOCAL_COLUMNS, 1, [1], 0);
    ColumnFound(INTERFACE_COLUMNS, 0, [1], 0);
  }

  lemma TwoCells()
    ensures Cells(LOCAL, LOCAL_COLUMNS, 1) == map[Cell(0, [1]) := Number(5), Cell(1, [1]) := Octets([6])]
    ensures Cells(INTERFACES, INTERFACE_COLUMNS, 1) == map[Cell(0, [1]) := Octets([6])]
  {
    hide CellOf;
    LocalCells();
    var one := [LOCAL[0]];
    assert one[..0] == [] && LOCAL[..1] == one && INTERFACES[..0] == [];
    CellsSnoc(one, LOCAL_COLUMNS, 1);
    CellsSnoc(LOCAL, LOCAL_COLUMNS, 1);
    CellsSnoc(INTERFACES, INTERFACE_COLUMNS, 1);
    assert Cells([], LOCAL_COLUMNS, 1) == map[] && Cells([], INTERFACE_COLUMNS, 1) == map[];
  }

  const PORT := LocalPort(Some(5), Some([6]), None)

  lemma Tables()
    ensures LocalPorts(LOCAL) == map[[1] := PORT]
    ensures Interfaces(INTERFACES) == map[[1] := Interface(Some([6]), None, None, None)]
  {
    hide Cells;
    TwoCells();
    var locals, ifs := Cells(LOCAL, LOCAL_COLUMNS, 1), Cells(INTERFACES, INTERFACE_COLUMNS, 1);
    assert KeysOf(locals) == {[1]} by { assert Cell(0, [1]) in locals; }
    assert KeysOf(ifs) == {[1]} by { assert Cell(0, [1]) in ifs; }
  }

  lemma LocalsAreFine()
    ensures MalformedLocal(LOCAL, LOCAL_COLUMNS, Some({1}), true) == {}
    ensures MalformedLocal(INTERFACES, INTERFACE_COLUMNS, None, false) == {}
  {
    hide FindColumn; hide LocalPorts; hide Interfaces;
    LocalCells();
    Tables();
    var ports := LocalPorts(LOCAL);
    var one := [LOCAL[0]];
    assert one[..0] == [] && LOCAL[..1] == one && INTERFACES[..0] == [];
    assert ScanLocalRows([], LOCAL_COLUMNS, Some({1}), true, ports) == LocalScan({}, {});
    assert ScanLocalRows([], INTERFACE_COLUMNS, None, false, map[]) == LocalScan({}, {});
    assert ScanLocalRow(LocalScan({}, {}), LOCAL[0], LOCAL_COLUMNS, Some({1}), true, ports)
             == LocalScan({}, {Cell(0, [1])});
    assert ScanLocalRow(LocalScan({}, {Cell(0, [1])}), LOCAL[1], LOCAL_COLUMNS, Some({1}), true, ports).malformed == {};
    assert ScanLocalRows(one, LOCAL_COLUMNS, Some({1}), true, ports) == LocalScan({}, {Cell(0, [1])});
    assert ScanLocalRow(LocalScan({}, {}), INTERFACES[0], INTERFACE_COLUMNS, None, false, map[]).malformed == {};
  }

  lemma PortResolves()
    ensures Resolve(PORT, map[[1] := Interface(Some([6]), None, None, None)]) == Some([1])
  {
    var interfaces := map[[1] := Interface(Some([6]), None, None, None)];
    assert Candidates(PORT, interfaces) == {[1]};
  }

  lemma NeighborsAreResolved()
    ensures Unresolved(Neighbors(REMOTE, MANAGEMENT, LOCAL, INTERFACES)) == {}
  {
    hide ScanRows; hide RemoteRows; hide LocalPorts; hide Interfaces; hide Addresses; hide NeighborOf;
    RemoteScanned();
    WellIndexedRows();
    var neighbors := Neighbors(REMOTE, MANAGEMENT, LOCAL, INTERFACES);
    RemoteKeyWidth(REMOTE);
    forall key | key in neighbors ensures neighbors[key].localIfIndex == Some(1) {
      assert key == KEY by {
        RowKeysScanned(REMOTE, key);
        var c :| c in Scanned() && c.key == key;
      }
      ResolvedNeighbor(RemoteRows(REMOTE)[KEY], Addresses(MANAGEMENT));
    }
  }

  lemma ResolvedNeighbor(row: LldpRow, addresses: map<Oid, seq<byte>>)
    ensures NeighborOf(KEY, row, LocalPorts(LOCAL), Interfaces(INTERFACES), addresses).localIfIndex == Some(1)
  {
    hide Resolve; hide LocalPorts; hide Interfaces;
    Tables();
    PortResolves();
    assert [KEY[1]] == [1];
  }

  lemma WellIndexedRows()
    ensures AllWellIndexed(REMOTE)
  {
    forall column: nat, value ensures RemoteIndex(RemoteRow(column, value)) == Some([column] + KEY) {
      SuffixOf(LLDP_REM_TABLE, [column] + KEY);
    }
  }

  /** The report is complete, and yet the neighbor it accompanies depends on the order of the two address rows. */
  lemma CompleteYetOrdered()
    ensures Complete(REMOTE, MANAGEMENT, LOCAL, INTERFACES)
    ensures !AddressOrderIrrelevant(REMOTE, MANAGEMENT, LOCAL, INTERFACES)
  {
    hide ScanRows; hide IncompleteKeys; hide BadIdentities; hide BadPorts; hide BadAddresses; hide MalformedLocal;
    hide Unresolved;
    hide Neighbors; hide RemoteKeys; hide ReferencedPorts; hide OneAddressPerRow; hide AddressOrderIrrelevant;
    RemoteIsFine();
    RemoteKeysAre();
    AddressesAreFine();
    LocalsAreFine();
    NeighborsAreResolved();
    NeighborsIgnoreAddressOrderExactly(REMOTE, MANAGEMENT, LOCAL, INTERFACES);
  }
}
