/** What each field of a neighbor is in terms of the walked rows (normalize_lldp_neighbors in src/snmp/topology.rs). */
module LldpMeaning {
  import opened Basics
  import opened Snmp
  import opened LldpTables

  // ----- values by name -----

  /** The value of the last row whose name starts with these arcs. */
  function LastUnder(rows: seq<VarBind>, name: Oid): Option<SnmpValue> {
    if rows == [] then None
    else
      var last := rows[|rows| - 1];
      if name <= last.oid then Some(last.value) else LastUnder(rows[..|rows| - 1], name)
  }

  function OctetsOf(value: Option<SnmpValue>): Option<seq<byte>> {
    if value.Some? && value.value.Octets? then Some(value.value.octets) else None
  }

  function NumberOf(value: Option<SnmpValue>): Option<nat> {
    if value.Some? && value.value.Number? && 0 <= value.value.n <= 4_294_967_295 then Some(value.value.n) else None
  }

  /** The columns of ifXTable, ifTable, lldpLocPortTable and lldpRemTable by their numbers. */
  function IfX(column: nat, index: nat): Oid { [1, 3, 6, 1, 2, 1, 31, 1, 1, 1, column, index] }

  function If(column: nat, index: nat): Oid { [1, 3, 6, 1, 2, 1, 2, 2, 1, column, index] }

  function Loc(column: nat, port: nat): Oid { [1, 0, 8802, 1, 1, 2, 1, 3, 7, 1, column, port] }

  function Rem(column: nat, key: Oid): Oid { [1, 0, 8802, 1, 1, 2, 1, 4, 1, 1, column] + key }

  function IfName(ifs: seq<VarBind>, i: nat): Option<seq<byte>> { OctetsOf(LastUnder(ifs, IfX(1, i))) }

  function IfAlias(ifs: seq<VarBind>, i: nat): Option<seq<byte>> { OctetsOf(LastUnder(ifs, IfX(18, i))) }

  function IfDescr(ifs: seq<VarBind>, i: nat): Option<seq<byte>> { OctetsOf(LastUnder(ifs, If(2, i))) }

  function IfPhysAddress(ifs: seq<VarBind>, i: nat): Option<seq<byte>> { OctetsOf(LastUnder(ifs, If(6, i))) }

  function PortSubtype(local: seq<VarBind>, port: nat): Option<nat> { NumberOf(LastUnder(local, Loc(2, port))) }

  function PortId(local: seq<VarBind>, port: nat): Option<seq<byte>> { OctetsOf(LastUnder(local, Loc(3, port))) }

  function PortDescr(local: seq<VarBind>, port: nat): Option<seq<byte>> { OctetsOf(LastUnder(local, Loc(4, port))) }

  // ----- cells by name -----

  /** No column starts with another one. */
  predicate Separate(columns: seq<Oid>) {
    forall c, d :: 0 <= c < |columns| && 0 <= d < |columns| && columns[c] <= columns[d] ==> c == d
  }

  lemma PrefixesNest(a: Oid, b: Oid, oid: Oid)
    requires a <= oid && b <= oid
    ensures a <= b || b <= a
  {
    if |a| <= |b| { assert b[..|a|] == oid[..|a|] == a; } else { assert a[..|b|] == oid[..|b|] == b; }
  }

  /** A row fills a cell exactly if its name starts with the column and the key. */
  lemma CellByName(row: VarBind, columns: seq<Oid>, width: nat, column: nat, key: Oid)
    requires Separate(columns) && column < |columns| && |key| == width > 0
    ensures CellOf(row, columns, width) == Some(Cell(column, key)) <==> columns[column] + key <= row.oid
  {
    var c, name := columns[column], columns[column] + key;
    if name <= row.oid {
      assert c <= row.oid by { assert row.oid[..|c|] == name[..|c|] == c; }
      assert c < row.oid;
      var m := MatchColumn(row.oid, columns);
      assert m.Some?;
      var (d, index) := m.value;
      assert columns[d] <= row.oid;
      PrefixesNest(c, columns[d], row.oid);
      assert d == column;
      assert index[..width] == row.oid[|c|..][..width] == name[|c|..] == key;
    }
    if CellOf(row, columns, width) == Some(Cell(column, key)) {
      var (d, index) := MatchColumn(row.oid, columns).value;
      assert row.oid == c + index && index[..width] == key;
      assert row.oid[..|name|] == c + index[..width];
    }
  }

  lemma {:induction false} CellsByName(rows: seq<VarBind>, columns: seq<Oid>, width: nat, column: nat, key: Oid)
    requires Separate(columns) && column < |columns| && |key| == width > 0
    ensures At(Cells(rows, columns, width), column, key) == LastUnder(rows, columns[column] + key)
  {
    if rows != [] {
      var n := |rows| - 1;
      CellsByName(rows[..n], columns, width, column, key);
      CellByName(rows[n], columns, width, column, key);
      CellsSnoc(rows, columns, width);
      hide CellOf; hide Separate;
    }
  }

  lemma ColumnsAreSeparate()
    ensures Separate(REMOTE_COLUMNS) && Separate(LOCAL_COLUMNS) && Separate(INTERFACE_COLUMNS)
  {
    SameLengthSeparate(REMOTE_COLUMNS, 11);
    SameLengthSeparate(LOCAL_COLUMNS, 11);
    forall c, d | 0 <= c < 4 && 0 <= d < 4 && INTERFACE_COLUMNS[c] <= INTERFACE_COLUMNS[d] ensures c == d {
      assert INTERFACE_COLUMNS[c][6] == INTERFACE_COLUMNS[d][6];
      assert INTERFACE_COLUMNS[c][|INTERFACE_COLUMNS[c]| - 1] == INTERFACE_COLUMNS[d][|INTERFACE_COLUMNS[c]| - 1];
    }
  }

  lemma SameLengthSeparate(columns: seq<Oid>, n: nat)
    requires n > 0 && forall c :: 0 <= c < |columns| ==> |columns[c]| == n
    requires forall c, d :: 0 <= c < d < |columns| ==> columns[c][n - 1] != columns[d][n - 1]
    ensures Separate(columns)
  {
  }

  lemma InterfaceCells(ifs: seq<VarBind>, i: nat)
    ensures InterfaceAt(Cells(ifs, INTERFACE_COLUMNS, 1), [i])
         == Interface(IfName(ifs, i), IfDescr(ifs, i), IfAlias(ifs, i), IfPhysAddress(ifs, i))
  {
    hide Cells; hide LastUnder; hide Separate;
    ColumnsAreSeparate();
    CellsByName(ifs, INTERFACE_COLUMNS, 1, 0, [i]);
    CellsByName(ifs, INTERFACE_COLUMNS, 1, 1, [i]);
    CellsByName(ifs, INTERFACE_COLUMNS, 1, 2, [i]);
    CellsByName(ifs, INTERFACE_COLUMNS, 1, 3, [i]);
    assert INTERFACE_COLUMNS[0] + [i] == IfX(1, i) && INTERFACE_COLUMNS[1] + [i] == If(2, i);
    assert INTERFACE_COLUMNS[2] + [i] == IfX(18, i) && INTERFACE_COLUMNS[3] + [i] == If(6, i);
  }

  lemma LocalPortCells(local: seq<VarBind>, port: nat)
    ensures LocalPortAt(Cells(local, LOCAL_COLUMNS, 1), [port])
         == LocalPort(PortSubtype(local, port), PortId(local, port), PortDescr(local, port))
  {
    hide Cells; hide LastUnder; hide Separate;
    ColumnsAreSeparate();
    CellsByName(local, LOCAL_COLUMNS, 1, 0, [port]);
    CellsByName(local, LOCAL_COLUMNS, 1, 1, [port]);
    CellsByName(local, LOCAL_COLUMNS, 1, 2, [port]);
    assert LOCAL_COLUMNS[0] + [port] == Loc(2, port) && LOCAL_COLUMNS[1] + [port] == Loc(3, port);
    assert LOCAL_COLUMNS[2] + [port] == Loc(4, port);
  }

  lemma RemoteCells(remote: seq<VarBind>, key: Oid)
    requires |key| == 3
    ensures var cells := Cells(remote, REMOTE_COLUMNS, 3);
            && At(cells, 0, key) == LastUnder(remote, Rem(4, key))
            && At(cells, 1, key) == LastUnder(remote, Rem(5, key))
            && At(cells, 2, key) == LastUnder(remote, Rem(6, key))
            && At(cells, 3, key) == LastUnder(remote, Rem(7, key))
            && At(cells, 4, key) == LastUnder(remote, Rem(9, key))
  {
    hide Cells; hide LastUnder; hide Separate; hide At;
    ColumnsAreSeparate();
    CellsByName(remote, REMOTE_COLUMNS, 3, 0, key);
    CellsByName(remote, REMOTE_COLUMNS, 3, 1, key);
    CellsByName(remote, REMOTE_COLUMNS, 3, 2, key);
    CellsByName(remote, REMOTE_COLUMNS, 3, 3, key);
    CellsByName(remote, REMOTE_COLUMNS, 3, 4, key);
    assert REMOTE_COLUMNS[0] + key == Rem(4, key) && REMOTE_COLUMNS[1] + key == Rem(5, key);
    assert REMOTE_COLUMNS[2] + key == Rem(6, key) && REMOTE_COLUMNS[3] + key == Rem(7, key);
    assert REMOTE_COLUMNS[4] + key == Rem(9, key);
  }

  // ----- the local interface -----

  predicate SameText(a: Option<seq<byte>>, b: Option<seq<byte>>) { a.Some? && a == b && a.value != [] }

  /** The local port names the interface: by its id, as its subtype says, or by its description. */
  predicate NamesInterface(local: seq<VarBind>, ifs: seq<VarBind>, port: nat, i: nat) {
    || (PortSubtype(local, port) == Some(1) && SameText(PortId(local, port), IfAlias(ifs, i)))
    || (PortSubtype(local, port) == Some(3) && SameText(PortId(local, port), IfPhysAddress(ifs, i)))
    || (PortSubtype(local, port) == Some(5) && SameText(PortId(local, port), IfName(ifs, i)))
    || SameText(PortDescr(local, port), IfName(ifs, i))
    || SameText(PortDescr(local, port), IfDescr(ifs, i))
  }

  /** The one interface that the port names. */
  ghost predicate NamesOnly(local: seq<VarBind>, ifs: seq<VarBind>, port: nat, i: nat) {
    NamesInterface(local, ifs, port, i) && forall j: nat :: NamesInterface(local, ifs, port, j) ==> j == i
  }

  lemma HasCell(cells: map<Cell, SnmpValue>, column: nat, key: Oid)
    ensures At(cells, column, key).Some? ==> key in KeysOf(cells)
  {
    if At(cells, column, key).Some? { assert Cell(column, key) in cells && Cell(column, key).key == key; }
  }

  /** An interface without an entry has none of the four properties. */
  lemma InterfaceByName(ifs: seq<VarBind>, i: nat)
    ensures var found, all := Lookup(Interfaces(ifs), [i]),
                              Interface(IfName(ifs, i), IfDescr(ifs, i), IfAlias(ifs, i), IfPhysAddress(ifs, i));
            if found.Some? then found.value == all else all == Interface(None, None, None, None)
  {
    hide Cells; hide LastUnder; hide KeysOf;
    var cells := Cells(ifs, INTERFACE_COLUMNS, 1);
    InterfaceCells(ifs, i);
    HasCell(cells, 0, [i]);
    HasCell(cells, 1, [i]);
    HasCell(cells, 2, [i]);
    HasCell(cells, 3, [i]);
  }

  lemma LocalPortByName(local: seq<VarBind>, port: nat)
    ensures var found, all := Lookup(LocalPorts(local), [port]),
                              LocalPort(PortSubtype(local, port), PortId(local, port), PortDescr(local, port));
            if found.Some? then found.value == all else all == LocalPort(None, None, None)
  {
    hide Cells; hide LastUnder; hide KeysOf;
    var cells := Cells(local, LOCAL_COLUMNS, 1);
    LocalPortCells(local, port);
    HasCell(cells, 0, [port]);
    HasCell(cells, 1, [port]);
    HasCell(cells, 2, [port]);
  }

  lemma InterfaceKeys(ifs: seq<VarBind>, key: Oid)
    requires key in Interfaces(ifs)
    ensures |key| == 1 && key == [key[0]]
  {
    CellsWidth(ifs, INTERFACE_COLUMNS, 1);
  }

  lemma CandidateNames(local: seq<VarBind>, ifs: seq<VarBind>, port: nat, i: nat)
    requires [port] in LocalPorts(local)
    ensures [i] in Candidates(LocalPorts(local)[[port]], Interfaces(ifs)) <==> NamesInterface(local, ifs, port, i)
  {
    hide Interfaces; hide LocalPorts; hide IfName; hide IfDescr; hide IfAlias; hide IfPhysAddress;
    hide PortSubtype; hide PortId; hide PortDescr;
    InterfaceByName(ifs, i);
    LocalPortByName(local, port);
  }

  /** A local port resolves to the interface that it alone names; if it names none, or more than one, to nothing. */
  lemma ResolvesExactly(local: seq<VarBind>, ifs: seq<VarBind>, port: nat, i: nat)
    requires [port] in LocalPorts(local)
    ensures Resolve(LocalPorts(local)[[port]], Interfaces(ifs)) == Some([i]) <==> NamesOnly(local, ifs, port, i)
  {
    hide Interfaces; hide LocalPorts; hide NamesInterface; hide Candidates;
    var candidates := Candidates(LocalPorts(local)[[port]], Interfaces(ifs));
    CandidateNames(local, ifs, port, i);
    forall key | key in candidates ensures |key| == 1 && key == [key[0]] {
      CandidateKnown(LocalPorts(local)[[port]], Interfaces(ifs), key);
      InterfaceKeys(ifs, key);
    }
    if Resolve(LocalPorts(local)[[port]], Interfaces(ifs)) == Some([i]) {
      forall j: nat | NamesInterface(local, ifs, port, j) ensures j == i {
        CandidateNames(local, ifs, port, j);
        assert [j] in candidates;
        assert [j][0] == [i][0];
      }
    }
    if NamesOnly(local, ifs, port, i) {
      forall key | key in candidates ensures key == [i] { CandidateNames(local, ifs, port, key[0]); }
      assert candidates == {[i]};
    }
  }

  lemma CandidateKnown(port: LocalPort, interfaces: map<Oid, Interface>, key: Oid)
    requires key in Candidates(port, interfaces)
    ensures key in interfaces
  {
  }

  // ----- the address -----

  /** The octets behind type and length in the index of a management address row. */
  predicate IsIndexed(rest: Oid, address: seq<byte>) {
    && |rest| >= 2 && |rest| >= 2 + rest[1] && |address| == rest[1]
    && ((rest[0] == 1 && |address| == 4) || (rest[0] == 2 && |address| == 16))
    && forall i :: 0 <= i < |address| ==> rest[2 + i] == address[i] as nat
  }

  /** The row gives the address to the key: by its value, or else by its index. */
  predicate Gives(row: VarBind, key: Oid, address: seq<byte>) {
    var name := [1, 0, 8802, 1, 1, 2, 1, 4, 2, 1, 4] + key;
    && |key| == 3 && name <= row.oid && |row.oid| >= |name| + 3
    && match row.value
       case IpAddress(octets) => address == octets
       case Octets(octets) =>
         if |octets| == 4 || |octets| == 16 then address == octets else IsIndexed(row.oid[|name|..], address)
       case _ => IsIndexed(row.oid[|name|..], address)
  }

  lemma IndexedExactly(rest: Oid, address: seq<byte>)
    ensures IndexedAddress(rest) == Some(address) <==> IsIndexed(rest, address)
  {
    if |rest| >= 2 && |rest| >= 2 + rest[1] {
      var octets := rest[2..2 + rest[1]];
      assert forall i :: 0 <= i < |octets| ==> octets[i] == rest[2 + i];
      if IsIndexed(rest, address) {
        assert forall i :: 0 <= i < |octets| ==> octets[i] == address[i] as nat;
        assert IndexedAddress(rest).value == address;
      }
      if IndexedAddress(rest) == Some(address) {
        assert forall i :: 0 <= i < |address| ==> address[i] as nat == octets[i];
      }
    }
  }

  lemma GivesExactly(row: VarBind, key: Oid, address: seq<byte>)
    ensures Contribution(row) == Some((key, address)) <==> Gives(row, key, address)
  {
    hide IndexedAddress; hide IsIndexed;
    var name := LLDP_REM_MAN_ADDR + key;
    if name <= row.oid { assert row.oid[..11] == name[..11] == LLDP_REM_MAN_ADDR; }
    if LLDP_REM_MAN_ADDR <= row.oid {
      var suffix := row.oid[11..];
      assert row.oid == LLDP_REM_MAN_ADDR + suffix;
      if |key| == 3 && |suffix| >= 3 {
        assert name <= row.oid <==> suffix[..3] == key by {
          if suffix[..3] == key { assert row.oid[..14] == LLDP_REM_MAN_ADDR + suffix[..3]; }
          if name <= row.oid { assert suffix[..3] == row.oid[..14][11..] == name[11..]; }
        }
        assert row.oid[14..] == suffix[3..];
        IndexedExactly(suffix[3..], address);
      }
    }
  }

  /** The first row that gives the key an address gives this one. */
  ghost predicate FirstGives(rows: seq<VarBind>, key: Oid, address: seq<byte>, i: nat) {
    && i < |rows| && Gives(rows[i], key, address)
    && forall j, other: seq<byte> :: 0 <= j < i ==> !Gives(rows[j], key, other)
  }

  lemma {:induction false} AddressIsFirst(rows: seq<VarBind>, key: Oid, address: seq<byte>)
    ensures Lookup(Addresses(rows), key) == Some(address) <==> exists i: nat :: FirstGives(rows, key, address, i)
    ensures key !in Addresses(rows) <==> forall j, other: seq<byte> :: 0 <= j < |rows| ==> !Gives(rows[j], key, other)
  {
    if rows != [] {
      hide Gives; hide Contribution;
      var n := |rows| - 1;
      var init, row := rows[..n], rows[n];
      AddressIsFirst(init, key, address);
      forall other: seq<byte> ensures Contribution(row) == Some((key, other)) <==> Gives(row, key, other) {
        GivesExactly(row, key, other);
      }
      assert forall j :: 0 <= j < n ==> init[j] == rows[j];
      if i: nat :| FirstGives(init, key, address, i) { assert FirstGives(rows, key, address, i); }
      if i: nat :| FirstGives(rows, key, address, i) {
        if i < n { assert FirstGives(init, key, address, i); }
      }
      if key !in Addresses(init) && Contribution(row) == Some((key, address)) {
        assert FirstGives(rows, key, address, n);
      }
      assert Contribution(row).Some? && Contribution(row).value.0 == key ==>
          Contribution(row) == Some((key, Contribution(row).value.1));
    }
  }

  // ----- host names -----

  predicate AllNul(octets: seq<byte>) { forall i :: 0 <= i < |octets| ==> octets[i] == 0 }

  /** What is left without the NULs on both sides. */
  ghost predicate IsTrimmed(octets: seq<byte>, text: seq<byte>) {
    && (exists lead, tail :: octets == lead + text + tail && AllNul(lead) && AllNul(tail))
    && (text != [] ==> text[0] != 0 && text[|text| - 1] != 0)
  }

  /** The text that a value stands for: trimmed octets if any are left, and any other value but nothing as it is. */
  ghost predicate Spells(value: SnmpValue, text: Option<Text>) {
    match text
    case None => value in {Null, Unsupported, ObjectId([])} || (value.Octets? && IsTrimmed(value.octets, []))
    case Some(Raw(t)) => t != [] && value.Octets? && IsTrimmed(value.octets, t)
    case Some(Rendered(v)) => v == value && !value.Octets? && value !in {Null, Unsupported, ObjectId([])}
  }

  lemma TextSpells(value: SnmpValue)
    ensures Spells(value, AsText(value))
  {
    if value.Octets? {
      var octets := value.octets;
      var lead := FrontNuls(octets);
      var tail := BackNuls(TrimFront(octets));
      hide TrimFront; hide TrimBack;
      assert octets == lead + TrimBack(TrimFront(octets)) + tail;
      assert IsTrimmed(octets, TrimBack(TrimFront(octets)));
    }
  }

  lemma {:induction false} FrontNuls(octets: seq<byte>) returns (lead: seq<byte>)
    ensures octets == lead + TrimFront(octets) && AllNul(lead)
    ensures TrimFront(octets) != [] ==> TrimFront(octets)[0] != 0
  {
    if octets == [] || octets[0] != 0 {
      lead := [];
    } else {
      var more := FrontNuls(octets[1..]);
      lead := [octets[0]] + more;
    }
  }

  lemma {:induction false} BackNuls(octets: seq<byte>) returns (tail: seq<byte>)
    ensures octets == TrimBack(octets) + tail && AllNul(tail)
    ensures TrimBack(octets) != [] ==> TrimBack(octets)[|TrimBack(octets)| - 1] != 0
    ensures TrimBack(octets) <= octets
  {
    if octets == [] || octets[|octets| - 1] != 0 {
      tail := [];
    } else {
      var init := octets[..|octets| - 1];
      var more := BackNuls(init);
      tail := more + [0];
      assert TrimBack(octets) == TrimBack(init);
      hide TrimBack;
      assert octets == init + [0];
      assert octets == (TrimBack(init) + more) + [0] == TrimBack(init) + tail;
    }
  }

  // ----- the neighbor -----

  /** The row has a cell of one of the five columns under this key. */
  predicate HasRemoteRow(remote: seq<VarBind>, key: Oid) {
    || LastUnder(remote, Rem(4, key)).Some? || LastUnder(remote, Rem(5, key)).Some?
    || LastUnder(remote, Rem(6, key)).Some? || LastUnder(remote, Rem(7, key)).Some?
    || LastUnder(remote, Rem(9, key)).Some?
  }

  /** The fields that come from the remote rows. */
  ghost predicate RemoteFields(remote: seq<VarBind>, key: Oid, n: Neighbor) {
    var id := OctetsOf(LastUnder(remote, Rem(5, key)));
    && n.chassis == (if id.Some? then Some(Identifier(NumberOf(LastUnder(remote, Rem(4, key))), id.value)) else None)
    && n.portSubtype == NumberOf(LastUnder(remote, Rem(6, key)))
    && n.portId == OctetsOf(LastUnder(remote, Rem(7, key)))
    && (match LastUnder(remote, Rem(9, key)) case None => n.hostname == None case Some(v) => Spells(v, n.hostname))
  }

  /** The fields that come from the local port and its interface. */
  ghost predicate LocalFields(local: seq<VarBind>, ifs: seq<VarBind>, port: nat, n: Neighbor) {
    && n.localPortId == PortId(local, port)
    && (forall i: nat :: n.localIfIndex == Some(i) <==> NamesOnly(local, ifs, port, i))
    && (match n.localIfIndex
        case None => n.localPortName == None
        case Some(i) => n.localPortName == if IfName(ifs, i).Some? then IfName(ifs, i) else IfDescr(ifs, i))
  }

  lemma RemoteFieldsHold(remote: seq<VarBind>, key: Oid, port: Option<LocalPort>, resolved: Option<Oid>,
                         interfaces: map<Oid, Interface>, addresses: map<Oid, seq<byte>>)
    requires key in RemoteRows(remote) && |key| == 3
    ensures RemoteFields(remote, key, MakeNeighbor(key, RemoteRows(remote)[key], port, resolved, interfaces, addresses))
  {
    hide Cells; hide LastUnder; hide AsText; hide Spells; hide KeysOf; hide Rem; hide At;
    RemoteCells(remote, key);
    if LastUnder(remote, Rem(9, key)).Some? { TextSpells(LastUnder(remote, Rem(9, key)).value); }
  }

  lemma {:induction false} KeysByName(remote: seq<VarBind>, key: Oid)
    requires |key| == 3
    ensures key in RemoteRows(remote) <==> HasRemoteRow(remote, key)
  {
    hide Cells; hide LastUnder; hide LldpRowAt;
    var cells := Cells(remote, REMOTE_COLUMNS, 3);
    RemoteCells(remote, key);
    HasCell(cells, 0, key);
    HasCell(cells, 1, key);
    HasCell(cells, 2, key);
    HasCell(cells, 3, key);
    HasCell(cells, 4, key);
    CellsWidth(remote, REMOTE_COLUMNS, 3);
    if key in RemoteRows(remote) {
      var cell :| cell in cells && cell.key == key;
      assert cell == Cell(cell.column, key) && At(cells, cell.column, key).Some?;
    }
  }

  lemma LocalFieldsHold(local: seq<VarBind>, ifs: seq<VarBind>, key: Oid, row: LldpRow, addresses: map<Oid, seq<byte>>)
    requires |key| == 3
    ensures LocalFields(local, ifs, key[1], NeighborOf(key, row, LocalPorts(local), Interfaces(ifs), addresses))
  {
    hide Interfaces; hide LocalPorts; hide NamesOnly; hide Resolve; hide IfName; hide IfDescr; hide IfAlias;
    hide IfPhysAddress; hide PortSubtype; hide PortId; hide PortDescr;
    var port := key[1];
    LocalPortByName(local, port);
    var n := NeighborOf(key, row, LocalPorts(local), Interfaces(ifs), addresses);
    if [port] in LocalPorts(local) {
      var resolved := Resolve(LocalPorts(local)[[port]], Interfaces(ifs));
      if resolved.Some? {
        ResolvedKnown(LocalPorts(local)[[port]], Interfaces(ifs), resolved.value);
        InterfaceKeys(ifs, resolved.value);
        InterfaceByName(ifs, resolved.value[0]);
      }
      forall i: nat ensures n.localIfIndex == Some(i) <==> NamesOnly(local, ifs, port, i) {
        ResolvesExactly(local, ifs, port, i);
        assert [i][0] == i;
      }
    } else {
      forall i: nat ensures !NamesOnly(local, ifs, port, i) { UnknownNamesNothing(local, ifs, port, i); }
    }
  }

  lemma ResolvedKnown(port: LocalPort, interfaces: map<Oid, Interface>, key: Oid)
    requires Resolve(port, interfaces) == Some(key)
    ensures key in interfaces
  {
    assert key in Candidates(port, interfaces);
  }

  lemma UnknownNamesNothing(local: seq<VarBind>, ifs: seq<VarBind>, port: nat, i: nat)
    requires PortSubtype(local, port).None? && PortId(local, port).None? && PortDescr(local, port).None?
    ensures !NamesOnly(local, ifs, port, i)
  {
  }

  /**
   * Each neighbor in terms of the walked rows: there is one for every key of three arcs under which a remote row
   * stands, its remote fields are the last values of their columns, its address is the first that is given to the key,
   * and its local interface is the one that the local port of the key names, if it names exactly one.
   */
  lemma NeighborMeans(remote: seq<VarBind>, management: seq<VarBind>, local: seq<VarBind>, ifs: seq<VarBind>, key: Oid)
    ensures var neighbors := Neighbors(remote, management, local, ifs);
            && (key in neighbors <==> |key| == 3 && HasRemoteRow(remote, key))
            && (key in neighbors ==>
                  RemoteFields(remote, key, neighbors[key]) && LocalFields(local, ifs, key[1], neighbors[key])
                  && forall address :: neighbors[key].ip == Some(address)
                       <==> exists i: nat :: FirstGives(management, key, address, i))
  {
    hide LocalFields; hide RemoteFields; hide HasRemoteRow; hide RemoteRows; hide Interfaces; hide LocalPorts;
    hide Addresses;
    hide FirstGives; hide Resolve;
    RemoteKeyWidth(remote);
    if |key| == 3 { KeysByName(remote, key); }
    if key in RemoteRows(remote) {
      var row, port := RemoteRows(remote)[key], Lookup(LocalPorts(local), [key[1]]);
      var resolved := if port.Some? then Resolve(port.value, Interfaces(ifs)) else None;
      RemoteFieldsHold(remote, key, port, resolved, Interfaces(ifs), Addresses(management));
      LocalFieldsHold(local, ifs, key, row, Addresses(management));
      forall address ensures Lookup(Addresses(management), key) == Some(address)
                        <==> exists i: nat :: FirstGives(management, key, address, i)
      {
        AddressIsFirst(management, key, address);
      }
    }
  }
}
