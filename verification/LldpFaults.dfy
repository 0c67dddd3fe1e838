/** What the quality report on LLDP tables counts, row by row (src/snmp/topology.rs). */
module LldpFaults {
  import opened Basics
  import opened Snmp
  import opened LldpTables
  import opened LldpQuality
  import opened LldpComplete
  import opened LldpMeaning

  // ----- rows by name -----

  /** The value of the last row with exactly this name. */
  function LastNamed(rows: seq<VarBind>, name: Oid): Option<SnmpValue> {
    if rows == [] then None
    else
      var last := rows[|rows| - 1];
      if last.oid == name then Some(last.value) else LastNamed(rows[..|rows| - 1], name)
  }

  predicate NamedTwice(rows: seq<VarBind>, name: Oid) {
    exists i, j :: 0 <= i < j < |rows| && rows[i].oid == name && rows[j].oid == name
  }

  lemma {:induction false} NamedExactly(rows: seq<VarBind>, name: Oid)
    ensures LastNamed(rows, name).Some? <==> exists r :: r in rows && r.oid == name
  {
    if rows != [] {
      NamedExactly(rows[..|rows| - 1], name);
      assert rows == rows[..|rows| - 1] + [rows[|rows| - 1]];
    }
  }

  lemma TwiceIfAgain(rows: seq<VarBind>, name: Oid)
    requires rows != []
    ensures NamedTwice(rows, name)
       <==> NamedTwice(rows[..|rows| - 1], name)
            || (rows[|rows| - 1].oid == name && LastNamed(rows[..|rows| - 1], name).Some?)
  {
    var n := |rows| - 1;
    var init := rows[..n];
    NamedExactly(init, name);
    if NamedTwice(rows, name) {
      var i, j :| 0 <= i < j < |rows| && rows[i].oid == name && rows[j].oid == name;
      if j < n { assert init[i].oid == name && init[j].oid == name; } else { assert init[i] in init; }
    }
    if NamedTwice(init, name) {
      var i, j :| 0 <= i < j < |init| && init[i].oid == name && init[j].oid == name;
      assert rows[i].oid == name && rows[j].oid == name;
    }
    if rows[n].oid == name && LastNamed(init, name).Some? {
      var r :| r in init && r.oid == name;
      var i :| 0 <= i < n && init[i] == r;
      assert rows[i].oid == name && rows[n].oid == name;
    }
  }

  // ----- remote rows -----

  /** The row stands in the remote table under an index without a time mark, a port and a remote index other than 0. */
  predicate BadlyIndexed(row: VarBind, tail: Oid) {
    && [1, 0, 8802, 1, 1, 2, 1, 4, 1, 1] <= row.oid
    && var index := row.oid[10..];
       && !(|index| == 4 && index[2] != 0 && index[3] != 0)
       && tail == if index == [] then [] else index[1..]
  }

  lemma {:induction false} RejectedExactly(rows: seq<VarBind>, tail: Oid)
    ensures tail in ScanRows(rows).rejected <==> exists r :: r in rows && BadlyIndexed(r, tail)
  {
    if rows != [] {
      var n := |rows| - 1;
      assert rows == rows[..n] + [rows[n]];
      ScanSnoc(rows);
      RejectedExactly(rows[..n], tail);
      assert RemoteIndex(rows[n]).Some? && !WellIndexed(RemoteIndex(rows[n]).value)
             && Tail(RemoteIndex(rows[n]).value) == tail
        <==> BadlyIndexed(rows[n], tail);
      hide ScanRows; hide RemoteIndex; hide BadlyIndexed;
    }
  }

  predicate GoodKey(key: Oid) { |key| == 3 && key[1] != 0 && key[2] != 0 }

  lemma RemoteName(row: VarBind, number: nat, key: Oid)
    requires GoodKey(key)
    ensures row.oid == Rem(number, key)
       <==> RemoteIndex(row).Some? && WellIndexed(RemoteIndex(row).value)
            && Cell(RemoteIndex(row).value[0], RemoteIndex(row).value[1..]) == Cell(number, key)
  {
    if row.oid == Rem(number, key) {
      assert row.oid[..10] == LLDP_REM_TABLE;
      assert row.oid[10..] == [number] + key;
    }
    if RemoteIndex(row).Some? && WellIndexed(RemoteIndex(row).value) && RemoteIndex(row).value[1..] == key {
      var index := RemoteIndex(row).value;
      assert index == [index[0]] + key;
      assert row.oid == LLDP_REM_TABLE + index;
      if index[0] == number { assert row.oid == LLDP_REM_TABLE + ([number] + key) == Rem(number, key); }
    }
  }

  lemma {:induction false} IndexedExactly(rows: seq<VarBind>, number: nat, key: Oid)
    ensures At(ScanRows(rows).indexed, number, key) == if GoodKey(key) then LastNamed(rows, Rem(number, key)) else None
  {
    if rows != [] {
      var n := |rows| - 1;
      ScanSnoc(rows);
      IndexedExactly(rows[..n], number, key);
      if GoodKey(key) { RemoteName(rows[n], number, key); }
      hide ScanRows; hide RemoteIndex; hide Rem;
    }
  }

  lemma {:induction false} DuplicatesExactly(rows: seq<VarBind>, key: Oid)
    ensures key in ScanRows(rows).duplicates
       <==> GoodKey(key) && exists number: nat :: NamedTwice(rows, Rem(number, key))
  {
    hide NamedTwice;
    if rows == [] {
      NothingTwice(key);
    } else {
      var n := |rows| - 1;
      var init, row := rows[..n], rows[n];
      ScanSnoc(rows);
      DuplicatesExactly(init, key);
      forall number: nat | GoodKey(key)
        ensures NamedTwice(rows, Rem(number, key))
           <==> NamedTwice(init, Rem(number, key))
                || (row.oid == Rem(number, key) && At(ScanRows(init).indexed, number, key).Some?)
        ensures row.oid == Rem(number, key)
           <==> RemoteIndex(row).Some? && WellIndexed(RemoteIndex(row).value)
                && Cell(RemoteIndex(row).value[0], RemoteIndex(row).value[1..]) == Cell(number, key)
      {
        TwiceIfAgain(rows, Rem(number, key));
        IndexedExactly(init, number, key);
        RemoteName(row, number, key);
      }
      hide ScanRows; hide RemoteIndex; hide Rem;
    }
  }

  lemma NothingTwice(key: Oid)
    ensures forall name :: !NamedTwice([], name)
  {
  }

  predicate Holds(rows: seq<VarBind>, number: nat, key: Oid) { LastNamed(rows, Rem(number, key)).Some? }

  /** Some row of the remote table stands under this key. */
  ghost predicate IsKey(rows: seq<VarBind>, key: Oid) { GoodKey(key) && exists number: nat :: Holds(rows, number, key) }

  /** An identifier with its subtype, as IEEE 802.1AB allows it: from 1 to 7, and six octets if it is a MAC address. */
  predicate IsIdentifier(id: Option<SnmpValue>, subtype: Option<SnmpValue>, mac: nat) {
    && id.Some? && id.value.Octets? && |id.value.octets| >= 1
    && subtype.Some? && subtype.value.Number? && 1 <= subtype.value.n <= 7
    && (subtype.value.n == mac ==> |id.value.octets| == 6)
  }

  predicate GoodChassis(rows: seq<VarBind>, key: Oid) {
    IsIdentifier(LastNamed(rows, Rem(5, key)), LastNamed(rows, Rem(4, key)), 4)
  }

  predicate GoodPort(rows: seq<VarBind>, key: Oid) {
    IsIdentifier(LastNamed(rows, Rem(7, key)), LastNamed(rows, Rem(6, key)), 3)
  }

  predicate GoodName(rows: seq<VarBind>, key: Oid) {
    var name := LastNamed(rows, Rem(9, key));
    name.Some? ==> name.value.Octets? && Utf8.Valid(name.value.octets)
  }

  lemma KeysExactly(rows: seq<VarBind>, key: Oid)
    ensures key in KeysOf(ScanRows(rows).indexed) <==> IsKey(rows, key)
  {
    hide ScanRows; hide LastNamed; hide Rem;
    var indexed := ScanRows(rows).indexed;
    if key in KeysOf(indexed) {
      var cell :| cell in indexed && cell.key == key;
      IndexedExactly(rows, cell.column, key);
      assert Cell(cell.column, key) == cell;
      assert Holds(rows, cell.column, key);
    }
    if IsKey(rows, key) {
      var number: nat :| Holds(rows, number, key);
      IndexedExactly(rows, number, key);
      assert Cell(number, key) in indexed && Cell(number, key).key == key;
    }
  }

  lemma IdentifiersExactly(rows: seq<VarBind>, key: Oid)
    requires GoodKey(key)
    ensures IdentityOk(ScanRows(rows).indexed, key) <==> GoodChassis(rows, key)
    ensures PortOk(ScanRows(rows).indexed, key) <==> GoodPort(rows, key)
    ensures HostnameBad(ScanRows(rows).indexed, key) <==> !GoodName(rows, key)
  {
    hide ScanRows; hide LastNamed; hide Rem; hide Utf8.Valid;
    IndexedExactly(rows, 4, key);
    IndexedExactly(rows, 5, key);
    IndexedExactly(rows, 6, key);
    IndexedExactly(rows, 7, key);
    IndexedExactly(rows, 9, key);
  }

  /** A remote row is counted as invalid or incomplete exactly if its chassis, its port, its name or its rows are. */
  lemma RemoteFaults(rows: seq<VarBind>, key: Oid)
    ensures var scan := ScanRows(rows);
            && (key in BadIdentities(scan) <==> IsKey(rows, key) && !GoodChassis(rows, key))
            && (key in BadPorts(scan) <==> IsKey(rows, key) && !GoodPort(rows, key))
            && (key in IncompleteKeys(scan) <==>
                  && IsKey(rows, key)
                  && (!GoodChassis(rows, key) || !GoodPort(rows, key) || !GoodName(rows, key)
                      || exists number: nat :: NamedTwice(rows, Rem(number, key))))
  {
    hide ScanRows; hide NamedTwice; hide Rem; hide GoodChassis; hide GoodPort; hide GoodName; hide IdentityOk;
    hide PortOk;
    hide HostnameBad; hide LastNamed; hide KeysOf;
    KeysExactly(rows, key);
    DuplicatesExactly(rows, key);
    if GoodKey(key) { IdentifiersExactly(rows, key); }
  }

  // ----- management addresses -----

  /** The index of an address row tells the whole address: its type, its length and as many octets. */
  predicate TellsAddress(index: Oid) {
    && |index| >= 5 && |index| == 5 + index[4]
    && ((index[3] == 1 && index[4] == 4) || (index[3] == 2 && index[4] == 16))
    && forall i :: 5 <= i < |index| ==> index[i] < 256
  }

  lemma AddressValidExactly(value: SnmpValue, index: Oid)
    ensures AddressValid(value, index) <==> TellsAddress(index)
  {
    if |index| >= 5 && |index| == 5 + index[4] {
      var octets := index[3..][2..2 + index[4]];
      assert octets == index[5..];
      assert forall i :: 5 <= i < |index| ==> index[i] == octets[i - 5];
    }
  }

  /** The row stands in the remote table under this index. */
  predicate Under(row: VarBind, index: Oid) { row.oid == [1, 0, 8802, 1, 1, 2, 1, 4, 1, 1] + index }

  /** The remote table has a row for this key. */
  predicate Known(remote: seq<VarBind>, key: Oid) {
    exists r :: r in remote && |key| == 3 && |r.oid| == 14 && Under(r, [r.oid[10]] + key)
  }

  /** The remote table has a row for this local port. */
  predicate Refers(remote: seq<VarBind>, port: nat) {
    exists r :: r in remote && |r.oid| == 14 && r.oid[12] == port && Under(r, r.oid[10..])
  }

  lemma KnownExactly(remote: seq<VarBind>, key: Oid)
    ensures key in RemoteKeys(remote) <==> Known(remote, key)
  {
    forall r | r in remote
      ensures RemoteIndex(r).Some? && |RemoteIndex(r).value| == 4 && RemoteIndex(r).value[1..] == key
         <==> |key| == 3 && |r.oid| == 14 && Under(r, [r.oid[10]] + key)
    {
      if RemoteIndex(r).Some? && |RemoteIndex(r).value| == 4 {
        assert r.oid == LLDP_REM_TABLE + RemoteIndex(r).value;
        assert RemoteIndex(r).value == [r.oid[10]] + RemoteIndex(r).value[1..];
      }
      if |key| == 3 && |r.oid| == 14 && Under(r, [r.oid[10]] + key) {
        assert r.oid[..10] == LLDP_REM_TABLE && r.oid[10..] == [r.oid[10]] + key;
      }
    }
  }

  lemma RefersExactly(remote: seq<VarBind>, port: nat)
    ensures port in ReferencedPorts(remote) <==> Refers(remote, port)
  {
    forall r | r in remote
      ensures RemoteIndex(r).Some? && |RemoteIndex(r).value| == 4 && RemoteIndex(r).value[2] == port
         <==> |r.oid| == 14 && r.oid[12] == port && Under(r, r.oid[10..])
    {
      if LLDP_REM_TABLE <= r.oid { assert r.oid == LLDP_REM_TABLE + r.oid[10..]; }
    }
  }

  /**
   * An address row that should count: it is not too short to tell its key, and the key is not that of another table.
   */
  predicate Misplaced(remote: seq<VarBind>, row: VarBind, index: Oid) {
    && row.oid == [1, 0, 8802, 1, 1, 2, 1, 4, 2, 1, 4] + index
    && (|index| < 3 || Known(remote, index[..3])) && !TellsAddress(index)
  }

  predicate HasMisplaced(remote: seq<VarBind>, management: seq<VarBind>, index: Oid) {
    exists r :: r in management && Misplaced(remote, r, index)
  }

  /** An address is counted exactly if a row with its index is misplaced. */
  lemma AddressFaults(remote: seq<VarBind>, management: seq<VarBind>, index: Oid)
    ensures index in BadAddresses(management, RemoteKeys(remote))
       <==> HasMisplaced(remote, management, index)
  {
    hide RemoteKeys; hide Known; hide TellsAddress; hide AddressValid;
    if |index| >= 3 { KnownExactly(remote, index[..3]); }
    forall r | r in management
      ensures Suffix(r.oid, LLDP_REM_MAN_ADDR) == Some(index) <==> r.oid == LLDP_REM_MAN_ADDR + index
      ensures AddressValid(r.value, index) <==> TellsAddress(index)
    {
      AddressValidExactly(r.value, index);
    }
  }

  // ----- local rows -----

  lemma {:induction false} ColumnExactly(oid: Oid, columns: seq<Oid>, from: nat, column: nat, key: Oid)
    requires Separate(columns) && from <= column < |columns|
    ensures FindColumn(oid, columns, from) == Some(Cell(column, key)) <==> oid == columns[column] + key
    decreases |columns| - from
  {
    if oid == columns[column] + key && columns[from] <= oid { PrefixesNest(columns[from], columns[column], oid); }
    if from < column { ColumnExactly(oid, columns, from + 1, column, key); }
  }

  /** The value is one that the column may hold for this port: a subtype, an identifier of that subtype, or octets. */
  predicate IsPortValue(local: seq<VarBind>, column: nat, port: nat, value: SnmpValue) {
    match column
    case 2 => value.Number? && 1 <= value.n <= 7
    case 3 =>
      && value.Octets? && |value.octets| >= 1 && PortSubtype(local, port).Some?
      && 1 <= PortSubtype(local, port).value <= 7
      && (PortSubtype(local, port).value == 3 ==> |value.octets| == 6)
    case _ => value.Octets?
  }

  /**
   * A row that stands under this key in one of the columns has more or less than one arc of index, 0, or a bad value.
   */
  predicate BadPortRow(local: seq<VarBind>, row: VarBind, column: nat, key: Oid) {
    && row.oid == [1, 0, 8802, 1, 1, 2, 1, 3, 7, 1, column] + key
    && !(|key| == 1 && key[0] != 0 && IsPortValue(local, column, key[0], row.value))
  }

  predicate BadInterfaceRow(row: VarBind, column: Oid, key: Oid) {
    row.oid == column + key && !(|key| == 1 && key[0] != 0 && row.value.Octets?)
  }

  /** No column is looked at for the rows of ports that no remote row refers to. */
  predicate Concerns(remote: seq<VarBind>, key: Oid) { key == [] || Refers(remote, key[0]) }

  ghost predicate BadPortKey(remote: seq<VarBind>, local: seq<VarBind>, key: Oid) {
    && Concerns(remote, key)
    && exists column: nat :: column in {2, 3, 4} && BadPortColumn(local, column, key)
  }

  ghost predicate BadPortColumn(local: seq<VarBind>, column: nat, key: Oid) {
    || (exists r :: r in local && BadPortRow(local, r, column, key))
    || NamedTwice(local, [1, 0, 8802, 1, 1, 2, 1, 3, 7, 1, column] + key)
  }

  /** The columns of the interface tables that are read: names, descriptions, aliases and physical addresses. */
  predicate IsInterfaceColumn(column: Oid) {
    || column == [1, 3, 6, 1, 2, 1, 31, 1, 1, 1, 1] || column == [1, 3, 6, 1, 2, 1, 2, 2, 1, 2]
    || column == [1, 3, 6, 1, 2, 1, 31, 1, 1, 1, 18] || column == [1, 3, 6, 1, 2, 1, 2, 2, 1, 6]
  }

  ghost predicate BadInterfaceKey(ifs: seq<VarBind>, key: Oid) {
    exists column :: IsInterfaceColumn(column) && BadInterfaceColumn(ifs, column, key)
  }

  ghost predicate BadInterfaceColumn(ifs: seq<VarBind>, column: Oid, key: Oid) {
    (exists r :: r in ifs && BadInterfaceRow(r, column, key)) || NamedTwice(ifs, column + key)
  }

  /** A key is malformed in a column: a row is unsound there, or two rows have the same name. */
  ghost predicate BadInColumn(rows: seq<VarBind>, columns: seq<Oid>, lldp: bool, ports: map<Oid, LocalPort>, c: nat,
                              key: Oid)
    requires c < |columns|
  {
    || (exists r :: r in rows && BadRow(r, columns, lldp, ports, c, key))
    || NamedTwice(rows, columns[c] + key)
  }

  predicate BadRow(row: VarBind, columns: seq<Oid>, lldp: bool, ports: map<Oid, LocalPort>, c: nat, key: Oid)
    requires c < |columns|
  {
    && row.oid == columns[c] + key
    && !(|key| == 1 && key[0] != 0 && LocalValueValid(row.value, Cell(c, key), lldp, ports))
  }

  lemma UnsoundExactly(row: VarBind, columns: seq<Oid>, referenced: Option<set<nat>>, lldp: bool,
                       ports: map<Oid, LocalPort>, key: Oid)
    requires Separate(columns) && LocalRelevant(key, referenced)
    ensures Unsound(row, key, columns, referenced, lldp, ports)
       <==> exists c: nat :: c < |columns| && BadRow(row, columns, lldp, ports, c, key)
  {
    hide LocalValueValid; hide LocalRelevant;
    forall c: nat | c < |columns|
      ensures FindColumn(row.oid, columns) == Some(Cell(c, key)) <==> row.oid == columns[c] + key
    {
      ColumnExactly(row.oid, columns, 0, c, key);
    }
    hide Separate; hide FindColumn;
    if Unsound(row, key, columns, referenced, lldp, ports) {
      assert BadRow(row, columns, lldp, ports, FindColumn(row.oid, columns).value.column, key);
    }
    if c: nat :| c < |columns| && BadRow(row, columns, lldp, ports, c, key) {
      assert FindColumn(row.oid, columns) == Some(Cell(c, key));
    }
  }

  lemma SoundExactly(row: VarBind, columns: seq<Oid>, referenced: Option<set<nat>>, lldp: bool,
                     ports: map<Oid, LocalPort>, c: nat, key: Oid)
    requires Separate(columns) && LocalRelevant(key, referenced) && c < |columns|
    ensures row.oid == columns[c] + key
       <==> Sound(row, Cell(c, key), columns, referenced, lldp, ports) || BadRow(row, columns, lldp, ports, c, key)
  {
    hide LocalValueValid; hide LocalRelevant; hide FindColumn; hide Separate;
    ColumnExactly(row.oid, columns, 0, c, key);
  }

  lemma TwiceExactly(rows: seq<VarBind>, columns: seq<Oid>, referenced: Option<set<nat>>, lldp: bool,
                     ports: map<Oid, LocalPort>, c: nat, key: Oid)
    requires Separate(columns) && LocalRelevant(key, referenced) && c < |columns|
    ensures FilledTwice(rows, Cell(c, key), columns, referenced, lldp, ports) ==> NamedTwice(rows, columns[c] + key)
    ensures NamedTwice(rows, columns[c] + key) ==>
              || FilledTwice(rows, Cell(c, key), columns, referenced, lldp, ports)
              || exists r :: r in rows && BadRow(r, columns, lldp, ports, c, key)
  {
    hide Sound; hide BadRow; hide LocalRelevant; hide Separate;
    forall r | r in rows
      ensures r.oid == columns[c] + key
         <==> Sound(r, Cell(c, key), columns, referenced, lldp, ports) || BadRow(r, columns, lldp, ports, c, key)
    {
      SoundExactly(r, columns, referenced, lldp, ports, c, key);
    }
    if FilledTwice(rows, Cell(c, key), columns, referenced, lldp, ports) {
      var i, j :| 0 <= i < j < |rows| && Sound(rows[i], Cell(c, key), columns, referenced, lldp, ports)
                  && Sound(rows[j], Cell(c, key), columns, referenced, lldp, ports);
      assert rows[i] in rows && rows[j] in rows;
    }
    if NamedTwice(rows, columns[c] + key) {
      var i, j :| 0 <= i < j < |rows| && rows[i].oid == columns[c] + key && rows[j].oid == columns[c] + key;
      assert rows[i] in rows && rows[j] in rows;
    }
  }

  /** Rows of columns that are not looked at are not counted. */
  lemma {:induction false} OnlyRelevant(rows: seq<VarBind>, columns: seq<Oid>, referenced: Option<set<nat>>, lldp: bool,
                                        ports: map<Oid, LocalPort>, key: Oid)
    requires key in ScanLocalRows(rows, columns, referenced, lldp, ports).malformed
    ensures LocalRelevant(key, referenced)
  {
    hide FindColumn; hide LocalValueValid; hide LocalRelevant;
    var n := |rows| - 1;
    if key in ScanLocalRows(rows[..n], columns, referenced, lldp, ports).malformed {
      OnlyRelevant(rows[..n], columns, referenced, lldp, ports, key);
    }
  }

  lemma MalformedExactly(rows: seq<VarBind>, columns: seq<Oid>, referenced: Option<set<nat>>, lldp: bool,
                         ports: map<Oid, LocalPort>, key: Oid)
    requires Separate(columns)
    ensures key in ScanLocalRows(rows, columns, referenced, lldp, ports).malformed
       <==> LocalRelevant(key, referenced)
            && exists c: nat :: c < |columns| && BadInColumn(rows, columns, lldp, ports, c, key)
  {
    hide *;
    if key in ScanLocalRows(rows, columns, referenced, lldp, ports).malformed {
      OnlyRelevant(rows, columns, referenced, lldp, ports, key);
    }
    if LocalRelevant(key, referenced) {
      MalformedMeans(rows, columns, referenced, lldp, ports, key);
      MalformedParts(rows, columns, referenced, lldp, ports, key);
    }
  }

  lemma MalformedParts(rows: seq<VarBind>, columns: seq<Oid>, referenced: Option<set<nat>>, lldp: bool,
                       ports: map<Oid, LocalPort>, key: Oid)
    requires Separate(columns) && LocalRelevant(key, referenced)
    ensures HasUnsound(rows, key, columns, referenced, lldp, ports)
            || (exists column :: FilledTwice(rows, Cell(column, key), columns, referenced, lldp, ports))
       <==> exists c: nat :: c < |columns| && BadInColumn(rows, columns, lldp, ports, c, key)
  {
    hide Unsound; hide BadRow; hide FilledTwice; hide NamedTwice; hide LocalRelevant; hide Separate;
    forall r ensures Unsound(r, key, columns, referenced, lldp, ports)
                <==> exists c: nat :: c < |columns| && BadRow(r, columns, lldp, ports, c, key)
    {
      UnsoundExactly(r, columns, referenced, lldp, ports, key);
    }
    forall c: nat | c < |columns|
      ensures FilledTwice(rows, Cell(c, key), columns, referenced, lldp, ports) ==> NamedTwice(rows, columns[c] + key)
      ensures NamedTwice(rows, columns[c] + key) ==>
                || FilledTwice(rows, Cell(c, key), columns, referenced, lldp, ports)
                || exists r :: r in rows && BadRow(r, columns, lldp, ports, c, key)
    {
      TwiceExactly(rows, columns, referenced, lldp, ports, c, key);
    }
    forall c: nat | FilledTwice(rows, Cell(c, key), columns, referenced, lldp, ports) ensures c < |columns| {
      FilledColumn(rows, columns, referenced, lldp, ports, Cell(c, key));
    }
    if c: nat :| c < |columns| && BadInColumn(rows, columns, lldp, ports, c, key) {
      if r :| r in rows && BadRow(r, columns, lldp, ports, c, key) {
        assert Unsound(r, key, columns, referenced, lldp, ports);
      }
    }
    if r :| r in rows && Unsound(r, key, columns, referenced, lldp, ports) {
      var c: nat :| c < |columns| && BadRow(r, columns, lldp, ports, c, key);
      assert BadInColumn(rows, columns, lldp, ports, c, key);
    }
    if c: nat :| FilledTwice(rows, Cell(c, key), columns, referenced, lldp, ports) {
      assert BadInColumn(rows, columns, lldp, ports, c, key);
    }
  }

  lemma FilledColumn(rows: seq<VarBind>, columns: seq<Oid>, referenced: Option<set<nat>>, lldp: bool,
                     ports: map<Oid, LocalPort>, cell: Cell)
    requires FilledTwice(rows, cell, columns, referenced, lldp, ports)
    ensures cell.column < |columns|
  {
  }

  lemma PortValueExactly(local: seq<VarBind>, value: SnmpValue, c: nat, port: nat)
    requires c < 3
    ensures LocalValueValid(value, Cell(c, [port]), true, LocalPorts(local)) <==> IsPortValue(local, c + 2, port, value)
  {
    hide LocalPorts; hide PortSubtype; hide PortId; hide PortDescr;
    LocalPortByName(local, port);
    assert [port][..1] == [port];
  }

  lemma BadPortRowExactly(local: seq<VarBind>, row: VarBind, c: nat, key: Oid)
    requires c < 3
    ensures BadRow(row, LOCAL_COLUMNS, true, LocalPorts(local), c, key) <==> BadPortRow(local, row, c + 2, key)
  {
    hide LocalValueValid; hide IsPortValue; hide LocalPorts;
    if |key| == 1 {
      assert key == [key[0]];
      PortValueExactly(local, row.value, c, key[0]);
    }
    assert LOCAL_COLUMNS[c] == [1, 0, 8802, 1, 1, 2, 1, 3, 7, 1, c + 2];
  }

  lemma BadPortColumnExactly(local: seq<VarBind>, c: nat, key: Oid)
    requires c < 3
    ensures BadInColumn(local, LOCAL_COLUMNS, true, LocalPorts(local), c, key) <==> BadPortColumn(local, c + 2, key)
  {
    hide BadRow; hide BadPortRow; hide NamedTwice; hide LocalPorts;
    forall r ensures BadRow(r, LOCAL_COLUMNS, true, LocalPorts(local), c, key) <==> BadPortRow(local, r, c + 2, key) {
      BadPortRowExactly(local, r, c, key);
    }
    assert LOCAL_COLUMNS[c] == [1, 0, 8802, 1, 1, 2, 1, 3, 7, 1, c + 2];
  }

  lemma BadInterfaceColumnExactly(ifs: seq<VarBind>, c: nat, key: Oid)
    requires c < 4
    ensures BadInColumn(ifs, INTERFACE_COLUMNS, false, map[], c, key)
       <==> BadInterfaceColumn(ifs, INTERFACE_COLUMNS[c], key)
    ensures IsInterfaceColumn(INTERFACE_COLUMNS[c])
  {
    hide NamedTwice;
    forall r
      ensures BadRow(r, INTERFACE_COLUMNS, false, map[], c, key) <==> BadInterfaceRow(r, INTERFACE_COLUMNS[c], key)
    {
    }
  }

  /** A key of the local port table is counted exactly if a remote row refers to it and a row or a name is bad. */
  lemma PortFaults(remote: seq<VarBind>, local: seq<VarBind>, key: Oid)
    ensures key in MalformedLocal(local, LOCAL_COLUMNS, Some(ReferencedPorts(remote)), true)
       <==> BadPortKey(remote, local, key)
  {
    hide ScanLocalRows; hide BadInColumn; hide BadPortColumn; hide LocalPorts; hide ReferencedPorts; hide Refers;
    hide Separate;
    ColumnsAreSeparate();
    if key != [] { RefersExactly(remote, key[0]); }
    MalformedExactly(local, LOCAL_COLUMNS, Some(ReferencedPorts(remote)), true, LocalPorts(local), key);
    BadPortColumnExactly(local, 0, key);
    BadPortColumnExactly(local, 1, key);
    BadPortColumnExactly(local, 2, key);
  }

  /** A key of the interface tables is counted exactly if a row or a name is bad. */
  lemma InterfaceFaults(ifs: seq<VarBind>, key: Oid)
    ensures key in MalformedLocal(ifs, INTERFACE_COLUMNS, None, false) <==> BadInterfaceKey(ifs, key)
  {
    hide ScanLocalRows; hide BadInColumn; hide BadInterfaceColumn; hide Separate;
    ColumnsAreSeparate();
    MalformedExactly(ifs, INTERFACE_COLUMNS, None, false, map[], key);
    BadInterfaceColumnExactly(ifs, 0, key);
    BadInterfaceColumnExactly(ifs, 1, key);
    BadInterfaceColumnExactly(ifs, 2, key);
    BadInterfaceColumnExactly(ifs, 3, key);
  }

  // ----- a complete report -----

  /** Every remote row is well indexed, has its own name, and a chassis, a port and a host name as they should be. */
  ghost predicate FaultlessRemote(remote: seq<VarBind>) {
    && (forall r, tail :: r in remote ==> !BadlyIndexed(r, tail))
    && (forall key :: FaultlessKey(remote, key))
  }

  ghost predicate FaultlessKey(remote: seq<VarBind>, key: Oid) {
    IsKey(remote, key) ==>
      && GoodChassis(remote, key) && GoodPort(remote, key) && GoodName(remote, key)
      && forall number: nat :: !NamedTwice(remote, Rem(number, key))
  }

  ghost predicate FaultlessTables(remote: seq<VarBind>, management: seq<VarBind>, local: seq<VarBind>,
                                  ifs: seq<VarBind>) {
    && (forall index :: !HasMisplaced(remote, management, index))
    && (forall key :: !BadPortKey(remote, local, key)) && (forall key :: !BadInterfaceKey(ifs, key))
  }

  /** Every neighbor has a local port that names one interface. */
  ghost predicate AllResolved(remote: seq<VarBind>, local: seq<VarBind>, ifs: seq<VarBind>) {
    forall key :: |key| == 3 && HasRemoteRow(remote, key) ==> exists i: nat :: NamesOnly(local, ifs, key[1], i)
  }

  lemma FaultlessRemoteExactly(remote: seq<VarBind>)
    ensures ScanRows(remote).rejected == {} && IncompleteKeys(ScanRows(remote)) == {} <==> FaultlessRemote(remote)
  {
    hide ScanRows; hide BadlyIndexed; hide GoodChassis; hide GoodPort; hide GoodName; hide NamedTwice;
    hide IncompleteKeys;
    hide IsKey; hide Rem;
    forall tail ensures tail in ScanRows(remote).rejected <==> exists r :: r in remote && BadlyIndexed(r, tail) {
      RejectedExactly(remote, tail);
    }
    forall key ensures key in IncompleteKeys(ScanRows(remote)) <==> !FaultlessKey(remote, key) {
      RemoteFaults(remote, key);
    }
    hide FaultlessKey;
    if ScanRows(remote).rejected == {} {
      forall r, tail | r in remote ensures !BadlyIndexed(r, tail) { assert tail !in ScanRows(remote).rejected; }
    }
    if IncompleteKeys(ScanRows(remote)) == {} {
      forall key ensures FaultlessKey(remote, key) { assert key !in IncompleteKeys(ScanRows(remote)); }
    }
    EmptyExactly(ScanRows(remote).rejected);
    EmptyExactly(IncompleteKeys(ScanRows(remote)));
  }

  lemma FaultlessTablesExactly(remote: seq<VarBind>, management: seq<VarBind>, local: seq<VarBind>, ifs: seq<VarBind>)
    ensures && BadAddresses(management, RemoteKeys(remote)) == {}
            && MalformedLocal(local, LOCAL_COLUMNS, Some(ReferencedPorts(remote)), true) == {}
            && MalformedLocal(ifs, INTERFACE_COLUMNS, None, false) == {}
       <==> FaultlessTables(remote, management, local, ifs)
  {
    hide *;
    var addresses, ports := BadAddresses(management, RemoteKeys(remote)),
                            MalformedLocal(local, LOCAL_COLUMNS, Some(ReferencedPorts(remote)), true);
    forall index ensures index in addresses <==> HasMisplaced(remote, management, index) {
      AddressFaults(remote, management, index);
    }
    forall key ensures key in ports <==> BadPortKey(remote, local, key) { PortFaults(remote, local, key); }
    forall key ensures key in MalformedLocal(ifs, INTERFACE_COLUMNS, None, false) <==> BadInterfaceKey(ifs, key) {
      InterfaceFaults(ifs, key);
    }
    EmptyExactly(addresses);
    EmptyExactly(ports);
    EmptyExactly(MalformedLocal(ifs, INTERFACE_COLUMNS, None, false));
    Faultless(remote, management, local, ifs);
  }

  lemma EmptyExactly(s: set<Oid>)
    ensures s == {} <==> forall x :: x !in s
  {
  }

  lemma Faultless(remote: seq<VarBind>, management: seq<VarBind>, local: seq<VarBind>, ifs: seq<VarBind>)
    ensures FaultlessTables(remote, management, local, ifs)
       <==> && (forall index :: !HasMisplaced(remote, management, index))
            && (forall key :: !BadPortKey(remote, local, key)) && (forall key :: !BadInterfaceKey(ifs, key))
  {
    hide HasMisplaced; hide BadPortKey; hide BadInterfaceKey;
  }

  lemma ResolvedExactly(remote: seq<VarBind>, management: seq<VarBind>, local: seq<VarBind>, ifs: seq<VarBind>)
    ensures Unresolved(Neighbors(remote, management, local, ifs)) == {} <==> AllResolved(remote, local, ifs)
  {
    hide Neighbors; hide NamesOnly; hide HasRemoteRow; hide RemoteFields; hide FirstGives;
    var neighbors := Neighbors(remote, management, local, ifs);
    forall key
      ensures key in neighbors <==> |key| == 3 && HasRemoteRow(remote, key)
      ensures key in neighbors ==>
                forall i: nat :: neighbors[key].localIfIndex == Some(i) <==> NamesOnly(local, ifs, key[1], i)
    {
      NeighborMeans(remote, management, local, ifs, key);
    }
    forall key | key in neighbors
      ensures key in Unresolved(neighbors) <==> !exists i: nat :: NamesOnly(local, ifs, key[1], i)
    {
      if neighbors[key].localIfIndex.Some? { assert NamesOnly(local, ifs, key[1], neighbors[key].localIfIndex.value); }
    }
    EmptyExactly(Unresolved(neighbors));
  }

  /**
   * The report is complete if and only if there is no fault in any row that it looks at: with remote rows, in any of
   * the four tables, and without them there is nothing to look at.
   */
  lemma CompleteExactly(remote: seq<VarBind>, management: seq<VarBind>, local: seq<VarBind>, ifs: seq<VarBind>)
    ensures Complete(remote, management, local, ifs)
       <==> remote == []
            || (FaultlessRemote(remote) && FaultlessTables(remote, management, local, ifs)
                && AllResolved(remote, local, ifs))
  {
    hide *;
    FaultlessRemoteExactly(remote);
    FaultlessTablesExactly(remote, management, local, ifs);
    ResolvedExactly(remote, management, local, ifs);
    CompleteParts(remote, management, local, ifs);
    if remote == [] { NoRemoteRows(local, ifs); }
  }

  lemma NoRemoteRows(local: seq<VarBind>, ifs: seq<VarBind>)
    ensures FaultlessRemote([]) && AllResolved([], local, ifs)
  {
  }

  lemma CompleteParts(remote: seq<VarBind>, management: seq<VarBind>, local: seq<VarBind>, ifs: seq<VarBind>)
    ensures Complete(remote, management, local, ifs)
       <==> && ScanRows(remote).rejected == {} && IncompleteKeys(ScanRows(remote)) == {}
            && (remote == []
                || (BadAddresses(management, RemoteKeys(remote)) == {}
                    && MalformedLocal(local, LOCAL_COLUMNS, Some(ReferencedPorts(remote)), true) == {}
                    && MalformedLocal(ifs, INTERFACE_COLUMNS, None, false) == {}))
            && Unresolved(Neighbors(remote, management, local, ifs)) == {}
  {
    hide ScanRows; hide MalformedLocal; hide BadAddresses; hide Neighbors; hide RemoteKeys; hide ReferencedPorts;
    hide IncompleteKeys; hide BadIdentities; hide BadPorts; hide Unresolved;
    BadOnesIncomplete(ScanRows(remote));
    assert forall s: set<Oid> :: |s| == 0 <==> s == {};
  }

  lemma BadOnesIncomplete(scan: Scan)
    ensures BadIdentities(scan) <= IncompleteKeys(scan) && BadPorts(scan) <= IncompleteKeys(scan)
  {
    hide IdentityOk; hide PortOk;
  }
}
