/**
 * The quality report on walked LLDP tables (normalize_lldp_neighbors_with_quality in
 * src/snmp/topology.rs): a second pass over the same rows that must vouch for the first.
 */
module LldpQuality {
  import opened Basics
  import opened Snmp
  import opened LldpTables
  import Utf8

  datatype Quality = Quality(
    rejectedRemoteRows: nat, incompleteRemoteRows: nat, invalidRemoteIdentityRows: nat, invalidRemotePortRows: nat,
    malformedAddressRows: nat, malformedLocalRows: nat, unresolvedLocalPorts: nat)

  function IsComplete(q: Quality): bool { q == Quality(0, 0, 0, 0, 0, 0, 0) }

  // ----- remote rows -----

  predicate NonemptyBytes(value: SnmpValue) { value.Octets? && value.octets != [] }

  predicate IdentifierValid(value: SnmpValue, subtype: Option<nat>, macSubtype: nat) {
    && NonemptyBytes(value) && subtype.Some? && 1 <= subtype.value <= 7
    && (subtype.value == macSubtype ==> |value.octets| == 6)
  }

  /** The index of a row of the remote table: column, time mark, local port, remote index. */
  function RemoteIndex(row: VarBind): Option<Oid> { Suffix(row.oid, LLDP_REM_TABLE) }

  predicate WellIndexed(suffix: Oid) { |suffix| == 4 && suffix[2] != 0 && suffix[3] != 0 }

  function Tail(suffix: Oid): Oid { if suffix == [] then [] else suffix[1..] }

  /** What the scan over the remote rows accumulates. */
  datatype Scan = Scan(indexed: map<Cell, SnmpValue>, rejected: set<Oid>, duplicates: set<Oid>)

  function ScanRow(scan: Scan, row: VarBind): Scan {
    match RemoteIndex(row)
    case None => scan
    case Some(suffix) =>
      if !WellIndexed(suffix) then scan.(rejected := scan.rejected + {Tail(suffix)})
      else
        var cell := Cell(suffix[0], suffix[1..]);
        scan.(indexed := scan.indexed[cell := row.value],
              duplicates := if cell in scan.indexed then scan.duplicates + {cell.key} else scan.duplicates)
  }

  function ScanRows(rows: seq<VarBind>): Scan {
    if rows == [] then Scan(map[], {}, {}) else ScanRow(ScanRows(rows[..|rows| - 1]), rows[|rows| - 1])
  }

  predicate IdentityOk(cells: map<Cell, SnmpValue>, key: Oid) {
    Cell(5, key) in cells && IdentifierValid(cells[Cell(5, key)], NumberAt(cells, 4, key), 4)
  }

  predicate PortOk(cells: map<Cell, SnmpValue>, key: Oid) {
    Cell(7, key) in cells && IdentifierValid(cells[Cell(7, key)], NumberAt(cells, 6, key), 3)
  }

  predicate HostnameBad(cells: map<Cell, SnmpValue>, key: Oid) {
    Cell(9, key) in cells && !(cells[Cell(9, key)].Octets? && Utf8.Valid(cells[Cell(9, key)].octets))
  }

  predicate RowIncomplete(scan: Scan, key: Oid) {
    || !IdentityOk(scan.indexed, key) || !PortOk(scan.indexed, key)
    || HostnameBad(scan.indexed, key) || key in scan.duplicates
  }

  function IncompleteKeys(scan: Scan): set<Oid> { set key | key in KeysOf(scan.indexed) && RowIncomplete(scan, key) }

  function BadIdentities(scan: Scan): set<Oid> {
    set key | key in KeysOf(scan.indexed) && !IdentityOk(scan.indexed, key)
  }

  function BadPorts(scan: Scan): set<Oid> { set key | key in KeysOf(scan.indexed) && !PortOk(scan.indexed, key) }

  method RemoteRowQuality(rows: seq<VarBind>) returns (q: Quality)
    ensures var scan := ScanRows(rows);
            q == Quality(|scan.rejected|, |IncompleteKeys(scan)|, |BadIdentities(scan)|, |BadPorts(scan)|, 0, 0, 0)
  {
    hide ScanRow; hide IncompleteKeys; hide BadIdentities; hide BadPorts;
    var scan := Scan(map[], {}, {});
    var i := 0;
    while i < |rows|
      invariant 0 <= i <= |rows| && scan == ScanRows(rows[..i])
    {
      assert rows[..i + 1][..i] == rows[..i];
      scan := ScanRow(scan, rows[i]);
      i := i + 1;
    }
    assert rows[..i] == rows;
    var incomplete, identity, port := JudgeRows(scan);
    q := Quality(|scan.rejected|, incomplete, identity, port, 0, 0, 0);
  }

  /** The second loop of remote_row_quality. */
  method JudgeRows(scan: Scan) returns (incomplete: nat, identity: nat, port: nat)
    ensures incomplete == |IncompleteKeys(scan)| && identity == |BadIdentities(scan)| && port == |BadPorts(scan)|
  {
    hide *;
    var keys := KeysOf(scan.indexed);
    NoneJudged(scan);
    incomplete, identity, port := 0, 0, 0;
    var todo := keys;
    while todo != {}
      invariant todo <= keys
      invariant incomplete == Without(IncompleteKeys(scan), todo)
      invariant identity == Without(BadIdentities(scan), todo) && port == Without(BadPorts(scan), todo)
      decreases todo
    {
      var key :| key in todo;
      Judged(scan, key);
      OneLess(IncompleteKeys(scan), todo, key);
      OneLess(BadIdentities(scan), todo, key);
      OneLess(BadPorts(scan), todo, key);
      if !IdentityOk(scan.indexed, key) { identity := identity + 1; }
      if !PortOk(scan.indexed, key) { port := port + 1; }
      if RowIncomplete(scan, key) { incomplete := incomplete + 1; }
      todo := todo - {key};
    }
    NoneLeft(IncompleteKeys(scan));
    NoneLeft(BadIdentities(scan));
    NoneLeft(BadPorts(scan));
  }

  /** How many of the bad keys have been judged. */
  function Without(bad: set<Oid>, todo: set<Oid>): nat { |bad - todo| }

  lemma OneLess(bad: set<Oid>, todo: set<Oid>, key: Oid)
    requires key in todo
    ensures Without(bad, todo - {key}) == Without(bad, todo) + if key in bad then 1 else 0
  {
    var after := bad - (todo - {key});
    if key in bad {
      assert after == (bad - todo) + {key};
    } else {
      assert after == bad - todo;
    }
  }

  lemma NoneLeft(bad: set<Oid>)
    ensures Without(bad, {}) == |bad|
  {
    assert bad - {} == bad;
  }

  lemma NoneJudged(scan: Scan)
    ensures var keys := KeysOf(scan.indexed);
            Without(IncompleteKeys(scan), keys) == 0
            && Without(BadIdentities(scan), keys) == 0 && Without(BadPorts(scan), keys) == 0
  {
    hide RowIncomplete; hide IdentityOk; hide PortOk;
    var keys := KeysOf(scan.indexed);
    assert IncompleteKeys(scan) - keys == {} && BadIdentities(scan) - keys == {} && BadPorts(scan) - keys == {};
  }

  lemma Judged(scan: Scan, key: Oid)
    requires key in KeysOf(scan.indexed)
    ensures key in IncompleteKeys(scan) <==> RowIncomplete(scan, key)
    ensures key in BadIdentities(scan) <==> !IdentityOk(scan.indexed, key)
    ensures key in BadPorts(scan) <==> !PortOk(scan.indexed, key)
  {
  }

  // ----- management addresses -----

  function ReferencedPorts(rows: seq<VarBind>): set<nat> {
    set r | r in rows && RemoteIndex(r).Some? && |RemoteIndex(r).value| == 4 :: RemoteIndex(r).value[2]
  }

  function RemoteKeys(rows: seq<VarBind>): set<Oid> {
    set r | r in rows && RemoteIndex(r).Some? && |RemoteIndex(r).value| == 4 :: RemoteIndex(r).value[1..]
  }

  /** An address row that belongs to a known remote row, or is too short to tell. */
  predicate AddressRelevant(suffix: Oid, remoteKeys: set<Oid>) { |suffix| < 3 || suffix[..3] in remoteKeys }

  predicate AddressValid(value: SnmpValue, suffix: Oid) {
    && |suffix| >= 5 && |suffix| == 5 + suffix[4]
    && IndexedAddress(suffix[3..]).Some? && LldpAddress(value, suffix[3..]).Some?
  }

  function BadAddresses(rows: seq<VarBind>, remoteKeys: set<Oid>): set<Oid> {
    set r | r in rows && Suffix(r.oid, LLDP_REM_MAN_ADDR).Some?
         && AddressRelevant(Suffix(r.oid, LLDP_REM_MAN_ADDR).value, remoteKeys)
         && !AddressValid(r.value, Suffix(r.oid, LLDP_REM_MAN_ADDR).value) :: Suffix(r.oid, LLDP_REM_MAN_ADDR).value
  }

  method CountBadAddresses(rows: seq<VarBind>, remoteKeys: set<Oid>) returns (count: nat)
    ensures count == |BadAddresses(rows, remoteKeys)|
  {
    hide BadAddresses; hide AddressValid; hide AddressRelevant; hide Suffix;
    var bad: set<Oid> := {};
    NoBadAddresses(remoteKeys);
    var i := 0;
    while i < |rows|
      invariant 0 <= i <= |rows| && rows[..0] == [] && bad == BadAddresses(rows[..i], remoteKeys)
    {
      BadAddressesSnoc(rows[..i], rows[i], remoteKeys);
      assert rows[..i + 1] == rows[..i] + [rows[i]];
      var suffix := Suffix(rows[i].oid, LLDP_REM_MAN_ADDR);
      if suffix.Some? && AddressRelevant(suffix.value, remoteKeys) && !AddressValid(rows[i].value, suffix.value) {
        bad := bad + {suffix.value};
      }
      i := i + 1;
    }
    assert rows[..i] == rows;
    count := |bad|;
  }

  lemma BadAddressesSnoc(rows: seq<VarBind>, row: VarBind, remoteKeys: set<Oid>)
    ensures var suffix := Suffix(row.oid, LLDP_REM_MAN_ADDR);
            var bad := suffix.Some? && AddressRelevant(suffix.value, remoteKeys)
                       && !AddressValid(row.value, suffix.value);
            BadAddresses(rows + [row], remoteKeys)
              == BadAddresses(rows, remoteKeys) + if bad then {suffix.value} else {}
  {
    hide AddressValid; hide AddressRelevant; hide Suffix;
    assert forall r :: r in rows + [row] <==> r in rows || r == row;
  }

  lemma NoBadAddresses(remoteKeys: set<Oid>)
    ensures BadAddresses([], remoteKeys) == {}
  {
  }

  // ----- local rows -----

  datatype LocalScan = LocalScan(malformed: set<Oid>, seen: set<Cell>)

  /** The first column that `oid` belongs to, the index possibly empty. */
  function FindColumn(oid: Oid, columns: seq<Oid>, from: nat := 0): (r: Option<Cell>)
    ensures r.Some? ==> r.value.column < |columns| && oid == columns[r.value.column] + r.value.key
    decreases |columns| - from
  {
    if from >= |columns| then None
    else if Suffix(oid, columns[from]).Some? then Some(Cell(from, Suffix(oid, columns[from]).value))
    else FindColumn(oid, columns, from + 1)
  }

  /** Which local rows matter: those of referenced ports, or all of them. */
  predicate LocalRelevant(key: Oid, referenced: Option<set<nat>>) {
    key == [] || referenced.None? || key[0] in referenced.value
  }

  predicate LocalValueValid(value: SnmpValue, cell: Cell, lldp: bool, ports: map<Oid, LocalPort>) {
    if lldp && cell.column == 0 then AsU32(value).Some? && 1 <= AsU32(value).value <= 7
    else if lldp && cell.column == 1 then
      && NonemptyBytes(value) && cell.key != [] && cell.key[..1] in ports
      && IdentifierValid(value, ports[cell.key[..1]].subtype, 3)
    else value.Octets?
  }

  function ScanLocalRow(scan: LocalScan, row: VarBind, columns: seq<Oid>, referenced: Option<set<nat>>, lldp: bool,
                        ports: map<Oid, LocalPort>): LocalScan {
    match FindColumn(row.oid, columns)
    case None => scan
    case Some(cell) =>
      if !LocalRelevant(cell.key, referenced) then scan
      else if |cell.key| != 1 || cell.key[0] == 0 || !LocalValueValid(row.value, cell, lldp, ports) then
        scan.(malformed := scan.malformed + {cell.key})
      else if cell in scan.seen then scan.(malformed := scan.malformed + {cell.key})
      else scan.(seen := scan.seen + {cell})
  }

  function ScanLocalRows(rows: seq<VarBind>, columns: seq<Oid>, referenced: Option<set<nat>>, lldp: bool,
                         ports: map<Oid, LocalPort>): LocalScan {
    if rows == [] then LocalScan({}, {})
    else
      var n := |rows| - 1;
      ScanLocalRow(ScanLocalRows(rows[..n], columns, referenced, lldp, ports), rows[n], columns, referenced, lldp,
                   ports)
  }

  function MalformedLocal(rows: seq<VarBind>, columns: seq<Oid>, referenced: Option<set<nat>>, lldp: bool): set<Oid> {
    ScanLocalRows(rows, columns, referenced, lldp, if lldp then LocalPorts(rows) else map[]).malformed
  }

  method MalformedLocalRows(rows: seq<VarBind>, columns: seq<Oid>, referenced: Option<set<nat>>, lldp: bool)
    returns (count: nat)
    ensures count == |MalformedLocal(rows, columns, referenced, lldp)|
  {
    var ports: map<Oid, LocalPort> := map[];
    if lldp { ports := LocalPortMap(rows); }
    hide LocalPorts;
    var scan := LocalScan({}, {});
    var i := 0;
    while i < |rows|
      invariant 0 <= i <= |rows| && scan == ScanLocalRows(rows[..i], columns, referenced, lldp, ports)
    {
      assert rows[..i + 1][..i] == rows[..i];
      scan := ScanLocalRow(scan, rows[i], columns, referenced, lldp, ports);
      i := i + 1;
    }
    assert rows[..i] == rows;
    count := |scan.malformed|;
  }

  /** The row is relevant and fills this cell as it should. */
  predicate Sound(row: VarBind, cell: Cell, columns: seq<Oid>, referenced: Option<set<nat>>, lldp: bool,
                  ports: map<Oid, LocalPort>) {
    && FindColumn(row.oid, columns) == Some(cell) && LocalRelevant(cell.key, referenced)
    && |cell.key| == 1 && cell.key[0] != 0 && LocalValueValid(row.value, cell, lldp, ports)
  }

  /** The row is relevant, and its index or its value is not as it should be. */
  predicate Unsound(row: VarBind, key: Oid, columns: seq<Oid>, referenced: Option<set<nat>>, lldp: bool,
                    ports: map<Oid, LocalPort>) {
    var cell := FindColumn(row.oid, columns);
    && cell.Some? && cell.value.key == key && LocalRelevant(key, referenced)
    && !Sound(row, cell.value, columns, referenced, lldp, ports)
  }

  ghost predicate HasUnsound(rows: seq<VarBind>, key: Oid, columns: seq<Oid>, referenced: Option<set<nat>>, lldp: bool,
                             ports: map<Oid, LocalPort>)
  {
    exists r :: r in rows && Unsound(r, key, columns, referenced, lldp, ports)
  }

  ghost predicate HasSound(rows: seq<VarBind>, cell: Cell, columns: seq<Oid>, referenced: Option<set<nat>>, lldp: bool,
                           ports: map<Oid, LocalPort>)
  {
    exists i :: 0 <= i < |rows| && Sound(rows[i], cell, columns, referenced, lldp, ports)
  }

  /** Two rows fill the same cell. */
  ghost predicate FilledTwice(rows: seq<VarBind>, cell: Cell, columns: seq<Oid>, referenced: Option<set<nat>>,
                              lldp: bool, ports: map<Oid, LocalPort>)
  {
    exists i, j :: 0 <= i < j < |rows| && Sound(rows[i], cell, columns, referenced, lldp, ports)
                   && Sound(rows[j], cell, columns, referenced, lldp, ports)
  }

  /** An index is malformed if and only if one of its rows is unsound, or two sound rows fill the same cell. */
  lemma {:induction false} MalformedMeans(rows: seq<VarBind>, columns: seq<Oid>, referenced: Option<set<nat>>,
                                          lldp: bool, ports: map<Oid, LocalPort>, key: Oid)
    ensures key in ScanLocalRows(rows, columns, referenced, lldp, ports).malformed
       <==> HasUnsound(rows, key, columns, referenced, lldp, ports)
            || exists column :: FilledTwice(rows, Cell(column, key), columns, referenced, lldp, ports)
    ensures forall cell :: cell in ScanLocalRows(rows, columns, referenced, lldp, ports).seen
                      <==> HasSound(rows, cell, columns, referenced, lldp, ports)
  {
    if rows != [] {
      var n := |rows| - 1;
      var init, row := rows[..n], rows[n];
      var before := ScanLocalRows(init, columns, referenced, lldp, ports);
      assert ScanLocalRows(rows, columns, referenced, lldp, ports)
               == ScanLocalRow(before, row, columns, referenced, lldp, ports);
      MalformedMeans(init, columns, referenced, lldp, ports, key);
      UnsoundSnoc(rows, key, columns, referenced, lldp, ports);
      forall cell
        ensures HasSound(rows, cell, columns, referenced, lldp, ports)
           <==> HasSound(init, cell, columns, referenced, lldp, ports)
                || Sound(row, cell, columns, referenced, lldp, ports)
        ensures FilledTwice(rows, cell, columns, referenced, lldp, ports)
           <==> FilledTwice(init, cell, columns, referenced, lldp, ports)
                || (HasSound(init, cell, columns, referenced, lldp, ports)
                    && Sound(row, cell, columns, referenced, lldp, ports))
      {
        SoundSnoc(rows, cell, columns, referenced, lldp, ports);
      }
      hide HasUnsound; hide HasSound; hide FilledTwice; hide ScanLocalRows; hide FindColumn; hide LocalValueValid;
      hide LocalRelevant;
    }
  }

  lemma UnsoundSnoc(rows: seq<VarBind>, key: Oid, columns: seq<Oid>, referenced: Option<set<nat>>, lldp: bool,
                    ports: map<Oid, LocalPort>)
    requires rows != []
    ensures HasUnsound(rows, key, columns, referenced, lldp, ports)
       <==> HasUnsound(rows[..|rows| - 1], key, columns, referenced, lldp, ports)
            || Unsound(rows[|rows| - 1], key, columns, referenced, lldp, ports)
  {
    hide Unsound;
    assert rows == rows[..|rows| - 1] + [rows[|rows| - 1]];
  }

  lemma SoundSnoc(rows: seq<VarBind>, cell: Cell, columns: seq<Oid>, referenced: Option<set<nat>>, lldp: bool,
                  ports: map<Oid, LocalPort>)
    requires rows != []
    ensures HasSound(rows, cell, columns, referenced, lldp, ports)
       <==> HasSound(rows[..|rows| - 1], cell, columns, referenced, lldp, ports)
            || Sound(rows[|rows| - 1], cell, columns, referenced, lldp, ports)
    ensures FilledTwice(rows, cell, columns, referenced, lldp, ports)
       <==> FilledTwice(rows[..|rows| - 1], cell, columns, referenced, lldp, ports)
            || (HasSound(rows[..|rows| - 1], cell, columns, referenced, lldp, ports)
                && Sound(rows[|rows| - 1], cell, columns, referenced, lldp, ports))
  {
    hide *;
    var sound := seq(|rows|, i requires 0 <= i < |rows| => Sound(rows[i], cell, columns, referenced, lldp, ports));
    var n := |rows| - 1;
    var init := rows[..n];
    assert forall i :: 0 <= i < n ==> init[i] == rows[i];
    SoundAt(rows, sound, cell, columns, referenced, lldp, ports);
    SoundAt(init, sound[..n], cell, columns, referenced, lldp, ports);
    TwiceSnoc(sound);
  }

  lemma TwiceSnoc(s: seq<bool>)
    requires s != []
    ensures Once(s) <==> Once(s[..|s| - 1]) || s[|s| - 1]
    ensures Twice(s) <==> Twice(s[..|s| - 1]) || (Once(s[..|s| - 1]) && s[|s| - 1])
  {
    var n := |s| - 1;
    var init := s[..n];
    assert forall i :: 0 <= i < n ==> init[i] == s[i];
    if Twice(s) {
      var i, j :| 0 <= i < j < |s| && s[i] && s[j];
      assert init[i];
      if j < n { assert init[j]; }
    }
    if Twice(init) {
      var i, j :| 0 <= i < j < n && init[i] && init[j];
      assert s[i] && s[j];
    }
    if Once(init) && s[n] {
      var i :| 0 <= i < n && init[i];
      assert s[i] && s[n];
    }
    if Once(s) {
      var i :| 0 <= i < |s| && s[i];
      if i < n { assert init[i]; }
    }
    if Once(init) {
      var i :| 0 <= i < n && init[i];
      assert s[i];
    }
  }

  predicate Once(s: seq<bool>) { exists i :: 0 <= i < |s| && s[i] }

  predicate Twice(s: seq<bool>) { exists i, j :: 0 <= i < j < |s| && s[i] && s[j] }

  lemma SoundAt(rows: seq<VarBind>, sound: seq<bool>, cell: Cell, columns: seq<Oid>, referenced: Option<set<nat>>,
                lldp: bool, ports: map<Oid, LocalPort>)
    requires |rows| == |sound|
    requires forall i :: 0 <= i < |rows| ==> sound[i] == Sound(rows[i], cell, columns, referenced, lldp, ports)
    ensures HasSound(rows, cell, columns, referenced, lldp, ports) <==> Once(sound)
    ensures FilledTwice(rows, cell, columns, referenced, lldp, ports) <==> Twice(sound)
  {
    hide Sound;
    if HasSound(rows, cell, columns, referenced, lldp, ports) {
      var i :| 0 <= i < |rows| && Sound(rows[i], cell, columns, referenced, lldp, ports);
      assert sound[i];
    }
    if FilledTwice(rows, cell, columns, referenced, lldp, ports) {
      var i, j :| 0 <= i < j < |rows| && Sound(rows[i], cell, columns, referenced, lldp, ports)
                  && Sound(rows[j], cell, columns, referenced, lldp, ports);
      assert sound[i] && sound[j];
    }
  }

  // ----- the report -----

  ghost function Unresolved(neighbors: map<Oid, Neighbor>): set<Oid> {
    set key | key in neighbors && neighbors[key].localIfIndex.None?
  }

  ghost function QualityOf(remote: seq<VarBind>, management: seq<VarBind>, local: seq<VarBind>,
                           ifs: seq<VarBind>): Quality {
    var scan := ScanRows(remote);
    Quality(
      |scan.rejected|, |IncompleteKeys(scan)|, |BadIdentities(scan)|, |BadPorts(scan)|,
      if remote == [] then 0 else |BadAddresses(management, RemoteKeys(remote))|,
      if remote == [] then 0
      else |MalformedLocal(local, LOCAL_COLUMNS, Some(ReferencedPorts(remote)), true)|
           + |MalformedLocal(ifs, INTERFACE_COLUMNS, None, false)|,
      |Unresolved(Neighbors(remote, management, local, ifs))|)
  }

  method NormalizeLldpNeighborsWithQuality(remote: seq<VarBind>, management: seq<VarBind>, local: seq<VarBind>,
                                           ifs: seq<VarBind>)
    returns (neighbors: map<Oid, Neighbor>, quality: Quality)
    ensures neighbors == Neighbors(remote, management, local, ifs)
    ensures quality == QualityOf(remote, management, local, ifs)
  {
    hide Neighbors; hide ScanRows; hide BadAddresses; hide MalformedLocal; hide IncompleteKeys; hide BadIdentities;
    hide BadPorts; hide RemoteKeys; hide ReferencedPorts;
    neighbors := NormalizeLldpNeighbors(remote, management, local, ifs);
    quality := RemoteRowQuality(remote);
    if remote != [] {
      var referenced, keys := ReferencedPorts(remote), RemoteKeys(remote);
      var bad := CountBadAddresses(management, keys);
      var ports := MalformedLocalRows(local, LOCAL_COLUMNS, Some(referenced), true);
      var interfaces := MalformedLocalRows(ifs, INTERFACE_COLUMNS, None, false);
      quality := quality.(malformedAddressRows := bad, malformedLocalRows := ports + interfaces);
    }
    var unresolved := set key | key in neighbors && neighbors[key].localIfIndex.None?;
    quality := quality.(unresolvedLocalPorts := |unresolved|);
  }
}
