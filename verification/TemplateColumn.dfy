/** The second walk: query_template_column in src/snmp/client.rs. */
module TemplateColumn {
  import opened Basics
  import opened Snmp
  import opened SnmpWalk

  const DEFAULT_WALK_MAX_VARBINDS := 1024

  /** A variable binding as it arrives: its name may be unreadable, its value an endOfMibView exception. */
  datatype RawValue = Plain(value: SnmpValue) | EndOfMibView
  datatype RawRow = RawRow(name: Option<Oid>, value: RawValue)

  datatype Reply = NoReply | ErrorReply(status: nat) | Rows(rows: seq<RawRow>)

  datatype Failure = RequestFailed | AgentFailed(status: nat) | BadName | NotIncreasing(oid: Oid) | TooManyRows

  type Column = map<Oid, SnmpValue>

  datatype Result = Ok(column: Column) | Err(failure: Failure)

  /** What the rows of one reply lead to. */
  datatype Turn = Stop(result: Result) | Continue(current: Oid, column: Column)

  predicate EndsColumn(row: RawRow, prefix: Oid)
    requires row.name.Some?
  {
    row.value == EndOfMibView || row.value == Plain(Null) || !Under(row.name.value, prefix)
  }

  function ReadRows(rows: seq<RawRow>, prefix: Oid, current: Oid, column: Column): Turn {
    if rows == [] then Continue(current, column)
    else if rows[0].name.None? then Stop(Err(BadName))
    else if EndsColumn(rows[0], prefix) then Stop(Ok(column))
    else
      var oid := rows[0].name.value;
      if !Less(current, oid) then Stop(Err(NotIncreasing(oid)))
      else ReadRows(rows[1..], prefix, oid, column[oid[|prefix|..] := rows[0].value.value])
  }

  /** The column from request `n` on. */
  function ColumnFrom(prefix: Oid, agent: (nat, Oid) -> Reply, n: nat, current: Oid, column: Column): Result
    decreases DEFAULT_WALK_MAX_VARBINDS - n
  {
    if n >= DEFAULT_WALK_MAX_VARBINDS then Err(TooManyRows)
    else
      match agent(n, current)
      case NoReply => Err(RequestFailed)
      case ErrorReply(status) => if status != 0 then Err(AgentFailed(status)) else Ok(column)
      case Rows(rows) =>
        if rows == [] then Ok(column)
        else
          match ReadRows(rows, prefix, current, column)
          case Stop(result) => result
          case Continue(current', column') => ColumnFrom(prefix, agent, n + 1, current', column')
  }

  method QueryTemplateColumn(prefix: Oid, agent: (nat, Oid) -> Reply) returns (result: Result)
    ensures result == ColumnFrom(prefix, agent, 0, prefix, map[])
  {
    var column: Column, current := map[], prefix;
    for n := 0 to DEFAULT_WALK_MAX_VARBINDS
      invariant ColumnFrom(prefix, agent, 0, prefix, map[]) == ColumnFrom(prefix, agent, n, current, column)
    {
      var reply := agent(n, current);
      if reply.NoReply? { return Err(RequestFailed); }
      if reply.ErrorReply? && reply.status != 0 { return Err(AgentFailed(reply.status)); }
      var rows := if reply.Rows? then reply.rows else [];
      var advanced := false;
      ghost var turn := ReadRows(rows, prefix, current, column);
      var i := 0;
      assert rows[0..] == rows;
      while i < |rows|
        invariant 0 <= i <= |rows| && (advanced <==> i > 0)
        invariant turn == ReadRows(rows[i..], prefix, current, column)
      {
        assert rows[i..][0] == rows[i] && rows[i..][1..] == rows[i + 1..];
        if rows[i].name.None? { return Err(BadName); }
        var oid := rows[i].name.value;
        if EndsColumn(rows[i], prefix) { return Ok(column); }
        if !Less(current, oid) { return Err(NotIncreasing(oid)); }
        column := column[oid[|prefix|..] := rows[i].value.value];
        current := oid;
        advanced := true;
        i := i + 1;
      }
      if !advanced { return Ok(column); }
    }
    return Err(TooManyRows);
  }

  // ----- a faithful agent -----

  /** One row per reply; at the end of the base either no row or an endOfMibView exception. */
  ghost predicate FaithfulReplies(agent: (nat, Oid) -> Reply, mib: seq<VarBind>) {
    Sorted(mib) && forall n, oid :: FaithfulReply(agent(n, oid), mib, oid)
  }

  predicate FaithfulReply(reply: Reply, mib: seq<VarBind>, oid: Oid) {
    var above := Above(mib, oid);
    if above != [] then reply == Rows([RawRow(Some(above[0].oid), Plain(above[0].value))])
    else reply == Rows([]) || reply == Rows([RawRow(Some(oid), EndOfMibView)])
  }

  /** The rows before the first Null value. */
  function BeforeNull(rows: seq<VarBind>): seq<VarBind> {
    if rows == [] || rows[0].value == Null then [] else [rows[0]] + BeforeNull(rows[1..])
  }

  /** Rows keyed by their suffix. */
  function Keyed(prefix: Oid, rows: seq<VarBind>): Column
    requires forall i :: 0 <= i < |rows| ==> Under(rows[i].oid, prefix)
  {
    if rows == [] then map[]
    else
      var n := |rows| - 1;
      assert Under(rows[n].oid, prefix);
      Keyed(prefix, rows[..n])[rows[n].oid[|prefix|..] := rows[n].value]
  }

  lemma KeyedSnoc(prefix: Oid, rows: seq<VarBind>, v: VarBind)
    requires forall i :: 0 <= i < |rows| ==> Under(rows[i].oid, prefix)
    requires Under(v.oid, prefix)
    ensures forall i :: 0 <= i < |rows + [v]| ==> Under((rows + [v])[i].oid, prefix)
    ensures Keyed(prefix, rows + [v]) == Keyed(prefix, rows)[v.oid[|prefix|..] := v.value]
  {
    assert (rows + [v])[..|rows|] == rows;
  }

  /** The column that a faithful agent's rows give, after `done` of them. */
  lemma {:induction false} FaithfulColumnFrom(prefix: Oid, agent: (nat, Oid) -> Reply, mib: seq<VarBind>, n: nat,
                                              current: Oid, done: seq<VarBind>)
    requires FaithfulReplies(agent, mib) && n == |done| <= DEFAULT_WALK_MAX_VARBINDS
    requires forall i :: 0 <= i < |done| ==> Under(done[i].oid, prefix)
    ensures forall i :: 0 <= i < |done + BeforeNull(TakeUnder(Above(mib, current), prefix))| ==>
              Under((done + BeforeNull(TakeUnder(Above(mib, current), prefix)))[i].oid, prefix)
    ensures var all := done + BeforeNull(TakeUnder(Above(mib, current), prefix));
            var expected := if |all| < DEFAULT_WALK_MAX_VARBINDS then Ok(Keyed(prefix, all)) else Err(TooManyRows);
            ColumnFrom(prefix, agent, n, current, Keyed(prefix, done)) == expected
    decreases DEFAULT_WALK_MAX_VARBINDS - n
  {
    hide Keyed; hide Under; hide Above;
    var above := Above(mib, current);
    var more := BeforeNull(TakeUnder(above, prefix));
    TakeUnderUnder(above, prefix);
    forall i | 0 <= i < |done + more| ensures Under((done + more)[i].oid, prefix) {
      assert (done + more)[i] == if i < |done| then done[i] else more[i - |done|];
    }
    if n < DEFAULT_WALK_MAX_VARBINDS {
      assert FaithfulReply(agent(n, current), mib, current);
      hide FaithfulReply; hide FaithfulReplies;
      assert above == [] ==>
               agent(n, current) == Rows([]) || agent(n, current) == Rows([RawRow(Some(current), EndOfMibView)]) by {
        ReplyOf(agent(n, current), mib, current);
      }
      assert above != [] ==> agent(n, current) == Rows([RawRow(Some(above[0].oid), Plain(above[0].value))]) by {
        ReplyOf(agent(n, current), mib, current);
      }
      if above == [] || !Under(above[0].oid, prefix) || above[0].value == Null {
        assert done + [] == done;
      } else {
        var v := above[0];
        var later := BeforeNull(TakeUnder(above[1..], prefix));
        AboveMember(mib, current);
        AboveNext(mib, current);
        KeyedSnoc(prefix, done, v);
        ReadOne(v, prefix, current, Keyed(prefix, done));
        assert more == [v] + later;
        assert done + more == (done + [v]) + later;
        FaithfulColumnFrom(prefix, agent, mib, n + 1, v.oid, done + [v]);
        hide TakeUnder; hide BeforeNull;
      }
    }
  }

  lemma ReplyOf(reply: Reply, mib: seq<VarBind>, oid: Oid)
    requires FaithfulReply(reply, mib, oid)
    ensures var above := Above(mib, oid);
            if above != [] then reply == Rows([RawRow(Some(above[0].oid), Plain(above[0].value))])
            else reply == Rows([]) || reply == Rows([RawRow(Some(oid), EndOfMibView)])
  {
    hide Above;
  }

  lemma ReadOne(v: VarBind, prefix: Oid, current: Oid, column: Column)
    requires Under(v.oid, prefix) && v.value != Null && Less(current, v.oid)
    ensures ReadRows([RawRow(Some(v.oid), Plain(v.value))], prefix, current, column)
         == Continue(v.oid, column[v.oid[|prefix|..] := v.value])
  {
    var row := RawRow(Some(v.oid), Plain(v.value));
    assert [row][1..] == [];
  }

  lemma {:induction false} TakeUnderUnder(mib: seq<VarBind>, prefix: Oid)
    ensures forall i :: 0 <= i < |BeforeNull(TakeUnder(mib, prefix))| ==>
              Under(BeforeNull(TakeUnder(mib, prefix))[i].oid, prefix)
    ensures forall i :: 0 <= i < |TakeUnder(mib, prefix)| ==> Under(TakeUnder(mib, prefix)[i].oid, prefix)
  {
    if mib != [] && Under(mib[0].oid, prefix) {
      TakeUnderUnder(mib[1..], prefix);
      assert TakeUnder(mib, prefix)[1..] == TakeUnder(mib[1..], prefix);
    }
  }

  /** What the column walk returns against a faithful agent: the rows before the first Null, if fewer than 1024. */
  lemma FaithfulColumn(prefix: Oid, agent: (nat, Oid) -> Reply, mib: seq<VarBind>)
    requires FaithfulReplies(agent, mib)
    ensures forall i :: 0 <= i < |BeforeNull(Subtree(mib, prefix))| ==>
              Under(BeforeNull(Subtree(mib, prefix))[i].oid, prefix)
    ensures var rows := BeforeNull(Subtree(mib, prefix));
            var expected := if |rows| < 1024 then Ok(Keyed(prefix, rows)) else Err(TooManyRows);
            ColumnFrom(prefix, agent, 0, prefix, map[]) == expected
  {
    SubtreeAbove(mib, prefix);
    TakeUnderUnder(Above(mib, prefix), prefix);
    FaithfulColumnFrom(prefix, agent, mib, 0, prefix, []);
    assert [] + BeforeNull(Subtree(mib, prefix)) == BeforeNull(Subtree(mib, prefix));
  }

  // ----- when the column is the whole subtree -----

  lemma {:induction false} BeforeNullPrefix(rows: seq<VarBind>)
    ensures BeforeNull(rows) <= rows
    ensures BeforeNull(rows) == rows <==> forall i :: 0 <= i < |rows| ==> rows[i].value != Null
    ensures BeforeNull(rows) != rows ==> rows[|BeforeNull(rows)|].value == Null
    ensures forall i :: 0 <= i < |BeforeNull(rows)| ==> BeforeNull(rows)[i].value != Null
  {
    if rows != [] && rows[0].value != Null {
      BeforeNullPrefix(rows[1..]);
      assert rows == [rows[0]] + rows[1..];
      if BeforeNull(rows) != rows { assert rows[1..][|BeforeNull(rows[1..])|] == rows[|BeforeNull(rows)|]; }
    }
  }

  /** The column has the row under its suffix. */
  predicate Holds(column: Column, prefix: Oid, row: VarBind) {
    Under(row.oid, prefix) && row.oid[|prefix|..] in column && column[row.oid[|prefix|..]] == row.value
  }

  /** Each row is found under its own suffix, since the names in a base are distinct. */
  lemma {:induction false} KeyedLookup(prefix: Oid, rows: seq<VarBind>, i: nat)
    requires Sorted(rows) && i < |rows| && forall i :: 0 <= i < |rows| ==> Under(rows[i].oid, prefix)
    ensures Holds(Keyed(prefix, rows), prefix, rows[i])
  {
    var n := |rows| - 1;
    var init := rows[..n];
    if i < n {
      KeyedLookup(prefix, init, i);
      assert Holds(Keyed(prefix, init), prefix, rows[i]);
      LessIrreflexive(rows[i].oid);
      assert rows[i].oid == prefix + rows[i].oid[|prefix|..] && rows[n].oid == prefix + rows[n].oid[|prefix|..];
      assert Less(rows[i].oid, rows[n].oid);
    }
  }

  /** And there is nothing else in the column. */
  lemma {:induction false} KeyedOrigin(prefix: Oid, rows: seq<VarBind>, suffix: Oid)
    requires forall i :: 0 <= i < |rows| ==> Under(rows[i].oid, prefix)
    requires suffix in Keyed(prefix, rows)
    ensures exists i :: 0 <= i < |rows| && rows[i].oid == prefix + suffix
  {
    var n := |rows| - 1;
    if suffix in Keyed(prefix, rows[..n]) {
      KeyedOrigin(prefix, rows[..n], suffix);
      var i :| 0 <= i < n && rows[..n][i].oid == prefix + suffix;
      assert rows[i].oid == prefix + suffix;
    } else {
      assert Under(rows[n].oid, prefix) && rows[n].oid == prefix + suffix;
    }
  }

  lemma {:induction false} SubtreeSorted(mib: seq<VarBind>, prefix: Oid)
    requires Sorted(mib)
    ensures Sorted(Subtree(mib, prefix))
    ensures forall v :: v in Subtree(mib, prefix) ==> v in mib && Under(v.oid, prefix)
  {
    if mib != [] {
      SortedTail(mib);
      SubtreeSorted(mib[1..], prefix);
      var rest := Subtree(mib[1..], prefix);
      forall i | 0 <= i < |rest| ensures Less(mib[0].oid, rest[i].oid) {
        assert rest[i] in rest;
        var j :| 0 <= j < |mib[1..]| && mib[1..][j] == rest[i];
        assert mib[j + 1] == rest[i];
      }
    }
  }

  /**
   * The column walk returns exactly the rows of the subtree if and only if they are fewer than 1024 and
   * none of them has a Null value: a Null value is taken for the end of the column.
   */
  lemma ColumnIsSubtreeExactly(prefix: Oid, agent: (nat, Oid) -> Reply, mib: seq<VarBind>)
    requires FaithfulReplies(agent, mib)
    ensures forall i :: 0 <= i < |Subtree(mib, prefix)| ==> Under(Subtree(mib, prefix)[i].oid, prefix)
    ensures var all := Subtree(mib, prefix);
            var complete := |all| < 1024 && forall i :: 0 <= i < |all| ==> all[i].value != Null;
            ColumnFrom(prefix, agent, 0, prefix, map[]) == Ok(Keyed(prefix, all)) <==> complete
  {
    hide Keyed; hide Subtree; hide BeforeNull; hide ColumnFrom;
    var all := Subtree(mib, prefix);
    var rows := BeforeNull(all);
    SubtreeSorted(mib, prefix);
    assert forall i :: 0 <= i < |all| ==> all[i] in all;
    FaithfulColumn(prefix, agent, mib);
    BeforeNullPrefix(all);
    if rows != all { FewerRowsDiffer(prefix, rows, all); }
  }

  lemma FewerRowsDiffer(prefix: Oid, rows: seq<VarBind>, all: seq<VarBind>)
    requires rows < all && Sorted(all) && forall i :: 0 <= i < |all| ==> Under(all[i].oid, prefix)
    ensures forall i :: 0 <= i < |rows| ==> Under(rows[i].oid, prefix)
    ensures Keyed(prefix, rows) != Keyed(prefix, all)
  {
    hide Keyed;
    var v := all[|rows|];
    assert forall i :: 0 <= i < |rows| ==> rows[i] == all[i];
    KeyedLookup(prefix, all, |rows|);
    assert v.oid == prefix + v.oid[|prefix|..];
    forall i | 0 <= i < |rows| ensures rows[i].oid != v.oid {
      LessIrreflexive(v.oid);
      assert Less(all[i].oid, v.oid);
    }
    if v.oid[|prefix|..] in Keyed(prefix, rows) { KeyedOrigin(prefix, rows, v.oid[|prefix|..]); }
  }

  /** With fewer rows than either limit and no Null value, the two walks collect the same rows. */
  lemma WalksAgree(prefix: Oid, limit: nat, gate: nat -> Gate, agent: (nat, Oid) -> Step, replies: (nat, Oid) -> Reply,
                   mib: seq<VarBind>)
    requires prefix != [] && (forall n :: gate(n) == Go)
    requires Faithful(agent, mib) && FaithfulReplies(replies, mib)
    requires var all := Subtree(mib, prefix);
             |all| < limit && |all| < 1024 && forall i :: 0 <= i < |all| ==> all[i].value != Null
    ensures var o := Walk(prefix, limit, gate, agent);
            && (forall i :: 0 <= i < |o.rows| ==> Under(o.rows[i].oid, prefix))
            && o.status == Complete && ColumnFrom(prefix, replies, 0, prefix, map[]) == Ok(Keyed(prefix, o.rows))
  {
    FaithfulWalk(prefix, limit, gate, agent, mib);
    ColumnIsSubtreeExactly(prefix, replies, mib);
  }

  /** One instance with a Null value: a faithful agent offers it, and the walk returns an empty column. */
  lemma NullEndsColumn(prefix: Oid, arc: nat)
    ensures var mib := [VarBind(prefix + [arc], Null)];
            var agent := (n: nat, oid: Oid) =>
              if Less(oid, prefix + [arc]) then Rows([RawRow(Some(prefix + [arc]), Plain(Null))]) else Rows([]);
            FaithfulReplies(agent, mib) && Subtree(mib, prefix) == mib
            && ColumnFrom(prefix, agent, 0, prefix, map[]) == Ok(map[])
  {
    var mib := [VarBind(prefix + [arc], Null)];
    assert mib[1..] == [];
    LessExtension(prefix, arc);
    forall oid ensures Above(mib, oid) == if Less(oid, prefix + [arc]) then mib else [] { assert Above([], oid) == []; }
  }

  lemma {:induction false} LessExtension(prefix: Oid, arc: nat)
    ensures Less(prefix, prefix + [arc])
  {
    if prefix != [] {
      assert (prefix + [arc])[1..] == prefix[1..] + [arc];
      LessExtension(prefix[1..], arc);
    }
  }
}
