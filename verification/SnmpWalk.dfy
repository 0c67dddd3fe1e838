/** The two GETNEXT walks (src/snmp/walk_api.rs and query_template_column in src/snmp/client.rs). */
module SnmpWalk {
  import opened Basics
  import opened Snmp

  // ----- object identifiers in lexicographic order -----

  predicate Less(a: Oid, b: Oid) {
    if b == [] then false
    else if a == [] then true
    else a[0] < b[0] || (a[0] == b[0] && Less(a[1..], b[1..]))
  }

  predicate Under(oid: Oid, prefix: Oid) { prefix <= oid }

  lemma {:induction false} LessTransitive(a: Oid, b: Oid, c: Oid)
    requires Less(a, b) && Less(b, c)
    ensures Less(a, c)
  {
    if a != [] && a[0] == b[0] && b[0] == c[0] { LessTransitive(a[1..], b[1..], c[1..]); }
  }

  lemma {:induction false} LessIrreflexive(a: Oid)
    ensures !Less(a, a)
  {
    if a != [] { LessIrreflexive(a[1..]); }
  }

  /** A subtree is contiguous: whatever lies between its root and one of its members belongs to it. */
  lemma {:induction false} SubtreeContiguous(prefix: Oid, a: Oid, b: Oid)
    requires Less(prefix, a) && Less(a, b) && Under(b, prefix)
    ensures Under(a, prefix)
  {
    if prefix != [] {
      assert a != [] && b != [] && prefix[0] == b[0] && prefix[0] == a[0];
      assert b[1..][..|prefix| - 1] == prefix[1..];
      SubtreeContiguous(prefix[1..], a[1..], b[1..]);
      assert a == [a[0]] + a[1..] && prefix == [prefix[0]] + prefix[1..];
    }
  }

  /** A member of a subtree other than its root comes after the root. */
  lemma {:induction false} RootFirst(prefix: Oid, a: Oid)
    requires Under(a, prefix) && a != prefix
    ensures Less(prefix, a)
  {
    if prefix != [] {
      assert a[1..][..|prefix| - 1] == prefix[1..];
      assert a == [a[0]] + a[1..];
      RootFirst(prefix[1..], a[1..]);
    }
  }

  // ----- agents -----

  /** A management information base: finitely many instances, in order. */
  predicate Sorted(mib: seq<VarBind>) {
    forall i, j :: 0 <= i < j < |mib| ==> Less(mib[i].oid, mib[j].oid)
  }

  /** The instances after `oid`; the first of them answers GETNEXT (section 4.2.2 of RFC 3416). */
  function Above(mib: seq<VarBind>, oid: Oid): seq<VarBind> {
    if mib == [] then [] else if Less(oid, mib[0].oid) then mib else Above(mib[1..], oid)
  }

  /** The instances strictly below `prefix`. */
  function Subtree(mib: seq<VarBind>, prefix: Oid): seq<VarBind> {
    if mib == [] then []
    else (if Under(mib[0].oid, prefix) && mib[0].oid != prefix then [mib[0]] else []) + Subtree(mib[1..], prefix)
  }

  function TakeUnder(mib: seq<VarBind>, prefix: Oid): seq<VarBind> {
    if mib == [] || !Under(mib[0].oid, prefix) then [] else [mib[0]] + TakeUnder(mib[1..], prefix)
  }

  lemma {:induction false} AfterSubtree(mib: seq<VarBind>, prefix: Oid, outside: Oid)
    requires Sorted(mib) && Less(prefix, outside) && !Under(outside, prefix)
    requires mib != [] ==> Less(outside, mib[0].oid)
    ensures Subtree(mib, prefix) == []
  {
    if mib != [] {
      if Under(mib[0].oid, prefix) { SubtreeContiguous(prefix, outside, mib[0].oid); }
      SortedTail(mib);
      if |mib| > 1 { LessTransitive(outside, mib[0].oid, mib[1].oid); }
      AfterSubtree(mib[1..], prefix, outside);
    }
  }

  lemma SortedTail(mib: seq<VarBind>)
    requires mib != [] && Sorted(mib)
    ensures Sorted(mib[1..]) && (|mib| > 1 ==> Less(mib[0].oid, mib[1].oid))
  {
  }

  /** Beyond the root, the subtree is the run of instances under the prefix. */
  lemma {:induction false} SubtreeIsRun(mib: seq<VarBind>, prefix: Oid)
    requires Sorted(mib) && (mib != [] ==> Less(prefix, mib[0].oid))
    ensures Subtree(mib, prefix) == TakeUnder(mib, prefix)
  {
    if mib != [] {
      SortedTail(mib);
      LessIrreflexive(prefix);
      if Under(mib[0].oid, prefix) {
        if |mib| > 1 { LessTransitive(prefix, mib[0].oid, mib[1].oid); }
        SubtreeIsRun(mib[1..], prefix);
      } else {
        AfterSubtree(mib[1..], prefix, mib[0].oid);
      }
    }
  }

  lemma {:induction false} SubtreeAbove(mib: seq<VarBind>, prefix: Oid)
    requires Sorted(mib)
    ensures Subtree(mib, prefix) == TakeUnder(Above(mib, prefix), prefix)
  {
    if mib != [] {
      SortedTail(mib);
      if Less(prefix, mib[0].oid) {
        SubtreeIsRun(mib, prefix);
      } else {
        if Under(mib[0].oid, prefix) && mib[0].oid != prefix { RootFirst(prefix, mib[0].oid); }
        SubtreeAbove(mib[1..], prefix);
      }
    }
  }

  /** Asking for the successor of an instance moves one instance on. */
  lemma {:induction false} AboveNext(mib: seq<VarBind>, oid: Oid)
    requires Sorted(mib) && Above(mib, oid) != []
    ensures Above(mib, Above(mib, oid)[0].oid) == Above(mib, oid)[1..]
  {
    SortedTail(mib);
    var next := Above(mib, oid)[0];
    if Less(oid, mib[0].oid) {
      LessIrreflexive(mib[0].oid);
      if |mib| > 1 { assert Above(mib[1..], mib[0].oid) == mib[1..]; }
    } else {
      AboveNext(mib[1..], oid);
      AboveMember(mib[1..], oid);
      var i :| 0 <= i < |mib[1..]| && mib[1..][i] == next;
      assert mib[i + 1] == next;
      LessAsymmetric(mib[0].oid, next.oid);
    }
  }

  lemma LessAsymmetric(a: Oid, b: Oid)
    requires Less(a, b)
    ensures !Less(b, a)
  {
    if Less(b, a) {
      LessTransitive(a, b, a);
      LessIrreflexive(a);
    }
  }

  lemma {:induction false} AboveMember(mib: seq<VarBind>, oid: Oid)
    requires Above(mib, oid) != []
    ensures Above(mib, oid)[0] in mib && Less(oid, Above(mib, oid)[0].oid)
  {
    if !Less(oid, mib[0].oid) { AboveMember(mib[1..], oid); }
  }

  // ----- the reliable walk -----

  datatype Status = Complete | Unsupported | Partial | Failed | Cancelled

  datatype Reason =
    | EndOfMib | OutsidePrefix | NonIncreasingOid | UnsupportedResponse(text: string) | VarBindLimitReached
    | DeadlineExceeded | WasCancelled | RequestTimeout | Transport(text: string) | AgentError(status: nat, index: nat)
    | InvalidRequest(text: string) | EmptyResponse | InvalidOid

  /** The answer to one GETNEXT request. */
  datatype Step = Next(varbind: VarBind) | End | Refused(text: string) | Error(reason: Reason)

  /** What the clock and the cancellation flag say before a request. */
  datatype Gate = Go | Cancel | Late

  datatype Outcome = Outcome(status: Status, rows: seq<VarBind>, reason: Reason, count: nat, cursor: Option<Oid>)

  function Finish(status: Status, reason: Reason, rows: seq<VarBind>): Outcome {
    Outcome(status, rows, reason, |rows|, if rows == [] then None else Some(rows[|rows| - 1].oid))
  }

  function Interrupted(rows: seq<VarBind>): Status { if rows == [] then Failed else Partial }

  function ErrorStatus(reason: Reason, rows: seq<VarBind>): Status {
    if reason.WasCancelled? then Cancelled else Interrupted(rows)
  }

  /** The walk from its n-th request on, with `rows` collected so far and n == |rows|. */
  function WalkFrom(prefix: Oid, limit: nat, gate: nat -> Gate, agent: (nat, Oid) -> Step, current: Oid,
                    rows: seq<VarBind>): Outcome
    requires |rows| < limit
    decreases limit - |rows|
  {
    match gate(|rows|)
    case Cancel => Finish(Cancelled, WasCancelled, rows)
    case Late => Finish(Interrupted(rows), DeadlineExceeded, rows)
    case Go =>
      match agent(|rows|, current)
      case End => Finish(Complete, EndOfMib, rows)
      case Refused(text) => Finish(Status.Unsupported, UnsupportedResponse(text), rows)
      case Error(reason) => Finish(ErrorStatus(reason, rows), reason, rows)
      case Next(v) =>
        if !Under(v.oid, prefix) then Finish(Complete, OutsidePrefix, rows)
        else if !Less(current, v.oid) then Finish(Interrupted(rows), NonIncreasingOid, rows)
        else if |rows| + 1 == limit then Finish(Partial, VarBindLimitReached, rows + [v])
        else WalkFrom(prefix, limit, gate, agent, v.oid, rows + [v])
  }

  function Walk(prefix: Oid, limit: nat, gate: nat -> Gate, agent: (nat, Oid) -> Step): Outcome {
    if prefix == [] then Finish(Failed, InvalidRequest("SNMP walk prefix is empty"), [])
    else if limit == 0 then Finish(Failed, InvalidRequest("SNMP walk maximum must be greater than zero"), [])
    else WalkFrom(prefix, limit, gate, agent, prefix, [])
  }

  method WalkWith(prefix: Oid, limit: nat, gate: nat -> Gate, agent: (nat, Oid) -> Step)
    returns (outcome: Outcome, requests: nat)
    ensures outcome == Walk(prefix, limit, gate, agent)
    ensures requests <= limit
  {
    requests := 0;
    if prefix == [] { return Finish(Failed, InvalidRequest("SNMP walk prefix is empty"), []), 0; }
    if limit == 0 { return Finish(Failed, InvalidRequest("SNMP walk maximum must be greater than zero"), []), 0; }
    var current, rows := prefix, [];
    while true
      invariant requests == |rows| < limit
      invariant Walk(prefix, limit, gate, agent) == WalkFrom(prefix, limit, gate, agent, current, rows)
      decreases limit - |rows|
    {
      match gate(|rows|) {
        case Cancel => return Finish(Cancelled, WasCancelled, rows), requests;
        case Late => return Finish(Interrupted(rows), DeadlineExceeded, rows), requests;
        case Go =>
      }
      var step := agent(requests, current);
      requests := requests + 1;
      match step {
        case End => return Finish(Complete, EndOfMib, rows), requests;
        case Refused(text) => return Finish(Status.Unsupported, UnsupportedResponse(text), rows), requests;
        case Error(reason) => return Finish(ErrorStatus(reason, rows), reason, rows), requests;
        case Next(v) =>
          if !Under(v.oid, prefix) { return Finish(Complete, OutsidePrefix, rows), requests; }
          if !Less(current, v.oid) { return Finish(Interrupted(rows), NonIncreasingOid, rows), requests; }
          current := v.oid;
          rows := rows + [v];
          if |rows| == limit { return Finish(Partial, VarBindLimitReached, rows), requests; }
      }
    }
  }

  // ----- whatever the agent answers -----

  /** Rows strictly below the prefix, strictly increasing. */
  predicate ProperRows(prefix: Oid, rows: seq<VarBind>) {
    Sorted(rows) && forall i :: 0 <= i < |rows| ==> Under(rows[i].oid, prefix) && Less(prefix, rows[i].oid)
  }

  predicate Consistent(o: Outcome) {
    && o.count == |o.rows|
    && o.cursor == (if o.rows == [] then None else Some(o.rows[|o.rows| - 1].oid))
    && (o.status == Failed ==> o.rows == []) && (o.status == Partial ==> o.rows != [])
  }

  /** No answer reports an error with a reason that stands for the end of the subtree. */
  ghost predicate HonestErrors(agent: (nat, Oid) -> Step) {
    forall n, oid :: agent(n, oid).Error? ==> !agent(n, oid).reason.EndOfMib? && !agent(n, oid).reason.OutsidePrefix?
  }

  function Current(prefix: Oid, rows: seq<VarBind>): Oid { if rows == [] then prefix else rows[|rows| - 1].oid }

  lemma ExtendRows(prefix: Oid, rows: seq<VarBind>, v: VarBind)
    requires ProperRows(prefix, rows) && Under(v.oid, prefix) && Less(Current(prefix, rows), v.oid)
    ensures ProperRows(prefix, rows + [v])
  {
    forall i | 0 <= i < |rows| ensures Less(rows[i].oid, v.oid) {
      if i < |rows| - 1 { LessTransitive(rows[i].oid, rows[|rows| - 1].oid, v.oid); }
    }
    if rows != [] { LessTransitive(prefix, rows[|rows| - 1].oid, v.oid); }
  }

  lemma {:induction false} WalkFromSafe(prefix: Oid, limit: nat, gate: nat -> Gate, agent: (nat, Oid) -> Step,
                                        rows: seq<VarBind>)
    requires |rows| < limit && ProperRows(prefix, rows)
    ensures var o := WalkFrom(prefix, limit, gate, agent, Current(prefix, rows), rows);
            && ProperRows(prefix, o.rows) && Consistent(o) && rows <= o.rows && |o.rows| <= limit
            && (o.status == Complete ==> o.reason.EndOfMib? || o.reason.OutsidePrefix?)
            && (HonestErrors(agent) && (o.reason.EndOfMib? || o.reason.OutsidePrefix?) ==> o.status == Complete)
    decreases limit - |rows|
  {
    var current := Current(prefix, rows);
    if gate(|rows|).Go? && agent(|rows|, current).Next? {
      var v := agent(|rows|, current).varbind;
      if Under(v.oid, prefix) && Less(current, v.oid) {
        ExtendRows(prefix, rows, v);
        if |rows| + 1 < limit { WalkFromSafe(prefix, limit, gate, agent, rows + [v]); }
      }
    }
  }

  /** Whatever the agent returns, the outcome of a walk is well-formed and honest about its completeness. */
  lemma WalkIsSafe(prefix: Oid, limit: nat, gate: nat -> Gate, agent: (nat, Oid) -> Step)
    ensures var o := Walk(prefix, limit, gate, agent);
            && ProperRows(prefix, o.rows) && Consistent(o) && |o.rows| <= limit
            && (o.status == Complete ==> o.reason.EndOfMib? || o.reason.OutsidePrefix?)
            && (HonestErrors(agent) && (o.reason.EndOfMib? || o.reason.OutsidePrefix?) ==> o.status == Complete)
  {
    if prefix != [] && limit > 0 { WalkFromSafe(prefix, limit, gate, agent, []); }
  }

  // ----- why a walk stopped -----

  /** The rows are the answers to the first requests, each asked for the successor of the one before. */
  predicate Asked(prefix: Oid, gate: nat -> Gate, agent: (nat, Oid) -> Step, rows: seq<VarBind>) {
    forall i :: 0 <= i < |rows| ==> Answered(prefix, gate, agent, rows, i)
  }

  predicate Answered(prefix: Oid, gate: nat -> Gate, agent: (nat, Oid) -> Step, rows: seq<VarBind>, i: nat)
    requires i < |rows|
  {
    gate(i) == Go && agent(i, if i == 0 then prefix else rows[i - 1].oid) == Next(rows[i])
  }

  /** The status and the reason follow from what ended the walk after these rows. */
  ghost predicate StoppedBy(prefix: Oid, limit: nat, gate: nat -> Gate, agent: (nat, Oid) -> Step, o: Outcome) {
    var n, interrupted := |o.rows|, if o.rows == [] then Failed else Partial;
    var current := if o.rows == [] then prefix else o.rows[n - 1].oid;
    if n == limit then o.status == Partial && o.reason == VarBindLimitReached
    else
      match gate(n)
      case Cancel => o.status == Cancelled && o.reason == WasCancelled
      case Late => o.status == interrupted && o.reason == DeadlineExceeded
      case Go =>
        match agent(n, current)
        case End => o.status == Complete && o.reason == EndOfMib
        case Refused(text) => o.status == Status.Unsupported && o.reason == UnsupportedResponse(text)
        case Error(reason) =>
          o.reason == reason && o.status == if reason == WasCancelled then Cancelled else interrupted
        case Next(v) =>
          if !(prefix <= v.oid) then o.status == Complete && o.reason == OutsidePrefix
          else !Less(current, v.oid) && o.status == interrupted && o.reason == NonIncreasingOid
  }

  lemma {:induction false} WalkFromStops(prefix: Oid, limit: nat, gate: nat -> Gate, agent: (nat, Oid) -> Step,
                                         rows: seq<VarBind>)
    requires |rows| < limit && Asked(prefix, gate, agent, rows)
    ensures var o := WalkFrom(prefix, limit, gate, agent, Current(prefix, rows), rows);
            Asked(prefix, gate, agent, o.rows) && StoppedBy(prefix, limit, gate, agent, o)
    decreases limit - |rows|
  {
    var current := Current(prefix, rows);
    if gate(|rows|).Go? && agent(|rows|, current).Next? {
      var v := agent(|rows|, current).varbind;
      if Under(v.oid, prefix) && Less(current, v.oid) {
        forall i | 0 <= i < |rows + [v]| ensures Answered(prefix, gate, agent, rows + [v], i) {
          if i < |rows| {
            assert Answered(prefix, gate, agent, rows, i);
            assert i > 0 ==> (rows + [v])[i - 1] == rows[i - 1];
          }
        }
        if |rows| + 1 < limit { WalkFromStops(prefix, limit, gate, agent, rows + [v]); }
      }
    }
  }

  /**
   * For every agent and every clock: the rows are what was answered, and status and reason are those of the cause that
   * stopped the walk. A request that cannot be made fails at once.
   */
  lemma WalkStops(prefix: Oid, limit: nat, gate: nat -> Gate, agent: (nat, Oid) -> Step)
    ensures var o := Walk(prefix, limit, gate, agent);
            if prefix == [] || limit == 0 then o.status == Failed && o.reason.InvalidRequest? && o.rows == []
            else Asked(prefix, gate, agent, o.rows) && StoppedBy(prefix, limit, gate, agent, o)
  {
    if prefix != [] && limit > 0 { WalkFromStops(prefix, limit, gate, agent, []); }
  }

  /** The order of identifiers: by the first arc in which they differ, and a proper prefix comes first. */
  predicate FirstDifference(a: Oid, b: Oid, k: nat) {
    && k <= |a| && k < |b| && a[..k] == b[..k]
    && (k == |a| || a[k] < b[k])
  }

  lemma {:induction false} LessExactly(a: Oid, b: Oid)
    ensures Less(a, b) <==> exists k: nat :: FirstDifference(a, b, k)
  {
    if a == [] {
      if b != [] { assert FirstDifference(a, b, 0); }
    } else if b != [] {
      LessExactly(a[1..], b[1..]);
      if a[0] < b[0] { assert FirstDifference(a, b, 0); }
      if a[0] == b[0] && Less(a[1..], b[1..]) {
        var k: nat :| FirstDifference(a[1..], b[1..], k);
        assert a[..k + 1] == [a[0]] + a[1..][..k] && b[..k + 1] == [b[0]] + b[1..][..k];
        assert FirstDifference(a, b, k + 1);
      }
      if k: nat :| FirstDifference(a, b, k) {
        if k > 0 {
          assert a[0] == a[..k][0] == b[..k][0] == b[0];
          assert a[1..][..k - 1] == a[..k][1..] && b[1..][..k - 1] == b[..k][1..];
          assert FirstDifference(a[1..], b[1..], k - 1);
        }
      }
    }
  }

  // ----- a faithful agent -----

  function Answer(mib: seq<VarBind>, oid: Oid): Step {
    if Above(mib, oid) == [] then End else Next(Above(mib, oid)[0])
  }

  /** The agent answers every request from the same information base. */
  ghost predicate Faithful(agent: (nat, Oid) -> Step, mib: seq<VarBind>) {
    Sorted(mib) && forall n, oid :: agent(n, oid) == Answer(mib, oid)
  }

  lemma {:induction false} FaithfulWalkFrom(prefix: Oid, limit: nat, gate: nat -> Gate, agent: (nat, Oid) -> Step,
                                            mib: seq<VarBind>, current: Oid, rows: seq<VarBind>)
    requires |rows| < limit && Faithful(agent, mib)
    requires rows + TakeUnder(Above(mib, current), prefix) == Subtree(mib, prefix)
    ensures var o, all := WalkFrom(prefix, limit, gate, agent, current, rows), Subtree(mib, prefix);
            && o.rows <= all && (o.status == Complete ==> o.rows == all && |all| < limit)
            && ((forall n :: gate(n) == Go) ==>
                  if |all| < limit then o.status == Complete
                  else o.status == Partial && o.reason == VarBindLimitReached && o.rows == all[..limit])
    decreases limit - |rows|
  {
    hide Subtree; hide Sorted; hide Less;
    var above := Above(mib, current);
    assert agent(|rows|, current) == Answer(mib, current);
    if gate(|rows|).Go? && above != [] && Under(above[0].oid, prefix) {
      var v := above[0];
      AboveMember(mib, current);
      AboveNext(mib, current);
      assert rows + TakeUnder(above, prefix) == (rows + [v]) + TakeUnder(above[1..], prefix);
      if |rows| + 1 < limit { FaithfulWalkFrom(prefix, limit, gate, agent, mib, v.oid, rows + [v]); }
    }
  }

  /**
   * Against a faithful agent a walk is Complete only with exactly the instances below the prefix; and
   * without interruption it is Complete exactly if they are fewer than the limit.
   */
  lemma FaithfulWalk(prefix: Oid, limit: nat, gate: nat -> Gate, agent: (nat, Oid) -> Step, mib: seq<VarBind>)
    requires prefix != [] && limit > 0 && Faithful(agent, mib)
    ensures var o, all := Walk(prefix, limit, gate, agent), Subtree(mib, prefix);
            && o.rows <= all && (o.status == Complete ==> o.rows == all)
            && ((forall n :: gate(n) == Go) ==> (o.status == Complete <==> |all| < limit))
            && ((forall n :: gate(n) == Go) && |all| >= limit ==>
                  o.reason == VarBindLimitReached && o.rows == all[..limit])
  {
    SubtreeAbove(mib, prefix);
    assert [] + TakeUnder(Above(mib, prefix), prefix) == Subtree(mib, prefix);
    FaithfulWalkFrom(prefix, limit, gate, agent, mib, prefix, []);
  }
}
