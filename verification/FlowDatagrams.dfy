/**
 * A template message among the data messages of an exporter: a listener that is fed the datagrams one by one returns
 * the same records in the same order wherever the template message arrives and however often it is repeated
 * (src/flow.rs).
 */
module FlowDatagrams {
  import opened Basics
  import opened FlowRecords
  import opened FlowFraming
  import opened FlowDecoder
  import opened FlowCaches
  import opened FlowOrder
  import opened FlowLimits
  import opened FlowSequence
  import opened FlowCollector

  // ----- what messages carry, in order -----

  function CarriedBySet(scope: Scope, s: RawSet): seq<Content> {
    if s.id != TemplateSetId(scope.format) && s.id >= 256 then [Content(scope, DataSet(s.id, s.body))] else []
  }

  function CarriedBySets(scope: Scope, sets: seq<RawSet>): seq<Content> {
    if sets == [] then [] else CarriedBySet(scope, sets[0]) + CarriedBySets(scope, sets[1..])
  }

  /** The data sets of one datagram. */
  function Carried(format: Format, d: Datagram): seq<Content> {
    match ParseEnvelope(format, d.payload)
    case None => []
    case Some(envelope) => CarriedBySets(Scope(format, d.exporter, envelope.domain), ParseSets(envelope.body))
  }

  /** The data sets of all datagrams, in order of arrival. */
  function AllCarried(format: Format, datagrams: seq<Datagram>): seq<Content> {
    if datagrams == [] then []
    else AllCarried(format, datagrams[..|datagrams| - 1]) + Carried(format, datagrams[|datagrams| - 1])
  }

  /** The records that the given templates decode from the data sets. */
  function Yield(contents: seq<Content>, known: set<Key>, dict: Dictionary): seq<FlowRecord>
    requires known <= dict.Keys
  {
    if contents == [] then []
    else
      (if KeyOf(contents[0]) in known then Records(dict[KeyOf(contents[0])], contents[0].ds.body) else [])
      + Yield(contents[1..], known, dict)
  }

  /** What a list of look-ups looks up. */
  function ContentsOf(looks: seq<Task>): seq<Content> {
    if looks == [] then []
    else (if looks[0].Look? then [Content(looks[0].scope, looks[0].ds)] else []) + ContentsOf(looks[1..])
  }

  lemma {:induction false} ContentsConcat(a: seq<Task>, b: seq<Task>)
    ensures ContentsOf(a + b) == ContentsOf(a) + ContentsOf(b)
  {
    if a == [] {
      assert a + b == b;
    } else {
      assert (a + b)[0] == a[0] && (a + b)[1..] == a[1..] + b;
      ContentsConcat(a[1..], b);
    }
  }

  lemma {:induction false} SetsCarry(scope: Scope, packet: nat, sets: seq<RawSet>)
    ensures ContentsOf(MessageTasks(scope, packet, sets)) == CarriedBySets(scope, sets)
  {
    if sets != [] {
      SetsCarry(scope, packet, sets[1..]);
      ContentsConcat(SetTasks(scope, packet, sets[0]), MessageTasks(scope, packet, sets[1..]));
      SetCarries(scope, packet, sets[0]);
    }
  }

  lemma SetCarries(scope: Scope, packet: nat, s: RawSet)
    ensures ContentsOf(SetTasks(scope, packet, s)) == CarriedBySet(scope, s)
  {
    hide ParseTemplates;
    var tasks := SetTasks(scope, packet, s);
    if tasks != [] { assert tasks[1..] == [] && ContentsOf([]) == []; }
  }

  lemma {:induction false} FeedCarries(format: Format, datagrams: seq<Datagram>, ids: nat -> nat)
    ensures ContentsOf(FeedTasks(format, datagrams, ids)) == AllCarried(format, datagrams)
  {
    if datagrams != [] {
      hide ParseEnvelope; hide ParseSets; hide MessageTasks; hide CarriedBySets;
      var n := |datagrams| - 1;
      var d := datagrams[n];
      FeedCarries(format, datagrams[..n], ids);
      ContentsConcat(FeedTasks(format, datagrams[..n], ids), DatagramTasks(format, d.payload, d.exporter, ids(n)));
      var envelope := ParseEnvelope(format, d.payload);
      if envelope.Some? {
        SetsCarry(Scope(format, d.exporter, envelope.value.domain), ids(n), ParseSets(envelope.value.body));
      }
    }
  }

  lemma {:induction false} OutputIsYield(looks: seq<Task>, known: set<Key>, dict: Dictionary)
    requires known <= dict.Keys && forall i :: 0 <= i < |looks| ==> looks[i].Look?
    ensures Output(Expected(looks, known, dict)) == Yield(ContentsOf(looks), known, dict)
  {
    if looks != [] {
      hide Records;
      OutputIsYield(looks[1..], known, dict);
      var key := Key(looks[0].scope, looks[0].ds.id);
      var first := if key in known then [Decoded(Item(looks[0].scope, looks[0].packet, looks[0].ds), dict[key])]
                   else [];
      OutputConcat(first, Expected(looks[1..], known, dict));
      OutputOne(first);
      ContentsCons(looks);
    }
  }

  lemma OutputOne(first: seq<Decoded>)
    requires |first| <= 1
    ensures Output(first) == if first == [] then [] else Records(first[0].fields, first[0].item.ds.body)
  {
    hide Records;
    if first != [] { assert first[1..] == [] && Output([]) == []; }
  }

  lemma ContentsCons(looks: seq<Task>)
    requires looks != [] && looks[0].Look?
    ensures ContentsOf(looks) != [] && ContentsOf(looks)[0] == Content(looks[0].scope, looks[0].ds)
    ensures ContentsOf(looks)[1..] == ContentsOf(looks[1..])
  {
  }

  // ----- data messages and the template message -----

  /** A datagram of the scope that carries no template set. */
  predicate IsDataMessage(d: Datagram, scope: Scope) {
    match ParseEnvelope(scope.format, d.payload)
    case None => true
    case Some(envelope) =>
      Scope(scope.format, d.exporter, envelope.domain) == scope
      && forall i :: 0 <= i < |ParseSets(envelope.body)| ==>
        ParseSets(envelope.body)[i].id != TemplateSetId(scope.format)
  }

  /** A datagram of the scope whose only set announces the given templates. */
  predicate IsTemplateMessage(d: Datagram, scope: Scope, defs: seq<Definition>) {
    var envelope := ParseEnvelope(scope.format, d.payload);
    && envelope.Some? && Scope(scope.format, d.exporter, envelope.value.domain) == scope
    && |ParseSets(envelope.value.body)| == 1
    && ParseSets(envelope.value.body)[0].id == TemplateSetId(scope.format)
    && ParseTemplates(ParseSets(envelope.value.body)[0].body) == defs
  }

  predicate AllData(datagrams: seq<Datagram>, scope: Scope) {
    forall i :: 0 <= i < |datagrams| ==> IsDataMessage(datagrams[i], scope)
  }

  lemma TemplateMessageLearns(d: Datagram, scope: Scope, defs: seq<Definition>, packet: nat)
    requires IsTemplateMessage(d, scope, defs)
    ensures DatagramTasks(scope.format, d.payload, d.exporter, packet) == [Learn(scope, defs)]
  {
    hide ParseEnvelope; hide ParseSets; hide ParseTemplates;
    var sets := ParseSets(ParseEnvelope(scope.format, d.payload).value.body);
    assert sets == [sets[0]] && MessageTasks(scope, packet, sets[1..]) == [];
  }

  lemma {:induction false} DataLooks(scope: Scope, packet: nat, sets: seq<RawSet>)
    requires forall i :: 0 <= i < |sets| ==> sets[i].id != TemplateSetId(scope.format)
    ensures forall t :: t in MessageTasks(scope, packet, sets) ==> t.Look? && t.scope == scope && t.packet == packet
  {
    if sets != [] { DataLooks(scope, packet, sets[1..]); }
  }

  lemma DataMessageLooks(d: Datagram, scope: Scope, packet: nat)
    requires IsDataMessage(d, scope)
    ensures forall t :: t in DatagramTasks(scope.format, d.payload, d.exporter, packet) ==>
              t.Look? && t.scope == scope && t.packet == packet
  {
    hide ParseEnvelope; hide ParseSets; hide MessageTasks;
    var envelope := ParseEnvelope(scope.format, d.payload);
    if envelope.Some? { DataLooks(scope, packet, ParseSets(envelope.value.body)); }
  }

  /** Packet ids are handed out in increasing order. */
  ghost predicate Increasing(ids: nat -> nat) { forall i: nat, j: nat :: i < j ==> ids(i) < ids(j) }

  lemma {:induction false} DataArrives(datagrams: seq<Datagram>, scope: Scope, ids: nat -> nat)
    requires AllData(datagrams, scope) && Increasing(ids)
    ensures var looks := FeedTasks(scope.format, datagrams, ids);
            Arriving(looks, scope) && forall i :: 0 <= i < |looks| ==> looks[i].packet < ids(|datagrams|)
  {
    if datagrams != [] {
      hide IsDataMessage; hide DatagramTasks;
      var n := |datagrams| - 1;
      var earlier, last := FeedTasks(scope.format, datagrams[..n], ids),
                           DatagramTasks(scope.format, datagrams[n].payload, datagrams[n].exporter, ids(n));
      DataArrives(datagrams[..n], scope, ids);
      DataMessageLooks(datagrams[n], scope, ids(n));
      assert forall i :: 0 <= i < |last| ==> last[i] in last;
      ArrivesAfter(earlier, last, scope, ids(n));
      assert ids(n) < ids(n + 1);
    }
  }

  /** The look-ups of one more packet. */
  lemma ArrivesAfter(earlier: seq<Task>, last: seq<Task>, scope: Scope, id: nat)
    requires Arriving(earlier, scope) && forall i :: 0 <= i < |earlier| ==> earlier[i].Look? && earlier[i].packet < id
    requires forall i :: 0 <= i < |last| ==> last[i].Look? && last[i].scope == scope && last[i].packet == id
    ensures Arriving(earlier + last, scope)
    ensures forall i :: 0 <= i < |earlier + last| ==> (earlier + last)[i].packet <= id
  {
  }

  lemma LastOfConcat<T>(a: seq<T>, b: seq<T>)
    requires b != []
    ensures var n := |a + b| - 1; n == |a| + |b| - 1 && (a + b)[..n] == a + b[..|b| - 1] && (a + b)[n] == b[|b| - 1]
  {
  }

  lemma {:induction false} FeedConcat(format: Format, a: seq<Datagram>, b: seq<Datagram>, ids: nat -> nat)
    ensures FeedTasks(format, a + b, ids) == FeedTasks(format, a, ids) + FeedTasks(format, b, Later(ids, |a|))
  {
    hide DatagramTasks; hide FeedTasks;
    if b == [] {
      assert a + b == a;
      NothingFed(format, Later(ids, |a|));
    } else {
      FeedConcat(format, a, b[..|b| - 1], ids);
      LastOfConcat(a, b);
      FeedMore(format, a + b, b, ids, |a|, FeedTasks(format, a, ids));
    }
  }

  lemma FeedMore(format: Format, ab: seq<Datagram>, b: seq<Datagram>, ids: nat -> nat, n: nat, feedA: seq<Task>)
    requires ab != [] && b != [] && |ab| == n + |b| && ab[|ab| - 1] == b[|b| - 1]
    requires FeedTasks(format, ab[..|ab| - 1], ids) == feedA + FeedTasks(format, b[..|b| - 1], Later(ids, n))
    ensures FeedTasks(format, ab, ids) == feedA + FeedTasks(format, b, Later(ids, n))
  {
    hide DatagramTasks; hide FeedTasks;
    var d := b[|b| - 1];
    var last := DatagramTasks(format, d.payload, d.exporter, ids(|ab| - 1));
    assert FeedTasks(format, b, Later(ids, n)) == FeedTasks(format, b[..|b| - 1], Later(ids, n)) + last by {
      FeedLast(format, b, Later(ids, n));
    }
    assert FeedTasks(format, ab, ids) == FeedTasks(format, ab[..|ab| - 1], ids) + last by { FeedLast(format, ab, ids); }
    AppendAssociates(feedA, FeedTasks(format, b[..|b| - 1], Later(ids, n)), last);
  }

  lemma FeedLast(format: Format, datagrams: seq<Datagram>, ids: nat -> nat)
    requires datagrams != []
    ensures FeedTasks(format, datagrams, ids) == FeedTasks(format, datagrams[..|datagrams| - 1], ids)
            + DatagramTasks(format, datagrams[|datagrams| - 1].payload, datagrams[|datagrams| - 1].exporter,
                            ids(|datagrams| - 1))
  {
    hide DatagramTasks;
  }

  lemma {:induction false} CarriedConcat(format: Format, a: seq<Datagram>, b: seq<Datagram>)
    ensures AllCarried(format, a + b) == AllCarried(format, a) + AllCarried(format, b)
  {
    hide Carried;
    if b == [] {
      assert a + b == a;
    } else {
      hide AllCarried;
      CarriedConcat(format, a, b[..|b| - 1]);
      LastOfConcat(a, b);
      CarriedMore(format, a + b, b, AllCarried(format, a));
    }
  }

  lemma CarriedMore(format: Format, ab: seq<Datagram>, b: seq<Datagram>, carriedA: seq<Content>)
    requires ab != [] && b != [] && ab[|ab| - 1] == b[|b| - 1]
    requires AllCarried(format, ab[..|ab| - 1]) == carriedA + AllCarried(format, b[..|b| - 1])
    ensures AllCarried(format, ab) == carriedA + AllCarried(format, b)
  {
    hide Carried; hide AllCarried;
    CarriedSnoc(format, ab);
    CarriedSnoc(format, b);
    AppendAssociates(carriedA, AllCarried(format, b[..|b| - 1]), Carried(format, b[|b| - 1]));
  }

  lemma CarriedSnoc(format: Format, datagrams: seq<Datagram>)
    requires datagrams != []
    ensures AllCarried(format, datagrams)
         == AllCarried(format, datagrams[..|datagrams| - 1]) + Carried(format, datagrams[|datagrams| - 1])
  {
    hide Carried;
  }

  // ----- main result -----

  /** The ids from the n-th on. */
  function Later(ids: nat -> nat, n: nat): nat -> nat { (i: nat) => ids(n + i) }

  /** A template message in front of each segment of data messages. */
  function WithTemplates(announcements: seq<Datagram>, segments: seq<seq<Datagram>>): seq<Datagram>
    requires |announcements| == |segments|
  {
    if segments == [] then []
    else [announcements[0]] + segments[0] + WithTemplates(announcements[1..], segments[1..])
  }

  /** The work of the segments, the first template message being the n-th datagram. */
  function FeedSegments(format: Format, segments: seq<seq<Datagram>>, ids: nat -> nat, n: nat): (work: seq<seq<Task>>)
    ensures |work| == |segments|
  {
    if segments == [] then []
    else [FeedTasks(format, segments[0], Later(ids, n + 1))]
         + FeedSegments(format, segments[1..], ids, n + 1 + |segments[0]|)
  }

  lemma LaterLater(format: Format, datagrams: seq<Datagram>, ids: nat -> nat, n: nat, m: nat)
    ensures FeedTasks(format, datagrams, Later(Later(ids, n), m)) == FeedTasks(format, datagrams, Later(ids, n + m))
  {
    SameIds(format, datagrams, Later(Later(ids, n), m), Later(ids, n + m));
  }

  lemma {:induction false} SameIds(format: Format, datagrams: seq<Datagram>, ids: nat -> nat, ids': nat -> nat)
    requires forall i: nat :: ids(i) == ids'(i)
    ensures FeedTasks(format, datagrams, ids) == FeedTasks(format, datagrams, ids')
  {
    hide DatagramTasks;
    if datagrams != [] { SameIds(format, datagrams[..|datagrams| - 1], ids, ids'); }
  }

  /** One template message and its segment. */
  lemma FeedSegment(announcement: Datagram, segment: seq<Datagram>, scope: Scope, defs: seq<Definition>,
                    ids: nat -> nat, n: nat)
    requires IsTemplateMessage(announcement, scope, defs)
    ensures FeedTasks(scope.format, [announcement] + segment, Later(ids, n))
         == [Learn(scope, defs)] + FeedTasks(scope.format, segment, Later(ids, n + 1))
  {
    hide DatagramTasks; hide IsTemplateMessage; hide FeedTasks;
    FeedConcat(scope.format, [announcement], segment, Later(ids, n));
    LaterLater(scope.format, segment, ids, n, 1);
    FeedLast(scope.format, [announcement], Later(ids, n));
    assert [announcement][..0] == [];
    NothingFed(scope.format, Later(ids, n));
    TemplateMessageLearns(announcement, scope, defs, ids(n));
  }

  lemma {:induction false} FeedRepeated(announcements: seq<Datagram>, segments: seq<seq<Datagram>>, scope: Scope,
                                        defs: seq<Definition>, ids: nat -> nat, n: nat)
    requires |announcements| == |segments|
    requires forall i :: 0 <= i < |announcements| ==> IsTemplateMessage(announcements[i], scope, defs)
    ensures FeedTasks(scope.format, WithTemplates(announcements, segments), Later(ids, n))
         == Repeated(Learn(scope, defs), FeedSegments(scope.format, segments, ids, n))
    decreases |segments|
  {
    hide IsTemplateMessage; hide FeedTasks;
    if segments == [] {
      NothingFed(scope.format, Later(ids, n));
    } else {
      var first, rest := [announcements[0]] + segments[0], WithTemplates(announcements[1..], segments[1..]);
      FeedSegment(announcements[0], segments[0], scope, defs, ids, n);
      FeedConcat(scope.format, first, rest, Later(ids, n));
      LaterLater(scope.format, rest, ids, n, |first|);
      FeedRepeated(announcements[1..], segments[1..], scope, defs, ids, n + |first|);
    }
  }

  /** The packet ids below the n-th, all of one scope. */
  ghost function OwnersBelow(ids: nat -> nat, n: nat, scope: Scope): (owner: map<nat, Scope>)
    ensures forall i: nat :: i < n ==> ids(i) in owner
    ensures forall id :: id in owner ==> owner[id] == scope
  {
    if n == 0 then map[] else OwnersBelow(ids, n - 1, scope)[ids(n - 1) := scope]
  }

  lemma {:induction false} DataRegistered(datagrams: seq<Datagram>, scope: Scope, ids: nat -> nat,
                                          owner: map<nat, Scope>)
    requires AllData(datagrams, scope)
    requires forall i: nat :: i < |datagrams| ==> ids(i) in owner && owner[ids(i)] == scope
    ensures Registered(FeedTasks(scope.format, datagrams, ids), owner)
  {
    if datagrams != [] {
      hide IsDataMessage; hide DatagramTasks;
      var n := |datagrams| - 1;
      DataRegistered(datagrams[..n], scope, ids, owner);
      var last := DatagramTasks(scope.format, datagrams[n].payload, datagrams[n].exporter, ids(n));
      DataMessageLooks(datagrams[n], scope, ids(n));
      assert forall i :: 0 <= i < |last| ==> last[i] in last;
      RegisteredConcat(FeedTasks(scope.format, datagrams[..n], ids), last, owner);
    }
  }

  function Count(segments: seq<seq<Datagram>>): nat {
    if segments == [] then 0 else 1 + |segments[0]| + Count(segments[1..])
  }

  lemma {:induction false} SegmentsRegistered(segments: seq<seq<Datagram>>, scope: Scope, ids: nat -> nat, n: nat,
                                              owner: map<nat, Scope>)
    requires forall i :: 0 <= i < |segments| ==> AllData(segments[i], scope)
    requires forall i: nat :: i < n + Count(segments) ==> ids(i) in owner && owner[ids(i)] == scope
    ensures AllRegistered(FeedSegments(scope.format, segments, ids, n), owner)
    decreases |segments|
  {
    hide AllData; hide FeedTasks; hide Registered;
    if segments != [] {
      var work := FeedSegments(scope.format, segments, ids, n);
      DataRegistered(segments[0], scope, Later(ids, n + 1), owner);
      SegmentsRegistered(segments[1..], scope, ids, n + 1 + |segments[0]|, owner);
      assert forall i :: 0 < i < |work| ==> work[i] == work[1..][i - 1];
    }
  }

  lemma JoinedCons<T>(first: seq<T>, rest: seq<seq<T>>)
    ensures Joined([first] + rest) == first + Joined(rest)
  {
    assert ([first] + rest)[1..] == rest;
  }

  lemma {:induction false} SegmentsCarry(format: Format, segments: seq<seq<Datagram>>, ids: nat -> nat, n: nat)
    ensures ContentsOf(Joined(FeedSegments(format, segments, ids, n))) == AllCarried(format, Joined(segments))
    decreases |segments|
  {
    hide *;
    if segments == [] {
      NothingCarried(format, ids, n);
    } else {
      var first, rest := FeedTasks(format, segments[0], Later(ids, n + 1)),
                         FeedSegments(format, segments[1..], ids, n + 1 + |segments[0]|);
      SegmentsCons(format, segments, ids, n);
      JoinedCons(first, rest);
      JoinedCons(segments[0], segments[1..]);
      assert segments == [segments[0]] + segments[1..];
      SegmentsCarry(format, segments[1..], ids, n + 1 + |segments[0]|);
      ContentsConcat(first, Joined(rest));
      FeedCarries(format, segments[0], Later(ids, n + 1));
      CarriedConcat(format, segments[0], Joined(segments[1..]));
    }
  }

  lemma SegmentsCons(format: Format, segments: seq<seq<Datagram>>, ids: nat -> nat, n: nat)
    requires segments != []
    ensures FeedSegments(format, segments, ids, n)
         == [FeedTasks(format, segments[0], Later(ids, n + 1))]
            + FeedSegments(format, segments[1..], ids, n + 1 + |segments[0]|)
  {
    hide FeedTasks;
  }

  lemma NothingCarried(format: Format, ids: nat -> nat, n: nat)
    ensures ContentsOf(Joined(FeedSegments(format, [], ids, n))) == [] && AllCarried(format, Joined([])) == []
  {
    hide Carried; hide FeedTasks;
  }

  /** At most 100 packets wait for the template, and the clock leaves them and then the template alive. */
  ghost predicate Timely(a: seq<Datagram>, segments: seq<seq<Datagram>>, scope: Scope, defs: seq<Definition>,
                         ids: nat -> nat, clock: nat -> nat, base: nat)
  {
    var before, after := FeedTasks(scope.format, a, ids), FeedSegments(scope.format, segments, ids, |a|);
    |PacketIds(before)| <= ORPHAN_PACKET_LIMIT && InTime(before, Learn(scope, defs), after, clock, base)
  }

  /** Data messages of one scope, and template messages with one announcement. */
  predicate IsStream(a: seq<Datagram>, announcements: seq<Datagram>, segments: seq<seq<Datagram>>, scope: Scope,
                     defs: seq<Definition>)
  {
    && AllData(a, scope) && |announcements| == |segments| > 0
    && (forall i :: 0 <= i < |segments| ==> AllData(segments[i], scope))
    && (forall i :: 0 <= i < |announcements| ==> IsTemplateMessage(announcements[i], scope, defs))
  }

  /**
   * A listener is fed the data messages of one scope, any number of them, and among them a template message, once or
   * repeatedly. As long as at most 100 packets and no expired one wait for it, and it is repeated before it expires,
   * the records returned depend neither on where the template messages arrive nor on packet ids and the clock: they
   * are what the announced templates decode from all data sets, in their order of arrival.
   */
  lemma TemplateMessageAnywhere(a: seq<Datagram>, announcements: seq<Datagram>, segments: seq<seq<Datagram>>,
                                scope: Scope, defs: seq<Definition>, dict: Dictionary, ids: nat -> nat,
                                clock: nat -> nat, base: nat)
    requires IsStream(a, announcements, segments, scope, defs) && Increasing(ids)
    requires DefinitionsFrom(scope, defs, dict) && |TemplatesOf(dict, scope)| <= TEMPLATE_LIMIT
    requires Timely(a, segments, scope, defs, ids, clock, base)
    ensures DefinitionKeys(scope, defs) <= dict.Keys
    ensures Output(Drain(EMPTY, Local(FeedTasks(scope.format, a + WithTemplates(announcements, segments), ids), []),
                         clock, 0).out)
         == Yield(AllCarried(scope.format, a + Joined(segments)), DefinitionKeys(scope, defs), dict)
  {
    hide Drain; hide Output; hide Expected; hide Yield; hide FeedTasks; hide Arriving; hide InTime;
    hide IsTemplateMessage;
    hide AllCarried; hide ContentsOf; hide DefinitionKeys; hide AllData; hide Registered; hide AllRegistered;
    hide TemplatesOf;
    var before, after := FeedTasks(scope.format, a, ids), FeedSegments(scope.format, segments, ids, |a|);
    var owner := OwnersBelow(ids, |a| + Count(segments), scope);
    FeedConcat(scope.format, a, WithTemplates(announcements, segments), ids);
    FeedRepeated(announcements, segments, scope, defs, ids, |a|);
    DataArrives(a, scope, ids);
    DataRegistered(a, scope, ids, owner);
    SegmentsRegistered(segments, scope, ids, |a|, owner);
    TemplatePositionIrrelevant(before, after, scope, defs, owner, dict, clock, base);
    AreLooks(before + Joined(after), owner);
    OutputIsYield(before + Joined(after), DefinitionKeys(scope, defs), dict);
    ContentsConcat(before, Joined(after));
    FeedCarries(scope.format, a, ids);
    SegmentsCarry(scope.format, segments, ids, |a|);
    CarriedConcat(scope.format, a, Joined(segments));
  }
}
