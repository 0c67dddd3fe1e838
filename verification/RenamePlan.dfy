/** The bulk rename plan of src/device/metadata.rs. */
module RenamePlan {
  import opened Basics
  import opened Decimal
  import opened Sums

  const MAX_DEVICES := 1000
  const MAX_PADDING := 10
  const MAX_TEXT := 512

  datatype Device = Device(id: Option<int>, ip: string)

  datatype SortBy = IpAsc | SelectionOrder

  datatype Request = Request(
    deviceIds: seq<int>, prefix: string, startNumber: nat, padding: nat, suffix: Option<string>, sortBy: SortBy)

  datatype Item = Item(id: int, ip: string, displayName: string)

  datatype Error =
    | BadCount | BadPadding | BadPrefix | BadSuffix | Overflow | BadIds | NotFound(id: int) | BadAddress(id: int)
    | BadName

  datatype Result = Ok(items: seq<Item>) | Err(error: Error)

  /** Parses an address to its rank among all addresses: IPv4 before IPv6, numeric within. */
  type AddressParser = string -> Option<nat>

  /** `char::is_control`. */
  predicate IsControl(c: char) { c as int <= 0x1f || 0x7f <= c as int <= 0x9f }

  /** `char::is_whitespace`. */
  predicate IsWhitespace(c: char) {
    var n := c as int;
    || 0x9 <= n <= 0xd || n == 0x20 || n == 0x85 || n == 0xa0 || n == 0x1680 || 0x2000 <= n <= 0x200a
    || n == 0x2028 || n == 0x2029 || n == 0x202f || n == 0x205f || n == 0x3000
  }

  predicate ValidText(s: string) { |s| <= MAX_TEXT && forall i :: 0 <= i < |s| ==> !IsControl(s[i]) }

  predicate Blank(s: string) { forall i :: 0 <= i < |s| ==> IsWhitespace(s[i]) }

  function SuffixOf(request: Request): string { match request.suffix case Some(s) => s case None => "" }

  /** The generated name with this sequence number. */
  function Name(request: Request, number: nat): string {
    request.prefix + Padded(number, request.padding) + SuffixOf(request)
  }

  function Find(devices: seq<Device>, id: int): (d: Option<Device>)
    ensures d.Some? ==> d.value in devices && d.value.id == Some(id)
    ensures d.None? ==> forall i :: 0 <= i < |devices| ==> devices[i].id != Some(id)
  {
    if devices == [] then None else if devices[0].id == Some(id) then Some(devices[0]) else Find(devices[1..], id)
  }

  // ----- sorting -----

  datatype Chosen = Chosen(id: int, ip: string, rank: nat)

  predicate Before(a: Chosen, b: Chosen) { a.rank < b.rank || (a.rank == b.rank && a.id <= b.id) }

  predicate SortedByAddress(s: seq<Chosen>) { forall i, j :: 0 <= i < j < |s| ==> Before(s[i], s[j]) }

  function Insert(s: seq<Chosen>, x: Chosen): seq<Chosen> {
    if s == [] then [x]
    else if Before(s[|s| - 1], x) then s + [x]
    else Insert(s[..|s| - 1], x) + [s[|s| - 1]]
  }

  /** `sort_by_key(|(device, ip)| (*ip, device.id))`. */
  function Sort(s: seq<Chosen>): seq<Chosen> { if s == [] then [] else Insert(Sort(s[..|s| - 1]), s[|s| - 1]) }

  lemma BeforeAll(t: seq<Chosen>, s: seq<Chosen>, x: Chosen, last: Chosen)
    requires multiset(t) == multiset(s) + multiset{x} && Before(x, last)
    requires forall i :: 0 <= i < |s| ==> Before(s[i], last)
    ensures forall i :: 0 <= i < |t| ==> Before(t[i], last)
  {
    hide Before;
    forall i | 0 <= i < |t| ensures Before(t[i], last) {
      assert t[i] in multiset(t);
      assert t[i] == x || t[i] in multiset(s);
    }
  }

  lemma {:induction false} InsertSorts(s: seq<Chosen>, x: Chosen)
    requires SortedByAddress(s)
    ensures SortedByAddress(Insert(s, x)) && multiset(Insert(s, x)) == multiset(s) + multiset{x}
  {
    if s != [] {
      var n := |s| - 1;
      assert s == s[..n] + [s[n]];
      if !Before(s[n], x) {
        InsertSorts(s[..n], x);
        BeforeAll(Insert(s[..n], x), s[..n], x, s[n]);
        assert Insert(s, x) == Insert(s[..n], x) + [s[n]];
        hide Insert; hide Before;
      } else {
        assert Insert(s, x) == s + [x];
        hide Insert;
        BeforeLast(s, x);
      }
    }
  }

  lemma BeforeLast(s: seq<Chosen>, x: Chosen)
    requires SortedByAddress(s) && s != [] && Before(s[|s| - 1], x)
    ensures SortedByAddress(s + [x])
  {
    forall i | 0 <= i < |s| ensures Before(s[i], x) { assert i < |s| - 1 ==> Before(s[i], s[|s| - 1]); }
  }

  lemma {:induction false} SortSorts(s: seq<Chosen>)
    ensures SortedByAddress(Sort(s)) && multiset(Sort(s)) == multiset(s)
  {
    if s == [] {
      hide Before;
      assert Sort(s) == [];
    } else {
      var n := |s| - 1;
      assert s == s[..n] + [s[n]];
      assert Sort(s) == Insert(Sort(s[..n]), s[n]);
      hide *;
      SortSorts(s[..n]);
      InsertSorts(Sort(s[..n]), s[n]);
      assert multiset(s) == multiset(s[..n]) + multiset{s[n]};
    }
  }

  // ----- the plan -----

  predicate DistinctInts(s: seq<int>) { forall i, j :: 0 <= i < j < |s| ==> s[i] != s[j] }

  predicate GoodIds(ids: seq<int>) { DistinctInts(ids) && forall i :: 0 <= i < |ids| ==> ids[i] > 0 }

  predicate Addressed(devices: seq<Device>, parse: AddressParser, id: int) {
    Find(devices, id).Some? && parse(Find(devices, id).value.ip).Some?
  }

  predicate AllAddressed(ids: seq<int>, devices: seq<Device>, parse: AddressParser) {
    forall i :: 0 <= i < |ids| ==> Addressed(devices, parse, ids[i])
  }

  function Choose(devices: seq<Device>, parse: AddressParser, id: int): Chosen
    requires Addressed(devices, parse, id)
  {
    var d := Find(devices, id).value;
    Chosen(id, d.ip, parse(d.ip).value)
  }

  function ChooseAll(ids: seq<int>, devices: seq<Device>, parse: AddressParser): seq<Chosen>
    requires AllAddressed(ids, devices, parse)
  {
    seq(|ids|, i requires 0 <= i < |ids| => Choose(devices, parse, ids[i]))
  }

  /** At most 512 characters, none of them in the control blocks C0 and C1 or the delete character. */
  predicate IsText(s: string) {
    |s| <= 512 && forall i :: 0 <= i < |s| ==> 32 <= s[i] as int < 127 || 160 <= s[i] as int
  }

  lemma TextExactly(s: string)
    ensures ValidText(s) <==> IsText(s)
  {
  }

  predicate GoodHeader(request: Request) {
    && 1 <= |request.deviceIds| <= 1000
    && request.padding <= 10
    && IsText(request.prefix) && (request.suffix.Some? ==> IsText(request.suffix.value))
    && request.startNumber + |request.deviceIds| - 1 <= 4_294_967_295
  }

  predicate NameFits(request: Request, offset: nat) { |Name(request, request.startNumber + offset)| <= 512 }

  /** None of the first names is too long. */
  predicate NamesFit(request: Request, count: nat) { forall i: nat :: i < count ==> NameFits(request, i) }

  /** The requests that get a plan. */
  predicate Acceptable(request: Request, devices: seq<Device>, parse: AddressParser) {
    && GoodHeader(request)
    && GoodIds(request.deviceIds)
    && AllAddressed(request.deviceIds, devices, parse)
    && NamesFit(request, |request.deviceIds|)
  }

  /** A true reason for refusing a request. */
  predicate Explains(error: Error, request: Request, devices: seq<Device>, parse: AddressParser) {
    match error
    case BadCount => request.deviceIds == [] || |request.deviceIds| > 1000
    case BadPadding => request.padding > 10
    case BadPrefix => !IsText(request.prefix)
    case BadSuffix => request.suffix.Some? && !IsText(request.suffix.value)
    case Overflow => request.startNumber + |request.deviceIds| - 1 > 4_294_967_295
    case BadIds => !GoodIds(request.deviceIds)
    case NotFound(id) => id in request.deviceIds && Find(devices, id).None?
    case BadAddress(id) => id in request.deviceIds && Find(devices, id).Some? && parse(Find(devices, id).value.ip).None?
    case BadName => !NamesFit(request, |request.deviceIds|)
  }

  /** The order in which the chosen devices are numbered. */
  function Ordered(request: Request, devices: seq<Device>, parse: AddressParser): seq<Chosen>
    requires AllAddressed(request.deviceIds, devices, parse)
  {
    var chosen := ChooseAll(request.deviceIds, devices, parse);
    if request.sortBy == IpAsc then Sort(chosen) else chosen
  }

  function Numbered(request: Request, ordered: seq<Chosen>): seq<Item> {
    seq(|ordered|, i requires 0 <= i < |ordered| =>
      Item(ordered[i].id, ordered[i].ip, Name(request, request.startNumber + i)))
  }

  method Plan(request: Request, devices: seq<Device>, parse: AddressParser) returns (r: Result)
    requires request.startNumber <= U32_MAX
    ensures r.Ok? <==> Acceptable(request, devices, parse)
    ensures r.Ok? ==> r.items == Numbered(request, Ordered(request, devices, parse))
    ensures r.Err? ==> Explains(r.error, request, devices, parse)
  {
    hide ValidText;
    hide Find;
    hide Padded;
    hide NamesFit;
    var ids := request.deviceIds;
    TextExactly(request.prefix);
    TextExactly(SuffixOf(request));
    if ids == [] || |ids| > MAX_DEVICES { return Err(BadCount); }
    if request.padding > MAX_PADDING { return Err(BadPadding); }
    if !ValidText(request.prefix) { return Err(BadPrefix); }
    if !ValidText(SuffixOf(request)) { return Err(BadSuffix); }
    if request.startNumber + (|ids| - 1) > U32_MAX { return Err(Overflow); }
    var seen: set<int> := {};
    var selected: seq<Chosen> := [];
    for n := 0 to |ids|
      invariant forall id :: id in seen <==> id in ids[..n]
      invariant GoodIds(ids[..n]) && AllAddressed(ids[..n], devices, parse)
      invariant selected == ChooseAll(ids[..n], devices, parse)
    {
      var id := ids[n];
      assert ids[..n + 1] == ids[..n] + [id];
      if id <= 0 || id in seen {
        RepeatedId(ids, n);
        return Err(BadIds);
      }
      var device := Find(devices, id);
      if device.None? { return Err(NotFound(id)); }
      var rank := parse(device.value.ip);
      if rank.None? { return Err(BadAddress(id)); }
      assert Addressed(devices, parse, id);
      seen := seen + {id};
      selected := selected + [Chosen(id, device.value.ip, rank.value)];
    }
    assert ids[..|ids|] == ids;
    if request.sortBy == IpAsc { selected := Sort(selected); }
    r := Generate(request, Ordered(request, devices, parse));
    OrderedLength(request, devices, parse);
  }

  lemma RepeatedId(ids: seq<int>, n: nat)
    requires n < |ids| && (ids[n] <= 0 || ids[n] in ids[..n])
    ensures !GoodIds(ids)
  {
    if ids[n] > 0 {
      var i :| 0 <= i < n && ids[i] == ids[n];
    }
  }

  lemma OrderedLength(request: Request, devices: seq<Device>, parse: AddressParser)
    requires AllAddressed(request.deviceIds, devices, parse)
    ensures |Ordered(request, devices, parse)| == |request.deviceIds|
  {
    var chosen := ChooseAll(request.deviceIds, devices, parse);
    SortSorts(chosen);
    assert |Sort(chosen)| == |multiset(Sort(chosen))| == |multiset(chosen)| == |chosen|;
  }

  /** Names the devices in order; the first name that is too long ends it. */
  method Generate(request: Request, ordered: seq<Chosen>) returns (r: Result)
    requires ValidText(request.prefix) && ValidText(SuffixOf(request))
    ensures r.Ok? <==> NamesFit(request, |ordered|)
    ensures r.Ok? ==> r.items == Numbered(request, ordered)
    ensures r.Err? ==> r.error == BadName
  {
    hide Name;
    var items: seq<Item> := [];
    for offset := 0 to |ordered|
      invariant items == Numbered(request, ordered[..offset])
      invariant NamesFit(request, offset)
    {
      var name := Name(request, request.startNumber + offset);
      NameIsClean(request, request.startNumber + offset);
      assert NameFits(request, offset) <==> ValidText(name);
      if !ValidText(name) { return Err(BadName); }
      if Blank(name) { return Err(BadName); }
      items := items + [Item(ordered[offset].id, ordered[offset].ip, name)];
    }
    assert ordered[..|ordered|] == ordered;
    r := Ok(items);
  }

  /** A generated name has no control characters and is never blank: only its length can be wrong. */
  lemma NameIsClean(request: Request, number: nat)
    requires ValidText(request.prefix) && ValidText(SuffixOf(request))
    ensures ValidText(Name(request, number)) <==> |Name(request, number)| <= MAX_TEXT
    ensures !Blank(Name(request, number))
  {
    var name, digits, p := Name(request, number), Padded(number, request.padding), |request.prefix|;
    PaddedValue(number, request.padding);
    PaddedNonempty(number, request.padding);
    assert name[p] == digits[0];
    assert IsDigit(name[p]);
    forall i | 0 <= i < |name| ensures !IsControl(name[i]) {
      if i < p { assert name[i] == request.prefix[i]; }
      else if i < p + |digits| { assert name[i] == digits[i - p] && IsDigit(digits[i - p]); }
      else { assert name[i] == SuffixOf(request)[i - p - |digits|]; }
    }
  }

  lemma PaddedNonempty(number: nat, width: nat)
    ensures Padded(number, width) != ""
  {
    PrintValue(number);
  }

  // ----- what a plan is worth -----

  function ItemIds(items: seq<Item>): seq<int> { seq(|items|, i requires 0 <= i < |items| => items[i].id) }

  function ChosenIds(s: seq<Chosen>): seq<int> { seq(|s|, i requires 0 <= i < |s| => s[i].id) }

  function IdOf(c: Chosen): multiset<int> { multiset{c.id} }

  lemma {:induction false} IdsAreSum(s: seq<Chosen>)
    ensures multiset(ChosenIds(s)) == Sum(s, IdOf)
  {
    if s != [] {
      IdsAreSum(s[1..]);
      assert ChosenIds(s) == [s[0].id] + ChosenIds(s[1..]);
    }
  }

  /** Reordering the chosen devices keeps their ids. */
  lemma SortKeepsIds(s: seq<Chosen>)
    ensures multiset(ChosenIds(Sort(s))) == multiset(ChosenIds(s))
  {
    hide Sum;
    SortSorts(s);
    IdsAreSum(s);
    IdsAreSum(Sort(s));
    SumPermutation(s, Sort(s), IdOf);
  }

  /** A plan covers exactly the requested devices, each once, with the address of its own device. */
  lemma PlanIsPermutation(request: Request, devices: seq<Device>, parse: AddressParser)
    requires Acceptable(request, devices, parse)
    ensures var items := Numbered(request, Ordered(request, devices, parse));
            && multiset(ItemIds(items)) == multiset(request.deviceIds)
            && forall i :: 0 <= i < |items| ==>
                 Find(devices, items[i].id).Some? && items[i].ip == Find(devices, items[i].id).value.ip
  {
    hide Sort;
    hide Name;
    hide Find;
    var chosen, ordered := ChooseAll(request.deviceIds, devices, parse), Ordered(request, devices, parse);
    assert ChosenIds(chosen) == request.deviceIds;
    SortKeepsIds(chosen);
    assert ItemIds(Numbered(request, ordered)) == ChosenIds(ordered);
    forall i | 0 <= i < |ordered|
      ensures Find(devices, ordered[i].id).Some? && ordered[i].ip == Find(devices, ordered[i].id).value.ip
    {
      FromRequest(request, devices, parse, i);
    }
  }

  lemma FromRequest(request: Request, devices: seq<Device>, parse: AddressParser, i: nat)
    requires AllAddressed(request.deviceIds, devices, parse) && i < |Ordered(request, devices, parse)|
    ensures var c := Ordered(request, devices, parse)[i];
            Addressed(devices, parse, c.id) && c == Choose(devices, parse, c.id)
  {
    hide Sort;
    hide Find;
    var chosen, ordered := ChooseAll(request.deviceIds, devices, parse), Ordered(request, devices, parse);
    SortSorts(chosen);
    assert ordered[i] in multiset(ordered);
    assert ordered[i] in multiset(chosen);
    var k: nat :| k < |chosen| && chosen[k] == ordered[i];
  }

  /** The prefix, the number in decimal with as many zeros in front as the padding asks for, and the suffix, if any. */
  predicate IsNamed(request: Request, number: nat, name: string) {
    var digits := Print(number);
    var zeros := Zeros(if |digits| < request.padding then request.padding - |digits| else 0);
    name == request.prefix + zeros + digits + match request.suffix case None => "" case Some(suffix) => suffix
  }

  lemma NameIsNamed(request: Request, number: nat)
    ensures IsNamed(request, number, Name(request, number))
  {
    hide Print;
    var p := Padded(number, request.padding);
    if |Print(number)| >= request.padding { assert p == Zeros(0) + Print(number); }
    assert request.prefix + p == request.prefix + Zeros(|p| - |Print(number)|) + Print(number);
  }

  /** The numbers are consecutive, start at the requested one, and fit into 32 bits. */
  lemma PlanIsConsecutive(request: Request, devices: seq<Device>, parse: AddressParser, i: nat)
    requires Acceptable(request, devices, parse)
    requires i < |request.deviceIds|
    ensures var items := Numbered(request, Ordered(request, devices, parse));
            && |items| == |request.deviceIds|
            && request.startNumber + i <= U32_MAX && IsNamed(request, request.startNumber + i, items[i].displayName)
  {
    hide Sort; hide Name; hide Find; hide NamesFit; hide GoodIds; hide Ordered; hide IsNamed;
    OrderedLength(request, devices, parse);
    NameIsNamed(request, request.startNumber + i);
  }

  function AddressOf(devices: seq<Device>, parse: AddressParser, id: int): nat
    requires Addressed(devices, parse, id)
  {
    parse(Find(devices, id).value.ip).value
  }

  /** In address order the items ascend by address, then by id; otherwise they keep the order of the request. */
  lemma PlanIsOrdered(request: Request, devices: seq<Device>, parse: AddressParser, i: nat, j: nat)
    requires Acceptable(request, devices, parse) && i < j < |request.deviceIds|
    ensures var items := Numbered(request, Ordered(request, devices, parse));
            && |items| == |request.deviceIds|
            && Addressed(devices, parse, items[i].id) && Addressed(devices, parse, items[j].id)
            && (request.sortBy == IpAsc ==>
                  var a, b := AddressOf(devices, parse, items[i].id), AddressOf(devices, parse, items[j].id);
                  a < b || (a == b && items[i].id <= items[j].id))
            && (request.sortBy == SelectionOrder ==>
                  items[i].id == request.deviceIds[i] && items[j].id == request.deviceIds[j])
  {
    hide Sort;
    hide Name;
    hide Find;
    OrderedLength(request, devices, parse);
    FromRequest(request, devices, parse, i);
    FromRequest(request, devices, parse, j);
    SortSorts(ChooseAll(request.deviceIds, devices, parse));
  }

  /** Different numbers give different names, whatever the padding. */
  lemma NamesAreInjective(request: Request, a: nat, b: nat)
    requires Name(request, a) == Name(request, b)
    ensures a == b
  {
    var p, da, db := |request.prefix|, Padded(a, request.padding), Padded(b, request.padding);
    PaddedValue(a, request.padding);
    PaddedValue(b, request.padding);
    assert |da| == |db|;
    assert da == Name(request, a)[p..p + |da|] && db == Name(request, b)[p..p + |db|];
  }

  /** No two devices get the same name. */
  lemma PlanNamesDistinct(request: Request, devices: seq<Device>, parse: AddressParser, i: nat, j: nat)
    requires Acceptable(request, devices, parse) && i < j < |request.deviceIds|
    ensures var items := Numbered(request, Ordered(request, devices, parse));
            && |items| == |request.deviceIds|
            && items[i].displayName != items[j].displayName
  {
    hide Name;
    OrderedLength(request, devices, parse);
    if Name(request, request.startNumber + i) == Name(request, request.startNumber + j) {
      NamesAreInjective(request, request.startNumber + i, request.startNumber + j);
    }
  }
}
