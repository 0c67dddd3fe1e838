/** The vendor template registry of src/snmp/template.rs: merging user files and choosing a template. */
module TemplateRegistry {
  import opened Basics
  import opened Decimal
  import opened OidText

  datatype Template = Template(name: string, sysObjectIdPrefix: Option<string>, enterpriseId: nat)

  function Selector(t: Template): string {
    match t.sysObjectIdPrefix
    case Some(prefix) => Trim(prefix)
    case None => if t.enterpriseId == 0 then "" else "1.3.6.1.4.1." + Print(t.enterpriseId)
  }

  predicate Distinct(templates: seq<Template>) {
    forall i, j :: 0 <= i < j < |templates| ==> Selector(templates[i]) != Selector(templates[j])
  }

  // ----- merging -----

  /** The position of the first template with this selector, or the length. */
  function IndexOf(templates: seq<Template>, selector: string): (i: nat)
    ensures i <= |templates|
    ensures i < |templates| ==> Selector(templates[i]) == selector
    ensures forall j :: 0 <= j < i ==> Selector(templates[j]) != selector
  {
    if templates == [] then 0
    else if Selector(templates[0]) == selector then 0
    else 1 + IndexOf(templates[1..], selector)
  }

  predicate HasSelector(templates: seq<Template>, selector: string) { IndexOf(templates, selector) < |templates| }

  /** A user file is None if it cannot be read or is no template; a template without selector is not used. */
  function Usable(file: Option<Template>, selector: string): Option<Template> {
    if file.Some? && Selector(file.value) == selector && selector != "" then file else None
  }

  /** The first usable user template with this selector. */
  function FirstCustom(files: seq<Option<Template>>, selector: string): (t: Option<Template>)
    ensures t.Some? ==> Selector(t.value) == selector != ""
  {
    if files == [] then None
    else
      var before := FirstCustom(files[..|files| - 1], selector);
      if before.Some? then before else Usable(files[|files| - 1], selector)
  }

  /** The last file brings a selector that no earlier file had. */
  predicate Introduces(files: seq<Option<Template>>)
    requires files != []
  {
    var last := files[|files| - 1];
    last.Some? && Selector(last.value) != "" && FirstCustom(files[..|files| - 1], Selector(last.value)).None?
  }

  function Override(t: Template, files: seq<Option<Template>>): (r: Template)
    ensures Selector(r) == Selector(t)
  {
    match FirstCustom(files, Selector(t)) case Some(custom) => custom case None => t
  }

  function Overridden(bundled: seq<Template>, files: seq<Option<Template>>): seq<Template> {
    seq(|bundled|, i requires 0 <= i < |bundled| => Override(bundled[i], files))
  }

  /** The user templates whose selector no bundled template has, in file order. */
  function Added(bundled: seq<Template>, files: seq<Option<Template>>): seq<Template> {
    if files == [] then []
    else
      var last := files[|files| - 1];
      Added(bundled, files[..|files| - 1])
      + if Introduces(files) && !HasSelector(bundled, Selector(last.value)) then [last.value] else []
  }

  function Merged(bundled: seq<Template>, files: seq<Option<Template>>): seq<Template> {
    Overridden(bundled, files) + Added(bundled, files)
  }

  /** What a selector stands for: the first user template that claims it, or else the bundled one. */
  function Winner(bundled: seq<Template>, files: seq<Option<Template>>, selector: string): Option<Template> {
    var custom := FirstCustom(files, selector);
    if custom.Some? then custom
    else if HasSelector(bundled, selector) then Some(bundled[IndexOf(bundled, selector)]) else None
  }

  method Load(bundled: seq<Template>, files: seq<Option<Template>>) returns (templates: seq<Template>)
    requires Distinct(bundled)
    ensures templates == Merged(bundled, files)
  {
    hide Selector;
    hide FirstCustom;
    hide IndexOf;
    hide Merged;
    templates := bundled;
    NothingCustom(bundled);
    var customSelectors: set<string> := {};
    for n := 0 to |files|
      invariant files[..0] == [] && templates == Merged(bundled, files[..n])
      invariant forall s :: s in customSelectors <==> FirstCustom(files[..n], s).Some?
    {
      assert files[..n + 1][..n] == files[..n];
      if files[n].Some? && Selector(files[n].value) != "" && Selector(files[n].value) !in customSelectors {
        var template := files[n].value;
        var selector := Selector(template);
        MergeStep(bundled, files[..n + 1]);
        forall s ensures FirstCustom(files[..n + 1], s).Some? <==> s in customSelectors || s == selector {
          CustomSnoc(files[..n + 1], s);
        }
        customSelectors := customSelectors + {selector};
        var existing := IndexOf(templates, selector);
        templates := if existing < |templates| then templates[existing := template] else templates + [template];
      } else {
        SkipStep(bundled, files[..n + 1]);
      }
    }
    assert files[..|files|] == files;
  }

  lemma NothingCustom(bundled: seq<Template>)
    ensures Merged(bundled, []) == bundled && forall s :: FirstCustom([], s) == None
  {
    assert forall i :: 0 <= i < |bundled| ==> Overridden(bundled, [])[i] == bundled[i];
  }

  /** A further file matters only for the selector it introduces. */
  lemma CustomSnoc(files: seq<Option<Template>>, s: string)
    requires files != []
    ensures FirstCustom(files, s)
         == if Introduces(files) && s == Selector(files[|files| - 1].value) then files[|files| - 1]
            else FirstCustom(files[..|files| - 1], s)
  {
    hide Selector;
  }

  lemma SameOverrides(bundled: seq<Template>, files: seq<Option<Template>>, files': seq<Option<Template>>)
    requires forall i :: 0 <= i < |bundled| ==>
               FirstCustom(files, Selector(bundled[i])) == FirstCustom(files', Selector(bundled[i]))
    ensures Overridden(bundled, files) == Overridden(bundled, files')
  {
    hide FirstCustom;
    hide Selector;
    forall i | 0 <= i < |bundled| ensures Override(bundled[i], files) == Override(bundled[i], files') { }
  }

  lemma SkipStep(bundled: seq<Template>, files: seq<Option<Template>>)
    requires files != [] && !Introduces(files)
    ensures Merged(bundled, files) == Merged(bundled, files[..|files| - 1])
    ensures forall s :: FirstCustom(files, s) == FirstCustom(files[..|files| - 1], s)
  {
    hide Selector;
    hide IndexOf;
    var was := files[..|files| - 1];
    forall s ensures FirstCustom(files, s) == FirstCustom(was, s) { CustomSnoc(files, s); }
    SameOverrides(bundled, files, was);
    assert Added(bundled, files) == Added(bundled, was);
  }

  lemma {:induction false} AddedAreNew(bundled: seq<Template>, files: seq<Option<Template>>, i: nat)
    requires i < |Added(bundled, files)|
    ensures var s := Selector(Added(bundled, files)[i]);
            s != "" && !HasSelector(bundled, s) && FirstCustom(files, s) == Some(Added(bundled, files)[i])
  {
    if files != [] {
      if i < |Added(bundled, files[..|files| - 1])| { AddedAreNew(bundled, files[..|files| - 1], i); }
    }
  }

  lemma {:induction false} AddedHasAll(bundled: seq<Template>, files: seq<Option<Template>>, s: string)
    requires FirstCustom(files, s).Some? && !HasSelector(bundled, s)
    ensures FirstCustom(files, s).value in Added(bundled, files)
  {
    if files != [] {
      if FirstCustom(files[..|files| - 1], s).Some? { AddedHasAll(bundled, files[..|files| - 1], s); }
    }
  }

  /** One more custom selector replaces the template that has it, or is added at the end. */
  lemma MergeStep(bundled: seq<Template>, files: seq<Option<Template>>)
    requires Distinct(bundled) && files != [] && Introduces(files)
    ensures var t, was := files[|files| - 1].value, Merged(bundled, files[..|files| - 1]);
            var k := IndexOf(was, Selector(t));
            Merged(bundled, files) == if k < |was| then was[k := t] else was + [t]
  {
    hide Selector;
    hide FirstCustom;
    hide IndexOf;
    var t, before := files[|files| - 1].value, files[..|files| - 1];
    var s, was := Selector(t), Merged(bundled, before);
    NotAddedBefore(bundled, files);
    assert forall i :: 0 <= i < |bundled| ==> Selector(was[i]) == Selector(bundled[i]);
    if HasSelector(bundled, s) {
      var k := IndexOf(bundled, s);
      ReplaceStep(bundled, files, k);
      assert Added(bundled, files) == Added(bundled, before);
      hide Added; hide Overridden; hide HasSelector;
      FirstIndex(was, s, k);
    } else {
      forall i | 0 <= i < |bundled|
        ensures FirstCustom(files, Selector(bundled[i])) == FirstCustom(before, Selector(bundled[i]))
      {
        CustomSnoc(files, Selector(bundled[i]));
      }
      SameOverrides(bundled, files, before);
      forall i | 0 <= i < |was| ensures Selector(was[i]) != s {
        if i >= |bundled| { assert was[i] == Added(bundled, before)[i - |bundled|]; }
      }
    }
  }

  lemma NotAddedBefore(bundled: seq<Template>, files: seq<Option<Template>>)
    requires files != [] && Introduces(files)
    ensures forall t :: t in Added(bundled, files[..|files| - 1]) ==> Selector(t) != Selector(files[|files| - 1].value)
  {
    hide Selector;
    hide Added;
    var before := files[..|files| - 1];
    forall i | 0 <= i < |Added(bundled, before)|
      ensures Selector(Added(bundled, before)[i]) != Selector(files[|files| - 1].value)
    {
      AddedAreNew(bundled, before, i);
    }
  }

  lemma ReplaceStep(bundled: seq<Template>, files: seq<Option<Template>>, k: nat)
    requires Distinct(bundled) && files != [] && Introduces(files)
    requires k < |bundled| && Selector(bundled[k]) == Selector(files[|files| - 1].value)
    ensures Overridden(bundled, files) == Overridden(bundled, files[..|files| - 1])[k := files[|files| - 1].value]
  {
    hide Selector;
    hide FirstCustom;
    var before := files[..|files| - 1];
    forall i | 0 <= i < |bundled|
      ensures Override(bundled[i], files) == if i == k then files[|files| - 1].value else Override(bundled[i], before)
    {
      CustomSnoc(files, Selector(bundled[i]));
      assert i < k ==> Selector(bundled[i]) != Selector(bundled[k]);
      assert k < i ==> Selector(bundled[k]) != Selector(bundled[i]);
    }
  }

  lemma FirstIndex(templates: seq<Template>, s: string, k: nat)
    requires k < |templates| && Selector(templates[k]) == s && forall j :: 0 <= j < k ==> Selector(templates[j]) != s
    ensures IndexOf(templates, s) == k
  {
    hide Selector;
    hide IndexOf;
    assert IndexOf(templates, s) >= k;
    assert Selector(templates[k]) == s;
  }

  /** Merging keeps selectors unique. */
  lemma {:induction false} AddedDistinct(bundled: seq<Template>, files: seq<Option<Template>>)
    ensures Distinct(Added(bundled, files))
  {
    if files != [] {
      var before := files[..|files| - 1];
      AddedDistinct(bundled, before);
      forall i | 0 <= i < |Added(bundled, before)|
        ensures Introduces(files) ==> Selector(Added(bundled, before)[i]) != Selector(files[|files| - 1].value)
      {
        AddedAreNew(bundled, before, i);
      }
    }
  }

  /**
   * After a merge selectors are unique, and every selector stands for its winner: the first user file, or the bundled
   * template.
   */
  lemma MergedIsWinners(bundled: seq<Template>, files: seq<Option<Template>>)
    requires Distinct(bundled)
    ensures Distinct(Merged(bundled, files))
    ensures forall t :: t in Merged(bundled, files) <==> Winner(bundled, files, Selector(t)) == Some(t)
  {
    hide Selector;
    hide FirstCustom;
    hide IndexOf;
    hide Added;
    hide Distinct;
    var merged, n := Merged(bundled, files), |bundled|;
    AddedDistinct(bundled, files);
    forall i | n <= i < |merged|
      ensures !HasSelector(bundled, Selector(merged[i]))
      ensures Winner(bundled, files, Selector(merged[i])) == Some(merged[i])
    {
      AddedAreNew(bundled, files, i - n);
    }
    forall i | 0 <= i < n
      ensures HasSelector(bundled, Selector(merged[i]))
      ensures Winner(bundled, files, Selector(merged[i])) == Some(merged[i])
    {
      IndexOfDistinct(bundled, i);
    }
    forall t | Winner(bundled, files, Selector(t)) == Some(t) ensures t in merged {
      var s := Selector(t);
      if HasSelector(bundled, s) {
        assert merged[IndexOf(bundled, s)] == Override(bundled[IndexOf(bundled, s)], files) == t;
      } else {
        AddedHasAll(bundled, files, s);
      }
    }
    DistinctAppend(bundled, files);
  }

  lemma SamePosition(templates: seq<Template>, i: nat, j: nat)
    requires Distinct(templates) && i < |templates| && j < |templates|
    requires Selector(templates[i]) == Selector(templates[j])
    ensures i == j
  {
  }

  lemma SelectorIdentifies(templates: seq<Template>, a: Template, b: Template)
    requires Distinct(templates) && a in templates && b in templates && Selector(a) == Selector(b)
    ensures a == b
  {
    var i: nat :| i < |templates| && templates[i] == a;
    var j: nat :| j < |templates| && templates[j] == b;
    SamePosition(templates, i, j);
  }

  lemma IndexOfDistinct(templates: seq<Template>, i: nat)
    requires Distinct(templates) && i < |templates|
    ensures IndexOf(templates, Selector(templates[i])) == i
  {
    SamePosition(templates, IndexOf(templates, Selector(templates[i])), i);
  }

  lemma NotBundled(bundled: seq<Template>, selector: string, i: nat)
    requires i < |bundled| && !HasSelector(bundled, selector)
    ensures Selector(bundled[i]) != selector
  {
    hide Selector; hide IndexOf;
  }

  lemma DistinctAppend(bundled: seq<Template>, files: seq<Option<Template>>)
    requires Distinct(bundled) && Distinct(Added(bundled, files))
    ensures Distinct(Merged(bundled, files))
  {
    hide Selector; hide FirstCustom; hide Added; hide HasSelector;
    var merged, n := Merged(bundled, files), |bundled|;
    forall i, j | 0 <= i < j < |merged| ensures Selector(merged[i]) != Selector(merged[j]) {
      if i < n <= j {
        AddedAreNew(bundled, files, j - n);
        NotBundled(bundled, Selector(merged[j]), i);
      } else if j < n {
        assert Selector(merged[i]) == Selector(bundled[i]) && Selector(merged[j]) == Selector(bundled[j]);
      } else {
        assert merged[i] == Added(bundled, files)[i - n] && merged[j] == Added(bundled, files)[j - n];
      }
    }
  }

  // ----- choosing -----

  predicate Matches(oid: string, t: Template) { Selector(t) != "" && OidHasPrefix(oid, Selector(t)) }

  function Arcs(t: Template): nat { |Split(Selector(t))| }

  /** `filter(..).max_by_key(..)`: the last of the longest matches. */
  function Longest(templates: seq<Template>, oid: string): Option<Template> {
    if templates == [] then None
    else
      var t, best := templates[|templates| - 1], Longest(templates[..|templates| - 1], oid);
      if Matches(oid, t) && (best.None? || Arcs(best.value) <= Arcs(t)) then Some(t) else best
  }

  function Select(templates: seq<Template>, sysObjectId: Option<string>): Template
    requires templates != []
  {
    var found := if sysObjectId.Some? && IsValidOid(sysObjectId.value) then Longest(templates, sysObjectId.value)
                 else None;
    if found.Some? then found.value else templates[0]
  }

  lemma {:induction false} LongestIsMaximal(templates: seq<Template>, oid: string)
    ensures var r := Longest(templates, oid); r.Some? ==> r.value in templates && Matches(oid, r.value)
    ensures forall t :: t in templates && Matches(oid, t) ==>
              Longest(templates, oid).Some? && Arcs(t) <= Arcs(Longest(templates, oid).value)
  {
    if templates != [] {
      var n := |templates| - 1;
      LongestIsMaximal(templates[..n], oid);
      assert forall t :: t in templates <==> t in templates[..n] || t == templates[n] by {
        assert templates == templates[..n] + [templates[n]];
      }
    }
  }

  lemma {:induction false} TrimEndIdempotent(s: string)
    ensures TrimEnd(TrimEnd(s)) == TrimEnd(s)
    ensures TrimEnd(s) <= s
  {
    if s != "" && s[|s| - 1] == '.' { TrimEndIdempotent(s[..|s| - 1]); }
  }

  lemma {:induction false} TrimStartNoDot(s: string)
    ensures TrimStart(s) == "" || TrimStart(s)[0] != '.'
  {
    if s != "" && s[0] == '.' { TrimStartNoDot(s[1..]); }
  }

  /** A selector has no dots at its ends. */
  lemma SelectorIsTrimmed(t: Template)
    ensures Trim(Selector(t)) == Selector(t)
  {
    match t.sysObjectIdPrefix
    case Some(prefix) =>
      var s := TrimStart(prefix);
      TrimStartNoDot(prefix);
      TrimEndIdempotent(s);
    case None =>
      if t.enterpriseId != 0 { PrintValue(t.enterpriseId); }
  }

  lemma EnterpriseSelector(n: nat)
    ensures PrintOid([1, 3, 6, 1, 4, 1, n]) == "1.3.6.1.4.1." + Print(n)
  {
    PrefixPrinted(n);
    hide PrintOid; hide Print;
    var p := Print(n);
    assert [1, n][1..] == [n];
    PrintCons([1, n], p);
    assert "1" + "." + p == "1." + p;
    assert [4, 1, n][1..] == [1, n];
    PrintCons([4, 1, n], "1." + p);
    assert "4" + "." + ("1." + p) == "4.1." + p;
    assert [1, 4, 1, n][1..] == [4, 1, n];
    PrintCons([1, 4, 1, n], "4.1." + p);
    assert "1" + "." + ("4.1." + p) == "1.4.1." + p;
    assert [6, 1, 4, 1, n][1..] == [1, 4, 1, n];
    PrintCons([6, 1, 4, 1, n], "1.4.1." + p);
    assert "6" + "." + ("1.4.1." + p) == "6.1.4.1." + p;
    assert [3, 6, 1, 4, 1, n][1..] == [6, 1, 4, 1, n];
    PrintCons([3, 6, 1, 4, 1, n], "6.1.4.1." + p);
    assert "3" + "." + ("6.1.4.1." + p) == "3.6.1.4.1." + p;
    assert [1, 3, 6, 1, 4, 1, n][1..] == [3, 6, 1, 4, 1, n];
    PrintCons([1, 3, 6, 1, 4, 1, n], "3.6.1.4.1." + p);
    assert "1" + "." + ("3.6.1.4.1." + p) == "1.3.6.1.4.1." + p;
  }

  lemma PrefixPrinted(n: nat)
    ensures PrintOid([n]) == Print(n) && Print(1) == "1" && Print(3) == "3" && Print(4) == "4" && Print(6) == "6"
  {
  }

  lemma PrintCons(arcs: seq<nat>, printed: string)
    requires |arcs| > 1 && PrintOid(arcs[1..]) == printed
    ensures PrintOid(arcs) == Print(arcs[0]) + "." + printed
  {
    assert PrintParts(arcs)[1..] == PrintParts(arcs[1..]);
  }

  /** A template without a prefix matches the identifiers of its enterprise, below 1.3.6.1.4.1, if it has a number. */
  lemma EnterpriseMatches(t: Template, oid: seq<nat>)
    requires t.sysObjectIdPrefix.None? && oid != []
    ensures Matches(PrintOid(oid), t) <==> t.enterpriseId != 0 && [1, 3, 6, 1, 4, 1, t.enterpriseId] <= oid
  {
    if t.enterpriseId != 0 {
      EnterpriseSelector(t.enterpriseId);
      PrefixIsArcPrefix(oid, [1, 3, 6, 1, 4, 1, t.enterpriseId]);
    }
  }

  /** A template with a prefix, written with any dots around it, matches what starts with the prefix. */
  lemma PrefixMatches(t: Template, prefix: seq<nat>, oid: seq<nat>)
    requires oid != [] && prefix != [] && t.sysObjectIdPrefix.Some?
    requires Trim(t.sysObjectIdPrefix.value) == PrintOid(prefix)
    ensures Matches(PrintOid(oid), t) <==> prefix <= oid
  {
    SplitPrinted(prefix);
    PrintedPartsAreNumeric(prefix);
    NoOuterDot(PrintOid(prefix));
    PrefixIsArcPrefix(oid, prefix);
  }

  /** Two prefixes of one identifier with equally many parts are the same. */
  lemma EqualArcsEqualSelectors(oid: string, a: Template, b: Template)
    requires Matches(oid, a) && Matches(oid, b) && Arcs(a) == Arcs(b)
    ensures Selector(a) == Selector(b)
  {
    PrefixComparesParts(oid, Selector(a));
    PrefixComparesParts(oid, Selector(b));
    SelectorIsTrimmed(a);
    SelectorIsTrimmed(b);
    assert Split(Selector(a)) == Split(Selector(b));
    JoinSplit(Selector(a));
    JoinSplit(Selector(b));
  }

  /** `t` is the one template with the longest matching selector. */
  ghost predicate UniqueLongest(templates: seq<Template>, oid: string, t: Template) {
    && t in templates && Matches(oid, t)
    && forall other :: other in templates && Matches(oid, other) && other != t ==> Arcs(other) < Arcs(t)
  }

  /**
   * With unique selectors the choice is the unique longest match; it is the first template only if there is no match.
   */
  lemma SelectIsUniqueLongest(templates: seq<Template>, oid: string)
    requires templates != [] && Distinct(templates) && IsValidOid(oid)
    ensures (exists t :: t in templates && Matches(oid, t)) ==>
              UniqueLongest(templates, oid, Select(templates, Some(oid)))
    ensures (forall t :: t in templates ==> !Matches(oid, t)) ==> Select(templates, Some(oid)) == templates[0]
  {
    LongestIsMaximal(templates, oid);
    if t :| t in templates && Matches(oid, t) {
      var best := Select(templates, Some(oid));
      forall other | other in templates && Matches(oid, other) && other != best ensures Arcs(other) < Arcs(best) {
        if Arcs(other) == Arcs(best) {
          EqualArcsEqualSelectors(oid, other, best);
          SelectorIdentifies(templates, other, best);
        }
      }
    }
  }

  /** Neither the order of the registry nor the order in which files are read decides between matches. */
  lemma SelectIgnoresOrder(templates: seq<Template>, templates': seq<Template>, oid: string)
    requires templates != [] && Distinct(templates) && IsValidOid(oid)
    requires multiset(templates) == multiset(templates') && templates' != [] && Distinct(templates')
    requires exists t :: t in templates && Matches(oid, t)
    ensures Select(templates, Some(oid)) == Select(templates', Some(oid))
  {
    assert forall t :: t in templates <==> t in multiset(templates);
    assert forall t :: t in templates' <==> t in multiset(templates');
    SelectIsUniqueLongest(templates, oid);
    SelectIsUniqueLongest(templates', oid);
  }

  /** A loaded registry answers with the winner of the longest selector on offer, bundled or from a user file. */
  lemma LoadThenSelect(bundled: seq<Template>, files: seq<Option<Template>>, oid: string, selector: string)
    requires bundled != [] && Distinct(bundled) && IsValidOid(oid)
    requires Winner(bundled, files, selector).Some? && selector != "" && OidHasPrefix(oid, selector)
    ensures var t := Select(Merged(bundled, files), Some(oid));
            && Winner(bundled, files, Selector(t)) == Some(t)
            && OidHasPrefix(oid, Selector(t))
            && (selector == Selector(t) || |Split(selector)| < Arcs(t))
  {
    var merged := Merged(bundled, files);
    MergedIsWinners(bundled, files);
    var w := Winner(bundled, files, selector).value;
    assert w in merged && Matches(oid, w);
    SelectIsUniqueLongest(merged, oid);
  }
}
