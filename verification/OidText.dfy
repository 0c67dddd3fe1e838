/** Object identifiers as text: the parser and printer of src/snmp/template.rs and src/snmp/client.rs. */
module OidText {
  import opened Basics
  import opened Decimal

  // ----- dotted strings -----

  /** `str::split('.')`. */
  function Split(s: string): (parts: seq<string>)
    ensures |parts| >= 1
  {
    if s == "" then [""]
    else
      var rest := Split(s[1..]);
      if s[0] == '.' then [""] + rest else [[s[0]] + rest[0]] + rest[1..]
  }

  /** `parts.join(".")`. */
  function Join(parts: seq<string>): string {
    if parts == [] then "" else if |parts| == 1 then parts[0] else parts[0] + "." + Join(parts[1..])
  }

  predicate DotFree(s: string) { '.' !in s }

  lemma {:induction false} JoinSplit(s: string)
    ensures Join(Split(s)) == s
    ensures forall i :: 0 <= i < |Split(s)| ==> DotFree(Split(s)[i])
  {
    if s != "" {
      var rest := Split(s[1..]);
      JoinSplit(s[1..]);
      assert s == [s[0]] + s[1..];
      if s[0] == '.' {
        assert ([""] + rest)[1..] == rest;
      } else {
        assert ([[s[0]] + rest[0]] + rest[1..])[1..] == rest[1..];
        assert DotFree(rest[0]);
      }
    }
  }

  lemma {:induction false} SplitDotFree(s: string)
    requires DotFree(s)
    ensures Split(s) == [s]
  {
    if s != "" {
      SplitDotFree(s[1..]);
      assert s == [s[0]] + s[1..];
    }
  }

  lemma SplitCons(s: string)
    requires s != ""
    ensures Split(s) == if s[0] == '.' then [""] + Split(s[1..]) else [[s[0]] + Split(s[1..])[0]] + Split(s[1..])[1..]
  {
  }

  lemma AppendToFirst(first: seq<string>, more: seq<string>)
    requires first != []
    ensures (first + more)[0] == first[0] && (first + more)[1..] == first[1..] + more
  {
  }

  /** Splitting distributes over a dot. */
  lemma {:induction false} SplitAt(x: string, y: string)
    ensures Split(x + "." + y) == Split(x) + Split(y)
  {
    hide Split;
    var s := x + "." + y;
    if x == "" {
      SplitCons(s);
      SplitDotFree("");
      assert s[0] == '.' && s[1..] == y;
    } else {
      SplitAt(x[1..], y);
      assert s[0] == x[0] && s[1..] == x[1..] + "." + y;
      AppendToFirst(Split(x[1..]), Split(y));
      SplitCons(s);
      SplitCons(x);
    }
  }

  lemma {:induction false} SplitJoin(parts: seq<string>)
    requires parts != [] && forall i :: 0 <= i < |parts| ==> DotFree(parts[i])
    ensures Split(Join(parts)) == parts
  {
    SplitDotFree(parts[0]);
    if |parts| > 1 {
      SplitJoin(parts[1..]);
      SplitAt(parts[0], Join(parts[1..]));
    }
  }

  /** `strip_prefix('.').unwrap_or(value)`: at most one dot. */
  function StripDot(s: string): string { if s != "" && s[0] == '.' then s[1..] else s }

  /** `trim_start_matches('.')`: all leading dots. */
  function TrimStart(s: string): string { if s != "" && s[0] == '.' then TrimStart(s[1..]) else s }

  // ----- arcs -----

  predicate NumericPart(part: string) { part != "" && AllDigits(part) }

  predicate NumericParts(parts: seq<string>) { forall i :: 0 <= i < |parts| ==> NumericPart(parts[i]) }

  /** Parses all parts, or none. */
  function ParseParts(parts: seq<string>): (arcs: Option<seq<nat>>)
    requires NumericParts(parts)
    ensures arcs.Some? ==> |arcs.value| == |parts|
  {
    if parts == [] then Some([])
    else match (ParseU32(parts[0]), ParseParts(parts[1..]))
         case (Some(arc), Some(rest)) => Some([arc] + rest)
         case _ => None
  }

  /** Section 3.5 of RFC 2578: at most 128 sub-identifiers of 32 bits; X.660 limits the first two. */
  predicate ValidArcs(arcs: seq<nat>) {
    && 2 <= |arcs| <= 128
    && (forall i :: 0 <= i < |arcs| ==> arcs[i] <= U32_MAX)
    && arcs[0] <= 2
    && (arcs[0] == 2 || arcs[1] <= 39)
  }

  predicate IsValidOid(value: string) {
    var parts := Split(StripDot(value));
    && NumericParts(parts)
    && var arcs := ParseParts(parts);
       && arcs.Some?
       && 2 <= |arcs.value| <= 128
       && arcs.value[0] <= 2
       && (arcs.value[0] == 2 || arcs.value[1] <= 39)
  }

  /** Where all parts are numeric there is no dot at either end. */
  lemma NoOuterDot(s: string)
    requires NumericParts(Split(s))
    ensures s != "" && s[0] != '.' && s[|s| - 1] != '.'
  {
    hide Split;
    assert NumericPart(Split(s)[0]) && NumericPart(Split(s)[|Split(s)| - 1]);
    if s == "" || s[0] == '.' { LeadingDot(s); } else if s[|s| - 1] == '.' { TrailingDot(s); }
  }

  lemma LeadingDot(s: string)
    requires s == "" || s[0] == '.'
    ensures Split(s)[0] == ""
  {
  }

  lemma TrailingDot(s: string)
    requires s != "" && s[|s| - 1] == '.'
    ensures Split(s)[|Split(s)| - 1] == ""
  {
    assert s == s[..|s| - 1] + "." + "";
    SplitAt(s[..|s| - 1], "");
  }

  /** A valid identifier has at most one leading dot, so both ways of stripping agree. */
  lemma TrimIsStrip(value: string)
    requires NumericParts(Split(StripDot(value)))
    ensures TrimStart(value) == StripDot(value)
  {
    NoOuterDot(StripDot(value));
  }

  function ParseOid(input: string): Option<seq<nat>> {
    if !IsValidOid(input) then None
    else
      TrimIsStrip(input);
      ParseParts(Split(TrimStart(input)))
  }

  function PrintParts(arcs: seq<nat>): seq<string> { seq(|arcs|, i requires 0 <= i < |arcs| => Print(arcs[i])) }

  function PrintOid(arcs: seq<nat>): string { Join(PrintParts(arcs)) }

  lemma PrintedPartsAreNumeric(arcs: seq<nat>)
    ensures NumericParts(PrintParts(arcs))
    ensures forall i :: 0 <= i < |arcs| ==> DotFree(PrintParts(arcs)[i])
  {
    forall i | 0 <= i < |arcs| ensures NumericPart(PrintParts(arcs)[i]) && DotFree(PrintParts(arcs)[i]) {
      PrintValue(arcs[i]);
    }
  }

  lemma {:induction false} ParsePrintedParts(arcs: seq<nat>)
    requires forall i :: 0 <= i < |arcs| ==> arcs[i] <= U32_MAX
    ensures NumericParts(PrintParts(arcs)) && ParseParts(PrintParts(arcs)) == Some(arcs)
  {
    PrintedPartsAreNumeric(arcs);
    if arcs != [] {
      assert PrintParts(arcs)[1..] == PrintParts(arcs[1..]);
      ParsePrintedParts(arcs[1..]);
      PrintValue(arcs[0]);
      assert PrintParts(arcs)[0] == Print(arcs[0]);
      assert [arcs[0]] + arcs[1..] == arcs;
      ParseU32Exact(Print(arcs[0]));
    }
  }

  /** The printed form splits into its printed arcs, and has no leading dot. */
  lemma SplitPrinted(arcs: seq<nat>)
    requires arcs != []
    ensures Split(PrintOid(arcs)) == PrintParts(arcs) && StripDot(PrintOid(arcs)) == PrintOid(arcs)
  {
    PrintedPartsAreNumeric(arcs);
    SplitJoin(PrintParts(arcs));
    NoOuterDot(PrintOid(arcs));
  }

  /** Every identifier survives printing and parsing. */
  lemma ParseOfPrint(arcs: seq<nat>)
    requires ValidArcs(arcs)
    ensures ParseOid(PrintOid(arcs)) == Some(arcs)
  {
    SplitPrinted(arcs);
    PrintedPartsAreNumeric(arcs);
    ParsePrintedParts(arcs);
    TrimIsStrip(PrintOid(arcs));
  }

  lemma {:induction false} PartsFit(parts: seq<string>)
    requires NumericParts(parts) && ParseParts(parts).Some?
    ensures forall i :: 0 <= i < |parts| ==> ParseParts(parts).value[i] == Value(parts[i]) <= U32_MAX
  {
    if parts != [] {
      PartsFit(parts[1..]);
      ParseU32Exact(parts[0]);
    }
  }

  lemma {:induction false} PartsThatFitParse(parts: seq<string>)
    requires NumericParts(parts) && forall i :: 0 <= i < |parts| ==> Value(parts[i]) <= U32_MAX
    ensures ParseParts(parts).Some?
  {
    if parts != [] {
      assert forall i :: 0 <= i < |parts| - 1 ==> parts[1..][i] == parts[i + 1];
      PartsThatFitParse(parts[1..]);
      ParseU32Exact(parts[0]);
    }
  }

  /** `text`, after at most one dot, spells `arcs` in dotted decimal, possibly with leading zeros. */
  ghost predicate Spells(text: string, arcs: seq<nat>) {
    var parts := Split(StripDot(text));
    && NumericParts(parts)
    && |parts| == |arcs|
    && forall i :: 0 <= i < |arcs| ==> Value(parts[i]) == arcs[i]
  }

  /** The parser accepts exactly the spellings of valid identifiers, and returns what they spell. */
  lemma ParseIsSpelling(text: string, arcs: seq<nat>)
    ensures ParseOid(text) == Some(arcs) <==> Spells(text, arcs) && ValidArcs(arcs)
  {
    var parts := Split(StripDot(text));
    if NumericParts(parts) {
      TrimIsStrip(text);
      if ParseParts(parts).Some? {
        PartsFit(parts);
        assert Spells(text, arcs) <==> arcs == ParseParts(parts).value;
      } else if Spells(text, arcs) && ValidArcs(arcs) {
        PartsThatFitParse(parts);
      }
    }
  }

  /** Parsing an accepted text, printing the arcs and parsing again gives the same arcs. */
  lemma ParsePrintParse(text: string)
    requires ParseOid(text).Some?
    ensures ParseOid(PrintOid(ParseOid(text).value)) == ParseOid(text)
  {
    ParseIsSpelling(text, ParseOid(text).value);
    ParseOfPrint(ParseOid(text).value);
  }

  /** The spelling that the printer chooses. */
  predicate CanonicalText(text: string) {
    forall i :: 0 <= i < |Split(text)| ==> Canonical(Split(text)[i])
  }

  /** An accepted text is printed back unchanged exactly if it has no leading dot and no leading zeros. */
  lemma PrintOfParse(text: string)
    requires ParseOid(text).Some?
    ensures PrintOid(ParseOid(text).value) == text <==> CanonicalText(text)
  {
    var arcs := ParseOid(text).value;
    ParseIsSpelling(text, arcs);
    SplitPrinted(arcs);
    JoinSplit(text);
    if CanonicalText(text) {
      NoOuterDot(text);
      forall i | 0 <= i < |arcs| ensures PrintParts(arcs)[i] == Split(text)[i] {
        PrintOfValue(Split(text)[i]);
      }
      assert PrintParts(arcs) == Split(text);
    }
    if PrintOid(arcs) == text {
      forall i | 0 <= i < |Split(text)| ensures Canonical(Split(text)[i]) {
        PrintOfValue(Split(text)[i]);
      }
    }
  }

  // ----- prefixes -----

  predicate StartsWith(s: string, prefix: string) { |prefix| <= |s| && s[..|prefix|] == prefix }

  function TrimEnd(s: string): string { if s != "" && s[|s| - 1] == '.' then TrimEnd(s[..|s| - 1]) else s }

  /** `trim_matches('.')`. */
  function Trim(s: string): string { TrimEnd(TrimStart(s)) }

  predicate OidHasPrefix(oid: string, prefix: string) {
    var o, p := TrimStart(oid), Trim(prefix);
    o == p || (StartsWith(o, p) && StartsWith(o[|p|..], "."))
  }

  /** The textual test compares whole parts. */
  lemma PrefixComparesParts(oid: string, prefix: string)
    ensures OidHasPrefix(oid, prefix) <==> Split(Trim(prefix)) <= Split(TrimStart(oid))
  {
    var o, p := TrimStart(oid), Trim(prefix);
    if OidHasPrefix(oid, prefix) && o != p {
      var y := o[|p| + 1..];
      assert o == p + "." + y by {
        assert o[|p|..][0] == '.';
        assert o == o[..|p|] + [o[|p|]] + y;
      }
      SplitAt(p, y);
    }
    if Split(p) <= Split(o) {
      JoinSplit(p);
      JoinSplit(o);
      if |Split(p)| < |Split(o)| { JoinPrefix(Split(p), Split(o)); }
      else { assert Split(p) == Split(o); }
    }
  }

  lemma {:induction false} JoinPrefix(p: seq<string>, o: seq<string>)
    requires p != [] && p <= o && |p| < |o|
    ensures Join(o) == Join(p) + "." + Join(o[|p|..])
  {
    if |p| > 1 {
      JoinPrefix(p[1..], o[1..]);
      assert o[1..][|p| - 1..] == o[|p|..];
    }
  }

  lemma {:induction false} PrintInjective(a: nat, b: nat)
    requires Print(a) == Print(b)
    ensures a == b
  {
    PrintValue(a);
    PrintValue(b);
  }

  lemma TrimPrinted(arcs: seq<nat>)
    requires arcs != []
    ensures TrimStart(PrintOid(arcs)) == PrintOid(arcs) && Trim(PrintOid(arcs)) == PrintOid(arcs)
  {
    PrintedPartsAreNumeric(arcs);
    SplitPrinted(arcs);
    var s := PrintOid(arcs);
    TrimIsStrip(s);
    NoOuterDot(s);
  }

  /** On printed identifiers the textual test is the prefix order of the arcs. */
  lemma PrefixIsArcPrefix(oid: seq<nat>, prefix: seq<nat>)
    requires oid != [] && prefix != []
    ensures OidHasPrefix(PrintOid(oid), PrintOid(prefix)) <==> prefix <= oid
  {
    var o, p := PrintOid(oid), PrintOid(prefix);
    PrefixComparesParts(o, p);
    TrimPrinted(oid);
    TrimPrinted(prefix);
    SplitPrinted(oid);
    SplitPrinted(prefix);
    if PrintParts(prefix) <= PrintParts(oid) {
      forall i | 0 <= i < |prefix| ensures prefix[i] == oid[i] {
        assert PrintParts(prefix)[i] == PrintParts(oid)[i];
        PrintInjective(prefix[i], oid[i]);
      }
    }
    if prefix <= oid {
      assert PrintParts(prefix) <= PrintParts(oid) by {
        assert forall i :: 0 <= i < |prefix| ==> PrintParts(prefix)[i] == PrintParts(oid)[i];
      }
    }
  }
}
