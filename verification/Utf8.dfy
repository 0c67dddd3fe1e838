/** Well-formed UTF-8 (RFC 3629, section 4), as `str::from_utf8` accepts it. */
module Utf8 {
  import opened Basics

  predicate Continuation(b: byte) { 0x80 <= b <= 0xbf }

  /** The length of the first character, or 0 if there is none that is well-formed. */
  function FirstLength(data: seq<byte>): (n: nat)
    ensures n <= |data|
  {
    if data == [] then 0
    else if data[0] < 0x80 then 1
    else if 0xc2 <= data[0] <= 0xdf then
      if |data| >= 2 && Continuation(data[1]) then 2 else 0
    else if 0xe0 <= data[0] <= 0xef then
      if |data| >= 3 && Continuation(data[1]) && Continuation(data[2])
         && (data[0] == 0xe0 ==> data[1] >= 0xa0) && (data[0] == 0xed ==> data[1] <= 0x9f) then 3 else 0
    else if 0xf0 <= data[0] <= 0xf4 then
      if |data| >= 4 && Continuation(data[1]) && Continuation(data[2]) && Continuation(data[3])
         && (data[0] == 0xf0 ==> data[1] >= 0x90) && (data[0] == 0xf4 ==> data[1] <= 0x8f) then 4 else 0
    else 0
  }

  predicate Valid(data: seq<byte>)
    decreases |data|
  {
    data == [] || (FirstLength(data) > 0 && Valid(data[FirstLength(data)..]))
  }

  // ----- white space -----

  /** The three-octet characters with the Unicode property White_Space. */
  predicate WideSpace(a: byte, b: byte, c: byte) {
    || (a == 0xe1 && b == 0x9a && c == 0x80)
    || (a == 0xe2 && b == 0x80 && (0x80 <= c <= 0x8a || c == 0xa8 || c == 0xa9 || c == 0xaf))
    || (a == 0xe2 && b == 0x81 && c == 0x9f)
    || (a == 0xe3 && b == 0x80 && c == 0x80)
  }

  predicate NarrowSpace(a: byte) { 0x9 <= a <= 0xd || a == 0x20 }

  predicate MiddleSpace(a: byte, b: byte) { a == 0xc2 && (b == 0x85 || b == 0xa0) }

  /** The length of the white space character at the front, or 0. */
  function SpaceAtStart(data: seq<byte>): (n: nat)
    ensures n <= |data|
  {
    if |data| >= 1 && NarrowSpace(data[0]) then 1
    else if |data| >= 2 && MiddleSpace(data[0], data[1]) then 2
    else if |data| >= 3 && WideSpace(data[0], data[1], data[2]) then 3
    else 0
  }

  function SpaceAtEnd(data: seq<byte>): (n: nat)
    ensures n <= |data|
  {
    var l := |data|;
    if l >= 1 && NarrowSpace(data[l - 1]) then 1
    else if l >= 2 && MiddleSpace(data[l - 2], data[l - 1]) then 2
    else if l >= 3 && WideSpace(data[l - 3], data[l - 2], data[l - 1]) then 3
    else 0
  }

  function TrimStart(data: seq<byte>): (r: seq<byte>)
    ensures SpaceAtStart(r) == 0
    decreases |data|
  {
    if SpaceAtStart(data) == 0 then data else TrimStart(data[SpaceAtStart(data)..])
  }

  function TrimEnd(data: seq<byte>): (r: seq<byte>)
    ensures SpaceAtEnd(r) == 0 && r <= data
    decreases |data|
  {
    if SpaceAtEnd(data) == 0 then data else TrimEnd(data[..|data| - SpaceAtEnd(data)])
  }

  /**
   * `str::trim`, on octets. A character never starts inside another one, so this is the same before and after
   * malformed octets are replaced.
   */
  function Trim(data: seq<byte>): (r: seq<byte>)
    ensures SpaceAtStart(r) == 0 && SpaceAtEnd(r) == 0
  {
    TrimEnd(TrimStart(data))
  }

  /** Nothing but white space. */
  predicate Blank(data: seq<byte>)
    decreases |data|
  {
    data == [] || (SpaceAtStart(data) > 0 && Blank(data[SpaceAtStart(data)..]))
  }

  lemma SpaceFirst(data: seq<byte>, more: seq<byte>)
    requires SpaceAtStart(data) > 0
    ensures SpaceAtStart(data + more) == SpaceAtStart(data)
    ensures (data + more)[SpaceAtStart(data)..] == data[SpaceAtStart(data)..] + more
  {
  }

  lemma {:induction false} BlankConcat(a: seq<byte>, b: seq<byte>)
    requires Blank(a) && Blank(b)
    ensures Blank(a + b)
    decreases |a|
  {
    if a == [] {
      assert a + b == b;
    } else {
      SpaceFirst(a, b);
      BlankConcat(a[SpaceAtStart(a)..], b);
    }
  }

  lemma NothingBlank()
    ensures Blank([])
  {
  }

  lemma OneSpace(data: seq<byte>)
    requires SpaceAtStart(data) > 0
    ensures Blank(data[..SpaceAtStart(data)])
  {
    var first := data[..SpaceAtStart(data)];
    assert SpaceAtStart(first) == |first| && first[|first|..] == [];
  }

  lemma TrimStartStep(data: seq<byte>)
    ensures var n := SpaceAtStart(data); TrimStart(data) == if n == 0 then data else TrimStart(data[n..])
  {
    hide SpaceAtStart;
  }

  lemma TrimEndStep(data: seq<byte>)
    ensures var n := SpaceAtEnd(data); TrimEnd(data) == if n == 0 then data else TrimEnd(data[..|data| - n])
  {
    hide SpaceAtEnd;
  }

  lemma {:induction false} TrimStartParts(data: seq<byte>) returns (lead: seq<byte>)
    ensures data == lead + TrimStart(data) && Blank(lead)
    decreases |data|
  {
    hide *;
    var n := SpaceAtStart(data);
    TrimStartStep(data);
    if n == 0 {
      lead := [];
      NothingBlank();
      assert [] + data == data;
    } else {
      var more := TrimStartParts(data[n..]);
      OneSpace(data);
      BlankConcat(data[..n], more);
      lead := data[..n] + more;
      assert data == data[..n] + data[n..];
    }
  }

  lemma LastSpace(data: seq<byte>)
    requires SpaceAtEnd(data) > 0
    ensures Blank(data[|data| - SpaceAtEnd(data)..])
  {
    var last := data[|data| - SpaceAtEnd(data)..];
    assert SpaceAtStart(last) == |last| && last[|last|..] == [];
  }

  lemma {:induction false} TrimEndParts(data: seq<byte>) returns (tail: seq<byte>)
    ensures data == TrimEnd(data) + tail && Blank(tail)
    decreases |data|
  {
    hide *;
    var n := SpaceAtEnd(data);
    TrimEndStep(data);
    if n == 0 {
      tail := [];
      NothingBlank();
      assert data + [] == data;
    } else {
      var k := |data| - n;
      var more := TrimEndParts(data[..k]);
      LastSpace(data);
      BlankConcat(more, data[k..]);
      tail := more + data[k..];
      assert data == data[..k] + data[k..];
    }
  }

  lemma {:induction false} TrimBlank(data: seq<byte>)
    requires Blank(data)
    ensures TrimStart(data) == []
    decreases |data|
  {
    if data != [] { TrimBlank(data[SpaceAtStart(data)..]); }
  }

  /** Trimming takes off white space on both sides and nothing else; what is blank is trimmed away. */
  lemma TrimParts(data: seq<byte>) returns (lead: seq<byte>, tail: seq<byte>)
    ensures data == lead + Trim(data) + tail && Blank(lead) && Blank(tail)
    ensures Trim(data) == [] <==> Blank(data)
  {
    TrimIs(data);
    hide *;
    lead := TrimStartParts(data);
    tail := TrimEndParts(TrimStart(data));
    assert data == lead + Trim(data) + tail;
    if Trim(data) == [] {
      assert data == lead + tail;
      BlankConcat(lead, tail);
    }
    if Blank(data) {
      TrimBlank(data);
      TrimNothing();
    }
  }

  lemma TrimIs(data: seq<byte>)
    ensures Trim(data) == TrimEnd(TrimStart(data))
  {
    hide TrimStart; hide TrimEnd;
  }

  lemma TrimNothing()
    ensures TrimEnd([]) == []
  {
  }
}
