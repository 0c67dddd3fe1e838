/** UTF-8 from the other side: exactly the encodings of Unicode scalar values (section 3 of RFC 3629). */
module Utf8Meaning {
  import opened Basics
  import opened Utf8

  predicate IsScalar(c: nat) { c <= 0x10_ffff && !(0xd800 <= c <= 0xdfff) }

  function EncodeScalar(c: nat): (data: seq<byte>)
    requires IsScalar(c)
    ensures 1 <= |data| <= 4
  {
    if c < 0x80 then [c]
    else if c < 0x800 then [0xc0 + c / 64, 0x80 + c % 64]
    else if c < 0x1_0000 then [0xe0 + c / 4096, 0x80 + c / 64 % 64, 0x80 + c % 64]
    else [0xf0 + c / 262_144, 0x80 + c / 4096 % 64, 0x80 + c / 64 % 64, 0x80 + c % 64]
  }

  predicate AllScalars(text: seq<nat>) { forall i :: 0 <= i < |text| ==> IsScalar(text[i]) }

  function Encode(text: seq<nat>): seq<byte>
    requires AllScalars(text)
  {
    if text == [] then [] else EncodeScalar(text[0]) + Encode(text[1..])
  }

  ghost predicate StartsWith(data: seq<byte>, c: nat) { IsScalar(c) && EncodeScalar(c) <= data }

  lemma EncodedTwo(c: nat)
    requires 0x80 <= c < 0x800
    ensures var e := EncodeScalar(c); |e| == 2 && 0xc2 <= e[0] <= 0xdf && Continuation(e[1])
  {
  }

  lemma EncodedThree(c: nat)
    requires 0x800 <= c < 0x1_0000 && IsScalar(c)
    ensures var e := EncodeScalar(c);
            && |e| == 3 && 0xe0 <= e[0] <= 0xef && Continuation(e[1]) && Continuation(e[2])
            && (e[0] == 0xe0 ==> e[1] >= 0xa0) && (e[0] == 0xed ==> e[1] <= 0x9f)
  {
    var high := c / 64;
    assert c / 4096 == high / 64;
  }

  lemma EncodedFour(c: nat)
    requires 0x1_0000 <= c && IsScalar(c)
    ensures var e := EncodeScalar(c);
            && |e| == 4 && 0xf0 <= e[0] <= 0xf4 && Continuation(e[1]) && Continuation(e[2]) && Continuation(e[3])
            && (e[0] == 0xf0 ==> e[1] >= 0x90) && (e[0] == 0xf4 ==> e[1] <= 0x8f)
  {
    var high := c / 4096;
    assert c / 262_144 == high / 64;
  }

  lemma EncodedFirst(data: seq<byte>, c: nat)
    requires StartsWith(data, c)
    ensures FirstLength(data) == |EncodeScalar(c)|
  {
    var e := EncodeScalar(c);
    assert forall i :: 0 <= i < |e| ==> data[i] == e[i];
    if c < 0x80 {
      assert e == [c];
    } else {
      hide EncodeScalar; hide Continuation;
      if c < 0x800 { EncodedTwo(c); } else if c < 0x1_0000 { EncodedThree(c); } else { EncodedFour(c); }
    }
  }

  lemma FirstTwo(data: seq<byte>) returns (c: nat)
    requires FirstLength(data) == 2
    ensures StartsWith(data, c) && |EncodeScalar(c)| == 2
  {
    c := (data[0] as int - 0xc0) * 64 + (data[1] as int - 0x80);
    assert c / 64 == data[0] as int - 0xc0 && c % 64 == data[1] as int - 0x80;
  }

  lemma FirstThree(data: seq<byte>) returns (c: nat)
    requires FirstLength(data) == 3
    ensures StartsWith(data, c) && |EncodeScalar(c)| == 3
  {
    var high := (data[0] as int - 0xe0) * 64 + (data[1] as int - 0x80);
    c := high * 64 + (data[2] as int - 0x80);
    assert c / 64 == high && c % 64 == data[2] as int - 0x80;
    assert c / 4096 == data[0] as int - 0xe0 && high % 64 == data[1] as int - 0x80;
  }

  lemma FirstFour(data: seq<byte>) returns (c: nat)
    requires FirstLength(data) == 4
    ensures StartsWith(data, c) && |EncodeScalar(c)| == 4
  {
    var top := (data[0] as int - 0xf0) * 64 + (data[1] as int - 0x80);
    var high := top * 64 + (data[2] as int - 0x80);
    c := high * 64 + (data[3] as int - 0x80);
    assert c / 64 == high && c % 64 == data[3] as int - 0x80;
    assert c / 4096 == top && high % 64 == data[2] as int - 0x80;
    assert c / 262_144 == data[0] as int - 0xf0 && top % 64 == data[1] as int - 0x80;
  }

  lemma FirstScalar(data: seq<byte>) returns (c: nat)
    requires FirstLength(data) > 0
    ensures StartsWith(data, c) && |EncodeScalar(c)| == FirstLength(data)
  {
    if FirstLength(data) == 1 {
      c := data[0];
    } else if FirstLength(data) == 2 {
      c := FirstTwo(data);
    } else if FirstLength(data) == 3 {
      c := FirstThree(data);
    } else {
      c := FirstFour(data);
    }
  }

  lemma {:induction false} EncodedIsValid(text: seq<nat>)
    requires AllScalars(text)
    ensures Valid(Encode(text))
  {
    if text != [] {
      hide EncodeScalar; hide FirstLength;
      EncodedIsValid(text[1..]);
      EncodedFirst(Encode(text), text[0]);
      assert Encode(text)[|EncodeScalar(text[0])|..] == Encode(text[1..]);
    }
  }

  lemma {:induction false} ValidIsEncoded(data: seq<byte>) returns (text: seq<nat>)
    requires Valid(data)
    ensures AllScalars(text) && data == Encode(text)
    decreases |data|
  {
    hide *;
    if data == [] {
      text := [];
      NothingEncoded();
    } else {
      var n := FirstLength(data);
      ValidStep(data);
      var c := FirstScalar(data);
      var more := ValidIsEncoded(data[n..]);
      text := [c] + more;
      EncodeCons(c, more);
      StartsWithIs(data, c);
      assert data == data[..n] + data[n..];
    }
  }

  lemma NothingEncoded()
    ensures AllScalars([]) && Encode([]) == []
  {
  }

  lemma ValidStep(data: seq<byte>)
    requires Valid(data) && data != []
    ensures FirstLength(data) > 0 && Valid(data[FirstLength(data)..])
  {
    hide FirstLength;
  }

  lemma EncodeCons(c: nat, more: seq<nat>)
    requires IsScalar(c) && AllScalars(more)
    ensures AllScalars([c] + more) && Encode([c] + more) == EncodeScalar(c) + Encode(more)
  {
    hide EncodeScalar; hide IsScalar;
    assert ([c] + more)[1..] == more;
  }

  lemma StartsWithIs(data: seq<byte>, c: nat)
    requires StartsWith(data, c)
    ensures IsScalar(c) && |EncodeScalar(c)| <= |data| && data[..|EncodeScalar(c)|] == EncodeScalar(c)
  {
    hide EncodeScalar; hide IsScalar;
  }

  /** Octets are well-formed exactly if they encode scalar values. */
  lemma ValidExactly(data: seq<byte>)
    ensures Valid(data) <==> exists text :: AllScalars(text) && data == Encode(text)
  {
    hide Valid; hide Encode;
    if Valid(data) { var text := ValidIsEncoded(data); }
    if text :| AllScalars(text) && data == Encode(text) { EncodedIsValid(text); }
  }

  // ----- white space -----

  /** The scalar values with the Unicode property White_Space. */
  predicate IsSpace(c: nat) {
    || 9 <= c <= 13 || c == 32 || c == 0x85 || c == 0xa0 || c == 0x1680 || 0x2000 <= c <= 0x200a
    || c == 0x2028 || c == 0x2029 || c == 0x202f || c == 0x205f || c == 0x3000
  }

  lemma SpaceEncoded(c: nat)
    requires IsSpace(c)
    ensures IsScalar(c)
    ensures var e := EncodeScalar(c);
            && (c < 0x80 ==> e == [c]) && (0x80 <= c < 0x800 ==> e == [0xc2, c])
            && (c == 0x1680 ==> e == [0xe1, 0x9a, 0x80]) && (c == 0x3000 ==> e == [0xe3, 0x80, 0x80])
            && (c == 0x205f ==> e == [0xe2, 0x81, 0x9f])
            && (0x2000 <= c < 0x2040 ==> e == [0xe2, 0x80, c - 0x2000 + 0x80])
  {
    if 0x80 <= c < 0x800 { assert c / 64 == 2 && c % 64 == c - 0x80; }
    if 0x2000 <= c < 0x2040 { assert c / 4096 == 2 && c / 64 == 128 && c % 64 == c - 0x2000; }
  }

  /** A white space character stands at the front exactly if the octets start with the encoding of one. */
  lemma SpaceAtStartExactly(data: seq<byte>, n: nat)
    requires n > 0
    ensures SpaceAtStart(data) == n
       <==> exists c :: IsSpace(c) && IsScalar(c) && EncodeScalar(c) <= data && |EncodeScalar(c)| == n
  {
    hide EncodeScalar;
    if SpaceAtStart(data) == n {
      var c := SpaceOf(data[..n]);
      assert EncodeScalar(c) == data[..n];
    }
    if c :| IsSpace(c) && IsScalar(c) && EncodeScalar(c) <= data && |EncodeScalar(c)| == n {
      SpaceEncoded(c);
      assert forall i :: 0 <= i < n ==> data[i] == EncodeScalar(c)[i];
    }
  }

  /** The same at the end. */
  lemma SpaceAtEndExactly(data: seq<byte>, n: nat)
    requires 0 < n <= |data|
    ensures SpaceAtEnd(data) == n
       <==> exists c :: IsSpace(c) && IsScalar(c) && EncodeScalar(c) == data[|data| - n..]
  {
    hide EncodeScalar;
    var last := data[|data| - n..];
    assert forall i :: 0 <= i < n ==> last[i] == data[|data| - n + i];
    if SpaceAtEnd(data) == n { var c := SpaceOf(last); }
    if c :| IsSpace(c) && IsScalar(c) && EncodeScalar(c) == last { SpaceEncoded(c); }
  }

  lemma SpaceOf(data: seq<byte>) returns (c: nat)
    requires SpaceAtStart(data) == |data| > 0
    ensures IsSpace(c) && IsScalar(c) && EncodeScalar(c) == data
  {
    hide EncodeScalar;
    c := if |data| < 3 then data[|data| - 1] as nat
         else if data[0] == 0xe1 then 0x1680
         else if data[0] == 0xe3 then 0x3000
         else if data[1] == 0x81 then 0x205f
         else 0x2000 + (data[2] as nat - 0x80);
    SpaceEncoded(c);
    assert forall i :: 0 <= i < |data| ==> data[i] == EncodeScalar(c)[i];
  }
}
