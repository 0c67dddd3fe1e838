/** Text frames of the diagnostics channel: src/diagnostics.rs, after sections 5.2 and 5.3 of RFC 6455. */
module WebSocket {
  import opened Basics
  import Utf8

  const MAX_PAYLOAD := 1_048_576

  /** `Ok(None)`, `Ok(Some(text))` or an error. */
  datatype Reading = Closed | Text(text: seq<byte>) | Truncated | TooLarge | NotUtf8

  /** Exclusive or of the lowest n bits. */
  function XorBits(a: nat, b: nat, n: nat): (r: nat)
    ensures r < Power2(n)
  {
    if n == 0 then 0 else XorBits(a / 2, b / 2, n - 1) * 2 + if a % 2 == b % 2 then 0 else 1
  }

  function Power2(n: nat): nat { if n == 0 then 1 else Power2(n - 1) * 2 }

  lemma Halves(x: nat, high: nat, low: nat)
    requires x == high * 2 + low && low < 2
    ensures x / 2 == high && x % 2 == low
  {
  }

  lemma {:induction false} XorBitsTwice(a: nat, m: nat, n: nat)
    requires a < Power2(n)
    ensures XorBits(XorBits(a, m, n), m, n) == a
  {
    if n > 0 {
      var high, low := XorBits(a / 2, m / 2, n - 1), if a % 2 == m % 2 then 0 else 1;
      Halves(XorBits(a, m, n), high, low);
      XorBitsTwice(a / 2, m / 2, n - 1);
      Halves(a, a / 2, a % 2);
    }
  }

  lemma ByteIsEightBits()
    ensures Power2(8) == 256
  {
    assert Power2(4) == 2 * Power2(3) && Power2(2) == 4;
    assert Power2(6) == 2 * Power2(5) && Power2(8) == 2 * Power2(7);
  }

  function Xor(a: byte, b: byte): byte {
    ByteIsEightBits();
    XorBits(a, b, 8)
  }

  function Masked(data: seq<byte>, mask: seq<byte>): (r: seq<byte>)
    requires |mask| == 4
    ensures |r| == |data|
  {
    seq(|data|, i requires 0 <= i < |data| => Xor(data[i], mask[i % 4]))
  }

  /** Section 5.3: masking is its own inverse. */
  lemma MaskTwice(data: seq<byte>, mask: seq<byte>)
    requires |mask| == 4
    ensures Masked(Masked(data, mask), mask) == data
  {
    hide XorBits;
    ByteIsEightBits();
    forall i | 0 <= i < |data|
      ensures Masked(Masked(data, mask), mask)[i] == data[i]
    {
      XorBitsTwice(data[i], mask[i % 4], 8);
    }
  }

  /** The k-th bit of a number, from the lowest. */
  function Bit(x: nat, k: nat): nat { if k == 0 then x % 2 else Bit(x / 2, k - 1) }

  lemma {:induction false} XorBit(a: nat, b: nat, n: nat, k: nat)
    requires k < n
    ensures Bit(XorBits(a, b, n), k) == if Bit(a, k) == Bit(b, k) then 0 else 1
  {
    var high, low := XorBits(a / 2, b / 2, n - 1), if a % 2 == b % 2 then 0 else 1;
    Halves(XorBits(a, b, n), high, low);
    if k > 0 { XorBit(a / 2, b / 2, n - 1, k - 1); }
  }

  /** The bits of the i-th octet are flipped where the octet of the key with the number i modulo 4 has ones. */
  lemma MaskedBits(data: seq<byte>, mask: seq<byte>, i: nat, k: nat)
    requires |mask| == 4 && i < |data| && k < 8
    ensures Bit(Masked(data, mask)[i], k) == if Bit(mask[i % 4], k) == 1 then 1 - Bit(data[i], k) else Bit(data[i], k)
  {
    hide XorBits;
    XorBit(data[i], mask[i % 4], 8, k);
    BitIsBit(data[i], k);
    BitIsBit(mask[i % 4], k);
  }

  lemma {:induction false} BitIsBit(x: nat, k: nat)
    ensures Bit(x, k) == 0 || Bit(x, k) == 1
  {
    if k > 0 { BitIsBit(x / 2, k - 1); }
  }

  // ----- big-endian lengths -----

  /** `to_be_bytes` with n bytes. */
  function Bytes(value: nat, n: nat): (r: seq<byte>)
    ensures |r| == n
  {
    if n == 0 then [] else Bytes(value / 256, n - 1) + [value % 256]
  }

  function Capacity(n: nat): nat { if n == 0 then 1 else Capacity(n - 1) * 256 }

  lemma {:induction false} BytesRoundTrip(value: nat, n: nat)
    requires value < Capacity(n)
    ensures BigEndian(Bytes(value, n)) == value
  {
    if n > 0 {
      BytesRoundTrip(value / 256, n - 1);
      assert Bytes(value, n)[..n - 1] == Bytes(value / 256, n - 1);
    }
  }

  lemma Capacities()
    ensures Capacity(2) == 0x1_0000 && Capacity(8) == U64_MAX + 1
  {
    assert Capacity(4) == Capacity(3) * 256 && Capacity(3) == 0x100_0000;
    assert Capacity(6) == Capacity(5) * 256 && Capacity(5) == Capacity(4) * 256;
    assert Capacity(8) == Capacity(7) * 256 && Capacity(7) == Capacity(6) * 256;
  }

  // ----- frames -----

  /** The length field of section 5.2 with the mask bit. */
  function LengthField(length: nat, maskBit: bool): seq<byte> {
    var bit := if maskBit then 128 else 0;
    if length <= 125 then [bit + length]
    else if length <= U16_MAX then [bit + 126] + Bytes(length, 2)
    else [bit + 127] + Bytes(length, 8)
  }

  /** A frame with the given first byte; `mask` is present in frames sent by clients. */
  function Frame(first: byte, mask: Option<seq<byte>>, payload: seq<byte>): seq<byte>
    requires mask.Some? ==> |mask.value| == 4
  {
    [first] + LengthField(|payload|, mask.Some?)
    + match mask case None => payload case Some(m) => m + Masked(payload, m)
  }

  /** What `send` writes: the final frame of a text message, unmasked. */
  function TextFrame(text: seq<byte>): seq<byte> { Frame(0x81, None, text) }

  // ----- the reader as a function of the stream -----

  /** What a reader makes of the stream, and what it leaves. */
  datatype Outcome = Outcome(reading: Reading, rest: seq<byte>)

  /** The payload after the length: mask key, octets, and what they are taken for. */
  function ReadPayload(first: byte, masked: bool, length: nat, input: seq<byte>): Outcome {
    if length > MAX_PAYLOAD then Outcome(TooLarge, input)
    else
      var key := if masked then 4 else 0;
      if |input| < key + length then Outcome(Truncated, [])
      else
        var raw, rest := input[key..key + length], input[key + length..];
        var payload := if masked then Masked(raw, input[..4]) else raw;
        if first % 16 == 8 then Outcome(Closed, rest)
        else if Utf8.Valid(payload) then Outcome(Text(payload), rest) else Outcome(NotUtf8, rest)
  }

  /** The length field as section 5.2 reads it: exactly one of the three forms. */
  function ReadLength(code: nat, input: seq<byte>): Option<(nat, seq<byte>)>
    requires code < 128
  {
    var n := if code == 126 then 2 else if code == 127 then 8 else 0;
    if |input| < n then None else Some((if n == 0 then code else BigEndian(input[..n]), input[n..]))
  }

  /** The length field as the program reads it: a 16-bit length of 127 is followed by another length. */
  function ReadLengthTwice(code: nat, input: seq<byte>): Option<(nat, seq<byte>)>
    requires code < 128
  {
    var once := ReadLength(code, input);
    if code == 126 && once.Some? && once.value.0 == 127 then ReadLength(127, once.value.1) else once
  }

  /** One frame by section 5.2, and one as the program reads it. */
  function Standard(input: seq<byte>): Outcome { Read(input, false) }

  function Program(input: seq<byte>): Outcome { Read(input, true) }

  function Read(input: seq<byte>, twice: bool): Outcome {
    if |input| < 2 then Outcome(Closed, [])
    else
      var code := input[1] % 128;
      var length := if twice then ReadLengthTwice(code, input[2..]) else ReadLength(code, input[2..]);
      if length.None? then Outcome(Truncated, [])
      else ReadPayload(input[0], input[1] >= 128, length.value.0, length.value.1)
  }

  // ----- the connection -----

  class Connection {
    var input: seq<byte>
    var output: seq<byte>

    /** `read_exact`; a stream that ends early is used up. */
    method ReadExact(n: nat) returns (bytes: Option<seq<byte>>)
      modifies this`input
      ensures bytes == if |old(input)| < n then None else Some(old(input)[..n])
      ensures input == if |old(input)| < n then [] else old(input)[n..]
    {
      if |input| < n { input := []; return None; }
      bytes := Some(input[..n]);
      input := input[n..];
    }

    method Unmask(payload: array<byte>, mask: seq<byte>)
      requires |mask| == 4
      modifies payload
      ensures payload[..] == Masked(old(payload[..]), mask)
    {
      for index := 0 to payload.Length
        invariant forall i :: 0 <= i < index ==> payload[i] == Xor(old(payload[i]), mask[i % 4])
        invariant forall i :: index <= i < payload.Length ==> payload[i] == old(payload[i])
      {
        payload[index] := Xor(payload[index], mask[index % 4]);
      }
    }

    method ReadText() returns (reading: Reading)
      modifies this`input
      ensures Outcome(reading, input) == Program(old(input))
    {
      hide Masked;
      hide Utf8.Valid;
      hide BigEndian;
      var header := ReadExact(2);
      if header.None? { return Closed; }
      var masked := header.value[1] >= 128;
      var length: nat := header.value[1] % 128;
      if length == 126 {
        var bytes := ReadExact(2);
        if bytes.None? { return Truncated; }
        length := BigEndian(bytes.value);
      }
      if length == 127 {
        var bytes := ReadExact(8);
        if bytes.None? { return Truncated; }
        length := BigEndian(bytes.value);
      }
      reading := ReadBody(header.value[0], masked, length);
    }

    method ReadBody(first: byte, masked: bool, length: nat) returns (reading: Reading)
      modifies this`input
      ensures Outcome(reading, input) == ReadPayload(first, masked, length, old(input))
    {
      hide Masked;
      hide Utf8.Valid;
      if length > MAX_PAYLOAD { return TooLarge; }
      var mask: seq<byte> := [0, 0, 0, 0];
      if masked {
        var key := ReadExact(4);
        if key.None? { return Truncated; }
        mask := key.value;
      }
      var raw := ReadExact(length);
      if raw.None? { return Truncated; }
      var payload := new byte[length](i requires 0 <= i < length => raw.value[i]);
      ghost var key := if masked then 4 else 0;
      assert payload[..] == raw.value == old(input)[key..key + length];
      if masked { Unmask(payload, mask); }
      if first % 16 == 8 { return Closed; }
      return if Utf8.Valid(payload[..]) then Text(payload[..]) else NotUtf8;
    }

    /** `text.len()` is a machine word, so it is at most the largest 64-bit number. */
    method Send(text: seq<byte>)
      requires |text| <= U64_MAX
      modifies this`output
      ensures output == old(output) + TextFrame(text)
    {
      var frame: seq<byte> := [0x81];
      if |text| <= 125 {
        frame := frame + [|text|];
      } else if |text| <= U16_MAX {
        frame := frame + [126] + Bytes(|text|, 2);
      } else {
        frame := frame + [127] + Bytes(|text|, 8);
      }
      frame := frame + text;
      output := output + frame;
    }
  }

  // ----- round trips -----

  lemma LengthFieldReads(length: nat, maskBit: bool, rest: seq<byte>)
    requires length <= U64_MAX
    ensures var field := LengthField(length, maskBit);
            field != [] && (field[0] >= 128 <==> maskBit)
            && ReadLength(field[0] % 128, field[1..] + rest) == Some((length, rest))
  {
    hide LengthField; hide ReadLength; hide Bytes; hide BigEndian; hide Capacity;
    Capacities();
    LengthFieldShape(length, maskBit);
    if length <= 125 {
      ReadsShort(length, rest);
    } else {
      var n := if length <= U16_MAX then 2 else 8;
      BytesRoundTrip(length, n);
      ReadsLong(if n == 2 then 126 else 127, Bytes(length, n), rest);
    }
  }

  lemma LengthFieldShape(length: nat, maskBit: bool)
    ensures var field := LengthField(length, maskBit);
            && field != [] && (field[0] >= 128 <==> maskBit)
            && field[0] % 128 == (if length <= 125 then length else if length <= U16_MAX then 126 else 127)
            && field[1..] == if length <= 125 then [] else Bytes(length, if length <= U16_MAX then 2 else 8)
  {
    hide Bytes;
  }

  lemma ReadsShort(length: nat, rest: seq<byte>)
    requires length <= 125
    ensures ReadLength(length, [] + rest) == Some((length, rest))
  {
    assert ([] + rest)[0..] == rest;
  }

  lemma ReadsLong(code: nat, bytes: seq<byte>, rest: seq<byte>)
    requires (code == 126 && |bytes| == 2) || (code == 127 && |bytes| == 8)
    ensures ReadLength(code, bytes + rest) == Some((BigEndian(bytes), rest))
  {
    hide BigEndian;
    assert (bytes + rest)[..|bytes|] == bytes && (bytes + rest)[|bytes|..] == rest;
  }

  /** The 16-bit length that the program takes for the start of a longer one. */
  const AMBIGUOUS := 127

  lemma ProgramLength(length: nat, maskBit: bool, rest: seq<byte>)
    requires length <= U64_MAX
    ensures var field := LengthField(length, maskBit);
            ReadLengthTwice(field[0] % 128, field[1..] + rest)
            == if length == AMBIGUOUS then ReadLength(127, rest) else Some((length, rest))
  {
    LengthFieldReads(length, maskBit, rest);
  }

  lemma TwoBytes(a: byte, b: byte)
    ensures BigEndian([a, b]) == (a as int) * 256 + b
  {
    assert [a, b][..1] == [a] && [a][..0] == [];
    assert BigEndian([]) == 0 && BigEndian([a]) == a;
  }

  /** Where no 16-bit length of 127 occurs, the program reads a frame as section 5.2 says. */
  lemma ProgramIsStandard(input: seq<byte>)
    requires !(|input| >= 4 && input[1] % 128 == 126 && U16At(input, 2) == AMBIGUOUS)
    ensures Program(input) == Standard(input)
  {
    if |input| >= 4 && input[1] % 128 == 126 {
      TwoBytes(input[2], input[3]);
      assert input[2..][..2] == [input[2], input[3]];
    }
  }

  function Key(mask: Option<seq<byte>>): seq<byte> { match mask case None => [] case Some(m) => m }

  function Body(mask: Option<seq<byte>>, payload: seq<byte>): seq<byte>
    requires mask.Some? ==> |mask.value| == 4
  {
    match mask case None => payload case Some(m) => Masked(payload, m)
  }

  lemma PayloadReads(first: byte, mask: Option<seq<byte>>, payload: seq<byte>, rest: seq<byte>)
    requires mask.Some? ==> |mask.value| == 4
    requires first % 16 != 8 && Utf8.Valid(payload)
    ensures ReadPayload(first, mask.Some?, |payload|, Key(mask) + Body(mask, payload) + rest)
            == if |payload| <= MAX_PAYLOAD then Outcome(Text(payload), rest)
               else Outcome(TooLarge, Key(mask) + Body(mask, payload) + rest)
  {
    hide Utf8.Valid; hide Masked;
    var key, body := Key(mask), Body(mask, payload);
    var input, n := key + body + rest, |key|;
    assert |body| == |payload|;
    assert input[n..n + |payload|] == body && input[n + |payload|..] == rest;
    if mask.Some? {
      assert input[..4] == mask.value;
      MaskTwice(payload, mask.value);
    }
  }

  lemma FrameParts(first: byte, mask: Option<seq<byte>>, payload: seq<byte>, rest: seq<byte>)
    requires mask.Some? ==> |mask.value| == 4
    ensures var input, field := Frame(first, mask, payload) + rest, LengthField(|payload|, mask.Some?);
            && |input| >= 2 && input[0] == first && input[1] == field[0]
            && input[2..] == field[1..] + (Key(mask) + Body(mask, payload) + rest)
  {
    hide Masked;
    hide Bytes;
  }

  /**
   * A text frame, masked or not, is read back with exactly the following stream left over if and only if its payload
   * has at most 1,048,576 octets and not exactly 127.
   */
  lemma FrameRoundTripExact(first: byte, mask: Option<seq<byte>>, payload: seq<byte>, rest: seq<byte>)
    requires mask.Some? ==> |mask.value| == 4
    requires first % 16 != 8 && Utf8.Valid(payload) && |payload| <= U64_MAX
    ensures Program(Frame(first, mask, payload) + rest) == Outcome(Text(payload), rest)
            <==> |payload| <= 1_048_576 && |payload| != 127
  {
    hide Utf8.Valid;
    hide Masked;
    hide LengthField;
    hide Frame;
    hide ReadPayload;
    hide ReadLengthTwice;
    hide ReadLength;
    var field, tail := LengthField(|payload|, mask.Some?), Key(mask) + Body(mask, payload) + rest;
    FrameParts(first, mask, payload, rest);
    LengthFieldReads(|payload|, mask.Some?, tail);
    ProgramLength(|payload|, mask.Some?, tail);
    if |payload| != AMBIGUOUS {
      PayloadReads(first, mask, payload, rest);
    } else {
      Misread(first, mask, payload, rest);
    }
  }

  /** A reader that follows section 5.2 reads every text frame within the limit back, that of 127 octets included. */
  lemma StandardRoundTrip(first: byte, mask: Option<seq<byte>>, payload: seq<byte>, rest: seq<byte>)
    requires mask.Some? ==> |mask.value| == 4
    requires first % 16 != 8 && Utf8.Valid(payload) && |payload| <= 1_048_576
    ensures Standard(Frame(first, mask, payload) + rest) == Outcome(Text(payload), rest)
  {
    hide Utf8.Valid; hide Masked; hide LengthField; hide Frame; hide ReadPayload; hide ReadLengthTwice; hide ReadLength;
    FrameParts(first, mask, payload, rest);
    LengthFieldReads(|payload|, mask.Some?, Key(mask) + Body(mask, payload) + rest);
    PayloadReads(first, mask, payload, rest);
  }

  /** With the length read again, at least the eight octets of the second length are missing. */
  lemma Misread(first: byte, mask: Option<seq<byte>>, payload: seq<byte>, rest: seq<byte>)
    requires mask.Some? ==> |mask.value| == 4
    requires |payload| == AMBIGUOUS
    ensures var again := ReadLength(127, Key(mask) + Body(mask, payload) + rest);
            again.Some? ==> ReadPayload(first, mask.Some?, again.value.0, again.value.1) != Outcome(Text(payload), rest)
  {
    hide Utf8.Valid;
    hide Masked;
    hide BigEndian;
  }

  function Letters(n: nat): (text: seq<byte>)
    ensures |text| == n && forall i :: 0 <= i < n ==> text[i] == 0x61
  {
    if n == 0 then [] else [0x61] + Letters(n - 1)
  }

  lemma {:induction false} LettersAreText(n: nat)
    ensures Utf8.Valid(Letters(n))
  {
    if n > 0 {
      LettersAreText(n - 1);
      assert Letters(n)[1..] == Letters(n - 1);
    }
  }

  /** 127 times the letter a: the reader takes the first eight for another length, and refuses the frame. */
  lemma LettersMisread(rest: seq<byte>)
    ensures var text := Letters(AMBIGUOUS);
            Utf8.Valid(text) && Program(TextFrame(text) + rest) == Outcome(TooLarge, text[8..] + rest)
  {
    hide Utf8.Valid; hide LengthField; hide Frame; hide ReadLength; hide ReadLengthTwice; hide BigEndian; hide Bytes;
    hide Letters;
    var text := Letters(AMBIGUOUS);
    LettersAreText(AMBIGUOUS);
    FrameParts(0x81, None, text, rest);
    assert TextFrame(text) == Frame(0x81, None, text);
    assert Key(None) + Body(None, text) + rest == text + rest;
    LengthFieldReads(|text|, false, text + rest);
    ProgramLength(|text|, false, text + rest);
    LongLength(text, rest);
  }

  lemma LongLength(text: seq<byte>, rest: seq<byte>)
    requires |text| == AMBIGUOUS && text[0] > 0
    ensures var again := ReadLength(127, text + rest);
            again.Some? && again.value.0 > MAX_PAYLOAD && again.value.1 == text[8..] + rest
  {
    var eight := text[..8];
    assert (text + rest)[..8] == eight && (text + rest)[8..] == text[8..] + rest;
    FirstOctetCounts(eight);
  }

  /** A number of eight octets is at least its first octet, shifted seven octets up. */
  lemma FirstOctetCounts(eight: seq<byte>)
    requires |eight| == 8
    ensures BigEndian(eight) >= (eight[0] as int) * 0x100_0000_0000_0000
  {
    Shift(eight, 7);
    assert eight[..1] == [eight[0]] && eight[..1][..0] == [];
    assert BigEndian(eight[..1]) == eight[0] && eight[..8] == eight;
    Capacities();
    assert Capacity(7) == 0x100_0000_0000_0000 by { assert Capacity(8) == Capacity(7) * 256; }
  }

  lemma {:induction false} Shift(data: seq<byte>, n: nat)
    requires 1 <= |data| && n + 1 <= |data|
    ensures BigEndian(data[..n + 1]) >= BigEndian(data[..1]) * Capacity(n)
  {
    if n > 0 {
      Shift(data, n - 1);
      assert data[..n + 1][..n] == data[..n];
    }
  }

  /** A close frame ends the conversation, whatever it carries, up to the size limit and without length 127. */
  lemma CloseFrame(mask: Option<seq<byte>>, payload: seq<byte>, rest: seq<byte>)
    requires (mask.Some? ==> |mask.value| == 4) && |payload| <= 1_048_576 && |payload| != 127
    ensures Program(Frame(0x88, mask, payload) + rest) == Outcome(Closed, rest)
  {
    hide Masked; hide Utf8.Valid; hide LengthField; hide Frame; hide ReadLengthTwice; hide ReadLength;
    LengthFieldReads(|payload|, mask.Some?, Key(mask) + Body(mask, payload) + rest);
    FrameParts(0x88, mask, payload, rest);
    ProgramLength(|payload|, mask.Some?, Key(mask) + Body(mask, payload) + rest);
    var input, n := Key(mask) + Body(mask, payload) + rest, |Key(mask)|;
    assert input[n + |payload|..] == rest;
  }

  // ----- conversations -----

  predicate Sendable(text: seq<byte>) { Utf8.Valid(text) && |text| <= 1_048_576 && |text| != 127 }

  function Frames(texts: seq<seq<byte>>): seq<byte> {
    if texts == [] then [] else TextFrame(texts[0]) + Frames(texts[1..])
  }

  /** The first n readings of a stream. */
  function Readings(input: seq<byte>, n: nat): seq<Reading>
    decreases n
  {
    if n == 0 then [] else [Program(input).reading] + Readings(Program(input).rest, n - 1)
  }

  function Texts(texts: seq<seq<byte>>): seq<Reading> { seq(|texts|, i requires 0 <= i < |texts| => Text(texts[i])) }

  predicate AllSendable(texts: seq<seq<byte>>) { forall i :: 0 <= i < |texts| ==> Sendable(texts[i]) }

  /** Texts sent one after the other are read one after the other. */
  lemma {:induction false} ConversationRoundTrip(texts: seq<seq<byte>>, rest: seq<byte>)
    requires AllSendable(texts)
    ensures Readings(Frames(texts) + rest, |texts|) == Texts(texts)
  {
    hide Sendable;
    hide Program;
    hide TextFrame;
    hide Frames;
    if texts != [] {
      FramesCons(texts, rest);
      ReadFirst(texts[0], Frames(texts[1..]) + rest);
      ReadingsCons(Frames(texts) + rest, |texts|);
      ConversationRoundTrip(texts[1..], rest);
      assert Texts(texts) == [Text(texts[0])] + Texts(texts[1..]);
    }
  }

  lemma FramesCons(texts: seq<seq<byte>>, rest: seq<byte>)
    requires texts != []
    ensures Frames(texts) + rest == TextFrame(texts[0]) + (Frames(texts[1..]) + rest)
  {
  }

  lemma ReadingsCons(input: seq<byte>, n: nat)
    requires n > 0
    ensures Readings(input, n) == [Program(input).reading] + Readings(Program(input).rest, n - 1)
  {
  }

  lemma ReadFirst(text: seq<byte>, rest: seq<byte>)
    requires Sendable(text)
    ensures Program(TextFrame(text) + rest) == Outcome(Text(text), rest)
  {
    hide Utf8.Valid;
    FrameRoundTripExact(0x81, None, text, rest);
  }
}
