/** Shared vocabulary: optional values, bytes and big-endian integers. */
module Basics {

  datatype Option<+T> = None | Some(value: T)

  type byte = x: int | 0 <= x < 256

  const U8_MAX := 0xff
  const U16_MAX := 0xffff
  const U32_MAX := 0xffff_ffff
  const U64_MAX := 0xffff_ffff_ffff_ffff
  const I64_MAX := 0x7fff_ffff_ffff_ffff

  /** The values that are there, in order. */
  function Present<T>(s: seq<Option<T>>): seq<T> {
    if s == [] then [] else (if s[0].Some? then [s[0].value] else []) + Present(s[1..])
  }

  function Min(a: int, b: int): int { if a <= b then a else b }

  function Max(a: int, b: int): int { if a <= b then b else a }

  /** The big-endian value of a byte string of any length. */
  function BigEndian(data: seq<byte>): nat {
    if data == [] then 0 else BigEndian(data[..|data| - 1]) * 256 + data[|data| - 1]
  }

  /** `read_u16(data, offset).unwrap_or_default()`. */
  function U16At(data: seq<byte>, offset: nat): (value: nat)
    ensures value <= U16_MAX
  {
    if offset + 2 <= |data| then (data[offset] as int) * 256 + data[offset + 1] else 0
  }

  /** `read_u32(data, offset).unwrap_or_default()`. */
  function U32At(data: seq<byte>, offset: nat): (value: nat)
    ensures value <= U32_MAX
  {
    if offset + 4 <= |data|
    then (((data[offset] as int) * 256 + data[offset + 1]) * 256 + data[offset + 2]) * 256 + data[offset + 3]
    else 0
  }

  function U16Bytes(value: nat): seq<byte>
    requires value <= U16_MAX
  {
    [value / 256, value % 256]
  }

  function U32Bytes(value: nat): seq<byte>
    requires value <= U32_MAX
  {
    [value / 0x100_0000, value / 0x1_0000 % 256, value / 256 % 256, value % 256]
  }

  lemma AppendAssociates<T>(a: seq<T>, b: seq<T>, c: seq<T>)
    ensures (a + b) + c == a + (b + c)
  {
  }
}
