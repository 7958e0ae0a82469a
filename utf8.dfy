/**
  UTF-8 encoding of a string of Unicode scalar values, as `Encoding.UTF8.GetBytes`
  produces it, together with a decoder that undoes it.
 */
module Utf8 {
  import opened Wrappers
  import opened Bytes

  /** A code point that is a Unicode scalar value (not a surrogate). */
  predicate IsScalar(cp: int) {
    0 <= cp < 0xD800 || 0xE000 <= cp <= 0x10FFFF
  }

  /** A continuation byte `10xxxxxx`. */
  predicate IsContinuation(b: Byte) {
    0x80 <= b < 0xC0
  }

  /** The one- to four-byte UTF-8 form of one character. */
  function EncodeChar(c: char): (r: seq<Byte>)
    ensures 1 <= |r| <= 4
  {
    var cp := c as int;
    if cp < 0x80 then [cp]
    else if cp < 0x800 then [0xC0 + cp / 64, 0x80 + cp % 64]
    else if cp < 0x10000 then [0xE0 + cp / 4096, 0x80 + cp / 64 % 64, 0x80 + cp % 64]
    else [0xF0 + cp / 262144, 0x80 + cp / 4096 % 64, 0x80 + cp / 64 % 64, 0x80 + cp % 64]
  }

  /** The UTF-8 form of a string: the characters' forms, in order. */
  function Encode(s: string): (r: seq<Byte>)
    ensures |s| <= |r| <= 4 * |s|
    ensures s != [] ==> r != []
  {
    if s == [] then [] else EncodeChar(s[0]) + Encode(s[1..])
  }

  /**
    Reads the character at the front of `b`, with the number of bytes it takes;
    `None` for a malformed, overlong or surrogate sequence.
   */
  function DecodeFirst(b: seq<Byte>): (r: Option<(char, nat)>)
    requires b != []
    ensures r.Some? ==> 1 <= r.value.1 <= |b|
  {
    var b0: int := b[0];
    if b0 < 0x80 then
      Some((b0 as char, 1))
    else if 0xC0 <= b0 < 0xE0 && 2 <= |b| && IsContinuation(b[1]) then
      var cp: int := (b0 - 0xC0) * 64 + (b[1] as int - 0x80);
      if 0x80 <= cp then Some((cp as char, 2)) else None
    else if 0xE0 <= b0 < 0xF0 && 3 <= |b| && IsContinuation(b[1]) && IsContinuation(b[2]) then
      var cp: int := (b0 - 0xE0) * 4096 + (b[1] as int - 0x80) * 64 + (b[2] as int - 0x80);
      if 0x800 <= cp && IsScalar(cp) then Some((cp as char, 3)) else None
    else if 0xF0 <= b0 < 0xF8 && 4 <= |b| && IsContinuation(b[1]) && IsContinuation(b[2])
            && IsContinuation(b[3]) then
      var cp: int := (b0 - 0xF0) * 262144 + (b[1] as int - 0x80) * 4096 + (b[2] as int - 0x80) * 64 + (b[3] as int - 0x80);
      if 0x10000 <= cp <= 0x10FFFF then Some((cp as char, 4)) else None
    else
      None
  }

  /** The string whose UTF-8 form is `b`, if `b` is well formed. */
  function Decode(b: seq<Byte>): (r: Option<string>)
    decreases |b|
  {
    if b == [] then Some([])
    else
      match DecodeFirst(b)
      case None => None
      case Some((c, n)) =>
        match Decode(b[n..])
        case None => None
        case Some(rest) => Some([c] + rest)
  }

  /** Splitting a number into base-64 digits and putting it back together. */
  lemma Digits64(x: nat)
    ensures x == x / 64 * 64 + x % 64
    ensures x / 64 == x / 4096 * 64 + x / 64 % 64
    ensures x / 4096 == x / 262144 * 64 + x / 4096 % 64
  {
  }

  /** The decoder reads back exactly the character the encoder wrote, whatever follows it. */
  lemma DecodeFirstOfEncodeChar(c: char, rest: seq<Byte>)
    ensures DecodeFirst(EncodeChar(c) + rest) == Some((c, |EncodeChar(c)|))
  {
    var cp := c as int;
    if cp < 0x80 {
      assert (EncodeChar(c) + rest)[0] == cp;
    } else if cp < 0x800 {
      DecodeTwoBytes(c, rest);
    } else if cp < 0x10000 {
      DecodeThreeBytes(c, rest);
    } else {
      DecodeFourBytes(c, rest);
    }
  }

  /** The two-byte case of `DecodeFirstOfEncodeChar`. */
  lemma DecodeTwoBytes(c: char, rest: seq<Byte>)
    requires 0x80 <= c as int < 0x800
    ensures DecodeFirst(EncodeChar(c) + rest) == Some((c, 2))
  {
    var cp := c as int;
    var b: seq<int> := EncodeChar(c) + rest;
    Digits64(cp);
    assert b[0] == 0xC0 + cp / 64 && b[1] == 0x80 + cp % 64;
    assert (b[0] - 0xC0) * 64 + (b[1] - 0x80) == cp;
  }

  /** The three-byte case of `DecodeFirstOfEncodeChar`. */
  lemma DecodeThreeBytes(c: char, rest: seq<Byte>)
    requires 0x800 <= c as int < 0x10000
    ensures DecodeFirst(EncodeChar(c) + rest) == Some((c, 3))
  {
    var cp := c as int;
    var b: seq<int> := EncodeChar(c) + rest;
    Digits64(cp);
    assert b[0] == 0xE0 + cp / 4096 && b[1] == 0x80 + cp / 64 % 64 && b[2] == 0x80 + cp % 64;
    assert (b[0] - 0xE0) * 4096 + (b[1] - 0x80) * 64 + (b[2] - 0x80) == cp;
  }

  /** The four-byte case of `DecodeFirstOfEncodeChar`. */
  lemma DecodeFourBytes(c: char, rest: seq<Byte>)
    requires 0x10000 <= c as int
    ensures DecodeFirst(EncodeChar(c) + rest) == Some((c, 4))
  {
    var cp := c as int;
    var b: seq<int> := EncodeChar(c) + rest;
    Digits64(cp);
    assert b[0] == 0xF0 + cp / 262144 && b[1] == 0x80 + cp / 4096 % 64;
    assert b[2] == 0x80 + cp / 64 % 64 && b[3] == 0x80 + cp % 64;
    assert (b[0] - 0xF0) * 262144 + (b[1] - 0x80) * 4096 + (b[2] - 0x80) * 64 + (b[3] - 0x80) == cp;
  }

  /** Decoding the UTF-8 form of a string gives the string back. */
  lemma {:induction false} DecodeEncode(s: string)
    ensures Decode(Encode(s)) == Some(s)
  {
    if s != [] {
      var head, rest := EncodeChar(s[0]), Encode(s[1..]);
      DecodeFirstOfEncodeChar(s[0], rest);
      assert (head + rest)[|head|..] == rest;
      DecodeEncode(s[1..]);
      assert [s[0]] + s[1..] == s;
    }
  }
}
