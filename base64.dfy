/**
  Base64 encoding with the standard alphabet and `=` padding, as
  `Convert.ToBase64String` produces it (no line breaks), together with a
  decoder that undoes it.
 */
module Base64 {
  import opened Wrappers
  import opened Bytes

  /** A character of the Base64 alphabet (padding excluded). */
  predicate IsAlphabet(c: char) {
    'A' <= c <= 'Z' || 'a' <= c <= 'z' || '0' <= c <= '9' || c == '+' || c == '/'
  }

  /** The character for a six-bit value: `A`-`Z`, `a`-`z`, `0`-`9`, `+`, `/`. */
  function IndexChar(i: int): (c: char)
    requires 0 <= i < 64
    ensures IsAlphabet(c)
  {
    if i < 26 then ('A' as int + i) as char
    else if i < 52 then ('a' as int + i - 26) as char
    else if i < 62 then ('0' as int + i - 52) as char
    else if i == 62 then '+'
    else '/'
  }

  /**
    The six-bit value of a character: defined exactly on the alphabet, and the
    alphabet's character for that value is the character itself.
   */
  function CharIndex(c: char): (r: Option<int>)
    ensures r.Some? <==> IsAlphabet(c)
    ensures r.Some? ==> 0 <= r.value < 64 && IndexChar(r.value) == c
  {
    if 'A' <= c <= 'Z' then Some(c as int - 'A' as int)
    else if 'a' <= c <= 'z' then Some(c as int - 'a' as int + 26)
    else if '0' <= c <= '9' then Some(c as int - '0' as int + 52)
    else if c == '+' then Some(62)
    else if c == '/' then Some(63)
    else None
  }

  /** Three bytes as four characters. */
  function EncodeTriple(b0: Byte, b1: Byte, b2: Byte): string {
    [IndexChar(b0 / 4), IndexChar(b0 % 4 * 16 + b1 / 16), IndexChar(b1 % 16 * 4 + b2 / 64),
     IndexChar(b2 % 64)]
  }

  /** Two final bytes as three characters and one `=`. */
  function EncodePair(b0: Byte, b1: Byte): string {
    [IndexChar(b0 / 4), IndexChar(b0 % 4 * 16 + b1 / 16), IndexChar(b1 % 16 * 4), '=']
  }

  /** One final byte as two characters and `==`. */
  function EncodeSingle(b0: Byte): string {
    [IndexChar(b0 / 4), IndexChar(b0 % 4 * 16), '=', '=']
  }

  /**
    The Base64 text of `b`: four characters per three bytes, the last group
    padded with `=`; every character is in the alphabet or is `=`, and the
    text of a non-empty input starts with an alphabet character.
   */
  function Encode(b: seq<Byte>): (r: string)
    ensures |r| == (|b| + 2) / 3 * 4
    ensures forall i :: 0 <= i < |r| ==> IsAlphabet(r[i]) || r[i] == '='
    ensures b != [] ==> IsAlphabet(r[0])
    decreases |b|
  {
    if |b| == 0 then []
    else if |b| == 1 then EncodeSingle(b[0])
    else if |b| == 2 then EncodePair(b[0], b[1])
    else
      var rest := Encode(b[3..]);
      assert (|b| + 2) / 3 == (|b| - 3 + 2) / 3 + 1;
      EncodeTriple(b[0], b[1], b[2]) + rest
  }

  /** Four alphabet characters as three bytes. */
  function DecodeQuad(q: string): Option<seq<Byte>>
    requires |q| == 4
  {
    match (CharIndex(q[0]), CharIndex(q[1]), CharIndex(q[2]), CharIndex(q[3]))
    case (Some(c0), Some(c1), Some(c2), Some(c3)) =>
      Some([c0 * 4 + c1 / 16, c1 % 16 * 16 + c2 / 4, c2 % 4 * 64 + c3])
    case _ => None
  }

  /** The last group of four characters, which may end in `=` or `==`. */
  function DecodeLast(q: string): Option<seq<Byte>>
    requires |q| == 4
  {
    if q[3] != '=' then DecodeQuad(q)
    else if q[2] == '=' then
      match (CharIndex(q[0]), CharIndex(q[1]))
      case (Some(c0), Some(c1)) => Some([c0 * 4 + c1 / 16])
      case _ => None
    else
      match (CharIndex(q[0]), CharIndex(q[1]), CharIndex(q[2]))
      case (Some(c0), Some(c1), Some(c2)) => Some([c0 * 4 + c1 / 16, c1 % 16 * 16 + c2 / 4])
      case _ => None
  }

  /** The bytes whose Base64 text is `s`, if `s` is well formed. */
  function Decode(s: string): (r: Option<seq<Byte>>)
    decreases |s|
  {
    if |s| == 0 then Some([])
    else if |s| < 4 then None
    else if |s| == 4 then DecodeLast(s)
    else
      match DecodeQuad(s[..4])
      case None => None
      case Some(q) =>
        match Decode(s[4..])
        case None => None
        case Some(rest) => Some(q + rest)
  }

  /** Every six-bit value survives a trip through its character: `CharIndex` inverts `IndexChar`. */
  lemma CharIndexOfIndexChar(i: int)
    requires 0 <= i < 64
    ensures CharIndex(IndexChar(i)) == Some(i)
  {
  }

  /** A value shifted up by four bits, plus a low nibble, splits back into both. */
  lemma Split16(hi: int, lo: int)
    requires 0 <= lo < 16
    ensures (hi * 16 + lo) / 16 == hi && (hi * 16 + lo) % 16 == lo
  {
  }

  /** A value shifted up by two bits, plus two low bits, splits back into both. */
  lemma Split4(hi: int, lo: int)
    requires 0 <= lo < 4
    ensures (hi * 4 + lo) / 4 == hi && (hi * 4 + lo) % 4 == lo
  {
  }

  /** The six-bit values of a full group put back together give the three bytes. */
  lemma TripleDigits(b0: Byte, b1: Byte, b2: Byte)
    ensures var c0, c1, c2, c3 := b0 / 4, b0 % 4 * 16 + b1 / 16, b1 % 16 * 4 + b2 / 64, b2 % 64;
      0 <= c0 < 64 && 0 <= c1 < 64 && 0 <= c2 < 64 && 0 <= c3 < 64 &&
      c0 * 4 + c1 / 16 == b0 && c1 % 16 * 16 + c2 / 4 == b1 && c2 % 4 * 64 + c3 == b2
  {
    Split16(b0 % 4, b1 / 16);
    Split4(b1 % 16, b2 / 64);
  }

  /** A full group decodes to the three bytes it was made from. */
  lemma DecodeQuadOfTriple(b0: Byte, b1: Byte, b2: Byte)
    ensures DecodeQuad(EncodeTriple(b0, b1, b2)) == Some([b0, b1, b2])
  {
    var c0, c1, c2, c3 := b0 / 4, b0 % 4 * 16 + b1 / 16, b1 % 16 * 4 + b2 / 64, b2 % 64;
    TripleDigits(b0, b1, b2);
    var q := EncodeTriple(b0, b1, b2);
    CharIndexOfIndexChar(c0);
    CharIndexOfIndexChar(c1);
    CharIndexOfIndexChar(c2);
    CharIndexOfIndexChar(c3);
    assert CharIndex(q[0]) == Some(c0) && CharIndex(q[1]) == Some(c1);
    assert CharIndex(q[2]) == Some(c2) && CharIndex(q[3]) == Some(c3);
  }

  /** A padded group of two bytes decodes to those two bytes. */
  lemma DecodeLastOfPair(b0: Byte, b1: Byte)
    ensures DecodeLast(EncodePair(b0, b1)) == Some([b0, b1])
  {
    var c0, c1, c2 := b0 / 4, b0 % 4 * 16 + b1 / 16, b1 % 16 * 4;
    Split16(b0 % 4, b1 / 16);
    Split4(b1 % 16, 0);
    assert c0 * 4 + c1 / 16 == b0;
    assert c1 % 16 * 16 + c2 / 4 == b1;
    CharIndexOfIndexChar(c0);
    CharIndexOfIndexChar(c1);
    CharIndexOfIndexChar(c2);
  }

  /** A padded group of one byte decodes to that byte. */
  lemma DecodeLastOfSingle(b0: Byte)
    ensures DecodeLast(EncodeSingle(b0)) == Some([b0])
  {
    var c0, c1 := b0 / 4, b0 % 4 * 16;
    Split16(b0 % 4, 0);
    assert c0 * 4 + c1 / 16 == b0;
    CharIndexOfIndexChar(c0);
    CharIndexOfIndexChar(c1);
  }

  /** Decoding the Base64 text of `b` gives `b` back. */
  lemma {:induction false} DecodeEncode(b: seq<Byte>)
    ensures Decode(Encode(b)) == Some(b)
    decreases |b|
  {
    if 0 < |b| <= 3 {
      DecodeEncodeLastGroup(b);
    } else if |b| > 3 {
      DecodeEncodeGroups(b);
    }
  }

  /** The base case of `DecodeEncode`: one to three bytes make one (padded) group. */
  lemma DecodeEncodeLastGroup(b: seq<Byte>)
    requires 0 < |b| <= 3
    ensures Decode(Encode(b)) == Some(b)
  {
    if |b| == 1 {
      Regroup1(b);
      DecodeEncodeOne(b[0]);
    } else if |b| == 2 {
      Regroup2(b);
      DecodeEncodeTwo(b[0], b[1]);
    } else {
      Regroup3(b);
      DecodeEncodeThree(b[0], b[1], b[2]);
    }
  }

  /** One byte survives the round trip. */
  lemma DecodeEncodeOne(b0: Byte)
    ensures Decode(Encode([b0])) == Some([b0])
  {
    var e := Encode([b0]);
    assert e == EncodeSingle(b0);
    DecodeLastOfSingle(b0);
    assert Decode(e) == DecodeLast(e);
  }

  /** Two bytes survive the round trip. */
  lemma DecodeEncodeTwo(b0: Byte, b1: Byte)
    ensures Decode(Encode([b0, b1])) == Some([b0, b1])
  {
    var e := Encode([b0, b1]);
    assert e == EncodePair(b0, b1);
    DecodeLastOfPair(b0, b1);
    assert Decode(e) == DecodeLast(e);
  }

  /** Three bytes survive the round trip. */
  lemma DecodeEncodeThree(b0: Byte, b1: Byte, b2: Byte)
    ensures Decode(Encode([b0, b1, b2])) == Some([b0, b1, b2])
  {
    var b := [b0, b1, b2];
    var e := Encode(b);
    assert e == EncodeTriple(b0, b1, b2) by {
      assert b[3..] == [];
    }
    DecodeQuadOfTriple(b0, b1, b2);
    assert e[3] != '=' by {
      CharIndexOfIndexChar(b2 % 64);
    }
    assert Decode(e) == DecodeLast(e) == DecodeQuad(e);
  }

  /** A one-element sequence is the display of its element. */
  lemma Regroup1(b: seq<Byte>)
    requires |b| == 1
    ensures b == [b[0]]
  {
  }

  /** A two-element sequence is the display of its elements. */
  lemma Regroup2(b: seq<Byte>)
    requires |b| == 2
    ensures b == [b[0], b[1]]
  {
  }

  /** A three-element sequence is the display of its elements. */
  lemma Regroup3(b: seq<Byte>)
    requires |b| == 3
    ensures b == [b[0], b[1], b[2]]
  {
  }

  /** The inductive step of `DecodeEncode`: a full group followed by a non-empty rest. */
  lemma {:induction false} DecodeEncodeGroups(b: seq<Byte>)
    requires |b| > 3
    ensures Decode(Encode(b)) == Some(b)
    decreases |b|, 0
  {
    var head, rest := EncodeTriple(b[0], b[1], b[2]), Encode(b[3..]);
    var s := head + rest;
    assert Encode(b) == s;
    assert |rest| >= 4 by {
      assert b[3..] != [];
    }
    assert s[..4] == head && s[4..] == rest;
    DecodeQuadOfTriple(b[0], b[1], b[2]);
    DecodeEncode(b[3..]);
    assert Decode(s) == Some([b[0], b[1], b[2]] + b[3..]) by {
      assert |s| > 4;
    }
    Regroup(b);
  }

  /** A sequence of at least three elements is its first three followed by the rest. */
  lemma Regroup(b: seq<Byte>)
    requires |b| >= 3
    ensures [b[0], b[1], b[2]] + b[3..] == b
  {
  }

  /**
    The test vectors of section 10 of RFC 4648: the encodings of the prefixes of
    `foobar`, which pin the alphabet, the bit order and the padding.
   */
  lemma EncodeTestVectors()
    ensures Encode([]) == ""
    ensures Encode([102]) == "Zg==" && Encode([102, 111]) == "Zm8=" && Encode([102, 111, 111]) == "Zm9v"
    ensures Encode([102, 111, 111, 98]) == "Zm9vYg=="
    ensures Encode([102, 111, 111, 98, 97]) == "Zm9vYmE="
    ensures Encode([102, 111, 111, 98, 97, 114]) == "Zm9vYmFy"
  {
    assert 102 / 4 == 25 && 102 % 4 * 16 == 32;
    assert 102 % 4 * 16 + 111 / 16 == 38 && 111 % 16 * 4 == 60;
    assert 111 % 16 * 4 + 111 / 64 == 61 && 111 % 64 == 47;
    assert 98 / 4 == 24 && 98 % 4 * 16 == 32;
    assert 98 % 4 * 16 + 97 / 16 == 38 && 97 % 16 * 4 == 4;
    assert 97 % 16 * 4 + 114 / 64 == 5 && 114 % 64 == 50;
    assert [102, 111, 111, 98][3..] == [98];
    assert [102, 111, 111, 98, 97][3..] == [98, 97];
    assert [102, 111, 111, 98, 97, 114][3..] == [98, 97, 114];
  }
}
