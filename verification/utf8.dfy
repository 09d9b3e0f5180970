/** The two text encodings the RCON codec uses: `Encoding.ASCII` to write a
    body (every non-ASCII character becomes '?') and `Encoding.UTF8` to read
    one back (ill-formed input becomes U+FFFD, one per maximal subpart of an
    ill-formed sequence, as the Unicode Standard's section 3.9 recommends). */
module Utf8 {
  import opened Numbers

  const Replacement: char := '\U{FFFD}'
  const QuestionMark: Byte := 0x3F

  predicate IsAsciiChar(c: char) {
    c < '\U{80}'
  }

  predicate IsAscii(s: string) {
    forall i :: 0 <= i < |s| ==> IsAsciiChar(s[i])
  }

  /** The byte `Encoding.ASCII` writes for one character. */
  function AsciiByte(c: char): (b: Byte)
    ensures b < 0x80
    ensures IsAsciiChar(c) ==> b == c as int
    ensures !IsAsciiChar(c) ==> b == QuestionMark
  {
    if IsAsciiChar(c) then c as int else QuestionMark
  }

  /** `Encoding.ASCII.GetBytes`: one byte per character. */
  function AsciiEncode(s: string): (r: seq<Byte>)
    ensures |r| == |s|
    ensures forall i :: 0 <= i < |s| ==> r[i] == AsciiByte(s[i])
  {
    seq(|s|, i requires 0 <= i < |s| => AsciiByte(s[i]))
  }

  // ---------------------------------------------------------------------
  // Decoding

  predicate IsContinuation(b: Byte) {
    0x80 <= b <= 0xBF
  }

  /** The length a lead byte announces, or 0 for a byte that cannot start
      a well-formed sequence (a continuation byte, C0, C1, F5..FF). */
  function SequenceLength(b0: Byte): nat {
    if b0 < 0x80 then 1
    else if 0xC2 <= b0 <= 0xDF then 2
    else if 0xE0 <= b0 <= 0xEF then 3
    else if 0xF0 <= b0 <= 0xF4 then 4
    else 0
  }

  /** The range of the second byte after a lead byte of a three- or
      four-byte sequence (Table 3-7 of the Unicode Standard). */
  predicate SecondByteOk(b0: Byte, b1: Byte) {
    if b0 == 0xE0 then 0xA0 <= b1 <= 0xBF
    else if b0 == 0xED then 0x80 <= b1 <= 0x9F
    else if b0 == 0xF0 then 0x90 <= b1 <= 0xBF
    else if b0 == 0xF4 then 0x80 <= b1 <= 0x8F
    else IsContinuation(b1)
  }

  function Two(b0: Byte, b1: Byte): (c: char)
    requires 0xC2 <= b0 <= 0xDF && IsContinuation(b1)
  {
    ((b0 - 0xC0) * 64 + (b1 - 0x80)) as char
  }

  function Three(b0: Byte, b1: Byte, b2: Byte): (c: char)
    requires 0xE0 <= b0 <= 0xEF && SecondByteOk(b0, b1) && IsContinuation(b2)
  {
    var hi := b0 - 0xE0;
    var cp := hi * 4096 + (b1 - 0x80) * 64 + (b2 - 0x80);
    assert b0 == 0xED ==> cp < 0xD800;
    assert b0 < 0xED ==> cp < 0xD000;
    cp as char
  }

  function Four(b0: Byte, b1: Byte, b2: Byte, b3: Byte): (c: char)
    requires 0xF0 <= b0 <= 0xF4 && SecondByteOk(b0, b1) && IsContinuation(b2) && IsContinuation(b3)
  {
    var hi := b0 - 0xF0;
    var cp := hi * 262144 + (b1 - 0x80) * 4096 + (b2 - 0x80) * 64 + (b3 - 0x80);
    assert cp >= 0x10000;
    assert cp <= 0x10FFFF;
    cp as char
  }

  /** Decodes the character at the front of `b` and says how many bytes it
      used: a well-formed sequence yields its scalar value, and an
      ill-formed one yields U+FFFD for its maximal subpart (at least one
      byte). */
  function DecodeOne(b: seq<Byte>): (r: (char, nat))
    requires |b| >= 1
    ensures 1 <= r.1 <= |b| && r.1 <= 4
    ensures b[0] < 0x80 ==> r == (b[0] as char, 1)
  {
    var b0 := b[0];
    var n := SequenceLength(b0);
    if n == 1 then (b0 as char, 1)
    else if n == 0 then (Replacement, 1)
    else if n == 2 then
      if |b| >= 2 && IsContinuation(b[1]) then (Two(b0, b[1]), 2) else (Replacement, 1)
    else if |b| < 2 || !SecondByteOk(b0, b[1]) then (Replacement, 1)
    else if |b| < 3 || !IsContinuation(b[2]) then (Replacement, 2)
    else if n == 3 then (Three(b0, b[1], b[2]), 3)
    else if |b| < 4 || !IsContinuation(b[3]) then (Replacement, 3)
    else (Four(b0, b[1], b[2], b[3]), 4)
  }

  /** `Encoding.UTF8.GetString`. */
  function Decode(b: seq<Byte>): (s: string)
    ensures |s| <= |b|
    decreases |b|
  {
    if b == [] then []
    else
      var (c, n) := DecodeOne(b);
      [c] + Decode(b[n..])
  }

  /** An ASCII string survives the ASCII writer and the UTF-8 reader; any
      other string does not, because each non-ASCII character comes back
      as '?'. */
  lemma {:induction false} AsciiRoundTrip(s: string)
    ensures Decode(AsciiEncode(s)) == s <==> IsAscii(s)
    decreases |s|
  {
    var b := AsciiEncode(s);
    if s != [] {
      assert AsciiEncode(s[1..]) == b[1..];
      AsciiRoundTrip(s[1..]);
      assert Decode(b) == [b[0] as char] + Decode(b[1..]);
      if IsAsciiChar(s[0]) {
        assert IsAscii(s) <==> IsAscii(s[1..]);
        assert s == [s[0]] + s[1..];
      } else {
        assert Decode(b)[0] == '?';
      }
    }
  }

  // ---------------------------------------------------------------------
  // A reference UTF-8 writer, against which the reader is checked

  /** The UTF-8 form of one Unicode scalar value. */
  function EncodeScalar(c: char): (r: seq<Byte>)
    ensures 1 <= |r| <= 4
  {
    var cp := c as int;
    if cp < 0x80 then [cp]
    else if cp < 0x800 then [(0xC0 + cp / 64), (0x80 + cp % 64)]
    else if cp < 0x10000 then
      [(0xE0 + cp / 4096), (0x80 + (cp / 64) % 64), (0x80 + cp % 64)]
    else
      [(0xF0 + cp / 262144), (0x80 + (cp / 4096) % 64), (0x80 + (cp / 64) % 64), (0x80 + cp % 64)]
  }

  function Utf8Encode(s: string): (r: seq<Byte>)
    ensures |r| >= |s|
  {
    if s == [] then [] else EncodeScalar(s[0]) + Utf8Encode(s[1..])
  }

  lemma DecodeTwoBytes(c: char, rest: seq<Byte>)
    requires 0x80 <= c as int < 0x800
    ensures DecodeOne(EncodeScalar(c) + rest) == (c, 2)
  {
    var cp := c as int;
    var q, r := cp / 64, cp % 64;
    assert 2 <= q < 32;
    var b := EncodeScalar(c) + rest;
    assert b[0] == 0xC0 + q && b[1] == 0x80 + r;
    assert Two(b[0], b[1]) as int == q * 64 + r == cp;
  }

  lemma DecodeThreeBytes(c: char, rest: seq<Byte>)
    requires 0x800 <= c as int < 0x10000
    ensures DecodeOne(EncodeScalar(c) + rest) == (c, 3)
  {
    var cp := c as int;
    var q, r := cp / 64, cp % 64;
    var q2, r2 := q / 64, q % 64;
    assert cp == q2 * 4096 + r2 * 64 + r;
    assert cp / 4096 == q2;
    assert (cp / 64) % 64 == r2;
    var b := EncodeScalar(c) + rest;
    assert b[0] == 0xE0 + q2 && b[1] == 0x80 + r2 && b[2] == 0x80 + r;
    assert q2 == 0 ==> r2 >= 32;
    assert q2 == 13 ==> r2 < 32;
    assert SecondByteOk(b[0], b[1]);
    assert Three(b[0], b[1], b[2]) as int == cp;
  }

  lemma DecodeFourBytes(c: char, rest: seq<Byte>)
    requires 0x10000 <= c as int
    ensures DecodeOne(EncodeScalar(c) + rest) == (c, 4)
  {
    var cp := c as int;
    var q, r := cp / 64, cp % 64;
    var q2, r2 := q / 64, q % 64;
    var q3, r3 := q2 / 64, q2 % 64;
    assert cp == q3 * 262144 + r3 * 4096 + r2 * 64 + r;
    assert cp / 262144 == q3;
    assert (cp / 4096) % 64 == r3;
    assert (cp / 64) % 64 == r2;
    assert q3 <= 4;
    var b := EncodeScalar(c) + rest;
    assert b[0] == 0xF0 + q3 && b[1] == 0x80 + r3;
    assert b[2] == 0x80 + r2 && b[3] == 0x80 + r;
    assert q3 == 0 ==> r3 >= 16;
    assert q3 == 4 ==> r3 < 16;
    assert SecondByteOk(b[0], b[1]);
    assert Four(b[0], b[1], b[2], b[3]) as int == cp;
  }

  lemma DecodeOneScalar(c: char, rest: seq<Byte>)
    ensures DecodeOne(EncodeScalar(c) + rest) == (c, |EncodeScalar(c)|)
  {
    var cp := c as int;
    if cp < 0x80 {
      } else if cp < 0x800 {
      DecodeTwoBytes(c, rest);
    } else if cp < 0x10000 {
      DecodeThreeBytes(c, rest);
    } else {
      DecodeFourBytes(c, rest);
    }
  }

  /** The reader inverts the reference writer on every string: well-formed
      UTF-8 is decoded exactly. */
  lemma {:induction false} Utf8RoundTrip(s: string)
    ensures Decode(Utf8Encode(s)) == s
    decreases |s|
  {
    if s != [] {
      var e := EncodeScalar(s[0]);
      var rest := Utf8Encode(s[1..]);
      DecodeOneScalar(s[0], rest);
      assert (e + rest)[|e|..] == rest;
      Utf8RoundTrip(s[1..]);
      assert s == [s[0]] + s[1..];
    }
  }
}
