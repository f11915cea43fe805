/**
 * The UTF-8 character encoding of section 3 of RFC 3629, as used by
 * `String.getBytes(UTF_8)` and `new String(bytes, UTF_8)`.
 *
 * A Dafny `char` is a Unicode scalar value, so every string can be encoded;
 * a Java string holding an unpaired surrogate has no counterpart here.
 * Decoding never fails: as Java's decoder does, each maximal ill-formed
 * subpart of the input becomes one U+FFFD REPLACEMENT CHARACTER.
 */
module Utf8 {
  import opened JavaLang

  const REPLACEMENT: char := '�'

  predicate IsContinuation(b: byte) {
    0x80 <= b <= 0xBF
  }

  /** The number of bytes that encode `c`. */
  function Width(c: char): (w: nat)
    ensures 1 <= w <= 4
  {
    var n := c as int;
    if n < 0x80 then 1 else if n < 0x800 then 2 else if n < 0x1_0000 then 3 else 4
  }

  /** The bytes of one scalar value (the table in section 3 of RFC 3629). */
  function EncodeChar(c: char): (r: seq<byte>)
    ensures |r| == Width(c)
  {
    var n := c as int;
    if n < 0x80 then [n]
    else if n < 0x800 then [0xC0 + n / 64, 0x80 + n % 64]
    else if n < 0x1_0000 then [0xE0 + n / 4096, 0x80 + (n / 64) % 64, 0x80 + n % 64]
    else [0xF0 + n / 262144, 0x80 + (n / 4096) % 64, 0x80 + (n / 64) % 64, 0x80 + n % 64]
  }

  /** `s.getBytes(UTF_8)`. */
  function Encode(s: string): seq<byte>
  {
    if s == [] then [] else EncodeChar(s[0]) + Encode(s[1..])
  }

  /**
   * Decodes the first character of `b`: the scalar value and the number of
   * bytes it used, or U+FFFD and the length of the maximal ill-formed subpart.
   */
  function DecodeFirst(b: seq<byte>): (r: (char, nat))
    requires |b| > 0
    ensures 1 <= r.1 <= |b|
  {
    var b0: int := b[0];
    if b0 < 0x80 then
      (b0 as char, 1)
    else if 0xC2 <= b0 <= 0xDF then
      if |b| < 2 || !IsContinuation(b[1]) then (REPLACEMENT, 1)
      else (Scalar2(b0, b[1]) as char, 2)
    else if 0xE0 <= b0 <= 0xEF then
      var lo := if b0 == 0xE0 then 0xA0 else 0x80;
      var hi := if b0 == 0xED then 0x9F else 0xBF;
      if |b| < 2 || !(lo <= b[1] <= hi) then (REPLACEMENT, 1)
      else if |b| < 3 || !IsContinuation(b[2]) then (REPLACEMENT, 2)
      else (Scalar3(b0, b[1], b[2]) as char, 3)
    else if 0xF0 <= b0 <= 0xF4 then
      var lo := if b0 == 0xF0 then 0x90 else 0x80;
      var hi := if b0 == 0xF4 then 0x8F else 0xBF;
      if |b| < 2 || !(lo <= b[1] <= hi) then (REPLACEMENT, 1)
      else if |b| < 3 || !IsContinuation(b[2]) then (REPLACEMENT, 2)
      else if |b| < 4 || !IsContinuation(b[3]) then (REPLACEMENT, 3)
      else (Scalar4(b0, b[1], b[2], b[3]) as char, 4)
    else
      (REPLACEMENT, 1)
  }

  /** The payload bits of a two-, three- and four-byte sequence. */
  function Scalar2(b0: int, b1: int): int {
    (b0 - 0xC0) * 64 + (b1 - 0x80)
  }

  function Scalar3(b0: int, b1: int, b2: int): int {
    (b0 - 0xE0) * 4096 + (b1 - 0x80) * 64 + (b2 - 0x80)
  }

  function Scalar4(b0: int, b1: int, b2: int, b3: int): int {
    (b0 - 0xF0) * 262144 + (b1 - 0x80) * 4096 + (b2 - 0x80) * 64 + (b3 - 0x80)
  }

  /** `new String(b, UTF_8)`. */
  function Decode(b: seq<byte>): string
    decreases |b|
  {
    if b == [] then [] else var (c, n) := DecodeFirst(b); [c] + Decode(b[n..])
  }

  /** The first character decodes from its own bytes, whatever follows them. */
  lemma DecodeFirstOfEncoded(c: char, rest: seq<byte>)
    ensures DecodeFirst(EncodeChar(c) + rest) == (c, Width(c))
  {
    var n := c as int;
    if n < 0x80 {
    } else if n < 0x800 {
      DecodeTwo(c, rest);
    } else if n < 0x1_0000 {
      DecodeThree(c, rest);
    } else {
      DecodeFour(c, rest);
    }
  }

  lemma DecodeTwo(c: char, rest: seq<byte>)
    requires 0x80 <= c as int < 0x800
    ensures DecodeFirst(EncodeChar(c) + rest) == (c, 2)
  {
    var n := c as int;
    assert Scalar2(0xC0 + n / 64, 0x80 + n % 64) == n;
  }

  lemma DecodeThree(c: char, rest: seq<byte>)
    requires 0x800 <= c as int < 0x1_0000
    ensures DecodeFirst(EncodeChar(c) + rest) == (c, 3)
  {
    var n := c as int;
    var d0, d1, d2 := Digits3(n);
    assert EncodeChar(c) == [0xE0 + d0, 0x80 + d1, 0x80 + d2];
    DecodeFirstThree(0xE0 + d0, 0x80 + d1, 0x80 + d2, rest);
  }

  /** The three 4-, 6- and 6-bit groups of a scalar value in [U+0800, U+FFFF]. */
  lemma Digits3(n: int) returns (d0: int, d1: int, d2: int)
    requires 0x800 <= n < 0x1_0000 && !(0xD800 <= n < 0xE000)
    ensures d0 == n / 4096 && d1 == (n / 64) % 64 && d2 == n % 64
    ensures 0 <= d0 < 16 && 0 <= d1 < 64 && 0 <= d2 < 64
    ensures n == d0 * 4096 + d1 * 64 + d2
    ensures d0 == 0 ==> d1 >= 0x20
    ensures d0 == 0xD ==> d1 < 0x20
  {
    var q := n / 64;
    d0, d1, d2 := n / 4096, q % 64, n % 64;
    assert n / 4096 == q / 64;
  }

  lemma DecodeFirstThree(b0: byte, b1: byte, b2: byte, rest: seq<byte>)
    requires 0xE0 <= b0 <= 0xEF && IsContinuation(b1) && IsContinuation(b2)
    requires b0 == 0xE0 ==> b1 >= 0xA0
    requires b0 == 0xED ==> b1 <= 0x9F
    ensures DecodeFirst([b0, b1, b2] + rest) == (Scalar3(b0, b1, b2) as char, 3)
  {
    assert ([b0, b1, b2] + rest)[..3] == [b0, b1, b2];
  }

  lemma DecodeFour(c: char, rest: seq<byte>)
    requires 0x1_0000 <= c as int
    ensures DecodeFirst(EncodeChar(c) + rest) == (c, 4)
  {
    var n := c as int;
    var d0, d1, d2, d3 := Digits4(n);
    assert EncodeChar(c) == [0xF0 + d0, 0x80 + d1, 0x80 + d2, 0x80 + d3];
    DecodeFirstFour(0xF0 + d0, 0x80 + d1, 0x80 + d2, 0x80 + d3, rest);
  }

  /** The four 3-, 6-, 6- and 6-bit groups of a scalar value in [U+10000, U+10FFFF]. */
  lemma Digits4(n: int) returns (d0: int, d1: int, d2: int, d3: int)
    requires 0x1_0000 <= n < 0x11_0000
    ensures d0 == n / 262144 && d1 == (n / 4096) % 64 && d2 == (n / 64) % 64 && d3 == n % 64
    ensures 0 <= d0 <= 4 && 0 <= d1 < 64 && 0 <= d2 < 64 && 0 <= d3 < 64
    ensures n == d0 * 262144 + d1 * 4096 + d2 * 64 + d3
    ensures d0 == 0 ==> d1 >= 0x10
    ensures d0 == 4 ==> d1 < 0x10
  {
    var q := n / 64;
    var q2 := q / 64;
    assert n / 4096 == q2;
    assert n / 262144 == q2 / 64;
    d0, d1, d2, d3 := q2 / 64, q2 % 64, q % 64, n % 64;
  }

  lemma DecodeFirstFour(b0: byte, b1: byte, b2: byte, b3: byte, rest: seq<byte>)
    requires 0xF0 <= b0 <= 0xF4 && IsContinuation(b1) && IsContinuation(b2) && IsContinuation(b3)
    requires b0 == 0xF0 ==> b1 >= 0x90
    requires b0 == 0xF4 ==> b1 <= 0x8F
    ensures DecodeFirst([b0, b1, b2, b3] + rest) == (Scalar4(b0, b1, b2, b3) as char, 4)
  {
    assert ([b0, b1, b2, b3] + rest)[..4] == [b0, b1, b2, b3];
  }

  /** Every string survives `new String(s.getBytes(UTF_8), UTF_8)`. */
  lemma {:induction false} DecodeEncode(s: string)
    ensures Decode(Encode(s)) == s
  {
    if s != [] {
      var head := EncodeChar(s[0]);
      var rest := Encode(s[1..]);
      DecodeFirstOfEncoded(s[0], rest);
      assert (head + rest)[|head|..] == rest;
      DecodeEncode(s[1..]);
    }
  }

  predicate IsAscii(s: string) {
    forall i :: 0 <= i < |s| ==> s[i] as int < 0x80
  }

  /** The byte codes of an ASCII string, one byte per character. */
  function AsciiCodes(s: string): (r: seq<byte>)
    requires IsAscii(s)
    ensures |r| == |s|
  {
    seq(|s|, i requires 0 <= i < |s| => s[i] as int)
  }

  /** An ASCII string encodes to its character codes. */
  lemma {:induction false} EncodeAscii(s: string)
    requires IsAscii(s)
    ensures Encode(s) == AsciiCodes(s)
  {
    if s != [] {
      EncodeAscii(s[1..]);
    }
  }

  /**
   * A string takes at least one byte per character, and exactly one byte per
   * character precisely when it is ASCII.
   */
  lemma {:induction false} EncodedLength(s: string)
    ensures |Encode(s)| >= |s|
    ensures |Encode(s)| == |s| <==> IsAscii(s)
  {
    if s != [] {
      EncodedLength(s[1..]);
      if IsAscii(s) {
        assert IsAscii(s[1..]);
      } else if IsAscii(s[1..]) {
        assert s[0] as int >= 0x80;
      }
      if s[0] as int < 0x80 && IsAscii(s[1..]) {
        assert forall i :: 1 <= i < |s| ==> s[i] == s[1..][i - 1];
      }
    }
  }
}
