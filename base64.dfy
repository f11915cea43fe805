/**
 * The "base64" encoding of section 4 of RFC 4648, as `android.util.Base64`
 * applies it with the NO_WRAP flag: the standard alphabet, `=` padding, and
 * no line breaks. The decoder takes the final group padded or unpadded
 * (section 3.2 of RFC 4648 lets an application omit the padding), and
 * rejects a lone trailing character, misplaced padding and any byte outside
 * the alphabet.
 */
module Base64 {
  import opened JavaLang

  /** The ASCII code of `=`. */
  const PAD: byte := 61

  /** The alphabet of Table 1 of RFC 4648: `A`-`Z`, `a`-`z`, `0`-`9`, `+`, `/`. */
  function Symbol(v: int): (c: byte)
    requires 0 <= v < 64
  {
    if v < 26 then 65 + v
    else if v < 52 then 97 + (v - 26)
    else if v < 62 then 48 + (v - 52)
    else if v == 62 then 43
    else 47
  }

  predicate IsSymbol(c: byte) {
    65 <= c <= 90 || 97 <= c <= 122 || 48 <= c <= 57 || c == 43 || c == 47
  }

  /** The six bits a symbol stands for. */
  function Value(c: byte): (v: int)
    requires IsSymbol(c)
    ensures 0 <= v < 64
  {
    if 65 <= c <= 90 then c - 65
    else if 97 <= c <= 122 then c - 71
    else if 48 <= c <= 57 then c + 4
    else if c == 43 then 62
    else 63
  }

  lemma ValueOfSymbol(v: int)
    requires 0 <= v < 64
    ensures IsSymbol(Symbol(v)) && Value(Symbol(v)) == v
  {
  }

  /** Three bytes, as four symbols. */
  function EncodeTriple(b0: byte, b1: byte, b2: byte): seq<byte> {
    [Symbol(b0 / 4), Symbol((b0 % 4) * 16 + b1 / 16), Symbol((b1 % 16) * 4 + b2 / 64), Symbol(b2 % 64)]
  }

  /** `Base64.encode(b, NO_WRAP)`. */
  function Encode(b: seq<byte>): seq<byte>
  {
    if |b| == 0 then []
    else if |b| == 1 then [Symbol(b[0] / 4), Symbol((b[0] % 4) * 16), PAD, PAD]
    else if |b| == 2 then [Symbol(b[0] / 4), Symbol((b[0] % 4) * 16 + b[1] / 16), Symbol((b[1] % 16) * 4), PAD]
    else EncodeTriple(b[0], b[1], b[2]) + Encode(b[3..])
  }

  /** `Base64.encodeToString(b, NO_WRAP)`: the encoded bytes read as US-ASCII. */
  function EncodeToString(b: seq<byte>): string
  {
    var e := Encode(b);
    seq(|e|, i requires 0 <= i < |e| => e[i] as char)
  }

  /** Three bytes from four symbols' 24 bits. */
  function DecodeQuad(v0: int, v1: int, v2: int, v3: int): seq<byte>
    requires 0 <= v0 < 64 && 0 <= v1 < 64 && 0 <= v2 < 64 && 0 <= v3 < 64
  {
    [v0 * 4 + v1 / 16, (v1 % 16) * 16 + v2 / 4, (v2 % 4) * 64 + v3]
  }

  /** The last group of the input: two to four characters, possibly padded. */
  function DecodeFinal(g: seq<byte>): Option<seq<byte>>
    requires 1 <= |g| <= 4
  {
    if |g| < 2 || !IsSymbol(g[0]) || !IsSymbol(g[1]) then None
    else
      var v0, v1 := Value(g[0]), Value(g[1]);
      var one := [v0 * 4 + v1 / 16];
      if |g| == 2 then Some(one)
      else if |g| == 4 && g[2] == PAD && g[3] == PAD then Some(one)
      else if !IsSymbol(g[2]) then None
      else
        var v2 := Value(g[2]);
        var two := [v0 * 4 + v1 / 16, (v1 % 16) * 16 + v2 / 4];
        if |g| == 3 || g[3] == PAD then Some(two)
        else if IsSymbol(g[3]) then Some(DecodeQuad(v0, v1, v2, Value(g[3])))
        else None
  }

  /** `Base64.decode(s, NO_WRAP)`; `None` where Android throws "bad base-64". */
  function Decode(s: seq<byte>): Option<seq<byte>>
    decreases |s|
  {
    if |s| == 0 then Some([])
    else if |s| <= 4 then DecodeFinal(s)
    else if !(IsSymbol(s[0]) && IsSymbol(s[1]) && IsSymbol(s[2]) && IsSymbol(s[3])) then None
    else
      match Decode(s[4..])
      case None => None
      case Some(rest) => Some(DecodeQuad(Value(s[0]), Value(s[1]), Value(s[2]), Value(s[3])) + rest)
  }

  /** Four symbols per started group of three bytes. */
  lemma {:induction false} EncodeLength(b: seq<byte>)
    ensures |Encode(b)| == 4 * ((|b| + 2) / 3)
  {
    if |b| > 2 {
      EncodeLength(b[3..]);
      assert (|b| + 2) / 3 == (|b[3..]| + 2) / 3 + 1;
    }
  }

  /** The output holds only alphabet symbols and `=`: in particular no line break. */
  lemma {:induction false} EncodeAlphabet(b: seq<byte>)
    ensures forall i :: 0 <= i < |Encode(b)| ==> IsSymbol(Encode(b)[i]) || Encode(b)[i] == PAD
  {
    if |b| > 2 {
      EncodeAlphabet(b[3..]);
      var e, rest := EncodeTriple(b[0], b[1], b[2]), Encode(b[3..]);
      forall i | 0 <= i < |e + rest| ensures IsSymbol((e + rest)[i]) || (e + rest)[i] == PAD {
        if i >= 4 {
          assert (e + rest)[i] == rest[i - 4];
        }
      }
    }
  }

  /** The 6-bit groups of three bytes put back together give the bytes. */
  lemma TripleBits(b0: byte, b1: byte, b2: byte)
    ensures var v0, v1, v2, v3 := b0 / 4, (b0 % 4) * 16 + b1 / 16, (b1 % 16) * 4 + b2 / 64, b2 % 64;
      && 0 <= v0 < 64 && 0 <= v1 < 64 && 0 <= v2 < 64 && 0 <= v3 < 64
      && v0 * 4 + v1 / 16 == b0 && (v1 % 16) * 16 + v2 / 4 == b1 && (v2 % 4) * 64 + v3 == b2
  {
    var v1, v2 := (b0 % 4) * 16 + b1 / 16, (b1 % 16) * 4 + b2 / 64;
    assert v1 / 16 == b0 % 4 && v1 % 16 == b1 / 16;
    assert v2 / 4 == b1 % 16 && v2 % 4 == b2 / 64;
  }

  lemma DecodeTriple(b0: byte, b1: byte, b2: byte)
    ensures var e := EncodeTriple(b0, b1, b2);
      IsSymbol(e[0]) && IsSymbol(e[1]) && IsSymbol(e[2]) && IsSymbol(e[3]) &&
      DecodeQuad(Value(e[0]), Value(e[1]), Value(e[2]), Value(e[3])) == [b0, b1, b2]
  {
    var v0, v1, v2, v3 := b0 / 4, (b0 % 4) * 16 + b1 / 16, (b1 % 16) * 4 + b2 / 64, b2 % 64;
    TripleBits(b0, b1, b2);
    ValueOfSymbol(v0);
    ValueOfSymbol(v1);
    ValueOfSymbol(v2);
    ValueOfSymbol(v3);
  }

  lemma DecodeEncodeOne(b0: byte)
    ensures Decode(Encode([b0])) == Some([b0])
  {
    var v0, v1 := b0 / 4, (b0 % 4) * 16;
    ValueOfSymbol(v0);
    ValueOfSymbol(v1);
    DecodeOnePadded([Symbol(v0), Symbol(v1), PAD, PAD]);
  }

  lemma DecodeEncodeTwo(b0: byte, b1: byte)
    ensures Decode(Encode([b0, b1])) == Some([b0, b1])
  {
    var v0, v1, v2 := b0 / 4, (b0 % 4) * 16 + b1 / 16, (b1 % 16) * 4;
    PairBits(b0, b1);
    ValueOfSymbol(v0);
    ValueOfSymbol(v1);
    ValueOfSymbol(v2);
    assert Encode([b0, b1]) == [Symbol(v0), Symbol(v1), Symbol(v2), PAD];
    DecodeTwoPadded([Symbol(v0), Symbol(v1), Symbol(v2), PAD]);
  }

  /** The 6-bit groups of two bytes put back together give the bytes. */
  lemma PairBits(b0: byte, b1: byte)
    ensures var v0, v1, v2 := b0 / 4, (b0 % 4) * 16 + b1 / 16, (b1 % 16) * 4;
      && 0 <= v0 < 64 && 0 <= v1 < 64 && 0 <= v2 < 64
      && v0 * 4 + v1 / 16 == b0 && (v1 % 16) * 16 + v2 / 4 == b1
  {
    var v1 := (b0 % 4) * 16 + b1 / 16;
    assert v1 / 16 == b0 % 4 && v1 % 16 == b1 / 16;
  }

  /** A final group with one `=` of padding decodes to two bytes. */
  lemma DecodeTwoPadded(g: seq<byte>)
    requires |g| == 4 && IsSymbol(g[0]) && IsSymbol(g[1]) && IsSymbol(g[2]) && g[3] == PAD
    ensures Decode(g) == Some([Value(g[0]) * 4 + Value(g[1]) / 16, (Value(g[1]) % 16) * 16 + Value(g[2]) / 4])
  {
    assert g[2] != PAD;
  }

  /** A final group with two `=` of padding decodes to one byte. */
  lemma DecodeOnePadded(g: seq<byte>)
    requires |g| == 4 && IsSymbol(g[0]) && IsSymbol(g[1]) && g[2] == PAD && g[3] == PAD
    ensures Decode(g) == Some([Value(g[0]) * 4 + Value(g[1]) / 16])
  {
  }

  /** Decoding undoes encoding: `decode(encode(b)) == b` for every byte string. */
  lemma {:induction false} DecodeEncode(b: seq<byte>)
    ensures Decode(Encode(b)) == Some(b)
  {
    if |b| == 1 {
      assert b == [b[0]];
      DecodeEncodeOne(b[0]);
    } else if |b| == 2 {
      assert b == [b[0], b[1]];
      DecodeEncodeTwo(b[0], b[1]);
    } else if |b| > 2 {
      DecodeEncode(b[3..]);
      DecodeEncodeStep(b);
    }
  }

  lemma DecodeEncodeStep(b: seq<byte>)
    requires |b| > 2 && Decode(Encode(b[3..])) == Some(b[3..])
    ensures Decode(Encode(b)) == Some(b)
  {
    var head, tail := [b[0], b[1], b[2]], b[3..];
    SplitThree(b);
    EncodeUnfold(b);
    DecodeEncodedTriple(b[0], b[1], b[2], Encode(tail), tail);
  }

  lemma SplitThree(b: seq<byte>)
    requires |b| > 2
    ensures [b[0], b[1], b[2]] + b[3..] == b
  {
  }

  lemma EncodeUnfold(b: seq<byte>)
    requires |b| > 2
    ensures Encode(b) == EncodeTriple(b[0], b[1], b[2]) + Encode(b[3..])
  {
  }

  lemma DecodeEncodedTriple(b0: byte, b1: byte, b2: byte, rest: seq<byte>, tail: seq<byte>)
    requires Decode(rest) == Some(tail)
    ensures Decode(EncodeTriple(b0, b1, b2) + rest) == Some([b0, b1, b2] + tail)
  {
    var e := EncodeTriple(b0, b1, b2);
    DecodeTriple(b0, b1, b2);
    DecodeGroup(e, rest, tail);
  }

  /** A full leading group decodes to its three bytes, in front of the rest. */
  lemma DecodeGroup(g: seq<byte>, rest: seq<byte>, tail: seq<byte>)
    requires |g| == 4 && IsSymbol(g[0]) && IsSymbol(g[1]) && IsSymbol(g[2]) && IsSymbol(g[3])
    requires Decode(rest) == Some(tail)
    ensures Decode(g + rest) == Some(DecodeQuad(Value(g[0]), Value(g[1]), Value(g[2]), Value(g[3])) + tail)
  {
    if |rest| == 0 {
      assert g + rest == g && tail == [];
      DecodeLastGroup(g);
      assert DecodeQuad(Value(g[0]), Value(g[1]), Value(g[2]), Value(g[3])) + tail
          == DecodeQuad(Value(g[0]), Value(g[1]), Value(g[2]), Value(g[3]));
    } else {
      var s := g + rest;
      assert s[..4] == g && s[4..] == rest;
      DecodeLeadingGroup(s);
    }
  }

  lemma DecodeLastGroup(g: seq<byte>)
    requires |g| == 4 && IsSymbol(g[0]) && IsSymbol(g[1]) && IsSymbol(g[2]) && IsSymbol(g[3])
    ensures Decode(g) == Some(DecodeQuad(Value(g[0]), Value(g[1]), Value(g[2]), Value(g[3])))
  {
    assert g[3] != PAD;
  }

  lemma DecodeLeadingGroup(s: seq<byte>)
    requires |s| > 4 && IsSymbol(s[0]) && IsSymbol(s[1]) && IsSymbol(s[2]) && IsSymbol(s[3])
    requires Decode(s[4..]).Some?
    ensures Decode(s) == Some(DecodeQuad(Value(s[0]), Value(s[1]), Value(s[2]), Value(s[3])) + Decode(s[4..]).value)
  {
  }

  /** The string form is ASCII, so its UTF-8 bytes are the encoded bytes again. */
  lemma EncodeToStringBytes(b: seq<byte>)
    ensures forall i :: 0 <= i < |EncodeToString(b)| ==> EncodeToString(b)[i] as int < 0x80
    ensures forall i :: 0 <= i < |EncodeToString(b)| ==> EncodeToString(b)[i] as int == Encode(b)[i]
  {
    EncodeAlphabet(b);
  }
}
