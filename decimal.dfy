/**
 * The text forms the preference store gives to primitive values:
 * `String.valueOf` for `int`, `long` and `boolean`, and the parsers that read
 * them back, `Integer.parseInt`, `Long.parseLong` and `Boolean.parseBoolean`.
 */
module Decimal {
  import opened JavaLang

  const INT_MIN: int := -0x8000_0000
  const INT_MAX: int := 0x7fff_ffff
  const LONG_MIN: int := -0x8000_0000_0000_0000
  const LONG_MAX: int := 0x7fff_ffff_ffff_ffff

  predicate IsDigit(c: char) {
    '0' <= c <= '9'
  }

  predicate AllDigits(s: string) {
    forall i :: 0 <= i < |s| ==> IsDigit(s[i])
  }

  function DigitChar(d: int): (c: char)
    requires 0 <= d < 10
    ensures IsDigit(c)
  {
    ('0' as int + d) as char
  }

  /** The shortest decimal numeral of `n`, most significant digit first. */
  function Digits(n: nat): (s: string)
    ensures |s| > 0 && AllDigits(s)
  {
    if n < 10 then [DigitChar(n)] else Digits(n / 10) + [DigitChar(n % 10)]
  }

  /** `String.valueOf(v)` for an `int` or a `long`. */
  function Show(v: int): string
  {
    if v < 0 then "-" + Digits(-v) else Digits(v)
  }

  /** The value of a numeral, read left to right as the Java parsers do. */
  function DigitsValue(s: string): nat
    requires AllDigits(s)
  {
    if s == [] then 0 else DigitsValue(s[..|s| - 1]) * 10 + (s[|s| - 1] as int - '0' as int)
  }

  /**
   * `Integer.parseInt(s)` and `Long.parseLong(s)` for the range `[lo, hi]`:
   * an optional sign, then at least one decimal digit, and a value in range;
   * anything else throws `NumberFormatException`.
   */
  function ParseSigned(s: string, lo: int, hi: int): (r: Result<int>)
    ensures r.Ok? ==> lo <= r.value <= hi
  {
    if |s| == 0 then Err(NumberFormat(s))
    else
      var digits := if s[0] == '-' || s[0] == '+' then s[1..] else s;
      if |digits| == 0 || !AllDigits(digits) then Err(NumberFormat(s))
      else
        var magnitude: int := DigitsValue(digits);
        var v := if s[0] == '-' then -magnitude else magnitude;
        if lo <= v <= hi then Ok(v) else Err(NumberFormat(s))
  }

  /** `Integer.parseInt(s)`. */
  function ParseInt(s: string): Result<int32>
  {
    match ParseSigned(s, INT_MIN, INT_MAX)
    case Ok(v) => Ok(v)
    case Err(e) => Err(e)
  }

  /** `Long.parseLong(s)`. */
  function ParseLong(s: string): Result<int64>
  {
    match ParseSigned(s, LONG_MIN, LONG_MAX)
    case Ok(v) => Ok(v)
    case Err(e) => Err(e)
  }

  /** `String.valueOf(b)` for a `boolean`. */
  function ShowBoolean(b: bool): string {
    if b then "true" else "false"
  }

  /** ASCII case folding, as `equalsIgnoreCase` applies it to the letters of "true". */
  function LowerCase(c: char): char {
    if 'A' <= c <= 'Z' then (c as int + 32) as char else c
  }

  /** `Boolean.parseBoolean(s)`: `s.equalsIgnoreCase("true")`; it never throws. */
  function ParseBoolean(s: string): bool {
    |s| == 4 && LowerCase(s[0]) == 't' && LowerCase(s[1]) == 'r' && LowerCase(s[2]) == 'u' && LowerCase(s[3]) == 'e'
  }

  /** Reading back the numeral of `n` gives `n`. */
  lemma {:induction false} DigitsValueOfDigits(n: nat)
    ensures DigitsValue(Digits(n)) == n
  {
    if n >= 10 {
      var s := Digits(n);
      assert s[..|s| - 1] == Digits(n / 10);
      DigitsValueOfDigits(n / 10);
    }
  }

  /**
   * Parsing the text `String.valueOf` gives a value returns that value when
   * it lies in the parser's range, and throws `NumberFormatException` otherwise.
   */
  lemma ParseShow(v: int, lo: int, hi: int)
    ensures ParseSigned(Show(v), lo, hi) == if lo <= v <= hi then Ok(v) else Err(NumberFormat(Show(v)))
  {
    var s := Show(v);
    if v < 0 {
      assert s[1..] == Digits(-v);
      DigitsValueOfDigits(-v);
    } else {
      assert IsDigit(s[0]);
      DigitsValueOfDigits(v);
    }
  }

  /** `Integer.parseInt(String.valueOf(v)) == v` for every `int`. */
  lemma ParseIntShow(v: int32)
    ensures ParseInt(Show(v)) == Ok(v)
  {
    ParseShow(v, INT_MIN, INT_MAX);
  }

  /** `Long.parseLong(String.valueOf(v)) == v` for every `long`. */
  lemma ParseLongShow(v: int64)
    ensures ParseLong(Show(v)) == Ok(v)
  {
    ParseShow(v, LONG_MIN, LONG_MAX);
  }

  /** `Boolean.parseBoolean(String.valueOf(b)) == b`. */
  lemma ParseBooleanShow(b: bool)
    ensures ParseBoolean(ShowBoolean(b)) == b
  {
  }
}
