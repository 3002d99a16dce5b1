/** strconv.FormatInt in base 10, and the decimal reading that undoes it. */
module Strconv {
  import opened Wrappers
  import opened Text

  /** Go's int on the 64-bit platforms the service runs on. */
  type Int64 = x: int | -0x8000_0000_0000_0000 <= x < 0x8000_0000_0000_0000

  predicate IsDigit(c: byte)
  {
    '0' <= c <= '9'
  }

  function DigitChar(d: int): (c: byte)
    requires 0 <= d < 10
    ensures IsDigit(c)
  {
    ('0' as int + d) as char
  }

  /** The decimal digits of n, most significant first, without leading zeros. */
  function FormatNat(n: nat): (r: Str)
    ensures |r| >= 1 && (forall i | 0 <= i < |r| :: IsDigit(r[i]))
    ensures r[0] == '0' ==> n == 0
    ensures n < 10 ==> |r| == 1
    ensures n < 100 ==> |r| <= 2
    ensures n < 1000 ==> |r| <= 3
    ensures n < 10000 ==> |r| <= 4
  {
    if n < 10 then [DigitChar(n)] else FormatNat(n / 10) + [DigitChar(n % 10)]
  }

  /** strconv.FormatInt(n, 10): a '-' before the digits of a negative number. */
  function FormatInt(n: int): Str
  {
    if n < 0 then "-" + FormatNat(-n) else FormatNat(n)
  }

  function DigitValue(c: byte): (d: nat)
    requires IsDigit(c)
    ensures d < 10
  {
    c as int - '0' as int
  }

  /** The value of a string of decimal digits. */
  function DigitsValue(s: Str): nat
    requires forall i | 0 <= i < |s| :: IsDigit(s[i])
  {
    if |s| == 0 then 0 else 10 * DigitsValue(s[..|s| - 1]) + DigitValue(s[|s| - 1])
  }

  /** A decimal integer: an optional '-' and one or more digits. */
  function ParseDecimal(s: Str): Option<int>
  {
    var neg := |s| > 0 && s[0] == '-';
    var digits := if neg then s[1..] else s;
    if |digits| > 0 && forall i | 0 <= i < |digits| :: IsDigit(digits[i]) then
      var v: int := DigitsValue(digits);
      Some(if neg then -v else v)
    else None
  }

  lemma {:induction false} FormatNatValue(n: nat)
    ensures DigitsValue(FormatNat(n)) == n
  {
    if n >= 10 {
      var r := FormatNat(n);
      assert r[..|r| - 1] == FormatNat(n / 10);
      FormatNatValue(n / 10);
    }
  }

  /** Reading back the decimal rendering gives the number, negative numbers included. */
  lemma FormatIntRoundTrip(n: int)
    ensures ParseDecimal(FormatInt(n)) == Some(n)
  {
    FormatNatValue(if n < 0 then -n else n);
    if n < 0 {
      assert FormatInt(n)[1..] == FormatNat(-n);
    }
  }
}
