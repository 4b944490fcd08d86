/**
 * Decimal numerals: str() of a non-negative integer, and the int() and float()
 * conversions the program applies to typed input and to the price column.
 */
module Numbers {
  import opened Wrappers
  import opened Text

  predicate IsDigit(c: char) {
    '0' <= c <= '9'
  }

  predicate AllDigits(s: string) {
    forall i :: 0 <= i < |s| ==> IsDigit(s[i])
  }

  function DigitChar(d: nat): (c: char)
    requires d < 10
    ensures IsDigit(c)
  {
    ('0' as int + d) as char
  }

  /** The value of a string of decimal digits, most significant first. */
  function DigitsValue(s: string): nat
    requires AllDigits(s)
  {
    if s == [] then 0 else DigitsValue(s[..|s| - 1]) * 10 + (s[|s| - 1] as int - '0' as int)
  }

  /** str(n) for a non-negative integer n. */
  function NatToString(n: nat): (r: string)
    ensures |r| >= 1 && AllDigits(r)
    decreases n
  {
    if n < 10 then [DigitChar(n)] else NatToString(n / 10) + [DigitChar(n % 10)]
  }

  /** Reading back the digits str(n) writes gives n. */
  lemma {:induction false} NatToStringValue(n: nat)
    ensures DigitsValue(NatToString(n)) == n
  {
    if n >= 10 {
      NatToStringValue(n / 10);
      var s := NatToString(n);
      assert s[..|s| - 1] == NatToString(n / 10);
    }
  }

  function Pow10(k: nat): (p: nat)
    ensures p >= 1
  {
    if k == 0 then 1 else 10 * Pow10(k - 1)
  }

  /** Splits a leading '+' or '-' from a numeral; the flag says whether it was '-'. */
  function SplitSign(t: string): (r: (bool, string))
    ensures |r.1| <= |t|
  {
    if |t| > 0 && (t[0] == '-' || t[0] == '+') then (t[0] == '-', t[1..]) else (false, t)
  }

  /** int(s) on a decimal numeral: optional surrounding whitespace, an optional sign, one or more digits. */
  function ParseInt(s: string): Option<int> {
    var (negative, body) := SplitSign(Strip(s));
    if |body| >= 1 && AllDigits(body) then
      var v: int := DigitsValue(body);
      Some(if negative then -v else v)
    else
      None
  }

  /** The position of the first '.' in s, or |s| when there is none. */
  function IndexOfDot(s: string): (k: nat)
    ensures k <= |s|
    ensures forall i :: 0 <= i < k ==> s[i] != '.'
    ensures k < |s| ==> s[k] == '.'
  {
    if s == [] || s[0] == '.' then 0 else 1 + IndexOfDot(s[1..])
  }

  /** An unsigned decimal: digits, or digits '.' digits with at least one digit in all. */
  function UnsignedDecimal(b: string): Option<real> {
    var k := IndexOfDot(b);
    if k == |b| then
      if |b| >= 1 && AllDigits(b) then Some(DigitsValue(b) as real) else None
    else
      var whole, fraction := b[..k], b[k + 1..];
      if |whole| + |fraction| >= 1 && AllDigits(whole) && AllDigits(fraction) then
        Some(DigitsValue(whole) as real + DigitsValue(fraction) as real / Pow10(|fraction|) as real)
      else
        None
  }

  /** float(s) on a decimal numeral: optional surrounding whitespace, an optional sign, an unsigned decimal. */
  function ParseFloat(s: string): Option<real> {
    var (negative, body) := SplitSign(Strip(s));
    match UnsignedDecimal(body)
    case None => None
    case Some(v) => Some(if negative then -v else v)
  }

  /** float() strips its argument itself, so stripping first changes nothing. */
  lemma ParseFloatIgnoresStrip(s: string)
    ensures ParseFloat(Strip(s)) == ParseFloat(s)
  {
    StripIdempotent(s);
  }

  lemma DigitsUnchangedByStrip(s: string)
    requires |s| >= 1 && AllDigits(s)
    ensures Strip(s) == s && SplitSign(s) == (false, s)
  {
    assert IsDigit(s[0]) && IsDigit(s[|s| - 1]);
    StripUnchanged(s);
  }

  /** int(str(n)) == n. */
  lemma ParseIntOfNatToString(n: nat)
    ensures ParseInt(NatToString(n)) == Some(n)
  {
    DigitsUnchangedByStrip(NatToString(n));
    NatToStringValue(n);
  }

  /** float(str(n)) == n. */
  lemma ParseFloatOfNatToString(n: nat)
    ensures ParseFloat(NatToString(n)) == Some(n as real)
  {
    var s := NatToString(n);
    DigitsUnchangedByStrip(s);
    UnsignedDecimalOfDigits(s);
    NatToStringValue(n);
  }

  /** A plain string of digits reads as its integer value. */
  lemma UnsignedDecimalOfDigits(b: string)
    requires |b| >= 1 && AllDigits(b)
    ensures UnsignedDecimal(b) == Some(DigitsValue(b) as real)
  {
  }
}
