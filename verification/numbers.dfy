/**
 * The numeric side of the stock schema: JavaScript's safe-integer range,
 * lodash `toSafeInteger`, and a decimal reader standing in for the
 * string-to-number conversion Joi's `number()` performs.
 */
module Numbers {
  import opened Options

  /** `Number.MAX_SAFE_INTEGER`, 2^53 - 1. */
  const MaxSafeInteger: int := 9007199254740991

  predicate IsSafeInteger(x: int) {
    -MaxSafeInteger <= x <= MaxSafeInteger
  }

  function Max(a: int, b: int): (r: int)
    ensures r >= a && r >= b
    ensures r == a || r == b
  {
    if a >= b then a else b
  }

  /** lodash `toSafeInteger` on an integer: clamps into the safe range. */
  function ToSafeInteger(x: int): (r: int)
    ensures IsSafeInteger(r)
    ensures IsSafeInteger(x) ==> r == x
    ensures x > MaxSafeInteger ==> r == MaxSafeInteger
    ensures x < -MaxSafeInteger ==> r == -MaxSafeInteger
  {
    if x > MaxSafeInteger then MaxSafeInteger
    else if x < -MaxSafeInteger then -MaxSafeInteger
    else x
  }

  predicate IsDigit(c: char) {
    '0' <= c <= '9'
  }

  predicate AllDigits(s: string) {
    forall i :: 0 <= i < |s| ==> IsDigit(s[i])
  }

  function DigitValue(c: char): (r: nat)
    requires IsDigit(c)
    ensures r < 10
  {
    (c as int) - ('0' as int)
  }

  function DigitChar(d: nat): (c: char)
    requires d < 10
    ensures IsDigit(c) && DigitValue(c) == d
  {
    (('0' as int) + d) as char
  }

  /** The value of a string of decimal digits, most significant first. */
  function DigitsValue(ds: string): nat
    requires AllDigits(ds)
  {
    if ds == [] then 0 else DigitsValue(ds[..|ds| - 1]) * 10 + DigitValue(ds[|ds| - 1])
  }

  function Pow10(n: nat): (r: nat)
    ensures r >= 1
  {
    if n == 0 then 1 else 10 * Pow10(n - 1)
  }

  /** The number of leading decimal digits of `s`. */
  function LeadingDigits(s: string): (k: nat)
    ensures k <= |s| && AllDigits(s[..k])
    ensures k == |s| || !IsDigit(s[k])
  {
    if s == [] || !IsDigit(s[0]) then 0
    else
      var k := 1 + LeadingDigits(s[1..]);
      assert s[..k] == [s[0]] + s[1..][..k - 1];
      k
  }

  /**
   * An unsigned decimal: `digits`, `digits.`, `digits.digits` or `.digits`.
   */
  function ParseUnsigned(s: string): (r: Option<real>)
    ensures r.Some? ==> r.value >= 0.0
    ensures AllDigits(s) ==> r == (if s == [] then None else Some(DigitsValue(s) as real))
  {
    var k := LeadingDigits(s);
    if k == |s| then
      assert s[..k] == s;
      if k > 0 then Some(DigitsValue(s) as real) else None
    else if s[k] == '.' && AllDigits(s[k + 1..]) && (k > 0 || k + 1 < |s|) then
      var frac := s[k + 1..];
      Some(DigitsValue(s[..k]) as real + (DigitsValue(frac) as real) / (Pow10(|frac|) as real))
    else None
  }

  /**
   * Reads an optionally signed decimal. This stands in for the pattern Joi's
   * number conversion accepts, without the exponent part.
   */
  function ParseDecimal(s: string): (r: Option<real>)
    ensures r.Some? ==> |s| > 0
    ensures r.Some? && s[0] != '-' ==> r.value >= 0.0
  {
    if |s| > 0 && (s[0] == '+' || s[0] == '-') then
      match ParseUnsigned(s[1..])
      case None => None
      case Some(v) => Some(if s[0] == '-' then -v else v)
    else ParseUnsigned(s)
  }

  /** The canonical decimal text of a natural number. */
  function DecimalText(n: nat): (r: string)
    ensures |r| > 0 && AllDigits(r)
    decreases n
  {
    if n < 10 then [DigitChar(n)] else DecimalText(n / 10) + [DigitChar(n % 10)]
  }

  lemma {:induction false} DigitsValueOfDecimalText(n: nat)
    ensures DigitsValue(DecimalText(n)) == n
    decreases n
  {
    var t := DecimalText(n);
    if n >= 10 {
      DigitsValueOfDecimalText(n / 10);
      assert t[..|t| - 1] == DecimalText(n / 10);
    } else {
      assert t[..|t| - 1] == [];
    }
  }

  /** Reading back the decimal text of `n` gives `n`; a leading `+` changes nothing and `-` negates. */
  lemma ParseDecimalText(n: nat)
    ensures ParseDecimal(DecimalText(n)) == Some(n as real)
    ensures ParseDecimal("+" + DecimalText(n)) == Some(n as real)
    ensures ParseDecimal("-" + DecimalText(n)) == Some(-(n as real))
  {
    var t := DecimalText(n);
    DigitsValueOfDecimalText(n);
    assert ("+" + t)[1..] == t;
    assert ("-" + t)[1..] == t;
  }
}
