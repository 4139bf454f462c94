/** Decimal numerals: Rust's `str::parse` for unsigned integers and `format!("{}", n)`. */
module Numerals {
  import opened Wrappers

  predicate IsDigit(c: char) {
    '0' <= c <= '9'
  }

  predicate AllDigits(s: string) {
    forall i :: 0 <= i < |s| ==> IsDigit(s[i])
  }

  function DigitValue(c: char): (d: nat)
    requires IsDigit(c)
    ensures d < 10
  {
    (c as int) - ('0' as int)
  }

  function DigitChar(d: nat): (c: char)
    requires d < 10
    ensures IsDigit(c) && DigitValue(c) == d
  {
    (('0' as int) + d) as char
  }

  /** The value of a string of ASCII digits, most significant first. */
  function ValueOf(s: string): nat
    requires AllDigits(s)
  {
    if s == [] then 0 else ValueOf(s[..|s| - 1]) * 10 + DigitValue(s[|s| - 1])
  }

  /** `format!("{}", n)`: the shortest decimal numeral of `n`. */
  function Decimal(n: nat): (s: string)
    ensures |s| > 0 && AllDigits(s)
    ensures s[0] != '0' || s == "0"
    ensures ValueOf(s) == n
  {
    if n < 10 then [DigitChar(n)]
    else
      var init := Decimal(n / 10);
      var s := init + [DigitChar(n % 10)];
      assert s[..|s| - 1] == init;
      s
  }

  /**
   * Rust's `FromStr` for an unsigned integer type whose values are below `limit`:
   * an optional leading '+', then one or more ASCII digits (leading zeros allowed),
   * and a value that fits the type; anything else is an error.
   */
  function ParseUnsigned(s: string, limit: nat): (r: Option<nat>)
    ensures r.Some? ==> r.value < limit
    ensures r.Some? && AllDigits(s) ==> r.value == ValueOf(s)
    ensures AllDigits(s) && |s| > 0 && ValueOf(s) < limit ==> r == Some(ValueOf(s))
  {
    var digits := if |s| > 0 && s[0] == '+' then s[1..] else s;
    if |digits| > 0 && AllDigits(digits) && ValueOf(digits) < limit then Some(ValueOf(digits))
    else None
  }

  /** Parsing the rendering of a value that fits gives the value back. */
  lemma ParseDecimal(n: nat, limit: nat)
    requires n < limit
    ensures ParseUnsigned(Decimal(n), limit) == Some(n)
  {
  }

  /** A string containing a character other than a digit or a leading '+' never parses. */
  lemma ParseRejectsNonDigit(s: string, limit: nat, k: nat)
    requires k < |s| && !IsDigit(s[k]) && (k > 0 || s[k] != '+')
    ensures ParseUnsigned(s, limit) == None
  {
    if |s| > 0 && s[0] == '+' {
      assert !IsDigit(s[1..][k - 1]);
    } else {
      assert !IsDigit(s[k]);
    }
  }

  /** Two values with the same rendering are equal. */
  lemma DecimalInjective(m: nat, n: nat)
    requires Decimal(m) == Decimal(n)
    ensures m == n
  {
  }
}
