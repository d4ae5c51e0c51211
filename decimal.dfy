/**
 * Python's `int(text)` on the decimal text nmap gives for an uptime, and
 * the decimal rendering it inverts.
 */
module Decimal {

  predicate IsDigit(c: char) { '0' <= c <= '9' }

  /** Non-empty text made of ASCII digits only: the inputs `int()` is applied to here. */
  predicate IsDecimal(s: string) {
    |s| > 0 && forall i :: 0 <= i < |s| ==> IsDigit(s[i])
  }

  function DigitValue(c: char): (d: nat)
    requires IsDigit(c)
    ensures d < 10
  {
    (c as int - '0' as int) as nat
  }

  function DigitChar(d: nat): (c: char)
    requires d < 10
    ensures IsDigit(c) && DigitValue(c) == d
  {
    ('0' as int + d) as char
  }

  function Pow10(k: nat): (p: nat)
    ensures p >= 1
  {
    if k == 0 then 1 else 10 * Pow10(k - 1)
  }

  /** The value of a decimal numeral, most significant digit first (leading zeros allowed). */
  function ParseDecimal(s: string): (n: nat)
    requires IsDecimal(s)
    ensures n < Pow10(|s|)
    decreases |s|
  {
    if |s| == 1 then DigitValue(s[0])
    else 10 * ParseDecimal(s[..|s| - 1]) + DigitValue(s[|s| - 1])
  }

  /** The canonical decimal numeral of `n`, without leading zeros. */
  function DecimalString(n: nat): (s: string)
    ensures IsDecimal(s)
    ensures |s| > 1 ==> s[0] != '0'
    decreases n
  {
    if n < 10 then [DigitChar(n)] else DecimalString(n / 10) + [DigitChar(n % 10)]
  }

  /** `int(str(n)) == n`: parsing the canonical numeral gives the number back. */
  lemma {:induction false} ParseDecimalString(n: nat)
    ensures ParseDecimal(DecimalString(n)) == n
    decreases n
  {
    if n >= 10 {
      var s := DecimalString(n);
      assert s[..|s| - 1] == DecimalString(n / 10);
      ParseDecimalString(n / 10);
    }
  }

  /** Leading zeros do not change the value, as with `int("007") == 7`. */
  lemma {:induction false} ParseLeadingZero(s: string)
    requires IsDecimal(s)
    ensures IsDecimal("0" + s) && ParseDecimal("0" + s) == ParseDecimal(s)
    decreases |s|
  {
    var z := "0" + s;
    assert IsDecimal(z) by {
      forall i | 0 <= i < |z| ensures IsDigit(z[i]) {
        if i > 0 { assert z[i] == s[i - 1]; }
      }
    }
    if |s| == 1 {
      assert z[..1] == "0";
    } else {
      assert z[..|z| - 1] == "0" + s[..|s| - 1];
      ParseLeadingZero(s[..|s| - 1]);
    }
  }
}
