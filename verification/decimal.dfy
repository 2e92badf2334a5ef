/** Decimal digit strings: how an integer is written in base ten (as a JavaScript
    template literal renders an integral number) and the value a run of digits denotes. */
module Decimal {

  predicate IsDigit(c: char) {
    '0' <= c <= '9'
  }

  predicate AllDigits(s: string) {
    forall i :: 0 <= i < |s| ==> IsDigit(s[i])
  }

  function DigitValue(c: char): nat
    requires IsDigit(c)
  {
    c as int - '0' as int
  }

  function DigitChar(n: nat): (c: char)
    requires n < 10
    ensures IsDigit(c) && DigitValue(c) == n
  {
    ('0' as int + n) as char
  }

  /** The number a run of decimal digits denotes, most significant digit first. */
  function DigitsValue(d: string): nat
    requires AllDigits(d)
  {
    if |d| == 0 then 0 else 10 * DigitsValue(d[..|d| - 1]) + DigitValue(d[|d| - 1])
  }

  /** Base-ten rendering of a natural number without leading zeros; reading it back gives `n`. */
  function NatToDecimal(n: nat): (d: string)
    ensures |d| > 0 && AllDigits(d)
    ensures d[0] == '0' ==> n == 0
    ensures DigitsValue(d) == n
    decreases n
  {
    if n < 10 then [DigitChar(n)]
    else
      var prefix := NatToDecimal(n / 10);
      var d := prefix + [DigitChar(n % 10)];
      assert d[..|d| - 1] == prefix;
      d
  }

  /** `${n}` for an integral JavaScript number: a minus sign, then the digits of `|n|`. */
  function IntToDecimal(n: int): (s: string)
    ensures |s| > 0
    ensures n < 0 <==> s[0] == '-'
  {
    if n < 0 then "-" + NatToDecimal(-n) else NatToDecimal(n)
  }

  /** The rendering is a sign followed by digits, and the digits denote `|n|`. */
  lemma IntToDecimalDigits(n: int)
    ensures var s := IntToDecimal(n);
            && (n >= 0 ==> AllDigits(s) && DigitsValue(s) == n)
            && (n < 0 ==> AllDigits(s[1..]) && DigitsValue(s[1..]) == -n)
            && (forall i :: 0 <= i < |s| ==> s[i] == '-' || IsDigit(s[i]))
  {
    if n < 0 {
      var d := NatToDecimal(-n);
      assert IntToDecimal(n)[1..] == d;
      assert forall i :: 1 <= i < |d| + 1 ==> ("-" + d)[i] == d[i - 1];
    }
  }
}
