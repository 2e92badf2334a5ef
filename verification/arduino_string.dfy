/** The parts of the Arduino `String` class the request handler uses, on `seq<char>`.
    `indexOf` searches from an offset to the end of the text, and `toInt` is C's `atol`.
    The strings are taken to hold no NUL character, before which the C search functions
    behind `indexOf` would stop. */
module ArduinoString {
  import opened Decimal

  /** `pat` occurs in `s` starting at position `i`. */
  predicate OccursAt(s: string, pat: string, i: int) {
    0 <= i && i + |pat| <= |s| && forall j :: 0 <= j < |pat| ==> s[i + j] == pat[j]
  }

  /** `s.indexOf(pat, from)`: the first position at or after `from` where `pat` occurs,
      or -1 when there is none; an offset past the last character always gives -1. */
  function IndexOf(s: string, pat: string, from: nat): (r: int)
    ensures r == -1 || (from <= r < |s| && OccursAt(s, pat, r))
    decreases |s| - from
  {
    if from >= |s| then -1
    else if OccursAt(s, pat, from) then from
    else IndexOf(s, pat, from + 1)
  }

  /** No occurrence lies between `from` and the result of `indexOf`: it is the first
      one, and -1 means there is none before the end. */
  lemma {:induction false} IndexOfIsFirst(s: string, pat: string, from: nat)
    ensures var r := IndexOf(s, pat, from);
            forall i :: from <= i < (if r == -1 then |s| else r) ==> !OccursAt(s, pat, i)
    decreases |s| - from
  {
    if from < |s| && !OccursAt(s, pat, from) {
      IndexOfIsFirst(s, pat, from + 1);
    }
  }

  /** `indexOf` returns the first occurrence: any occurrence at `k` with none before it. */
  lemma IndexOfFirst(s: string, pat: string, from: nat, k: int)
    requires from <= k < |s| && OccursAt(s, pat, k)
    requires forall i :: from <= i < k ==> !OccursAt(s, pat, i)
    ensures IndexOf(s, pat, from) == k
  {
    IndexOfIsFirst(s, pat, from);
  }

  /** `s.startsWith(p)`. */
  predicate StartsWith(s: string, p: string)
    ensures StartsWith(s, p) <==> OccursAt(s, p, 0)
  {
    |p| <= |s| && s[..|p|] == p
  }

  /** `s.substring(left, right)`: bounds given in either order, an empty result when
      the lower bound is past the end, the upper bound cut back to the length. */
  function Substring(s: string, left: nat, right: nat): (r: string)
    ensures |r| <= |s|
    ensures left <= right <= |s| ==> r == s[left..right]
    ensures right < left <= |s| ==> r == s[right..left]
  {
    if left > right then Substring(s, right, left)
    else if left >= |s| then ""
    else if right > |s| then s[left..]
    else s[left..right]
  }

  /** C `isspace` on the characters a request line can carry. */
  predicate IsSpace(c: char) {
    c == ' ' || c == '\t' || c == '\n' || c == '\r' || c == '\U{000B}' || c == '\U{000C}'
  }

  /** What is left after the leading white space. */
  function SkipSpaces(s: string): (r: string)
    ensures r == [] || !IsSpace(r[0])
  {
    if |s| > 0 && IsSpace(s[0]) then SkipSpaces(s[1..]) else s
  }

  /** The longest prefix of `s` made of decimal digits. */
  function LeadingDigits(s: string): (d: string)
    ensures AllDigits(d)
  {
    if |s| > 0 && IsDigit(s[0]) then [s[0]] + LeadingDigits(s[1..]) else []
  }

  /** `String::toInt`, that is `atol`: white space, an optional sign, then as many
      digits as follow; 0 when there are none. */
  function ToInt(s: string): (r: int)
    ensures r < 0 ==> |SkipSpaces(s)| > 0 && SkipSpaces(s)[0] == '-'
    ensures |s| > 0 && !IsSpace(s[0]) && !IsDigit(s[0]) && s[0] != '-' && s[0] != '+' ==> r == 0
  {
    var t := SkipSpaces(s);
    if |t| > 0 && (t[0] == '-' || t[0] == '+') then
      var m: int := DigitsValue(LeadingDigits(t[1..]));
      if t[0] == '-' then -m else m
    else
      DigitsValue(LeadingDigits(t))
  }

  /** What `toInt` reads from any numeral: leading white space, an optional sign, a
      possibly empty run of digits (leading zeros allowed), then text that does not go on
      with a digit. The value is the digits' value, negated after `-`; a sign with no
      digits, like blank or non-numeric text, reads as 0. */
  lemma ToIntOfNumeral(w: string, sign: string, d: string, rest: string)
    requires forall i :: 0 <= i < |w| ==> IsSpace(w[i])
    requires sign == "" || sign == "+" || sign == "-"
    requires AllDigits(d)
    requires rest == [] || !IsDigit(rest[0])
    requires sign == "" && d == [] && rest != [] ==> !IsSpace(rest[0]) && rest[0] != '-' && rest[0] != '+'
    ensures ToInt(w + sign + d + rest) == if sign == "-" then -(DigitsValue(d) as int) else DigitsValue(d)
  {
    var t := sign + d + rest;
    assert w + sign + d + rest == w + t;
    SkipSpacesOfBlanks(w, t);
    LeadingDigitsOfDecimal(d, rest);
    if sign == "" {
      assert t == d + rest;
      assert |d| > 0 ==> t[0] == d[0];
    } else {
      assert t[0] == sign[0];
      assert t[1..] == d + rest;
    }
  }

  /** Leading white space is skipped up to the first character that is not white space. */
  lemma {:induction false} SkipSpacesOfBlanks(w: string, t: string)
    requires forall i :: 0 <= i < |w| ==> IsSpace(w[i])
    requires t == [] || !IsSpace(t[0])
    ensures SkipSpaces(w + t) == t
    decreases |w|
  {
    if |w| > 0 {
      assert (w + t)[0] == w[0];
      assert (w + t)[1..] == w[1..] + t;
      SkipSpacesOfBlanks(w[1..], t);
    } else {
      assert w + t == t;
    }
  }

  /** Digits followed by something that is not a digit are read back as exactly those digits. */
  lemma {:induction false} LeadingDigitsOfDecimal(d: string, rest: string)
    requires AllDigits(d)
    requires rest == [] || !IsDigit(rest[0])
    ensures LeadingDigits(d + rest) == d
  {
    if |d| > 0 {
      assert (d + rest)[1..] == d[1..] + rest;
      LeadingDigitsOfDecimal(d[1..], rest);
    } else {
      assert d + rest == rest;
    }
  }

  /** Round trip: `toInt` reads back every integer written in decimal, whatever
      non-digit text follows it. */
  lemma ToIntOfDecimal(n: int, rest: string)
    requires rest == [] || !IsDigit(rest[0])
    ensures ToInt(IntToDecimal(n) + rest) == n
  {
    if n < 0 {
      ToIntOfNegativeDigits(NatToDecimal(-n), rest);
    } else {
      ToIntOfDigits(NatToDecimal(n), rest);
    }
  }

  /** Unsigned digits followed by a non-digit read as the number they denote. */
  lemma ToIntOfDigits(d: string, rest: string)
    requires |d| > 0 && AllDigits(d)
    requires rest == [] || !IsDigit(rest[0])
    ensures ToInt(d + rest) == DigitsValue(d)
  {
    var s := d + rest;
    assert s[0] == d[0];
    assert SkipSpaces(s) == s;
    LeadingDigitsOfDecimal(d, rest);
  }

  /** A minus sign, digits, then a non-digit read as the negated number. */
  lemma ToIntOfNegativeDigits(d: string, rest: string)
    requires AllDigits(d)
    requires rest == [] || !IsDigit(rest[0])
    ensures ToInt("-" + d + rest) == -(DigitsValue(d) as int)
  {
    var s := "-" + d + rest;
    assert SkipSpaces(s) == s;
    assert s[1..] == d + rest;
    LeadingDigitsOfDecimal(d, rest);
  }
}
