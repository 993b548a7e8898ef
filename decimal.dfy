/** Decimal text for integers: PHP's int-to-string conversion and the
    (int) cast of a string, which reads an optional sign and the leading
    digits after leading whitespace and yields 0 when there are none. */
module Decimal {

  predicate IsDigit(c: char) {
    '0' <= c <= '9'
  }

  predicate AllDigits(s: string) {
    forall i :: 0 <= i < |s| ==> IsDigit(s[i])
  }

  function DigitValue(c: char): (d: nat)
    requires IsDigit(c)
    ensures d < 10
  {
    c as int - '0' as int
  }

  function DigitChar(d: nat): (c: char)
    requires d < 10
    ensures IsDigit(c) && DigitValue(c) == d
  {
    (d + '0' as int) as char
  }

  /** The decimal digits of n, most significant first, without leading zeros. */
  function NatToString(n: nat): (s: string)
    ensures |s| > 0 && AllDigits(s)
    ensures |s| > 1 ==> s[0] != '0'
  {
    if n < 10 then [DigitChar(n)] else NatToString(n / 10) + [DigitChar(n % 10)]
  }

  /** PHP's string form of an integer: a minus sign for negative values. */
  function IntToString(i: int): (s: string)
    ensures |s| > 0
    ensures i >= 0 ==> AllDigits(s)
    ensures i < 0 ==> s[0] == '-' && AllDigits(s[1..])
  {
    if i < 0 then "-" + NatToString(-i) else NatToString(i)
  }

  /** The value of a string of digits, read most significant first. */
  function DigitsValue(s: string): nat
    requires AllDigits(s)
  {
    if s == [] then 0 else DigitsValue(s[..|s| - 1]) * 10 + DigitValue(s[|s| - 1])
  }

  /** The longest prefix of s made of digits. */
  function LeadingDigits(s: string): (p: string)
    ensures p <= s && AllDigits(p)
    ensures |p| < |s| ==> !IsDigit(s[|p|])
  {
    if s != [] && IsDigit(s[0]) then [s[0]] + LeadingDigits(s[1..]) else []
  }

  predicate IsSpace(c: char) {
    c == ' ' || c == '\t' || c == '\n' || c == '\r' || c == '\U{000B}' || c == '\U{000C}'
  }

  function SkipSpace(s: string): (t: string)
    ensures |t| <= |s| && t == s[|s| - |t|..]
    ensures t != [] ==> !IsSpace(t[0])
  {
    if s != [] && IsSpace(s[0]) then SkipSpace(s[1..]) else s
  }

  /** PHP's (int) cast of a string. */
  function ParseInt(s: string): int {
    var t := SkipSpace(s);
    if t != [] && t[0] == '-' then -(DigitsValue(LeadingDigits(t[1..])) as int)
    else if t != [] && t[0] == '+' then DigitsValue(LeadingDigits(t[1..]))
    else DigitsValue(LeadingDigits(t))
  }

  lemma {:induction false} DigitsValueOfNatToString(n: nat)
    ensures DigitsValue(NatToString(n)) == n
  {
    if n >= 10 {
      DigitsValueOfNatToString(n / 10);
      var s := NatToString(n);
      assert s[..|s| - 1] == NatToString(n / 10);
    }
  }

  lemma {:induction false} LeadingDigitsOfDigits(s: string)
    requires AllDigits(s)
    ensures LeadingDigits(s) == s
  {
    if s != [] {
      LeadingDigitsOfDigits(s[1..]);
    }
  }

  /** A string of digits, read by the cast, gives its value. */
  lemma ParseDigits(s: string)
    requires AllDigits(s) && s != []
    ensures ParseInt(s) == DigitsValue(s)
  {
    assert SkipSpace(s) == s;
    LeadingDigitsOfDigits(s);
  }

  /** A minus sign before a string of digits negates its value. */
  lemma ParseNegative(s: string)
    requires AllDigits(s)
    ensures ParseInt("-" + s) == -(DigitsValue(s) as int)
  {
    var t := "-" + s;
    assert SkipSpace(t) == t;
    assert t[1..] == s;
    LeadingDigitsOfDigits(s);
  }

  lemma ParseNatToString(n: nat)
    ensures ParseInt(NatToString(n)) == n
  {
    var s := NatToString(n);
    ParseDigits(s);
    DigitsValueOfNatToString(n);
  }

  lemma ParseNegatedNatToString(i: int)
    requires i < 0
    ensures ParseInt("-" + NatToString(-i)) == i
  {
    var s := NatToString(-i);
    ParseNegative(s);
    DigitsValueOfNatToString(-i);
  }

  lemma IntToStringSplit(i: int)
    ensures i < 0 ==> IntToString(i) == "-" + NatToString(-i)
    ensures i >= 0 ==> IntToString(i) == NatToString(i)
  {
  }

  /** Reading back the string form of an integer gives the integer. */
  lemma ParseIntOfIntToString(i: int)
    ensures ParseInt(IntToString(i)) == i
  {
    IntToStringSplit(i);
    if i < 0 {
      ParseNegatedNatToString(i);
    } else {
      ParseNatToString(i);
    }
  }

  /** Distinct integers have distinct string forms. */
  lemma IntToStringInjective(i: int, j: int)
    requires IntToString(i) == IntToString(j)
    ensures i == j
  {
    ParseIntOfIntToString(i);
    ParseIntOfIntToString(j);
  }
}
