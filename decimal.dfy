/** Decimal text of an integer, as Python's str(int) writes it: an optional
    '-' and then digits with no leading zero (except for zero itself). */
module Decimal {

  predicate IsDigit(c: char) {
    '0' <= c <= '9'
  }

  predicate AllDigits(s: string) {
    forall i :: 0 <= i < |s| ==> IsDigit(s[i])
  }

  function DigitChar(d: nat): (c: char)
    requires d < 10
    ensures IsDigit(c) && (c as int) - ('0' as int) == d
  {
    (('0' as int) + d) as char
  }

  function DigitValue(c: char): (d: nat)
    requires IsDigit(c)
    ensures d < 10 && DigitChar(d) == c
  {
    (c as int) - ('0' as int)
  }

  /** Digits of a natural number, most significant first. */
  function NatString(n: nat): (s: string)
    ensures |s| >= 1 && AllDigits(s)
    ensures s[0] == '0' ==> n == 0 && |s| == 1
    decreases n
  {
    if n < 10 then [DigitChar(n)] else NatString(n / 10) + [DigitChar(n % 10)]
  }

  /** str(n) for a Python int. */
  function IntString(n: int): (s: string)
  {
    if n < 0 then "-" + NatString(-n) else NatString(n)
  }

  /** Digits without a leading zero, unless the text is "0" itself. */
  predicate IsNatText(d: string) {
    |d| > 0 && AllDigits(d) && (d[0] == '0' ==> |d| == 1)
  }

  /** The well-formed decimal texts: an optional '-' before canonical digits,
      and no "-0". IntStringRoundTrip and DecimalIsIntString show these are
      exactly the texts IntString produces. */
  predicate IsDecimal(s: string) {
    if |s| > 0 && s[0] == '-' then IsNatText(s[1..]) && s[1] != '0' else IsNatText(s)
  }

  function ParseNat(s: string): nat
    requires AllDigits(s)
  {
    if |s| == 0 then 0 else ParseNat(s[..|s| - 1]) * 10 + DigitValue(s[|s| - 1])
  }

  /** int(s) for a well-formed decimal text. */
  function ParseInt(s: string): int
    requires IsDecimal(s)
  {
    if s[0] == '-' then - (ParseNat(s[1..]) as int) else ParseNat(s)
  }

  lemma {:induction false} ParseNatString(n: nat)
    ensures ParseNat(NatString(n)) == n
    decreases n
  {
    if n >= 10 {
      var s := NatString(n);
      assert s[..|s| - 1] == NatString(n / 10);
      ParseNatString(n / 10);
    }
  }

  /** str(n) is a well-formed decimal text with no decimal point, and int() reads n back. */
  lemma IntStringRoundTrip(n: int)
    ensures IsDecimal(IntString(n)) && '.' !in IntString(n)
    ensures ParseInt(IntString(n)) == n
  {
    var s := IntString(n);
    if n < 0 {
      assert s[1..] == NatString(-n);
      ParseNatString(-n);
    } else {
      ParseNatString(n);
    }
    assert forall i :: 0 <= i < |s| ==> IsDigit(s[i]) || (i == 0 && s[i] == '-') by {
      if n < 0 { assert forall i :: 1 <= i < |s| ==> s[i] == s[1..][i - 1]; }
    }
  }

  /** Digits with a nonzero first digit read as a positive number. */
  lemma {:induction false} ParseNatPositive(d: string)
    requires |d| > 0 && AllDigits(d) && d[0] != '0'
    ensures ParseNat(d) > 0
    decreases |d|
  {
    if |d| > 1 {
      ParseNatPositive(d[..|d| - 1]);
    } else {
      assert DigitChar(DigitValue(d[0])) == d[0];
    }
  }

  /** Canonical digits are the digits of the number they read as. */
  lemma {:induction false} NatStringParse(d: string)
    requires IsNatText(d)
    ensures NatString(ParseNat(d)) == d
    decreases |d|
  {
    var c := d[|d| - 1];
    if |d| > 1 {
      var q := d[..|d| - 1];
      assert IsNatText(q);
      NatStringParse(q);
      ParseNatPositive(q);
      var v := ParseNat(d);
      assert v == ParseNat(q) * 10 + DigitValue(c);
      assert v / 10 == ParseNat(q) && v % 10 == DigitValue(c);
      assert NatString(v) == NatString(ParseNat(q)) + [DigitChar(DigitValue(c))];
      assert d == q + [c];
    }
  }

  /** Every well-formed decimal text is str() of the number it reads as. */
  lemma DecimalIsIntString(s: string)
    requires IsDecimal(s)
    ensures IntString(ParseInt(s)) == s
  {
    if s[0] == '-' {
      var d := s[1..];
      NatStringParse(d);
      ParseNatPositive(d);
      assert s == "-" + d;
    } else {
      NatStringParse(s);
    }
  }

  /** Distinct years give distinct texts. */
  lemma IntStringInjective(a: int, b: int)
    requires IntString(a) == IntString(b)
    ensures a == b
  {
    IntStringRoundTrip(a);
    IntStringRoundTrip(b);
  }
}
