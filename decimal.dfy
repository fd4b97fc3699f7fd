/**
  Base-10 formatting of signed integers, standing in for the library call
  that renders an int64 in decimal (strconv.FormatInt(v, 10)): an optional
  leading '-', then the digits of the magnitude with no leading zeros.

  ParseCanonical is the independent inverse used to show that the format
  loses no information: every integer has exactly one canonical numeral.
*/
module Decimal {

  import opened Wrappers

  predicate IsDigit(c: char) {
    '0' <= c <= '9'
  }

  predicate AllDigits(s: string) {
    forall k :: 0 <= k < |s| ==> IsDigit(s[k])
  }

  /** A canonical unsigned numeral: non-empty, digits only, and no leading zero unless it is "0". */
  predicate Canonical(s: string) {
    |s| >= 1 && AllDigits(s) && (s[0] == '0' ==> |s| == 1)
  }

  function DigitValue(c: char): (d: nat)
    requires IsDigit(c)
    ensures d < 10
  {
    c as int - '0' as int
  }

  function DigitChar(d: nat): (c: char)
    requires d < 10
    ensures IsDigit(c) && DigitValue(c) == d
  {
    ('0' as int + d) as char
  }

  /** The value a string of digits denotes, most significant digit first. */
  function DigitsValue(s: string): nat
    requires AllDigits(s)
    decreases |s|
  {
    if s == [] then 0 else DigitsValue(s[..|s| - 1]) * 10 + DigitValue(s[|s| - 1])
  }

  /** The decimal digits of n, most significant first. */
  function NatDigits(n: nat): (s: string)
    ensures Canonical(s)
    ensures s[0] == '0' <==> n == 0
    decreases n
  {
    if n < 10 then [DigitChar(n)] else NatDigits(n / 10) + [DigitChar(n % 10)]
  }

  /** Decimal rendering of a signed integer, as strconv.FormatInt(i, 10) produces it. */
  function FormatInt(i: int): (s: string)
    ensures |s| >= 1
    ensures s[0] == '-' <==> i < 0
    ensures i < 0 ==> Canonical(s[1..]) && s[1] != '0'
    ensures i >= 0 ==> Canonical(s)
  {
    if i < 0 then "-" + NatDigits(-i) else NatDigits(i)
  }

  /** Reads back exactly the numerals FormatInt can produce; anything else is None. */
  function ParseCanonical(s: string): Option<int> {
    if |s| >= 1 && s[0] == '-' then
      if Canonical(s[1..]) && s[1] != '0' then Some(-(DigitsValue(s[1..]) as int)) else None
    else if Canonical(s) then Some(DigitsValue(s))
    else None
  }

  lemma {:induction false} NatDigitsValue(n: nat)
    ensures DigitsValue(NatDigits(n)) == n
    decreases n
  {
    if n >= 10 {
      NatDigitsValue(n / 10);
      var s := NatDigits(n);
      assert s[..|s| - 1] == NatDigits(n / 10);
    }
  }

  lemma {:induction false} LeadingDigitPositive(s: string)
    requires Canonical(s) && s[0] != '0'
    ensures DigitsValue(s) >= 1
    ensures |s| >= 2 ==> DigitsValue(s) >= 10
    decreases |s|
  {
    if |s| >= 2 {
      var p := s[..|s| - 1];
      assert p[0] == s[0];
      LeadingDigitPositive(p);
    }
  }

  lemma {:induction false} DigitsValueNatDigits(s: string)
    requires Canonical(s)
    ensures NatDigits(DigitsValue(s)) == s
    decreases |s|
  {
    if |s| >= 2 {
      var p := s[..|s| - 1];
      assert p[0] == s[0];
      LeadingDigitPositive(s);
      DigitsValueNatDigits(p);
      assert s == p + [s[|s| - 1]];
    } else {
      assert s == [DigitChar(DigitValue(s[0]))];
    }
  }

  /** Parsing undoes formatting, for every integer. */
  lemma FormatParse(i: int)
    ensures ParseCanonical(FormatInt(i)) == Some(i)
  {
    if i < 0 {
      NatDigitsValue(-i);
      assert FormatInt(i)[1..] == NatDigits(-i);
    } else {
      NatDigitsValue(i);
    }
  }

  /** Formatting undoes parsing: FormatInt's image is exactly the canonical numerals. */
  lemma ParseFormat(s: string)
    requires ParseCanonical(s).Some?
    ensures FormatInt(ParseCanonical(s).value) == s
  {
    if |s| >= 1 && s[0] == '-' {
      LeadingDigitPositive(s[1..]);
      DigitsValueNatDigits(s[1..]);
      assert s == "-" + s[1..];
    } else {
      DigitsValueNatDigits(s);
    }
  }

  /** Distinct integers never share a rendering. */
  lemma FormatIntInjective(i: int, j: int)
    ensures FormatInt(i) == FormatInt(j) ==> i == j
  {
    FormatParse(i);
    FormatParse(j);
  }
}
