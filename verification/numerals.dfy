/**
  Decimal numerals: the value `Integer.valueOf` reads from a digit string and
  the text `Integer.toString` writes for a number.
 */
module Numerals {

  predicate IsDigit(c: char) {
    '0' <= c <= '9'
  }

  predicate Digits(s: string) {
    forall i :: 0 <= i < |s| ==> IsDigit(s[i])
  }

  function DigitValue(c: char): (d: nat)
    requires IsDigit(c)
    ensures d < 10
  {
    c as int - '0' as int
  }

  function DigitChar(d: nat): (c: char)
    requires d < 10
    ensures IsDigit(c) && DigitValue(c) == d
  {
    ('0' as int + d) as char
  }

  /** The number a digit string denotes; leading zeros are allowed, as in `Integer.valueOf("05")`. */
  function Value(s: string): nat
    requires Digits(s)
  {
    if |s| == 0 then 0 else Value(s[..|s| - 1]) * 10 + DigitValue(s[|s| - 1])
  }

  /** A numeral without superfluous leading zeros. */
  predicate Canonical(s: string) {
    0 < |s| && Digits(s) && (|s| == 1 || s[0] != '0')
  }

  /** The decimal text of `n`, which reads back as `n` and has no leading zero. */
  function NatToString(n: nat): (r: string)
    ensures Canonical(r)
    ensures Value(r) == n
  {
    if n < 10 then [DigitChar(n)]
    else
      var prefix := NatToString(n / 10);
      assert (prefix + [DigitChar(n % 10)])[..|prefix|] == prefix;
      prefix + [DigitChar(n % 10)]
  }

  /** A numeral is at least its leading digit. */
  lemma {:induction false} ValueAtLeastLeadingDigit(s: string)
    requires 0 < |s| && Digits(s)
    ensures Value(s) >= DigitValue(s[0])
    decreases |s|
  {
    if |s| > 1 {
      ValueAtLeastLeadingDigit(s[..|s| - 1]);
    }
  }

  /** Writing the value of a canonical numeral gives the numeral back. */
  lemma {:induction false} CanonicalRoundTrip(s: string)
    requires Canonical(s)
    ensures NatToString(Value(s)) == s
    decreases |s|
  {
    if |s| > 1 {
      var prefix := s[..|s| - 1];
      assert Canonical(prefix);
      ValueAtLeastLeadingDigit(prefix);
      CanonicalRoundTrip(prefix);
      assert s == prefix + [s[|s| - 1]];
    }
  }
}
