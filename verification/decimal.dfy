/** How the page renders a length as text: JavaScript's conversion of a
    non-negative integral number to a string, as used by template literals
    (`${length}`) and by assigning a number to `textContent`. */
module Decimal {
  import opened Chars

  predicate IsDigitString(s: string) {
    forall i :: 0 <= i < |s| ==> IsDigit(s[i])
  }

  function DigitChar(d: nat): (c: char)
    requires d < 10
    ensures IsDigit(c)
  {
    ('0' as int + d) as char
  }

  function DigitValue(c: char): (d: nat)
    requires IsDigit(c)
    ensures d < 10 && DigitChar(d) == c
  {
    c as int - '0' as int
  }

  /** The number a string of decimal digits denotes. */
  function ValueOf(s: string): nat
    requires IsDigitString(s)
    decreases |s|
  {
    if s == [] then 0 else ValueOf(s[..|s| - 1]) * 10 + DigitValue(s[|s| - 1])
  }

  /** The decimal rendering of `n`: a non-empty string of digits, without a
      leading zero unless it is "0", that denotes `n`. */
  function NatToString(n: nat): (r: string)
    ensures |r| >= 1 && IsDigitString(r)
    ensures r[0] == '0' ==> n == 0 && r == "0"
    ensures ValueOf(r) == n
    decreases n
  {
    if n < 10 then
      [DigitChar(n)]
    else
      var r := NatToString(n / 10) + [DigitChar(n % 10)];
      assert r[..|r| - 1] == NatToString(n / 10);
      r
  }

  /** Different numbers render differently. */
  lemma NatToStringInjective(a: nat, b: nat)
    requires NatToString(a) == NatToString(b)
    ensures a == b
  {
  }

  /** A digit string not starting with '0' denotes a positive number. */
  lemma {:induction false} LeadingDigitPositive(s: string)
    requires |s| >= 1 && IsDigitString(s) && s[0] != '0'
    ensures ValueOf(s) > 0
    decreases |s|
  {
    if |s| > 1 {
      var p := s[..|s| - 1];
      LeadingDigitPositive(p);
    }
  }

  /** Every canonical digit string (no leading zero unless it is "0") is the
      rendering of the number it denotes. */
  lemma {:induction false} NatToStringOfValue(s: string)
    requires |s| >= 1 && IsDigitString(s)
    requires s[0] == '0' ==> |s| == 1
    ensures NatToString(ValueOf(s)) == s
    decreases |s|
  {
    if |s| > 1 {
      var p := s[..|s| - 1];
      LeadingDigitPositive(p);
      NatToStringOfValue(p);
      var n := ValueOf(s);
      assert n / 10 == ValueOf(p) && n % 10 == DigitValue(s[|s| - 1]);
      assert s == p + [s[|s| - 1]];
    }
  }
}
