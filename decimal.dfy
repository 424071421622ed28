/**
 * Decimal digit strings: the value `parseInt` reads from a run of ASCII digits
 * and the text a template literal writes for a natural number.
 */
module Decimal {

  /** The class `\d` of a regular expression without the `u` flag. */
  predicate IsDigit(c: char) {
    '0' <= c <= '9'
  }

  predicate AllDigits(s: string) {
    forall i :: 0 <= i < |s| ==> IsDigit(s[i])
  }

  /** `\d+`: a non-empty run of digits. */
  predicate IsDigits(s: string) {
    |s| > 0 && AllDigits(s)
  }

  /** The form `${n}` gives a natural: no leading zero unless it is "0". */
  predicate Canonical(s: string) {
    IsDigits(s) && (s[0] == '0' ==> |s| == 1)
  }

  function DigitChar(d: nat): (c: char)
    requires d < 10
    ensures IsDigit(c)
  {
    ('0' as int + d) as char
  }

  /** The decimal value of a digit string, as `parseInt(s, 10)` reads it. */
  function DecimalValue(s: string): nat
    requires AllDigits(s)
  {
    if s == [] then 0
    else DecimalValue(s[..|s| - 1]) * 10 + (s[|s| - 1] as int - '0' as int)
  }

  /** The decimal text of `n`, as a template literal renders a number. */
  function NatToString(n: nat): (s: string)
    ensures Canonical(s)
    ensures DecimalValue(s) == n
  {
    if n < 10 then [DigitChar(n)]
    else
      var s := NatToString(n / 10) + [DigitChar(n % 10)];
      assert s[..|s| - 1] == NatToString(n / 10);
      s
  }

  /** A digit string that does not start with '0' has a positive value. */
  lemma {:induction false} LeadingDigitPositive(s: string)
    requires IsDigits(s) && s[0] != '0'
    ensures DecimalValue(s) > 0
  {
    if |s| > 1 {
      LeadingDigitPositive(s[..|s| - 1]);
    }
  }

  /** Rendering the value of a canonical digit string gives the string back:
      together with `NatToString`'s contract, the two are mutually inverse. */
  lemma {:induction false} NatToStringOfValue(s: string)
    requires Canonical(s)
    ensures NatToString(DecimalValue(s)) == s
  {
    if |s| > 1 {
      var p := s[..|s| - 1];
      assert Canonical(p);
      LeadingDigitPositive(p);
      NatToStringOfValue(p);
      var d := s[|s| - 1] as int - '0' as int;
      var n := DecimalValue(s);
      assert n / 10 == DecimalValue(p) && n % 10 == d;
      assert s == p + [DigitChar(d)];
    }
  }
}
