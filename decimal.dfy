/**
  Decimal digit strings, shared by the date formatter (which prints day and
  year with `%d`) and the configuration loader (which reads the slideshow
  interval with `strconv.Atoi`).
 */
module Decimal {
  import opened Wrappers

  predicate IsDigit(c: char) {
    '0' <= c <= '9'
  }

  predicate AllDigits(s: string) {
    forall i :: 0 <= i < |s| ==> IsDigit(s[i])
  }

  function DigitValue(c: char): (d: nat)
    requires IsDigit(c)
    ensures d < 10
  {
    c as int - '0' as int
  }

  function DigitChar(d: nat): (c: char)
    requires d < 10
    ensures IsDigit(c) && DigitValue(c) == d
  {
    ('0' as int + d) as char
  }

  /** The value of a digit string, most significant digit first; "" is 0. */
  function DigitsValue(s: string): nat
    requires AllDigits(s)
  {
    if s == [] then 0 else DigitsValue(s[..|s| - 1]) * 10 + DigitValue(s[|s| - 1])
  }

  /**
    What `%d` prints for a non-negative integer: at least one digit, no
    leading zero, and reading the digits back gives the number.
   */
  function NatToDecimal(n: nat): (s: string)
    ensures |s| >= 1 && AllDigits(s)
    ensures DigitsValue(s) == n
    ensures |s| > 1 ==> s[0] != '0'
  {
    if n < 10 then
      [DigitChar(n)]
    else
      var prefix := NatToDecimal(n / 10);
      var s := prefix + [DigitChar(n % 10)];
      assert s[..|s| - 1] == prefix;
      s
  }

  /**
    `strconv.Atoi`: an optional '+' or '-' followed by at least one decimal
    digit; anything else is an error (here `None`).
   */
  function Atoi(s: string): Option<int> {
    if s == [] then
      None
    else if s[0] == '+' || s[0] == '-' then
      var digits := s[1..];
      if digits != [] && AllDigits(digits) then
        var magnitude: int := DigitsValue(digits);
        Some(if s[0] == '-' then -magnitude else magnitude)
      else
        None
    else if AllDigits(s) then
      Some(DigitsValue(s))
    else
      None
  }

  /** `Atoi` reads back every number that `%d` prints, with or without a sign. */
  lemma AtoiReadsDecimal(n: nat)
    ensures Atoi(NatToDecimal(n)) == Some(n)
    ensures Atoi("+" + NatToDecimal(n)) == Some(n)
    ensures Atoi("-" + NatToDecimal(n)) == Some(-(n as int))
  {
  }

  /** A string that starts with '-' never reads as a positive number. */
  lemma AtoiNegativeSign(s: string)
    requires s != [] && s[0] == '-'
    ensures Atoi(s).Some? ==> Atoi(s).value <= 0
  {
  }

  /** `Atoi` fails on any string holding a non-digit after its first character. */
  lemma AtoiRejectsNonDigit(s: string, i: nat)
    requires 0 < i < |s| && !IsDigit(s[i])
    ensures Atoi(s) == None
  {
  }
}
