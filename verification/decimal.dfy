/**
 * Decimal rendering and parsing of integers, as the slice accessor uses
 * them: `strconv.Itoa` renders an index as a path key, `strconv.Atoi`
 * reads a path key back as an index.
 */
module Decimal {
  import opened Wrappers

  predicate IsDigit(c: char) {
    '0' <= c <= '9'
  }

  predicate AllDigits(s: string) {
    forall i :: 0 <= i < |s| ==> IsDigit(s[i])
  }

  function DigitChar(d: nat): (c: char)
    requires d < 10
    ensures IsDigit(c) && c as int - '0' as int == d
  {
    (d + '0' as int) as char
  }

  /** The decimal digits of `n`, most significant first, without leading zeros. */
  function Itoa(n: nat): (s: string)
    ensures |s| > 0 && AllDigits(s)
    ensures s[0] == '0' ==> n == 0
  {
    if n < 10 then [DigitChar(n)] else Itoa(n / 10) + [DigitChar(n % 10)]
  }

  /** `Itoa` with a leading minus sign for negative numbers (Go's `%v` of an int). */
  function FormatInt(i: int): string {
    if i < 0 then "-" + Itoa(-i) else Itoa(i)
  }

  /** The number a string of decimal digits denotes. */
  function DigitsValue(s: string): nat
    requires AllDigits(s)
  {
    if s == [] then 0 else DigitsValue(s[..|s| - 1]) * 10 + (s[|s| - 1] as int - '0' as int)
  }

  /**
   * An optionally signed decimal integer: a `+` or `-` followed by at least
   * one digit, or at least one digit alone. Anything else is not a number.
   */
  function Atoi(s: string): (r: Option<int>)
    ensures r.Some? ==> |s| > 0
    ensures |s| > 0 && AllDigits(s) ==> r.Some? && r.value >= 0
    ensures |s| > 0 && !IsDigit(s[0]) && s[0] != '+' && s[0] != '-' ==> r.None?
  {
    var signed := |s| > 0 && (s[0] == '+' || s[0] == '-');
    var digits := if signed then s[1..] else s;
    if |digits| > 0 && AllDigits(digits) then
      var n: int := DigitsValue(digits);
      Some(if signed && s[0] == '-' then -n else n)
    else
      None
  }

  lemma {:induction false} DigitsValueOfItoa(n: nat)
    ensures DigitsValue(Itoa(n)) == n
  {
    if n >= 10 {
      var prefix := Itoa(n / 10);
      var s := prefix + [DigitChar(n % 10)];
      assert s[..|s| - 1] == prefix;
      DigitsValueOfItoa(n / 10);
    }
  }

  /** Reading back a rendered index gives the index: slice keys round-trip. */
  lemma AtoiItoa(n: nat)
    ensures Atoi(Itoa(n)) == Some(n)
  {
    DigitsValueOfItoa(n);
  }

  /** Distinct indices render as distinct keys. */
  lemma ItoaInjective(m: nat, n: nat)
    requires m != n
    ensures Itoa(m) != Itoa(n)
  {
    AtoiItoa(m);
    AtoiItoa(n);
  }
}
