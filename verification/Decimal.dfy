/** Decimal text: digit runs, their value, and the digits `std::to_string` writes. */
module Decimal {

  predicate IsDigit(c: char) {
    '0' <= c <= '9'
  }

  predicate AllDigits(s: string) {
    forall k :: 0 <= k < |s| ==> IsDigit(s[k])
  }

  function DigitValue(c: char): (d: nat)
    requires IsDigit(c)
  {
    c as int - '0' as int
  }

  /** The number a digit string spells; leading zeros do not count. */
  function Value(s: string): nat
    requires AllDigits(s)
    decreases |s|
  {
    if s == [] then 0 else 10 * Value(s[..|s| - 1]) + DigitValue(s[|s| - 1])
  }

  function DigitChar(d: nat): (c: char)
    requires d < 10
    ensures IsDigit(c) && DigitValue(c) == d
  {
    ('0' as int + d) as char
  }

  /** What `std::to_string` returns for an unsigned number. */
  function ToString(n: nat): (s: string)
    ensures s != [] && AllDigits(s)
  {
    if n < 10 then [DigitChar(n)] else ToString(n / 10) + [DigitChar(n % 10)]
  }

  lemma {:induction false} ValueOfToString(n: nat)
    ensures Value(ToString(n)) == n
  {
    if n < 10 {
      assert [DigitChar(n)][..0] == [];
    } else {
      ValueOfToString(n / 10);
      assert ToString(n)[..|ToString(n)| - 1] == ToString(n / 10);
    }
  }

  lemma ToStringInjective(m: nat, n: nat)
    requires ToString(m) == ToString(n)
    ensures m == n
  {
    ValueOfToString(m);
    ValueOfToString(n);
  }

  /** Only zero is written with a leading zero digit. */
  lemma {:induction false} ToStringLeadingDigit(n: nat)
    ensures n != 0 ==> ToString(n)[0] != '0'
  {
    if n >= 10 {
      ToStringLeadingDigit(n / 10);
    }
  }

  /** The length of the longest digit prefix. */
  function DigitRun(s: string): (n: nat)
    ensures n <= |s| && AllDigits(s[..n]) && (n < |s| ==> !IsDigit(s[n]))
    ensures s != [] && IsDigit(s[0]) ==> n > 0
  {
    if s == [] || !IsDigit(s[0]) then 0
    else
      assert s == [s[0]] + s[1..];
      1 + DigitRun(s[1..])
  }

  function Pow10(n: nat): (p: nat)
    ensures p > 0
  {
    if n == 0 then 1 else 10 * Pow10(n - 1)
  }

  lemma {:induction false} ValueBelowPow10(s: string)
    requires AllDigits(s)
    ensures Value(s) < Pow10(|s|)
    decreases |s|
  {
    if s != [] {
      ValueBelowPow10(s[..|s| - 1]);
    }
  }

  lemma {:induction false} ValueFromPow10(s: string)
    requires s != [] && AllDigits(s) && s[0] != '0'
    ensures Value(s) >= Pow10(|s| - 1)
    decreases |s|
  {
    if |s| == 1 {
      assert s[..0] == [];
    } else {
      ValueFromPow10(s[..|s| - 1]);
    }
  }

  lemma {:induction false} LeadingZero(s: string)
    requires s != [] && AllDigits(s) && s[0] == '0'
    ensures Value(s[1..]) == Value(s)
    decreases |s|
  {
    if |s| == 1 {
      assert s[1..] == [] && s[..0] == [];
    } else {
      LeadingZero(s[..|s| - 1]);
      assert s[1..][..|s| - 2] == s[..|s| - 1][1..];
    }
  }

  lemma Pow10Monotone(m: nat, n: nat)
    requires m <= n
    ensures Pow10(m) <= Pow10(n)
    decreases n - m
  {
    if m < n {
      Pow10Monotone(m + 1, n);
    }
  }
}
