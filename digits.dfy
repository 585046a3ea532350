/** Decimal digits and the value of a digit string, shared by the year
    labels of the table's rows and the tick labels of the chart. */
module Digits {

  predicate IsDigit(c: char) { '0' <= c <= '9' }

  predicate AllDigits(s: string) { forall k :: 0 <= k < |s| ==> IsDigit(s[k]) }

  function DigitChar(d: nat): (c: char)
    requires d < 10
    ensures IsDigit(c)
  {
    ('0' as int + d) as char
  }

  function DigitValue(c: char): (d: nat)
    requires IsDigit(c)
    ensures d < 10 && DigitChar(d) == c
  {
    c as int - '0' as int
  }

  function Pow10(n: nat): (r: nat)
    ensures r >= 1
  {
    if n == 0 then 1 else 10 * Pow10(n - 1)
  }

  /** The number a digit string spells, the last digit the least
      significant. */
  function ParseDecimal(s: string): nat
    requires AllDigits(s)
  {
    if s == [] then 0 else 10 * ParseDecimal(s[..|s| - 1]) + DigitValue(s[|s| - 1])
  }

  /** A string of `n` digits spells a number below 10^n. */
  lemma {:induction false} ParseDecimalBound(s: string)
    requires AllDigits(s)
    ensures ParseDecimal(s) < Pow10(|s|)
  {
    if s != [] {
      ParseDecimalBound(s[..|s| - 1]);
    }
  }

  /** `d` followed by `n` zeros: d * 10^n, built without multiplying
      two unknowns. */
  function Scale(d: nat, n: nat): (r: nat)
    ensures d == 0 ==> r == 0
  {
    if n == 0 then d else 10 * Scale(d, n - 1)
  }

  /** Raising the leading digit by one adds at least 10^n. */
  lemma {:induction false} ScaleGap(da: nat, db: nat, n: nat)
    requires da < db
    ensures Scale(da, n) + Pow10(n) <= Scale(db, n)
  {
    if n > 0 {
      ScaleGap(da, db, n - 1);
    }
  }

  /** The leading digit counts 10^(n-1) times in a string of `n` digits. */
  lemma {:induction false} ParseDecimalFront(s: string)
    requires AllDigits(s) && s != []
    ensures ParseDecimal(s) == Scale(DigitValue(s[0]), |s| - 1) + ParseDecimal(s[1..])
  {
    var n := |s|;
    if n == 1 {
      assert s[..0] == [] && s[1..] == [];
    } else {
      var init, tail := s[..n - 1], s[1..];
      ParseDecimalFront(init);
      assert init[1..] == tail[..|tail| - 1];
      assert tail[|tail| - 1] == s[n - 1];
    }
  }
}
