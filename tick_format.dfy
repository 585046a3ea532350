/** The value-axis tick labels of the chart: `format(int(x), ',')`, the
    decimal form of an integer with its digits grouped in threes from the
    right, the groups separated by commas. */
module TickFormat {
  import opened Digits

  /** `str(n)` for a non-negative integer: its digits, most significant
      first, without leading zeros. */
  function Decimal(n: nat): (s: string)
    ensures |s| >= 1 && AllDigits(s)
    ensures s[0] == '0' ==> n == 0
  {
    if n < 10 then [DigitChar(n)] else Decimal(n / 10) + [DigitChar(n % 10)]
  }

  lemma {:induction false} ParseDecimalRoundTrip(n: nat)
    ensures ParseDecimal(Decimal(n)) == n
  {
    if n >= 10 {
      ParseDecimalRoundTrip(n / 10);
      var s := Decimal(n);
      assert s[..|s| - 1] == Decimal(n / 10);
    }
  }

  /** `str(n)` for any integer. */
  function SignedDecimal(n: int): string
  {
    if n < 0 then "-" + Decimal(-n) else Decimal(n)
  }

  /** Reads back a string shaped like `SignedDecimal`'s. */
  function ParseSigned(s: string): int
    requires if s != [] && s[0] == '-' then AllDigits(s[1..]) else AllDigits(s)
  {
    if s != [] && s[0] == '-' then -(ParseDecimal(s[1..]) as int) else ParseDecimal(s)
  }

  lemma DecimalShort(n: nat)
    requires n < 1000
    ensures |Decimal(n)| <= 3
  {
    if n >= 10 {
      var m := n / 10;
      assert m < 100;
      assert |Decimal(n)| == |Decimal(m)| + 1;
      if m >= 10 {
        assert m / 10 < 10;
        assert |Decimal(m)| == |Decimal(m / 10)| + 1;
      }
    }
  }

  /** A group of exactly three digits, with leading zeros. */
  function Pad3(n: nat): (s: string)
    requires n < 1000
    ensures |s| == 3 && AllDigits(s)
  {
    [DigitChar(n / 100), DigitChar(n / 10 % 10), DigitChar(n % 10)]
  }

  /** The decimal form of `n` with a comma before every group of three
      digits counted from the right. */
  function Grouped(n: nat): string
  {
    if n < 1000 then Decimal(n) else Grouped(n / 1000) + "," + Pad3(n % 1000)
  }

  /** Digits grouped in threes from the right: a character is a comma
      exactly when the number of characters after it is 3 more than a
      multiple of 4, and every other character is a digit. */
  predicate CommaPattern(s: string)
  {
    && (forall k :: 0 <= k < |s| ==> (s[k] == ',' <==> (|s| - 1 - k) % 4 == 3))
    && (forall k :: 0 <= k < |s| && s[k] != ',' ==> IsDigit(s[k]))
  }

  lemma CommaPatternStep(g: string, p: string)
    requires CommaPattern(g) && |p| == 3 && AllDigits(p)
    ensures CommaPattern(g + "," + p)
  {
  }

  /** The grouped form follows the comma pattern and starts with a digit
      that is not a leading zero. */
  lemma {:induction false} GroupedShape(n: nat)
    ensures var s := Grouped(n);
      |s| >= 1 && IsDigit(s[0]) && (s[0] == '0' ==> n == 0) && CommaPattern(s)
  {
    if n < 1000 {
      DecimalShort(n);
    } else {
      var g, p := Grouped(n / 1000), Pad3(n % 1000);
      GroupedShape(n / 1000);
      CommaPatternStep(g, p);
      assert Grouped(n) == g + "," + p;
    }
  }

  /** `format(n, ',')`: a leading minus sign for negative numbers, then
      the grouped digits of the magnitude. */
  function FormatThousands(n: int): (s: string)
    ensures |s| >= 1 && (s[0] == '-' <==> n < 0)
    ensures var digits := if n < 0 then s[1..] else s;
      |digits| >= 1 && IsDigit(digits[0]) && CommaPattern(digits)
  {
    GroupedShape(if n < 0 then -n else n);
    if n < 0 then "-" + Grouped(-n) else Grouped(n)
  }

  /** The tick-label callback: the tick position is not used. */
  function TickLabel(x: int, pos: int): string
  {
    FormatThousands(x)
  }

  /** `s` with every comma deleted. */
  function RemoveCommas(s: string): string
  {
    if s == [] then []
    else RemoveCommas(s[..|s| - 1]) + (if s[|s| - 1] == ',' then [] else [s[|s| - 1]])
  }

  lemma {:induction false} RemoveCommasAppend(a: string, b: string)
    ensures RemoveCommas(a + b) == RemoveCommas(a) + RemoveCommas(b)
  {
    if b != [] {
      var b' := b[..|b| - 1];
      assert (a + b)[..|a + b| - 1] == a + b';
      RemoveCommasAppend(a, b');
    } else {
      assert a + b == a;
    }
  }

  lemma {:induction false} RemoveCommasDigits(s: string)
    requires AllDigits(s)
    ensures RemoveCommas(s) == s
  {
    if s != [] {
      RemoveCommasDigits(s[..|s| - 1]);
    }
  }

  /** Splitting off the last three digits of a number of four or more
      digits. */
  lemma DecimalSplit(n: nat)
    requires n >= 1000
    ensures Decimal(n) == Decimal(n / 1000) + Pad3(n % 1000)
  {
    var q, b := n / 1000, n % 1000;
    assert n / 10 == 100 * q + b / 10 && n % 10 == b % 10;
    assert n / 10 / 10 == 10 * q + b / 100 && n / 10 % 10 == b / 10 % 10;
    assert n / 10 / 10 / 10 == q && n / 10 / 10 % 10 == b / 100;
    assert Decimal(n) == Decimal(n / 10) + [DigitChar(n % 10)];
    assert Decimal(n / 10) == Decimal(n / 10 / 10) + [DigitChar(n / 10 % 10)];
    assert Decimal(n / 10 / 10) == Decimal(q) + [DigitChar(n / 10 / 10 % 10)];
  }

  /** Deleting the commas of the grouped form gives `str(n)`. */
  lemma {:induction false} GroupedStripsToDecimal(n: nat)
    ensures RemoveCommas(Grouped(n)) == Decimal(n)
  {
    if n < 1000 {
      RemoveCommasDigits(Decimal(n));
    } else {
      var g, p := Grouped(n / 1000), Pad3(n % 1000);
      assert Grouped(n) == (g + ",") + p;
      GroupedStripsToDecimal(n / 1000);
      RemoveCommasAppend(g + ",", p);
      RemoveCommasAppend(g, ",");
      assert RemoveCommas(",") == [] by {
        assert ","[..0] == [];
      }
      RemoveCommasDigits(p);
      DecimalSplit(n);
    }
  }

  lemma RemoveCommasMinus(t: string)
    ensures RemoveCommas("-" + t) == "-" + RemoveCommas(t)
  {
    RemoveCommasAppend("-", t);
    assert RemoveCommas("-") == RemoveCommas([]) + "-" by {
      assert "-"[..0] == [];
    }
  }

  /** Deleting the commas of a tick label gives `str(n)`. */
  lemma FormatThousandsStripsToDecimal(n: int)
    ensures RemoveCommas(FormatThousands(n)) == SignedDecimal(n)
  {
    var m := if n < 0 then -n else n;
    var g := Grouped(m);
    GroupedStripsToDecimal(m);
    if n < 0 {
      RemoveCommasMinus(g);
      assert FormatThousands(n) == "-" + g;
    } else {
      assert FormatThousands(n) == g;
    }
  }

  /** `str(n)` reads back as `n`. */
  lemma SignedDecimalRoundTrip(n: int)
    ensures var s := SignedDecimal(n);
      (if s != [] && s[0] == '-' then AllDigits(s[1..]) else AllDigits(s))
      && ParseSigned(s) == n
  {
    var s := SignedDecimal(n);
    if n < 0 {
      assert s[0] == '-' && s[1..] == Decimal(-n);
      ParseDecimalRoundTrip(-n);
    } else {
      assert IsDigit(s[0]);
      ParseDecimalRoundTrip(n);
    }
  }

  /** The label determines the number: reading back the label with its
      commas deleted gives `n`. */
  lemma TickLabelRoundTrip(n: int)
    ensures var plain := RemoveCommas(FormatThousands(n));
      (if plain != [] && plain[0] == '-' then AllDigits(plain[1..]) else AllDigits(plain))
      && ParseSigned(plain) == n
  {
    FormatThousandsStripsToDecimal(n);
    SignedDecimalRoundTrip(n);
  }

  /** Different numbers get different labels. */
  lemma FormatThousandsInjective(a: int, b: int)
    ensures a != b ==> FormatThousands(a) != FormatThousands(b)
  {
    TickLabelRoundTrip(a);
    TickLabelRoundTrip(b);
  }
}
