/** Period labels and the order in which the table's rows are sorted.
    Periods are Python strings, so sorting the index compares them as
    strings: code point by code point, a proper prefix first. */
module Periods {
  import opened Digits

  type Period = string

  /** Python's `<` on two strings. */
  predicate Less(a: Period, b: Period)
  {
    if a == [] then b != []
    else if b == [] then false
    else a[0] < b[0] || (a[0] == b[0] && Less(a[1..], b[1..]))
  }

  lemma {:induction false} LessIrreflexive(a: Period)
    ensures !Less(a, a)
  {
    if a != [] {
      LessIrreflexive(a[1..]);
    }
  }

  lemma {:induction false} LessTransitive(a: Period, b: Period, c: Period)
    requires Less(a, b) && Less(b, c)
    ensures Less(a, c)
  {
    if a != [] && a[0] == b[0] && b[0] == c[0] {
      LessTransitive(a[1..], b[1..], c[1..]);
    }
  }

  lemma {:induction false} LessTotal(a: Period, b: Period)
    requires a != b
    ensures Less(a, b) || Less(b, a)
  {
    if a != [] && b != [] && a[0] == b[0] {
      assert a == [a[0]] + a[1..] && b == [b[0]] + b[1..];
      LessTotal(a[1..], b[1..]);
    }
  }

  /** Every earlier element is smaller than every later one: ascending,
      and hence free of duplicates. */
  predicate StrictlySorted(s: seq<Period>)
  {
    forall i, j :: 0 <= i < j < |s| ==> Less(s[i], s[j])
  }

  lemma StrictlySortedDistinct(s: seq<Period>, i: int, j: int)
    requires StrictlySorted(s)
    requires 0 <= i < |s| && 0 <= j < |s| && i != j
    ensures s[i] != s[j]
  {
    if i < j { LessIrreflexive(s[i]); } else { LessIrreflexive(s[j]); }
  }

  lemma BelowHeadBelowAll(p: Period, s: seq<Period>)
    requires StrictlySorted(s) && s != [] && Less(p, s[0])
    ensures forall k :: 0 <= k < |s| ==> Less(p, s[k])
  {
    forall k | 0 < k < |s|
      ensures Less(p, s[k])
    {
      LessTransitive(p, s[0], s[k]);
    }
  }

  /** Adds one period to an ascending, duplicate-free sequence. */
  function Insert(s: seq<Period>, p: Period): (r: seq<Period>)
    requires StrictlySorted(s)
    ensures StrictlySorted(r)
    ensures forall x :: x in r <==> x in s || x == p
  {
    if s == [] then [p]
    else if p == s[0] then s
    else if Less(p, s[0]) then
      BelowHeadBelowAll(p, s);
      [p] + s
    else
      LessTotal(p, s[0]);
      var rest := Insert(s[1..], p);
      assert forall x :: x in s <==> x == s[0] || x in s[1..] by {
        assert s == [s[0]] + s[1..];
      }
      assert forall k :: 0 <= k < |rest| ==> Less(s[0], rest[k]) by {
        forall k | 0 <= k < |rest|
          ensures Less(s[0], rest[k])
        {
          if rest[k] != p {
            assert rest[k] in s[1..];
            var m :| 0 <= m < |s| - 1 && s[1..][m] == rest[k];
            assert s[m + 1] == rest[k];
          }
        }
      }
      [s[0]] + rest
  }

  /** Adds every period of `ps` to `s`. */
  function InsertAll(s: seq<Period>, ps: seq<Period>): (r: seq<Period>)
    requires StrictlySorted(s)
    ensures StrictlySorted(r)
    ensures forall x :: x in r <==> x in s || x in ps
    decreases |ps|
  {
    if ps == [] then s
    else
      assert forall x :: x in ps <==> x == ps[0] || x in ps[1..] by {
        assert ps == [ps[0]] + ps[1..];
      }
      InsertAll(Insert(s, ps[0]), ps[1..])
  }

  /** The distinct periods of `ps`, in ascending order. */
  function SortedUnion(ps: seq<Period>): (r: seq<Period>)
    ensures StrictlySorted(r)
    ensures forall x :: x in r <==> x in ps
  {
    InsertAll([], ps)
  }

  // Year labels: on digit strings of one length the string order is the
  // numeric order, so sorting "2001", ..., "2024" as strings is chronological.

  /** A smaller leading digit wins whatever follows it. */
  lemma LeadingDigitDecides(da: nat, db: nat, n: nat, ra: nat, rb: nat)
    requires da < db && ra < Pow10(n)
    ensures Scale(da, n) + ra < Scale(db, n) + rb
  {
    ScaleGap(da, db, n);
  }

  lemma {:induction false} YearOrder(a: string, b: string)
    requires AllDigits(a) && AllDigits(b) && |a| == |b|
    ensures Less(a, b) <==> ParseDecimal(a) < ParseDecimal(b)
  {
    if a != [] {
      var n := |a| - 1;
      var da, db := DigitValue(a[0]), DigitValue(b[0]);
      var ra, rb := ParseDecimal(a[1..]), ParseDecimal(b[1..]);
      ParseDecimalFront(a);
      ParseDecimalFront(b);
      ParseDecimalBound(a[1..]);
      ParseDecimalBound(b[1..]);
      if da < db {
        LeadingDigitDecides(da, db, n, ra, rb);
      } else if db < da {
        LeadingDigitDecides(db, da, n, rb, ra);
      } else {
        YearOrder(a[1..], b[1..]);
      }
    }
  }
}
