/**
 * The numeric reductions the analysis applies to a pool of delays, on exact
 * reals: numpy's `min`, `max`, `mean`, `median`, `percentile` (default
 * linear interpolation) and the population variance behind `std`.
 */
module Numbers {

  function Sum(s: seq<real>): real
  {
    if s == [] then 0.0 else Sum(s[..|s| - 1]) + s[|s| - 1]
  }

  function Min(s: seq<real>): (m: real)
    requires |s| > 0
    ensures m in s
    ensures forall i :: 0 <= i < |s| ==> m <= s[i]
  {
    if |s| == 1 then s[0]
    else
      var m := Min(s[..|s| - 1]);
      assert forall i :: 0 <= i < |s| - 1 ==> s[..|s| - 1][i] == s[i];
      if s[|s| - 1] < m then s[|s| - 1] else m
  }

  function Max(s: seq<real>): (m: real)
    requires |s| > 0
    ensures m in s
    ensures forall i :: 0 <= i < |s| ==> s[i] <= m
  {
    if |s| == 1 then s[0]
    else
      var m := Max(s[..|s| - 1]);
      assert forall i :: 0 <= i < |s| - 1 ==> s[..|s| - 1][i] == s[i];
      if s[|s| - 1] > m then s[|s| - 1] else m
  }

  /** `np.mean`: it lies between the smallest and the largest element. */
  function Mean(s: seq<real>): (m: real)
    requires |s| > 0
    ensures Min(s) <= m <= Max(s)
  {
    var lo, hi := Min(s), Max(s);
    SumBounds(s, lo, hi);
    QuotientBetween(Sum(s), |s| as real, lo, hi);
    Sum(s) / |s| as real
  }

  /** The mean of a single value is that value. */
  lemma MeanOfOne(x: real)
    ensures Mean([x]) == x
  {
    assert [x][..0] == [];
  }

  lemma QuotientBetween(x: real, n: real, lo: real, hi: real)
    requires n > 0.0 && n * lo <= x <= n * hi
    ensures lo <= x / n <= hi
  {
    var y := x / n;
    assert x == n * y;
    assert n * (y - lo) >= 0.0 && n * (hi - y) >= 0.0;
  }

  lemma {:induction false} SumBounds(s: seq<real>, lo: real, hi: real)
    requires forall i :: 0 <= i < |s| ==> lo <= s[i] <= hi
    ensures |s| as real * lo <= Sum(s) <= |s| as real * hi
  {
    if s != [] {
      SumBounds(s[..|s| - 1], lo, hi);
    }
  }

  /** The population variance, `np.std(s) ** 2`. */
  function Variance(s: seq<real>): (v: real)
    requires |s| > 0
    ensures v >= 0.0
  {
    var squares := SquaredDeviations(s, Mean(s));
    SumNonNegative(squares);
    NonNegativeQuotient(Sum(squares), |s| as real);
    Sum(squares) / |s| as real
  }

  lemma {:induction false} SumNonNegative(s: seq<real>)
    requires forall i :: 0 <= i < |s| ==> s[i] >= 0.0
    ensures Sum(s) >= 0.0
  {
    if s != [] {
      SumNonNegative(s[..|s| - 1]);
    }
  }

  lemma NonNegativeQuotient(x: real, n: real)
    requires x >= 0.0 && n > 0.0
    ensures x / n >= 0.0
  {
  }

  function Square(x: real): real { x * x }

  function SquaredDeviations(s: seq<real>, m: real): (d: seq<real>)
    ensures |d| == |s|
    ensures forall i :: 0 <= i < |s| ==> d[i] == Square(s[i] - m) && d[i] >= 0.0
  {
    if s == [] then [] else SquaredDeviations(s[..|s| - 1], m) + [Square(s[|s| - 1] - m)]
  }

  predicate Sorted(s: seq<real>)
  {
    forall i, j :: 0 <= i <= j < |s| ==> s[i] <= s[j]
  }

  function Insert(x: real, s: seq<real>): (r: seq<real>)
    requires Sorted(s)
    ensures Sorted(r) && multiset(r) == multiset(s) + multiset{x}
    ensures |r| == |s| + 1
  {
    if s == [] || x <= s[0] then
      ConsSorted(x, s);
      [x] + s
    else
      var t := s[1..];
      assert s == [s[0]] + t;
      var r := Insert(x, t);
      forall i | 0 <= i < |r| ensures s[0] <= r[i] {
        assert r[i] in multiset(r);
        if r[i] != x {
          assert r[i] in t;
        }
      }
      ConsSorted(s[0], r);
      [s[0]] + r
  }

  lemma ConsSorted(h: real, r: seq<real>)
    requires Sorted(r) && forall i :: 0 <= i < |r| ==> h <= r[i]
    ensures Sorted([h] + r)
  {
    var c := [h] + r;
    forall i, j | 0 <= i <= j < |c| ensures c[i] <= c[j] {
      if i > 0 {
        assert c[i] == r[i - 1] && c[j] == r[j - 1];
      }
    }
  }

  /** The ascending order numpy sorts a pool into before it interpolates. */
  function Sort(s: seq<real>): (r: seq<real>)
    ensures Sorted(r) && multiset(r) == multiset(s)
    ensures |r| == |s|
  {
    if s == [] then []
    else
      assert s == s[..|s| - 1] + [s[|s| - 1]];
      Insert(s[|s| - 1], Sort(s[..|s| - 1]))
  }

  /** `np.percentile(s, q)` with linear interpolation between the closest ranks, for an integer `q` in 0..100. */
  function Percentile(s: seq<real>, q: nat): real
    requires |s| > 0 && q <= 100
  {
    var t := Sort(s);
    RankAt(t, VirtualIndex(|s|, q))
  }

  /** `(n - 1) * q`: a hundred times the fractional rank of the `q`th percentile among `n` values. */
  function VirtualIndex(n: nat, q: nat): (idx: nat)
    requires n > 0 && q <= 100
    ensures idx <= (n - 1) * 100
  {
    ScaleLe(n - 1, 0, q);
    ScaleLe(n - 1, q, 100);
    (n - 1) * q
  }

  lemma ScaleLe(n: nat, a: nat, b: nat)
    requires a <= b
    ensures n * a <= n * b
  {
    assert n * (b - a) >= 0;
  }

  /** The value at the virtual index `idx / 100` of a sorted sequence, interpolated linearly between two ranks. */
  function RankAt(t: seq<real>, idx: nat): real
    requires |t| > 0 && idx <= (|t| - 1) * 100
  {
    var lo := idx / 100;
    var g := (idx % 100) as real / 100.0;
    if lo + 1 < |t| then t[lo] + (t[lo + 1] - t[lo]) * g else t[lo]
  }

  /** `np.median`: the middle element, or the mean of the two middle elements. */
  function Median(s: seq<real>): real
    requires |s| > 0
  {
    var t := Sort(s);
    MiddleOf(t)
  }

  lemma SortedEnds(s: seq<real>)
    requires |s| > 0
    ensures |Sort(s)| == |s|
    ensures Sort(s)[0] == Min(s) && Sort(s)[|s| - 1] == Max(s)
  {
    var t := Sort(s);
    assert t[0] in multiset(s) && t[|s| - 1] in multiset(s);
    assert Min(s) in multiset(t) && Max(s) in multiset(t);
  }

  lemma Fraction(d: real, g1: real, g2: real)
    requires d >= 0.0 && 0.0 <= g1 <= g2 <= 1.0
    ensures 0.0 <= d * g1 <= d * g2 <= d
  {
    assert d * (g2 - g1) >= 0.0;
    assert d * (1.0 - g2) >= 0.0;
  }

  lemma RankBetween(t: seq<real>, idx: nat)
    requires |t| > 0 && idx <= (|t| - 1) * 100 && Sorted(t)
    ensures var lo := idx / 100;
      lo < |t| && t[lo] <= RankAt(t, idx) && (lo + 1 < |t| ==> RankAt(t, idx) <= t[lo + 1])
  {
    var lo := idx / 100;
    if lo + 1 < |t| {
      var g := (idx % 100) as real / 100.0;
      Fraction(t[lo + 1] - t[lo], g, 1.0);
    }
  }

  lemma RankMonotone(t: seq<real>, i1: nat, i2: nat)
    requires |t| > 0 && i1 <= i2 <= (|t| - 1) * 100 && Sorted(t)
    ensures RankAt(t, i1) <= RankAt(t, i2)
  {
    var lo1, lo2 := i1 / 100, i2 / 100;
    assert i1 == 100 * lo1 + i1 % 100 && i2 == 100 * lo2 + i2 % 100;
    if lo1 == lo2 {
      SameRankMonotone(t, lo1, i1 % 100, i2 % 100);
    } else {
      RankBetween(t, i1);
      RankBetween(t, i2);
      assert lo1 < lo2;
      assert t[lo1 + 1] <= t[lo2];
    }
  }

  lemma Interpolate(a: real, b: real, g1: real, g2: real)
    requires a <= b && 0.0 <= g1 <= g2 <= 1.0
    ensures a + (b - a) * g1 <= a + (b - a) * g2
  {
    Fraction(b - a, g1, g2);
  }

  lemma SameRankMonotone(t: seq<real>, lo: nat, r1: nat, r2: nat)
    requires |t| > 0 && Sorted(t) && r1 <= r2 < 100 && 100 * lo + r2 <= (|t| - 1) * 100
    ensures RankAt(t, 100 * lo + r1) <= RankAt(t, 100 * lo + r2)
  {
    assert (100 * lo + r1) / 100 == lo && (100 * lo + r1) % 100 == r1;
    assert (100 * lo + r2) / 100 == lo && (100 * lo + r2) % 100 == r2;
    var g1, g2 := r1 as real / 100.0, r2 as real / 100.0;
    if lo + 1 < |t| {
      var a, b := t[lo], t[lo + 1];
      assert a <= b;
      assert RankAt(t, 100 * lo + r1) == a + (b - a) * g1;
      assert RankAt(t, 100 * lo + r2) == a + (b - a) * g2;
      assert 0.0 <= g1 <= g2 <= 1.0;
      Interpolate(a, b, g1, g2);
    } else {
      assert RankAt(t, 100 * lo + r1) == t[lo] == RankAt(t, 100 * lo + r2);
    }
  }

  /** Percentiles grow with `q`. */
  lemma PercentileMonotone(s: seq<real>, q1: nat, q2: nat)
    requires |s| > 0 && q1 <= q2 <= 100
    ensures Percentile(s, q1) <= Percentile(s, q2)
  {
    var t := Sort(s);
    ScaleLe(|s| - 1, q1, q2);
    RankMonotone(t, VirtualIndex(|s|, q1), VirtualIndex(|s|, q2));
  }

  lemma RankEnds(t: seq<real>)
    requires |t| > 0
    ensures RankAt(t, 0) == t[0] && RankAt(t, (|t| - 1) * 100) == t[|t| - 1]
  {
    if |t| > 1 {
      assert RankAt(t, 0) == t[0] + (t[1] - t[0]) * 0.0;
    }
  }

  /** The 0th and 100th percentiles are the minimum and the maximum. */
  lemma PercentileEnds(s: seq<real>)
    requires |s| > 0
    ensures Percentile(s, 0) == Min(s) && Percentile(s, 100) == Max(s)
  {
    SortedEnds(s);
    RankEnds(Sort(s));
    assert VirtualIndex(|s|, 0) == 0;
  }

  function MiddleOf(t: seq<real>): real
    requires |t| > 0
  {
    var n := |t|;
    if n % 2 == 1 then t[n / 2] else (t[n / 2 - 1] + t[n / 2]) / 2.0
  }

  lemma Halfway(a: real, b: real)
    ensures a + (b - a) * (50 as real / 100.0) == (a + b) / 2.0
  {
  }

  lemma RankMiddle(t: seq<real>)
    requires |t| > 0
    ensures RankAt(t, (|t| - 1) * 50) == MiddleOf(t)
  {
    var n := |t|;
    var k := n / 2;
    if n % 2 == 1 {
      var idx := (n - 1) * 50;
      assert idx == 100 * k;
      assert idx / 100 == k && idx % 100 == 0;
      if k + 1 < n {
        assert RankAt(t, idx) == t[k] + (t[k + 1] - t[k]) * 0.0;
      }
    } else {
      var idx := (n - 1) * 50;
      assert idx == 100 * (k - 1) + 50;
      assert idx / 100 == k - 1 && idx % 100 == 50;
      assert k < n;
      assert RankAt(t, idx) == t[k - 1] + (t[k] - t[k - 1]) * (50 as real / 100.0);
      assert MiddleOf(t) == (t[k - 1] + t[k]) / 2.0;
      Halfway(t[k - 1], t[k]);
    }
  }

  /** The median is the 50th percentile. */
  lemma MedianIsPercentile50(s: seq<real>)
    requires |s| > 0
    ensures Median(s) == Percentile(s, 50)
  {
    var t := Sort(s);
    assert Median(s) == MiddleOf(t);
    assert VirtualIndex(|s|, 50) == (|s| - 1) * 50;
    assert Percentile(s, 50) == RankAt(t, (|s| - 1) * 50);
    RankMiddle(t);
  }
}
