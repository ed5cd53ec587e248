/** Interpolated percentiles over exact reals; the final rounding to six digits is left out. */
module Percentile {
  import opened Sorting

  predicate AtMost(x: real, y: real) {
    x <= y
  }

  function Ceil(k: real): int {
    if k.Floor as real == k then k.Floor else k.Floor + 1
  }

  /** Linear interpolation at the fractional index `k` of a sorted sequence. */
  function Interpolate(sorted: seq<real>, k: real): real
    requires sorted != [] && 0.0 <= k <= (|sorted| - 1) as real
  {
    var f, c := k.Floor, Ceil(k);
    if f == c then sorted[f]
    else sorted[f] * (c as real - k) + sorted[c] * (k - f as real)
  }

  function Index(percentile: real, n: nat): (k: real)
    requires 0.0 <= percentile <= 100.0
    ensures 0.0 <= k <= n as real
  {
    IndexInRange(percentile, n);
    percentile / 100.0 * n as real
  }

  function OfSorted(sorted: seq<real>, percentile: real): real
    requires sorted != [] && 0.0 <= percentile <= 100.0
  {
    if |sorted| == 1 then sorted[0] else Interpolate(sorted, Index(percentile, |sorted| - 1))
  }

  function Percentile(values: seq<real>, percentile: real): real
    requires 0.0 <= percentile <= 100.0
  {
    if values == [] then 0.0
    else
      SortedValues(values);
      OfSorted(SortBy(values, AtMost), percentile)
  }

  lemma IndexInRange(percentile: real, n: nat)
    requires 0.0 <= percentile <= 100.0
    ensures 0.0 <= percentile / 100.0 * n as real <= n as real
  {
    Scale(n as real, 0.0, percentile / 100.0);
    Scale(n as real, percentile / 100.0, 1.0);
  }

  lemma Scale(d: real, s: real, t: real)
    requires d >= 0.0 && s <= t
    ensures d * s <= d * t
  {
    assert d * (t - s) >= 0.0;
  }

  lemma ScaleRight(d: real, s: real, t: real)
    requires d >= 0.0 && s <= t
    ensures s * d <= t * d
  {
    Scale(d, s, t);
    assert s * d == d * s && t * d == d * t;
  }

  /** The point a fraction `t` of the way from `a` to `b`. */
  function Along(a: real, b: real, t: real): real {
    a + (b - a) * t
  }

  lemma Between(a: real, b: real, t: real)
    requires a <= b && 0.0 <= t <= 1.0
    ensures a <= Along(a, b, t) <= b
    ensures a * (1.0 - t) + b * t == Along(a, b, t)
  {
    Scale(b - a, 0.0, t);
    Scale(b - a, t, 1.0);
  }

  lemma AlongMonotone(a: real, b: real, s: real, t: real)
    requires a <= b && s <= t
    ensures Along(a, b, s) <= Along(a, b, t)
  {
    Scale(b - a, s, t);
  }

  /** The value lies between the two neighbouring order statistics, on the straight line that joins them. */
  lemma InterpolateOnSegment(sorted: seq<real>, k: real)
    requires sorted != [] && 0.0 <= k <= (|sorted| - 1) as real && SortedBy(sorted, AtMost)
    ensures var f := k.Floor;
            && 0 <= f < |sorted|
            && (if f == |sorted| - 1 then Interpolate(sorted, k) == sorted[f]
                else && sorted[f] <= Interpolate(sorted, k) <= sorted[f + 1]
                     && Interpolate(sorted, k) == Along(sorted[f], sorted[f + 1], k - f as real))
  {
    var f := k.Floor;
    if f < |sorted| - 1 {
      assert AtMost(sorted[f], sorted[f + 1]);
      Between(sorted[f], sorted[f + 1], k - f as real);
    }
  }

  lemma Ordered(sorted: seq<real>, i: nat, j: nat)
    requires SortedBy(sorted, AtMost) && i <= j < |sorted|
    ensures sorted[i] <= sorted[j]
  {
    assert i == j || AtMost(sorted[i], sorted[j]);
  }

  lemma InterpolateMonotone(sorted: seq<real>, k: real, l: real)
    requires sorted != [] && SortedBy(sorted, AtMost) && 0.0 <= k <= l <= (|sorted| - 1) as real
    ensures Interpolate(sorted, k) <= Interpolate(sorted, l)
  {
    InterpolateOnSegment(sorted, k);
    InterpolateOnSegment(sorted, l);
    var f, g := k.Floor, l.Floor;
    if f < g {
      Ordered(sorted, f + 1, g);
    } else if f < |sorted| - 1 {
      assert f as real <= k <= l < (g + 1) as real;
      assert f == g;
      Ordered(sorted, f, f + 1);
      AlongMonotone(sorted[f], sorted[f + 1], k - f as real, l - f as real);
    }
  }

  lemma SortedValues(values: seq<real>)
    ensures var sorted := SortBy(values, AtMost);
            && |sorted| == |values| && SortedBy(sorted, AtMost)
            && (forall x :: x in sorted <==> x in values)
  {
    var sorted := SortBy(values, AtMost);
    SortBySorts(values, AtMost);
    assert |multiset(sorted)| == |multiset(values)|;
    assert forall x :: x in sorted <==> x in multiset(sorted);
  }

  lemma IndexMonotone(p: real, q: real, n: nat)
    requires 0.0 <= p <= q <= 100.0
    ensures Index(p, n) <= Index(q, n)
  {
    var a, b, d := p / 100.0, q / 100.0, n as real;
    ScaleRight(d, a, b);
    assert Index(p, n) == a * d;
    assert Index(q, n) == b * d;
  }

  lemma OfSortedMonotone(sorted: seq<real>, p: real, q: real)
    requires sorted != [] && SortedBy(sorted, AtMost) && 0.0 <= p <= q <= 100.0
    ensures OfSorted(sorted, p) <= OfSorted(sorted, q)
  {
    var n := |sorted| - 1;
    if n > 0 {
      IndexMonotone(p, q, n);
      InterpolateMonotone(sorted, Index(p, n), Index(q, n));
    }
  }

  lemma OfSortedEnds(sorted: seq<real>)
    requires sorted != []
    ensures OfSorted(sorted, 0.0) == sorted[0] && OfSorted(sorted, 100.0) == sorted[|sorted| - 1]
  {
    assert Index(0.0, |sorted| - 1) == 0.0 && Index(100.0, |sorted| - 1) == (|sorted| - 1) as real;
  }

  /** A smallest and a largest element, with the percentile in between; 0 gives the former and 100 the latter. */
  lemma PercentileBounds(values: seq<real>, percentile: real) returns (low: real, high: real)
    requires values != [] && 0.0 <= percentile <= 100.0
    ensures low in values && high in values && forall x :: x in values ==> low <= x <= high
    ensures low <= Percentile(values, percentile) <= high
    ensures Percentile(values, 0.0) == low && Percentile(values, 100.0) == high
  {
    SortedValues(values);
    var sorted := SortBy(values, AtMost);
    low, high := sorted[0], sorted[|sorted| - 1];
    forall x | x in values ensures low <= x <= high {
      var i :| 0 <= i < |sorted| && sorted[i] == x;
      Ordered(sorted, 0, i);
      Ordered(sorted, i, |sorted| - 1);
    }
    OfSortedEnds(sorted);
    OfSortedMonotone(sorted, 0.0, percentile);
    OfSortedMonotone(sorted, percentile, 100.0);
  }

  lemma PercentileMonotone(values: seq<real>, p: real, q: real)
    requires 0.0 <= p <= q <= 100.0
    ensures Percentile(values, p) <= Percentile(values, q)
  {
    if values != [] {
      SortedValues(values);
      OfSortedMonotone(SortBy(values, AtMost), p, q);
    }
  }

  /** The order in which case values arrive does not matter. */
  lemma PercentileOfPermutation(values: seq<real>, other: seq<real>, percentile: real)
    requires multiset(values) == multiset(other) && 0.0 <= percentile <= 100.0
    ensures Percentile(values, percentile) == Percentile(other, percentile)
  {
    SortedValues(values);
    SortedValues(other);
    SortedIsUnique(SortBy(values, AtMost), SortBy(other, AtMost), AtMost);
  }

  lemma IndexOf(p: real, n: nat, k: real)
    requires 0.0 <= p <= 100.0 && p * n as real == 100.0 * k
    ensures Index(p, n) == k
  {
    var d := n as real;
    assert p / 100.0 * d == p * d / 100.0;
  }

  lemma InterpolateAt(sorted: seq<real>, i: nat, t: real)
    requires i + 1 < |sorted| && 0.0 <= t <= 1.0
    ensures Interpolate(sorted, i as real + t) == sorted[i] + t * (sorted[i + 1] - sorted[i])
  {
    var k := i as real + t;
    if t == 0.0 || t == 1.0 {
      assert k.Floor == i + if t == 1.0 then 1 else 0;
    } else {
      assert k.Floor == i && Ceil(k) == i + 1;
    }
  }

  lemma OfSortedBetween(sorted: seq<real>, n: nat, p: real, i: nat, t: real)
    requires |sorted| == n + 1 && i < n && 0.0 <= t <= 1.0 && 0.0 <= p <= 100.0
    requires p * n as real == 100.0 * (i as real + t)
    ensures OfSorted(sorted, p) == sorted[i] + t * (sorted[i + 1] - sorted[i])
  {
    IndexOf(p, n, i as real + t);
    InterpolateAt(sorted, i, t);
  }

  predicate Arranges(sorted: seq<real>, values: seq<real>) {
    multiset(sorted) == multiset(values) && forall i, j :: 0 <= i < j < |sorted| ==> sorted[i] <= sorted[j]
  }

  lemma ArrangedOnce(sorted: seq<real>, values: seq<real>)
    requires Arranges(sorted, values)
    ensures sorted == SortBy(values, AtMost) && |sorted| == |values|
  {
    SortedValues(values);
    SortBySorts(values, AtMost);
    assert SortedBy(sorted, AtMost);
    SortedIsUnique(sorted, SortBy(values, AtMost), AtMost);
  }

  /** The order statistics divide [0, 100] into `n` equal steps: a fraction `t` of a step further than the one at `i`
      lies the value as far on the way to the next. */
  lemma PercentileBetween(values: seq<real>, sorted: seq<real>, n: nat, p: real, i: nat, t: real)
    requires Arranges(sorted, values) && |sorted| == n + 1
    requires i < n && 0.0 <= t <= 1.0 && 0.0 <= p <= 100.0 && p * n as real == 100.0 * (i as real + t)
    ensures Percentile(values, p) == sorted[i] + t * (sorted[i + 1] - sorted[i])
  {
    ArrangedOnce(sorted, values);
    OfSortedBetween(sorted, n, p, i, t);
  }

  lemma OfSortedAtIndex(sorted: seq<real>, n: nat, p: real, i: nat)
    requires |sorted| == n + 1 && i <= n && 0.0 <= p <= 100.0 && Index(p, n) == i as real
    ensures OfSorted(sorted, p) == sorted[i]
  {
  }

  /** Whenever the fractional index is whole, the percentile is that order statistic itself. */
  lemma PercentileAtIndex(values: seq<real>, sorted: seq<real>, n: nat, p: real, i: nat)
    requires Arranges(sorted, values) && |sorted| == n + 1
    requires i <= n && 0.0 <= p <= 100.0 && p * n as real == 100.0 * i as real
    ensures Percentile(values, p) == sorted[i]
  {
    ArrangedOnce(sorted, values);
    IndexOf(p, n, i as real);
    OfSortedAtIndex(sorted, n, p, i);
  }

  lemma HalfWay(values: seq<real>, sorted: seq<real>, n: nat, p: real, i: nat)
    requires Arranges(sorted, values) && |sorted| == n + 1
    requires i < n && 0.0 <= p <= 100.0 && p * n as real == 100.0 * (i as real + 0.5)
    ensures Percentile(values, p) == (sorted[i] + sorted[i + 1]) / 2.0
  {
    PercentileBetween(values, sorted, n, p, i, 0.5);
  }

  /** The median: the middle value, or the mean of the two in the middle. */
  lemma Median(values: seq<real>, sorted: seq<real>, n: nat, m: nat)
    requires Arranges(sorted, values) && |sorted| == n + 1
    ensures n == 2 * m ==> Percentile(values, 50.0) == sorted[m]
    ensures n == 2 * m + 1 ==> Percentile(values, 50.0) == (sorted[m] + sorted[m + 1]) / 2.0
  {
    if n == 2 * m {
      PercentileAtIndex(values, sorted, n, 50.0, m);
    } else if n == 2 * m + 1 {
      HalfWay(values, sorted, n, 50.0, m);
    }
  }
}
