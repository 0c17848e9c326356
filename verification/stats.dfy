/** The per-agent score summaries of a tournament (simulation/baseline.py):
    the linear-interpolation percentile `_percentile`, and the arithmetic mean
    and median the source takes from Python's `statistics` module, all over
    exact reals. */
module Stats {
  import opened Wrappers
  import opened Ordering

  function Sum(xs: seq<int>): int {
    if |xs| == 0 then 0 else Sum(xs[..|xs| - 1]) + xs[|xs| - 1]
  }

  /** `min(x, y)` */
  function MinInt(x: int, y: int): int {
    if x <= y then x else y
  }

  /** `r` lies between the least and the greatest of `xs`. */
  predicate WithinRange(xs: seq<int>, r: real) {
    && (exists i :: 0 <= i < |xs| && xs[i] as real <= r)
    && (exists j :: 0 <= j < |xs| && r <= xs[j] as real)
  }

  /** Python's `int()` on a float: truncation toward zero. */
  function Trunc(x: real): (n: int)
    ensures 0.0 <= x ==> n as real <= x < n as real + 1.0
    ensures x < 0.0 ==> n as real - 1.0 < x <= n as real
  {
    if x >= 0.0 then x.Floor else -((-x).Floor)
  }

  /** Python's `s[i]`, where a negative index counts from the end; `None` is the
      `IndexError`. Within bounds, indexing is cyclic: `i` and `i + len(s)` name
      the same element, the one at `i mod len(s)`. */
  function PyIndex(s: seq<int>, i: int): (r: Option<int>)
    ensures r.Some? <==> -|s| <= i < |s|
    ensures 0 <= i < |s| ==> r == Some(s[i])
    ensures -|s| <= i < 0 ==> r == Some(s[|s| + i])
    ensures r.Some? ==> r.value in s && r.value == s[i % |s|]
  {
    if 0 <= i < |s| then Some(s[i])
    else if -|s| <= i < 0 then Some(s[|s| + i])
    else None
  }

  /** A point on the segment from `a` to `b` lies between them. */
  lemma Interpolate(a: real, b: real, w: real)
    requires a <= b && 0.0 <= w <= 1.0
    ensures a <= Lerp(a, b, w) <= b
  {
    var d := b - a;
    assert a * (1.0 - w) + b * w == a + d * w;
    assert b - (a * (1.0 - w) + b * w) == d * (1.0 - w);
    ScaleUnit(d, w);
    ScaleUnit(d, 1.0 - w);
  }

  /** Scaling by a factor in [0, 1] moves a non-negative number towards 0. */
  lemma ScaleUnit(m: real, q: real)
    requires 0.0 <= m && 0.0 <= q <= 1.0
    ensures 0.0 <= m * q <= m
  {
    assert m * (1.0 - q) >= 0.0;
  }

  /** `_percentile`: sort, then interpolate linearly between the two ranks
      around `(n - 1) * q`; `None` stands for the `IndexError` an empty list or
      a `q` far outside [0, 1] raises. */
  function Percentile(values: seq<int>, q: real): (r: Option<real>)
    ensures |values| == 0 ==> r.None?
    ensures |values| == 1 ==> r == Some(values[0] as real)
    ensures |values| > 0 && 0.0 <= q <= 1.0 ==> r.Some? && WithinRange(values, r.value)
  {
    var ordered := SortInts(values);
    if |ordered| == 1 then
      assert ordered[0] in multiset(values);
      Some(ordered[0] as real)
    else
      if |values| >= 2 && 0.0 <= q <= 1.0 then
        InterpolatedWithin(values, q);
        Interpolated(ordered, q)
      else
        Interpolated(ordered, q)
  }

  /** The interpolation step of `_percentile` on the sorted list. */
  function Interpolated(ordered: seq<int>, q: real): Option<real> {
    var target := Rank(|ordered|, q);
    var low := Trunc(target);
    var high := MinInt(low + 1, |ordered| - 1);
    match (PyIndex(ordered, low), PyIndex(ordered, high))
    case (Some(a), Some(b)) => Some(Lerp(a as real, b as real, target - low as real))
    case _ => None
  }

  /** `(len(ordered) - 1) * q` */
  function Rank(n: int, q: real): real {
    (n - 1) as real * q
  }

  /** `a * (1 - w) + b * w` */
  function Lerp(a: real, b: real, w: real): real {
    a * (1.0 - w) + b * w
  }

  lemma InterpolatedWithin(values: seq<int>, q: real)
    requires |values| >= 2 && 0.0 <= q <= 1.0
    ensures Interpolated(SortInts(values), q).Some?
    ensures WithinRange(values, Interpolated(SortInts(values), q).value)
  {
    hide Interpolated, Lerp, Rank;
    var ordered := SortInts(values);
    var low, high, w := InterpolationPoint(ordered, q);
    RankedMembers(values, low, high);
    var a := ordered[low];
    var b := ordered[high];
    Interpolate(a as real, b as real, w);
    Witnessed(values, a, b, Lerp(a as real, b as real, w));
  }

  /** Two ranks of the sorted list name members of the list, in order. */
  lemma RankedMembers(values: seq<int>, low: int, high: int)
    requires 0 <= low <= high < |values|
    ensures var ordered := SortInts(values);
            && ordered[low] in values && ordered[high] in values
            && ordered[low] <= ordered[high]
  {
    var ordered := SortInts(values);
    assert ordered[low] in multiset(values);
    assert ordered[high] in multiset(values);
    if low < high {
      assert ordered[low] <= ordered[high];
    }
  }

  /** The two ranks and the weight `_percentile` computes for `q` in [0, 1]. */
  lemma InterpolationPoint(ordered: seq<int>, q: real) returns (low: int, high: int, w: real)
    requires |ordered| >= 2 && 0.0 <= q <= 1.0
    ensures 0 <= low <= high < |ordered| && 0.0 <= w <= 1.0
    ensures Interpolated(ordered, q) == Some(Lerp(ordered[low] as real, ordered[high] as real, w))
  {
    Ranks(|ordered|, q);
    low := Trunc(Rank(|ordered|, q));
    high := MinInt(low + 1, |ordered| - 1);
    w := Rank(|ordered|, q) - low as real;
    InterpolatedAt(ordered, q, low, high, w);
  }

  /** A value between two members of a list lies within its range. */
  lemma Witnessed(values: seq<int>, a: int, b: int, r: real)
    requires a in values && b in values && a as real <= r <= b as real
    ensures WithinRange(values, r)
  {
    var i :| 0 <= i < |values| && values[i] == a;
    var j :| 0 <= j < |values| && values[j] == b;
    assert values[i] as real <= r <= values[j] as real;
  }

  /** With both ranks in range, the interpolation reads the two ranked values. */
  lemma InterpolatedAt(ordered: seq<int>, q: real, low: int, high: int, w: real)
    requires low == Trunc(Rank(|ordered|, q)) && high == MinInt(low + 1, |ordered| - 1)
    requires 0 <= low <= high < |ordered| && w == Rank(|ordered|, q) - low as real
    ensures Interpolated(ordered, q) == Some(Lerp(ordered[low] as real, ordered[high] as real, w))
  {
    assert PyIndex(ordered, low) == Some(ordered[low]);
    assert PyIndex(ordered, high) == Some(ordered[high]);
  }

  /** For `q` in [0, 1] the two ranks around `(n - 1) * q` are indices of an
      `n`-element list, and the weight between them lies in [0, 1]. */
  lemma Ranks(n: int, q: real)
    requires n >= 2 && 0.0 <= q <= 1.0
    ensures var target := Rank(n, q);
            var low := Trunc(target);
            && 0 <= low <= MinInt(low + 1, n - 1) < n
            && 0.0 <= target - low as real <= 1.0
  {
    hide Rank;
    RankBounds(n, q);
    var target := Rank(n, q);
    var low := Trunc(target);
    assert low as real <= target < low as real + 1.0;
  }

  /** For `q` in [0, 1] the rank `(n - 1) * q` lies in [0, n - 1]. */
  lemma RankBounds(n: int, q: real)
    requires n >= 1 && 0.0 <= q <= 1.0
    ensures 0.0 <= Rank(n, q) <= (n - 1) as real
  {
    ScaleUnit((n - 1) as real, q);
  }

  /** The quantile endpoints are the extremes: `q = 0` gives the least value
      and `q = 1` the greatest. */
  lemma PercentileEndpoints(values: seq<int>)
    requires |values| > 0
    ensures Percentile(values, 0.0).Some? && Percentile(values, 1.0).Some?
    ensures forall i :: 0 <= i < |values| ==> Percentile(values, 0.0).value <= values[i] as real
    ensures forall i :: 0 <= i < |values| ==> values[i] as real <= Percentile(values, 1.0).value
  {
    var ordered := SortInts(values);
    var n := |ordered|;
    forall i | 0 <= i < |values|
      ensures ordered[0] <= values[i] <= ordered[n - 1]
    {
      assert values[i] in multiset(ordered);
      var k :| 0 <= k < n && ordered[k] == values[i];
    }
    if n > 1 {
      assert Rank(n, 0.0) == 0.0;
      assert Trunc(0.0) == 0;
      InterpolatedAt(ordered, 0.0, 0, 1, 0.0);
      assert Rank(n, 1.0) == (n - 1) as real;
      assert Trunc((n - 1) as real) == n - 1;
      InterpolatedAt(ordered, 1.0, n - 1, n - 1, 0.0);
    }
  }

  lemma {:induction false} SumBounds(xs: seq<int>, lo: int, hi: int)
    requires forall i :: 0 <= i < |xs| ==> lo <= xs[i] <= hi
    ensures |xs| * lo <= Sum(xs) <= |xs| * hi
    decreases |xs|
  {
    if |xs| > 0 {
      var n := |xs|;
      SumBounds(xs[..n - 1], lo, hi);
      assert n * lo == (n - 1) * lo + lo && n * hi == (n - 1) * hi + hi;
    }
  }

  /** An index of a least element. */
  function ArgMinSeq(xs: seq<int>): (k: int)
    requires |xs| > 0
    ensures 0 <= k < |xs| && forall i :: 0 <= i < |xs| ==> xs[k] <= xs[i]
    decreases |xs|
  {
    if |xs| == 1 then 0
    else
      var k := ArgMinSeq(xs[..|xs| - 1]);
      assert forall i :: 0 <= i < |xs| - 1 ==> xs[..|xs| - 1][i] == xs[i];
      if xs[|xs| - 1] < xs[k] then |xs| - 1 else k
  }

  /** `statistics.mean` of a non-empty list of integers. */
  function Mean(xs: seq<int>): (r: real)
    requires |xs| > 0
    ensures r * |xs| as real == Sum(xs) as real
    ensures WithinRange(xs, r)
  {
    var r := Sum(xs) as real / |xs| as real;
    var lo := ArgMinSeq(xs);
    var hi := FirstMax(xs);
    SumBounds(xs, xs[lo], xs[hi]);
    MeanBetween(Sum(xs), |xs|, xs[lo], xs[hi]);
    r
  }

  lemma MeanBetween(total: int, n: int, lo: int, hi: int)
    requires n > 0 && n * lo <= total <= n * hi
    ensures lo as real <= total as real / n as real <= hi as real
  {
    var m := total as real / n as real;
    var k := n as real;
    assert m * k == total as real;
    assert (m - lo as real) * k == total as real - (n * lo) as real;
    assert (hi as real - m) * k == (n * hi) as real - total as real;
    PositiveFactor(m - lo as real, k);
    PositiveFactor(hi as real - m, k);
  }

  lemma PositiveFactor(x: real, k: real)
    requires k > 0.0 && x * k >= 0.0
    ensures x >= 0.0
  {
    assert x == (x * k) / k;
  }

  /** `statistics.median` of a non-empty list: the middle value, or the mean of
      the two middle values when the count is even. */
  function Median(xs: seq<int>): (r: real)
    requires |xs| > 0
    ensures WithinRange(xs, r)
    ensures |xs| % 2 == 1 ==> exists i :: 0 <= i < |xs| && r == xs[i] as real
  {
    var ordered := SortInts(xs);
    var n := |ordered|;
    assert ordered[n / 2] in multiset(xs);
    if n % 2 == 1 then ordered[n / 2] as real
    else
      assert ordered[n / 2 - 1] in multiset(xs);
      assert ordered[n / 2 - 1] <= ordered[n / 2];
      (ordered[n / 2 - 1] + ordered[n / 2]) as real / 2.0
  }
}
