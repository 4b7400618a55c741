/** The level-statistics helper script: unfolding a spectrum to unit mean
    spacing, the spectral staircase, and the spectral rigidity Delta_3(L)
    computed by least-squares line fits over sliding windows. Floating point
    is modelled by exact reals. */
module Spectrum {
  import opened Util
  import Sorting

  /** Number of window centres and of sample points per window. */
  const NumCentres: nat := 500
  const NumPoints: nat := 50

  datatype SpectrumError =
    | NonFinite      // the unfolding scale is NaN, zero or undefined
    | EmptySequence  // min() or max() of an empty sequence

  ghost predicate Sorted(a: seq<real>)
  {
    forall i, j :: 0 <= i < j < |a| ==> a[i] <= a[j]
  }

  // ---------------------------------------------------------------------
  // Staircase: Python's bisect.bisect (bisect_right)

  /** The lo/hi binary search of Python's bisect_right on a[lo..hi]. */
  function BisectRange(a: seq<real>, x: real, lo: nat, hi: nat): (r: nat)
    requires lo <= hi <= |a|
    ensures lo <= r <= hi
    decreases hi - lo
  {
    if lo < hi then
      var mid := (lo + hi) / 2;
      if x < a[mid] then BisectRange(a, x, lo, mid)
      else BisectRange(a, x, mid + 1, hi)
    else lo
  }

  function Bisect(a: seq<real>, x: real): (r: nat)
    ensures r <= |a|
  {
    BisectRange(a, x, 0, |a|)
  }

  /** Reference definition: how many levels lie at or below x. */
  function CountAtMost(a: seq<real>, x: real): (c: nat)
    ensures c <= |a|
  {
    if |a| == 0 then 0
    else CountAtMost(a[..|a| - 1], x) + (if a[|a| - 1] <= x then 1 else 0)
  }

  lemma {:induction false} BisectRangeSplits(a: seq<real>, x: real, lo: nat, hi: nat)
    requires Sorted(a)
    requires lo <= hi <= |a|
    requires forall i :: 0 <= i < lo ==> a[i] <= x
    requires forall i :: hi <= i < |a| ==> x < a[i]
    ensures forall i :: 0 <= i < BisectRange(a, x, lo, hi) ==> a[i] <= x
    ensures forall i :: BisectRange(a, x, lo, hi) <= i < |a| ==> x < a[i]
    decreases hi - lo
  {
    if lo < hi {
      var mid := (lo + hi) / 2;
      if x < a[mid] {
        BisectRangeSplits(a, x, lo, mid);
      } else {
        BisectRangeSplits(a, x, mid + 1, hi);
      }
    }
  }

  /** On a sorted list, bisect splits it into the levels at or below x and
      the levels above x. */
  lemma {:induction false} BisectSplits(a: seq<real>, x: real)
    requires Sorted(a)
    ensures forall i :: 0 <= i < Bisect(a, x) ==> a[i] <= x
    ensures forall i :: Bisect(a, x) <= i < |a| ==> x < a[i]
  {
    BisectRangeSplits(a, x, 0, |a|);
  }

  lemma {:induction false} CountOfSplit(a: seq<real>, x: real, k: nat)
    requires k <= |a|
    requires forall i :: 0 <= i < k ==> a[i] <= x
    requires forall i :: k <= i < |a| ==> x < a[i]
    ensures CountAtMost(a, x) == k
  {
    if |a| > 0 {
      var n := |a| - 1;
      if k == |a| {
        CountOfSplit(a[..n], x, n);
      } else {
        CountOfSplit(a[..n], x, k);
      }
    }
  }

  /** The staircase N(x) computed by bisection counts the levels at or
      below x. */
  lemma {:induction false} BisectIsCount(a: seq<real>, x: real)
    requires Sorted(a)
    ensures Bisect(a, x) == CountAtMost(a, x)
  {
    BisectSplits(a, x);
    CountOfSplit(a, x, Bisect(a, x));
  }

  lemma {:induction false} CountMonotone(a: seq<real>, x: real, y: real)
    requires x <= y
    ensures CountAtMost(a, x) <= CountAtMost(a, y)
  {
    if |a| > 0 {
      CountMonotone(a[..|a| - 1], x, y);
    }
  }

  /** The staircase never decreases, is 0 below the lowest level and counts
      every level from the highest one on. */
  lemma {:induction false} StaircaseShape(a: seq<real>, x: real, y: real)
    requires Sorted(a)
    requires x <= y
    ensures Bisect(a, x) <= Bisect(a, y)
    ensures |a| > 0 && x < a[0] ==> Bisect(a, x) == 0
    ensures |a| > 0 && a[|a| - 1] <= x ==> Bisect(a, x) == |a|
  {
    BisectIsCount(a, x);
    BisectIsCount(a, y);
    CountMonotone(a, x, y);
    BisectSplits(a, x);
  }

  // ---------------------------------------------------------------------
  // Nearest-neighbour spacings and unfolding

  /** Spacings between consecutive levels; empty for fewer than two. */
  function Spacings(e: seq<real>): (d: seq<real>)
    ensures |d| == if |e| == 0 then 0 else |e| - 1
    ensures forall i {:trigger d[i]} :: 0 <= i < |d| ==> d[i] == e[i + 1] - e[i]
  {
    if |e| == 0 then [] else seq(|e| - 1, i requires 0 <= i < |e| - 1 => e[i + 1] - e[i])
  }

  /** The spacings telescope to the width of the spectrum. */
  lemma SpacingsTelescope(e: seq<real>)
    requires |e| > 0
    ensures Sum(Spacings(e)) == e[|e| - 1] - e[0]
  {
    PartialSpacingsTelescope(e, |e| - 1);
  }

  lemma {:induction false} PartialSpacingsTelescope(e: seq<real>, k: nat)
    requires k < |e|
    ensures SumTo(Spacings(e), k) == e[k] - e[0]
  {
    if k > 0 {
      PartialSpacingsTelescope(e, k - 1);
    }
  }

  /** A list is sorted exactly when none of its spacings is negative. */
  lemma {:induction false} SortedIffSpacingsNonNegative(e: seq<real>)
    ensures Sorted(e) <==> forall i :: 0 <= i < |Spacings(e)| ==> Spacings(e)[i] >= 0.0
  {
    var d := Spacings(e);
    if forall i :: 0 <= i < |d| ==> d[i] >= 0.0 {
      forall i, j | 0 <= i < j < |e|
        ensures e[i] <= e[j]
      {
        var k := i;
        while k < j
          invariant i <= k <= j
          invariant e[i] <= e[k]
        {
          assert d[k] >= 0.0;
          k := k + 1;
        }
      }
    }
  }

  datatype Unfolded = Unfolded(levels: seq<real>, spacings: seq<real>)

  /** Python slicing a[:k] for a non-negative k: at most k leading items. */
  function Take(a: seq<real>, k: nat): (r: seq<real>)
    ensures |r| == if k < |a| then k else |a|
    ensures r <= a
  {
    if k < |a| then a[..k] else a
  }

  /** Divides the levels and their spacings by the mean spacing. With fewer
      than two levels the mean of no spacings is NaN, and with a zero mean
      the division is by zero: both are reported as NonFinite. */
  function Unfold(e: seq<real>): (r: Result<Unfolded, SpectrumError>)
    ensures r.Ok? <==> |e| >= 2 && e[|e| - 1] != e[0]
    ensures r.Ok? ==>
      && |r.value.levels| == |e|
      && r.value.spacings == Spacings(r.value.levels)
      && Mean(r.value.spacings) == 1.0
      && MeanSpacingOf(e) != 0.0
      && forall i :: 0 <= i < |e| ==> r.value.levels[i] == e[i] / MeanSpacingOf(e)
  {
    if |e| < 2 then Err(NonFinite)
    else
      var nnd := Spacings(e);
      var d := Mean(nnd);
      MeanSpacing(e);
      if d == 0.0 then Err(NonFinite)
      else
        var levels := Scaled(e, d);
        var spacings := Scaled(nnd, d);
        UnfoldedSpacingsMeanOne(nnd, d, spacings);
        UnfoldedSpacings(e, d, levels, spacings);
        Ok(Unfolded(levels, spacings))
  }

  /** Every element divided by d. */
  function Scaled(s: seq<real>, d: real): (r: seq<real>)
    requires d != 0.0
    ensures |r| == |s|
    ensures forall i :: 0 <= i < |s| ==> r[i] == s[i] / d
  {
    if |s| == 0 then [] else Scaled(s[..|s| - 1], d) + [s[|s| - 1] / d]
  }

  function MeanSpacingOf(e: seq<real>): real
    requires |e| >= 2
  {
    Mean(Spacings(e))
  }

  /** The mean spacing is the width of the spectrum over the number of gaps. */
  lemma {:induction false} MeanSpacing(e: seq<real>)
    requires |e| >= 2
    ensures Mean(Spacings(e)) == (e[|e| - 1] - e[0]) / ((|e| - 1) as real)
    ensures Mean(Spacings(e)) == 0.0 <==> e[|e| - 1] == e[0]
  {
    SpacingsTelescope(e);
    QuotientZero(Sum(Spacings(e)), (|e| - 1) as real);
  }

  lemma QuotientZero(x: real, k: real)
    requires k > 0.0
    ensures x / k == 0.0 <==> x == 0.0
  {
  }

  lemma {:induction false} UnfoldedSpacings(e: seq<real>, d: real, levels: seq<real>, spacings: seq<real>)
    requires |e| >= 2 && d != 0.0
    requires |levels| == |e| && |spacings| == |e| - 1
    requires forall i :: 0 <= i < |e| ==> levels[i] == e[i] / d
    requires forall i :: 0 <= i < |e| - 1 ==> spacings[i] == Spacings(e)[i] / d
    ensures spacings == Spacings(levels)
  {
    var sl := Spacings(levels);
    forall i | 0 <= i < |e| - 1
      ensures spacings[i] == sl[i]
    {
      assert Spacings(e)[i] == e[i + 1] - e[i];
      DivDifference(e[i + 1], e[i], d);
    }
    assert |sl| == |spacings|;
  }

  lemma DivDifference(a: real, b: real, d: real)
    requires d != 0.0
    ensures (a - b) / d == a / d - b / d
  {
  }

  lemma {:induction false} UnfoldedSpacingsMeanOne(nnd: seq<real>, d: real, spacings: seq<real>)
    requires |nnd| > 0 && d != 0.0 && d == Mean(nnd)
    requires |spacings| == |nnd|
    requires forall i :: 0 <= i < |nnd| ==> spacings[i] == nnd[i] / d
    ensures Mean(spacings) == 1.0
  {
    SumScaled(nnd, spacings, d);
    MeanOneArith(Sum(nnd), Sum(spacings), d, |nnd| as real);
  }

  lemma MeanOneArith(s: real, ss: real, d: real, n: real)
    requires n > 0.0 && d != 0.0
    requires d == s / n && ss == s / d
    ensures ss / n == 1.0
  {
    assert s == d * n;
    assert ss == n;
  }

  /** Unfolding keeps the levels in order. */
  lemma {:induction false} UnfoldKeepsOrder(e: seq<real>)
    requires Sorted(e)
    requires Unfold(e).Ok?
    ensures Sorted(Unfold(e).value.levels)
  {
    UnfoldIsScaled(e);
    MeanSpacingPositive(e);
    ScaledKeepsOrder(e, MeanSpacingOf(e));
  }

  lemma {:induction false} MeanSpacingPositive(e: seq<real>)
    requires Sorted(e)
    requires |e| >= 2 && e[|e| - 1] != e[0]
    ensures MeanSpacingOf(e) > 0.0
  {
    MeanSpacing(e);
    QuotientPositive(e[|e| - 1] - e[0], (|e| - 1) as real);
  }

  /** Unfolding divides levels and spacings by the mean spacing. */
  lemma {:induction false} UnfoldIsScaled(e: seq<real>)
    requires Unfold(e).Ok?
    ensures |e| >= 2 && e[|e| - 1] != e[0] && MeanSpacingOf(e) != 0.0
    ensures Unfold(e).value.levels == Scaled(e, MeanSpacingOf(e))
    ensures Unfold(e).value.spacings == Scaled(Spacings(e), MeanSpacingOf(e))
  {
  }

  lemma {:induction false} ScaledKeepsOrder(e: seq<real>, d: real)
    requires Sorted(e) && d > 0.0
    ensures Sorted(Scaled(e, d))
  {
    var u := Scaled(e, d);
    forall i, j | 0 <= i < j < |u|
      ensures u[i] <= u[j]
    {
      DivMonotone(e[i], e[j], d);
    }
  }

  lemma QuotientPositive(x: real, k: real)
    requires x > 0.0 && k > 0.0
    ensures x / k > 0.0
  {
  }

  lemma DivMonotone(a: real, b: real, d: real)
    requires a <= b && d > 0.0
    ensures a / d <= b / d
  {
  }

  lemma ScaleMonotone(a: real, b: real, k: real, w: real)
    requires a <= b && k > 0.0 && w > 0.0
    ensures a * k / w <= b * k / w
  {
  }

  /** An unfolded spectrum is already at unit mean spacing: unfolding it
      again changes nothing. */
  lemma {:induction false} UnfoldIdempotent(e: seq<real>)
    requires Unfold(e).Ok?
    ensures Unfold(Unfold(e).value.levels) == Unfold(e)
  {
    var u := Unfold(e).value;
    assert |u.levels| >= 2;
    assert MeanSpacingOf(u.levels) == 1.0;
    UnfoldOfUnitSpectrum(u.levels);
  }

  /** A spectrum whose mean spacing is already one is its own unfolding. */
  lemma {:induction false} UnfoldOfUnitSpectrum(l: seq<real>)
    requires |l| >= 2 && MeanSpacingOf(l) == 1.0
    ensures Unfold(l) == Ok(Unfolded(l, Spacings(l)))
  {
    MeanSpacing(l);
    UnfoldIsScaled(l);
    ScaledByOne(l);
    ScaledByOne(Spacings(l));
  }

  lemma {:induction false} ScaledByOne(s: seq<real>)
    ensures Scaled(s, 1.0) == s
  {
    var r := Scaled(s, 1.0);
    assert forall i :: 0 <= i < |s| ==> r[i] == s[i];
  }

  // ---------------------------------------------------------------------
  // Sampling grids

  /** The `i`-th of `num` evenly spaced points from `start` to `stop`. */
  function GridPoint(start: real, stop: real, num: nat, i: int): real
    requires num >= 2
  {
    start + (i as real) * (stop - start) / ((num - 1) as real)
  }

  /** numpy.linspace with the endpoint included. */
  function Linspace(start: real, stop: real, num: nat): (r: seq<real>)
    ensures |r| == num
    ensures num >= 1 ==> r[0] == start
    ensures num >= 2 ==> r[num - 1] == stop
    ensures num >= 2 ==> forall i, j :: 0 <= i && j == i + 1 && j < num ==>
      r[j] - r[i] == (stop - start) / ((num - 1) as real)
  {
    if num == 1 then [start]
    else if num == 0 then []
    else
      var r := seq(num, i requires 0 <= i < num => GridPoint(start, stop, num, i));
      GridEnds(start, stop, num);
      GridSteps(start, stop, num);
      r
  }

  lemma GridEnds(start: real, stop: real, num: nat)
    requires num >= 2
    ensures GridPoint(start, stop, num, 0) == start
    ensures GridPoint(start, stop, num, num - 1) == stop
  {
    SelfQuotient((num - 1) as real);
    EndArith(start, stop - start, (num - 1) as real);
  }

  lemma EndArith(a: real, w: real, k: real)
    requires k != 0.0
    ensures a + k * w / k == a + w
  {
    assert k * w / k == w;
  }

  lemma GridSteps(start: real, stop: real, num: nat)
    requires num >= 2
    ensures forall i: int, j: int :: 0 <= i && j == i + 1 && j < num ==>
      GridPoint(start, stop, num, j) - GridPoint(start, stop, num, i)
        == (stop - start) / ((num - 1) as real)
  {
    forall i: int, j: int | 0 <= i && j == i + 1 && j < num
      ensures GridPoint(start, stop, num, j) - GridPoint(start, stop, num, i)
        == (stop - start) / ((num - 1) as real)
    {
      StepArith(start, stop - start, (num - 1) as real, i as real);
    }
  }

  lemma StepArith(a: real, w: real, k: real, x: real)
    requires k != 0.0
    ensures (a + (x + 1.0) * w / k) - (a + x * w / k) == w / k
  {
    assert (x + 1.0) * w == x * w + w;
    assert (x * w + w) / k == x * w / k + w / k;
  }

  lemma {:induction false} LinspaceSorted(start: real, stop: real, num: nat)
    requires start <= stop
    ensures Sorted(Linspace(start, stop, num))
  {
    var r := Linspace(start, stop, num);
    if num >= 2 {
      var step := (stop - start) / ((num - 1) as real);
      QuotientNonNegative(stop - start, (num - 1) as real);
      var sp := Spacings(r);
      forall i | 0 <= i < |sp|
        ensures sp[i] >= 0.0
      {
        assert sp[i] == r[i + 1] - r[i] == step;
      }
    }
    SortedIffSpacingsNonNegative(r);
  }

  lemma QuotientNonNegative(x: real, k: real)
    requires x >= 0.0 && k > 0.0
    ensures x / k >= 0.0
  {
  }

  function MinOf(a: seq<real>): (m: real)
    requires |a| > 0
    ensures forall i :: 0 <= i < |a| ==> m <= a[i]
    ensures exists i :: 0 <= i < |a| && a[i] == m
  {
    if |a| == 1 then a[0]
    else
      var rest := MinOf(a[1..]);
      assert forall i :: 1 <= i < |a| ==> a[i] == a[1..][i - 1];
      if a[0] <= rest then a[0]
      else
        var j :| 0 <= j < |a[1..]| && a[1..][j] == rest;
        assert a[j + 1] == rest;
        rest
  }

  function MaxOf(a: seq<real>): (m: real)
    requires |a| > 0
    ensures forall i :: 0 <= i < |a| ==> a[i] <= m
    ensures exists i :: 0 <= i < |a| && a[i] == m
  {
    if |a| == 1 then a[0]
    else
      var rest := MaxOf(a[1..]);
      assert forall i :: 1 <= i < |a| ==> a[i] == a[1..][i - 1];
      if a[0] >= rest then a[0]
      else
        var j :| 0 <= j < |a[1..]| && a[1..][j] == rest;
        assert a[j + 1] == rest;
        rest
  }

  // ---------------------------------------------------------------------
  // Least-squares line (numpy.polyfit with degree 1)

  datatype Line = Line(intercept: real, slope: real)

  function Sq(x: real): real { x * x }

  /** Pointwise products of two equally long sequences. */
  function Products(xs: seq<real>, ys: seq<real>): (r: seq<real>)
    requires |xs| == |ys|
    ensures |r| == |xs|
    ensures forall i {:trigger r[i], xs[i]} :: 0 <= i < |r| ==> r[i] == xs[i] * ys[i]
  {
    seq(|xs|, i requires 0 <= i < |xs| => xs[i] * ys[i])
  }

  /** Deviations of a sample from its mean. */
  function Deviations(xs: seq<real>): (r: seq<real>)
    requires |xs| > 0
    ensures |r| == |xs|
    ensures forall i {:trigger r[i], xs[i]} :: 0 <= i < |r| ==> r[i] == xs[i] - Mean(xs)
  {
    seq(|xs|, i requires 0 <= i < |xs| => xs[i] - Mean(xs))
  }

  /** Sum of squared deviations of the abscissae from their mean. */
  function Spread(ts: seq<real>): real
    requires |ts| > 0
  {
    Sum(Products(Deviations(ts), Deviations(ts)))
  }

  function Covariation(ts: seq<real>, ys: seq<real>): real
    requires |ts| == |ys| > 0
  {
    Sum(Products(Deviations(ts), Deviations(ys)))
  }

  function Residuals(ts: seq<real>, ys: seq<real>, l: Line): (r: seq<real>)
    requires |ts| == |ys|
    ensures |r| == |ts|
    ensures forall i {:trigger r[i], ts[i]} :: 0 <= i < |r| ==> r[i] == ys[i] - l.intercept - l.slope * ts[i]
  {
    seq(|ts|, i requires 0 <= i < |ts| => ys[i] - l.intercept - l.slope * ts[i])
  }

  function SquaredError(ts: seq<real>, ys: seq<real>, l: Line): real
    requires |ts| == |ys|
  {
    var r := Residuals(ts, ys, l);
    Sum(Products(r, r))
  }

  /** The closed-form least-squares line. The abscissae must not all be
      equal, which every window of non-zero width satisfies. */
  function FitLine(ts: seq<real>, ys: seq<real>): (l: Line)
    requires |ts| == |ys| > 0
    requires Spread(ts) != 0.0
    ensures Sum(Residuals(ts, ys, l)) == 0.0
    ensures Sum(Products(ts, Residuals(ts, ys, l))) == 0.0
  {
    var b := Covariation(ts, ys) / Spread(ts);
    var l := Line(Mean(ys) - b * Mean(ts), b);
    ResidualsSumToZero(ts, ys, l);
    ResidualsOrthogonal(ts, ys, l);
    l
  }

  lemma {:induction false} MeanTimesCount(xs: seq<real>)
    requires |xs| > 0
    ensures Sum(xs) == Mean(xs) * (|xs| as real)
  {
    MulDivCancel(Sum(xs), |xs| as real);
  }

  lemma MulDivCancel(x: real, k: real)
    requires k != 0.0
    ensures x == x / k * k
  {
  }

  /** First normal equation: residuals of a line through the centroid sum
      to zero. */
  lemma {:induction false} ResidualsSumToZero(ts: seq<real>, ys: seq<real>, l: Line)
    requires |ts| == |ys| > 0
    requires l.intercept == Mean(ys) - l.slope * Mean(ts)
    ensures Sum(Residuals(ts, ys, l)) == 0.0
  {
    var r := Residuals(ts, ys, l);
    forall i | 0 <= i < |r|
      ensures r[i] == 1.0 * ys[i] + (-l.slope) * ts[i] + (-l.intercept)
    {
    }
    SumAffine(ys, ts, r, 1.0, -l.slope, -l.intercept);
    MeanTimesCount(ts);
    MeanTimesCount(ys);
    CentroidArith(Sum(ys), Sum(ts), |ts| as real, l.slope, l.intercept, Mean(ys), Mean(ts));
  }

  lemma CentroidArith(sy: real, st: real, n: real, b: real, a: real, ym: real, tm: real)
    requires sy == ym * n && st == tm * n
    requires a == ym - b * tm
    ensures 1.0 * sy + (-b) * st + (-a) * n == 0.0
  {
  }

  /** Residuals of a line through the centroid are deviations from the
      mean minus the slope times the abscissa deviations. */
  lemma {:induction false} ResidualsAsDeviations(ts: seq<real>, ys: seq<real>, l: Line)
    requires |ts| == |ys| > 0
    requires l.intercept == Mean(ys) - l.slope * Mean(ts)
    ensures forall i :: 0 <= i < |ts| ==>
      Residuals(ts, ys, l)[i] == Deviations(ys)[i] - l.slope * Deviations(ts)[i]
  {
    var r := Residuals(ts, ys, l);
    forall i | 0 <= i < |ts|
      ensures r[i] == Deviations(ys)[i] - l.slope * Deviations(ts)[i]
    {
      ResidualArith(ys[i], ts[i], Mean(ys), Mean(ts), l.slope);
    }
  }

  lemma ResidualArith(y: real, t: real, ym: real, tm: real, b: real)
    ensures y - (ym - b * tm) - b * t == (y - ym) - b * (t - tm)
  {
  }

  /** Second normal equation: with the closed-form slope the residuals are
      orthogonal to the abscissae. */
  lemma {:induction false} ResidualsOrthogonal(ts: seq<real>, ys: seq<real>, l: Line)
    requires |ts| == |ys| > 0
    requires Spread(ts) != 0.0
    requires l.slope == Covariation(ts, ys) / Spread(ts)
    requires l.intercept == Mean(ys) - l.slope * Mean(ts)
    ensures Sum(Products(ts, Residuals(ts, ys, l))) == 0.0
  {
    var r := Residuals(ts, ys, l);
    DeviationCrossSum(ts, ys, l);
    ShiftedCrossSum(ts, ys, l);
    ResidualsSumToZero(ts, ys, l);
    ShiftArithZero(Sum(Products(ts, r)), Sum(Products(Deviations(ts), r)), Mean(ts), Sum(r));
  }

  lemma ShiftArithZero(str: real, sdr: real, tm: real, sr: real)
    requires str == sdr + tm * sr
    requires sdr == 0.0 && sr == 0.0
    ensures str == 0.0
  {
  }

  /** With the closed-form slope the residuals are orthogonal to the
      centred abscissae. */
  lemma {:induction false} DeviationCrossSum(ts: seq<real>, ys: seq<real>, l: Line)
    requires |ts| == |ys| > 0
    requires Spread(ts) != 0.0
    requires l.slope == Covariation(ts, ys) / Spread(ts)
    requires l.intercept == Mean(ys) - l.slope * Mean(ts)
    ensures Sum(Products(Deviations(ts), Residuals(ts, ys, l))) == 0.0
  {
    var r := Residuals(ts, ys, l);
    ResidualsAsDeviations(ts, ys, l);
    SumProductsLinear(Deviations(ts), Deviations(ys), r, l.slope);
    SlopeArith(Sum(Products(Deviations(ts), r)), Covariation(ts, ys), Spread(ts), l.slope, |r| as real);
  }

  lemma SlopeArith(sdr: real, scov: real, ssq: real, b: real, n: real)
    requires ssq != 0.0 && b == scov / ssq
    requires sdr == 1.0 * scov + (-b) * ssq + 0.0 * n
    ensures sdr == 0.0
  {
    assert b * ssq == scov;
  }

  /** Centring the abscissae changes the cross sum by the mean abscissa
      times the sum of the residuals. */
  lemma {:induction false} ShiftedCrossSum(ts: seq<real>, ys: seq<real>, l: Line)
    requires |ts| == |ys| > 0
    ensures Sum(Products(ts, Residuals(ts, ys, l)))
      == Sum(Products(Deviations(ts), Residuals(ts, ys, l))) + Mean(ts) * Sum(Residuals(ts, ys, l))
  {
    SumProductsShifted(ts, Deviations(ts), Residuals(ts, ys, l), Mean(ts));
  }

  /** Sum of dt*(dy - b*dt) splits into the two sums of products. */
  lemma {:induction false} SumProductsLinear(dt: seq<real>, dy: seq<real>, r: seq<real>, b: real)
    requires |dt| == |dy| == |r|
    requires forall i :: 0 <= i < |r| ==> r[i] == dy[i] - b * dt[i]
    ensures Sum(Products(dt, r)) == 1.0 * Sum(Products(dt, dy)) + (-b) * Sum(Products(dt, dt)) + 0.0 * (|r| as real)
  {
    ProductsLinear(dt, dy, r, b);
    SumAffine(Products(dt, dy), Products(dt, dt), Products(dt, r), 1.0, -b, 0.0);
  }

  lemma {:induction false} ProductsLinear(dt: seq<real>, dy: seq<real>, r: seq<real>, b: real)
    requires |dt| == |dy| == |r|
    requires forall i :: 0 <= i < |r| ==> r[i] == dy[i] - b * dt[i]
    ensures forall i :: 0 <= i < |Products(dt, r)| ==>
      Products(dt, r)[i] == 1.0 * Products(dt, dy)[i] + (-b) * Products(dt, dt)[i] + 0.0
  {
    var dr := Products(dt, r);
    var cov := Products(dt, dy);
    var sq := Products(dt, dt);
    forall i | 0 <= i < |r|
      ensures dr[i] == 1.0 * cov[i] + (-b) * sq[i] + 0.0
    {
      ProductArith(dr[i], cov[i], sq[i], dt[i], dy[i], r[i], b);
    }
  }

  /** Shifting the first factor by a constant adds that constant times the
      sum of the second. */
  lemma {:induction false} SumProductsShifted(ts: seq<real>, dt: seq<real>, r: seq<real>, tm: real)
    requires |ts| == |dt| == |r|
    requires forall i :: 0 <= i < |ts| ==> dt[i] == ts[i] - tm
    ensures Sum(Products(ts, r)) == Sum(Products(dt, r)) + tm * Sum(r)
  {
    ProductsShifted(ts, dt, r, tm);
    SumAffine(Products(dt, r), r, Products(ts, r), 1.0, tm, 0.0);
  }

  lemma {:induction false} ProductsShifted(ts: seq<real>, dt: seq<real>, r: seq<real>, tm: real)
    requires |ts| == |dt| == |r|
    requires forall i :: 0 <= i < |ts| ==> dt[i] == ts[i] - tm
    ensures forall i :: 0 <= i < |ts| ==> Products(ts, r)[i] == 1.0 * Products(dt, r)[i] + tm * r[i] + 0.0
  {
    var tr := Products(ts, r);
    var dr := Products(dt, r);
    forall i | 0 <= i < |ts|
      ensures tr[i] == 1.0 * dr[i] + tm * r[i] + 0.0
    {
      ShiftArith(tr[i], dr[i], ts[i], dt[i], tm, r[i]);
    }
  }

  lemma ProductArith(dr: real, cov: real, sq: real, dt: real, dy: real, r: real, b: real)
    requires r == dy - b * dt
    requires dr == dt * r && cov == dt * dy && sq == dt * dt
    ensures dr == 1.0 * cov + (-b) * sq + 0.0
  {
  }

  lemma ShiftArith(tr: real, dr: real, t: real, dt: real, tm: real, r: real)
    requires tr == t * r && dr == dt * r && dt == t - tm
    ensures tr == 1.0 * dr + tm * r + 0.0
  {
  }

  /** Data lying exactly on a line are fitted by that very line, with no
      residual. */
  lemma {:induction false} FitRecoversLine(ts: seq<real>, ys: seq<real>, exact: Line)
    requires |ts| == |ys| > 0
    requires Spread(ts) != 0.0
    requires forall i :: 0 <= i < |ts| ==> ys[i] == exact.intercept + exact.slope * ts[i]
    ensures FitLine(ts, ys) == exact
    ensures forall i :: 0 <= i < |ts| ==> Residuals(ts, ys, FitLine(ts, ys))[i] == 0.0
  {
    FitFindsLine(ts, ys, exact);
    ResidualsOfExactLine(ts, ys, exact);
  }

  lemma {:induction false} FitFindsLine(ts: seq<real>, ys: seq<real>, exact: Line)
    requires |ts| == |ys| > 0
    requires Spread(ts) != 0.0
    requires forall i :: 0 <= i < |ts| ==> ys[i] == exact.intercept + exact.slope * ts[i]
    ensures FitLine(ts, ys) == exact
  {
    var b := exact.slope;
    var a := exact.intercept;
    var l := FitLine(ts, ys);
    assert l.slope == Covariation(ts, ys) / Spread(ts);
    assert l.intercept == Mean(ys) - l.slope * Mean(ts);
    MeanOfLine(ts, ys, a, b);
    SlopeOfLine(ts, ys, a, b);
    InterceptArith(Mean(ys), Mean(ts), a, b);
    assert l.slope == b && l.intercept == a;
  }

  /** Points on a line have no residuals against it. */
  lemma {:induction false} ResidualsOfExactLine(ts: seq<real>, ys: seq<real>, l: Line)
    requires |ts| == |ys|
    requires forall i :: 0 <= i < |ts| ==> ys[i] == l.intercept + l.slope * ts[i]
    ensures forall i :: 0 <= i < |ts| ==> Residuals(ts, ys, l)[i] == 0.0
  {
    var r := Residuals(ts, ys, l);
    forall i | 0 <= i < |ts|
      ensures r[i] == 0.0
    {
      assert r[i] == ys[i] - l.intercept - l.slope * ts[i];
    }
  }

  lemma {:induction false} SlopeOfLine(ts: seq<real>, ys: seq<real>, a: real, b: real)
    requires |ts| == |ys| > 0
    requires Spread(ts) != 0.0
    requires forall i :: 0 <= i < |ts| ==> ys[i] == a + b * ts[i]
    requires Mean(ys) == a + b * Mean(ts)
    ensures Covariation(ts, ys) / Spread(ts) == b
  {
    var dt := Deviations(ts);
    var dy := Deviations(ys);
    forall i | 0 <= i < |ts|
      ensures dy[i] == b * dt[i]
    {
      LineDeviationArith(ys[i], ts[i], Mean(ys), Mean(ts), a, b);
    }
    SumProductsScaled(dt, dy, b);
    SlopeRecovered(Covariation(ts, ys), Spread(ts), b);
  }

  /** The mean of points on a line lies on the line. */
  lemma {:induction false} MeanOfLine(ts: seq<real>, ys: seq<real>, a: real, b: real)
    requires |ts| == |ys| > 0
    requires forall i :: 0 <= i < |ts| ==> ys[i] == a + b * ts[i]
    ensures Mean(ys) == a + b * Mean(ts)
  {
    forall i | 0 <= i < |ts|
      ensures ys[i] == b * ts[i] + 0.0 * ts[i] + a
    {
    }
    SumAffine(ts, ts, ys, b, 0.0, a);
    MeanOfAffine(Sum(ts), Sum(ys), |ts| as real, a, b);
  }

  lemma {:induction false} SumProductsScaled(dt: seq<real>, dy: seq<real>, b: real)
    requires |dt| == |dy|
    requires forall i :: 0 <= i < |dt| ==> dy[i] == b * dt[i]
    ensures Sum(Products(dt, dy)) == b * Sum(Products(dt, dt))
  {
    var cov := Products(dt, dy);
    var sq := Products(dt, dt);
    forall i | 0 <= i < |dt|
      ensures cov[i] == b * sq[i] + 0.0 * sq[i] + 0.0
    {
      ScaleArith(cov[i], sq[i], dt[i], dy[i], b);
    }
    SumAffine(sq, sq, cov, b, 0.0, 0.0);
  }

  lemma LineDeviationArith(y: real, t: real, ym: real, tm: real, a: real, b: real)
    requires y == a + b * t && ym == a + b * tm
    ensures y - ym == b * (t - tm)
  {
  }

  lemma InterceptArith(ym: real, tm: real, a: real, b: real)
    requires ym == a + b * tm
    ensures ym - b * tm == a
  {
  }

  lemma MeanOfAffine(st: real, sy: real, n: real, a: real, b: real)
    requires n > 0.0
    requires sy == b * st + 0.0 * st + a * n
    ensures sy / n == a + b * (st / n)
  {
  }

  lemma ScaleArith(cov: real, sq: real, dt: real, dy: real, b: real)
    requires dy == b * dt && cov == dt * dy && sq == dt * dt
    ensures cov == b * sq + 0.0 * sq + 0.0
  {
  }

  lemma SlopeRecovered(sxy: real, sxx: real, b: real)
    requires sxx != 0.0
    requires sxy == b * sxx
    ensures sxy / sxx == b
  {
  }

  /** Two points with distinct abscissae are fitted without residual. */
  lemma {:induction false} TwoPointFitExact(t0: real, t1: real, y0: real, y1: real)
    requires t0 != t1
    ensures Spread([t0, t1]) != 0.0
    ensures Residuals([t0, t1], [y0, y1], FitLine([t0, t1], [y0, y1])) == [0.0, 0.0]
  {
    var ts := [t0, t1];
    var ys := [y0, y1];
    SpreadPositive(ts, 0, 1);
    var b := (y1 - y0) / (t1 - t0);
    var exact := Line(y0 - b * t0, b);
    TwoPointLine(t0, t1, y0, y1);
    FitRecoversLine(ts, ys, exact);
  }

  lemma TwoPointLine(t0: real, t1: real, y0: real, y1: real)
    requires t0 != t1
    ensures y1 == (y0 - (y1 - y0) / (t1 - t0) * t0) + (y1 - y0) / (t1 - t0) * t1
  {
    MulDivCancel(y1 - y0, t1 - t0);
  }

  /** Abscissae that are not all equal have a positive spread. */
  lemma {:induction false} SpreadPositive(ts: seq<real>, j: nat, k: nat)
    requires j < |ts| && k < |ts| && ts[j] != ts[k]
    ensures Spread(ts) > 0.0
  {
    var dt := Deviations(ts);
    assert dt[j] == ts[j] - Mean(ts) && dt[k] == ts[k] - Mean(ts);
    if dt[j] != 0.0 {
      SumOfSquaresPositive(dt, j);
    } else {
      SumOfSquaresPositive(dt, k);
    }
  }

  lemma {:induction false} SumOfSquaresPositive(s: seq<real>, m: nat)
    requires m < |s| && s[m] != 0.0
    ensures Sum(Products(s, s)) > 0.0
  {
    var sq := Products(s, s);
    SquarePositive(s[m], sq[m]);
    forall i | 0 <= i < |sq|
      ensures sq[i] >= 0.0
    {
      SquareNonNegative(s[i], sq[i]);
    }
    SumPositive(sq, m);
  }

  lemma SquarePositive(x: real, p: real)
    requires x != 0.0 && p == x * x
    ensures p > 0.0
  {
    if x > 0.0 {
      ProductPositive(x, x, p);
    } else {
      ProductPositive(-x, -x, p);
    }
  }

  lemma SquareNonNegative(x: real, p: real)
    requires p == x * x
    ensures p >= 0.0
  {
    if x >= 0.0 {
      ProductNonNegative(x, x, p);
    } else {
      ProductNonNegative(-x, -x, p);
    }
  }

  lemma ProductPositive(a: real, b: real, p: real)
    requires a > 0.0 && b > 0.0 && p == a * b
    ensures p > 0.0
  {
  }

  lemma ProductNonNegative(a: real, b: real, p: real)
    requires a >= 0.0 && b >= 0.0 && p == a * b
    ensures p >= 0.0
  {
  }

  /** The closed-form line minimises the sum of squared residuals over all
      lines, which is what a degree-1 polyfit promises. */
  lemma {:induction false} FitIsLeastSquares(ts: seq<real>, ys: seq<real>, other: Line)
    requires |ts| == |ys| > 0
    requires Spread(ts) != 0.0
    ensures SquaredError(ts, ys, FitLine(ts, ys)) <= SquaredError(ts, ys, other)
  {
    NormalEquationsOptimal(ts, ys, FitLine(ts, ys), other);
  }

  /** Any line whose residuals satisfy both normal equations has a squared
      error no larger than any other line's. */
  lemma {:induction false} NormalEquationsOptimal(ts: seq<real>, ys: seq<real>, l: Line, other: Line)
    requires |ts| == |ys|
    requires Sum(Residuals(ts, ys, l)) == 0.0
    requires Sum(Products(ts, Residuals(ts, ys, l))) == 0.0
    ensures SquaredError(ts, ys, l) <= SquaredError(ts, ys, other)
  {
    var r := Residuals(ts, ys, l);
    var q := Residuals(ts, ys, other);
    var delta := Offsets(ts, l.intercept - other.intercept, l.slope - other.slope);
    forall i | 0 <= i < |ts|
      ensures q[i] == r[i] + delta[i]
    {
      OffsetArith(q[i], r[i], delta[i], ys[i], ts[i], l, other);
    }
    CrossTermVanishes(ts, r, l.intercept - other.intercept, l.slope - other.slope);
    SquaresSplit(r, delta, q);
    SumOfSquaresNonNegative(delta);
  }

  /** Values p + s*t of a line at the given abscissae. */
  function Offsets(ts: seq<real>, p: real, s: real): (d: seq<real>)
    ensures |d| == |ts|
    ensures forall i {:trigger d[i], ts[i]} :: 0 <= i < |d| ==> d[i] == p + s * ts[i]
  {
    seq(|ts|, i requires 0 <= i < |ts| => p + s * ts[i])
  }

  lemma OffsetArith(q: real, r: real, d: real, y: real, t: real, l: Line, other: Line)
    requires r == y - l.intercept - l.slope * t
    requires q == y - other.intercept - other.slope * t
    requires d == (l.intercept - other.intercept) + (l.slope - other.slope) * t
    ensures q == r + d
  {
  }

  /** Residuals satisfying both normal equations are orthogonal to every
      line. */
  lemma {:induction false} CrossTermVanishes(ts: seq<real>, r: seq<real>, p: real, s: real)
    requires |ts| == |r|
    requires Sum(r) == 0.0 && Sum(Products(ts, r)) == 0.0
    ensures Sum(Products(r, Offsets(ts, p, s))) == 0.0
  {
    var d := Offsets(ts, p, s);
    var tr := Products(ts, r);
    var rd := Products(r, d);
    forall i | 0 <= i < |r|
      ensures rd[i] == p * r[i] + s * tr[i] + 0.0
    {
      CrossArith(rd[i], tr[i], r[i], ts[i], d[i], p, s);
    }
    SumAffine(r, tr, rd, p, s, 0.0);
    CrossSumArith(Sum(rd), Sum(r), Sum(tr), p, s, |r| as real);
  }

  lemma CrossArith(rd: real, tr: real, r: real, t: real, d: real, p: real, s: real)
    requires rd == r * d && tr == t * r && d == p + s * t
    ensures rd == p * r + s * tr + 0.0
  {
  }

  lemma CrossSumArith(srd: real, sr: real, str: real, p: real, s: real, n: real)
    requires srd == p * sr + s * str + 0.0 * n
    requires sr == 0.0 && str == 0.0
    ensures srd == 0.0
  {
  }

  /** Sum of (r + d)^2 expands into the three sums. */
  lemma {:induction false} SquaresSplit(r: seq<real>, d: seq<real>, q: seq<real>)
    requires |r| == |d| == |q|
    requires forall i :: 0 <= i < |q| ==> q[i] == r[i] + d[i]
    ensures Sum(Products(q, q)) ==
      Sum(Products(r, r)) + 2.0 * Sum(Products(r, d)) + Sum(Products(d, d))
  {
    var q2 := Products(q, q);
    var r2 := Products(r, r);
    var rd := Products(r, d);
    var d2 := Products(d, d);
    var r2d2 := seq(|q|, i requires 0 <= i < |q| => r2[i] + d2[i]);
    forall i | 0 <= i < |q|
      ensures q2[i] == 1.0 * r2d2[i] + 2.0 * rd[i] + 0.0
    {
      ExpandArith(q2[i], r2d2[i], rd[i], r2[i], d2[i], q[i], r[i], d[i]);
    }
    SumAffine(r2d2, rd, q2, 1.0, 2.0, 0.0);
    SumAffine(r2, d2, r2d2, 1.0, 1.0, 0.0);
  }

  lemma ExpandArith(q2: real, r2d2: real, rd: real, r2: real, d2: real, q: real, r: real, d: real)
    requires q == r + d
    requires q2 == q * q && r2 == r * r && d2 == d * d && rd == r * d && r2d2 == r2 + d2
    ensures q2 == 1.0 * r2d2 + 2.0 * rd + 0.0
  {
  }

  lemma {:induction false} SquaresNonNegative(d: seq<real>)
    ensures forall i :: 0 <= i < |d| ==> Products(d, d)[i] >= 0.0
  {
    var d2 := Products(d, d);
    forall i | 0 <= i < |d|
      ensures d2[i] >= 0.0
    {
      SquareNonNegative(d[i], d2[i]);
    }
  }

  lemma {:induction false} SumOfSquaresNonNegative(d: seq<real>)
    ensures Sum(Products(d, d)) >= 0.0
  {
    SquaresNonNegative(d);
    SumNonNegative(Products(d, d));
  }

  // ---------------------------------------------------------------------
  // Trapezoid rule

  /** The area under the chord from (x0, y0) to (x1, y1); signed by the
      direction of travel along the abscissa. */
  function Trapezoid(x0: real, x1: real, y0: real, y1: real): real
  {
    (x1 - x0) * (y0 + y1) / 2.0
  }

  /** The areas of the trapezoids between consecutive sample points. */
  function TrapzTerms(ys: seq<real>, xs: seq<real>): (t: seq<real>)
    requires |ys| == |xs|
    ensures |t| == if |xs| == 0 then 0 else |xs| - 1
    ensures forall i {:trigger t[i]} :: 0 <= i < |t| ==> t[i] == Trapezoid(xs[i], xs[i + 1], ys[i], ys[i + 1])
  {
    if |xs| == 0 then []
    else seq(|xs| - 1, i requires 0 <= i < |xs| - 1 => Trapezoid(xs[i], xs[i + 1], ys[i], ys[i + 1]))
  }

  /** scipy's trapz(ys, xs); zero for fewer than two points. */
  function Trapz(ys: seq<real>, xs: seq<real>): real
    requires |ys| == |xs|
  {
    Sum(TrapzTerms(ys, xs))
  }

  /** The rule is exact for constants. */
  lemma {:induction false} TrapzConstant(c: real, ys: seq<real>, xs: seq<real>)
    requires |ys| == |xs| > 0
    requires forall i :: 0 <= i < |ys| ==> ys[i] == c
    ensures Trapz(ys, xs) == c * (xs[|xs| - 1] - xs[0])
  {
    ConstantTrapezoids(c, ys, xs);
    SumScaledBy(Spacings(xs), TrapzTerms(ys, xs), c);
    SpacingsTelescope(xs);
  }

  /** Under a constant integrand each trapezoid is the constant times the
      width of its strip. */
  lemma {:induction false} ConstantTrapezoids(c: real, ys: seq<real>, xs: seq<real>)
    requires |ys| == |xs| > 0
    requires forall i :: 0 <= i < |ys| ==> ys[i] == c
    ensures |TrapzTerms(ys, xs)| == |Spacings(xs)|
    ensures forall i :: 0 <= i < |Spacings(xs)| ==> TrapzTerms(ys, xs)[i] == c * Spacings(xs)[i]
  {
    var t := TrapzTerms(ys, xs);
    var sp := Spacings(xs);
    forall i | 0 <= i < |t|
      ensures t[i] == c * sp[i]
    {
      TrapzConstantArith(t[i], xs[i], xs[i + 1], ys[i], ys[i + 1], c, sp[i]);
    }
  }

  lemma TrapzConstantArith(t: real, x0: real, x1: real, y0: real, y1: real, c: real, sp: real)
    requires t == Trapezoid(x0, x1, y0, y1)
    requires y0 == c && y1 == c && sp == x1 - x0
    ensures t == c * sp
  {
  }

  ghost predicate Increasing(xs: seq<real>)
  {
    forall i :: 0 <= i < |xs| - 1 ==> xs[i] <= xs[i + 1]
  }

  ghost predicate Decreasing(xs: seq<real>)
  {
    forall i :: 0 <= i < |xs| - 1 ==> xs[i] >= xs[i + 1]
  }

  /** Non-negative integrands over increasing abscissae integrate to a
      non-negative value, and over decreasing ones to a non-positive one. */
  lemma {:induction false} TrapzSign(ys: seq<real>, xs: seq<real>)
    requires |ys| == |xs|
    requires forall i :: 0 <= i < |ys| ==> ys[i] >= 0.0
    ensures Increasing(xs) ==> Trapz(ys, xs) >= 0.0
    ensures Decreasing(xs) ==> Trapz(ys, xs) <= 0.0
  {
    var t := TrapzTerms(ys, xs);
    if Increasing(xs) {
      forall i | 0 <= i < |t|
        ensures t[i] >= 0.0
      {
        TrapzTermSign(t[i], xs[i], xs[i + 1], ys[i], ys[i + 1]);
      }
      SumNonNegative(t);
    }
    if Decreasing(xs) {
      forall i | 0 <= i < |t|
        ensures t[i] <= 0.0
      {
        TrapzTermSign(t[i], xs[i], xs[i + 1], ys[i], ys[i + 1]);
      }
      SumNonPositive(t);
    }
  }

  lemma TrapzTermSign(t: real, x0: real, x1: real, y0: real, y1: real)
    requires t == Trapezoid(x0, x1, y0, y1)
    requires y0 >= 0.0 && y1 >= 0.0
    ensures x0 <= x1 ==> t >= 0.0
    ensures x0 >= x1 ==> t <= 0.0
  {
  }

  // ---------------------------------------------------------------------
  // Spectral rigidity

  /** The staircase sampled at the given points. */
  function Staircase(levels: seq<real>, xs: seq<real>): (ns: seq<real>)
    ensures |ns| == |xs|
    ensures forall i {:trigger ns[i]} :: 0 <= i < |xs| ==> ns[i] == Bisect(levels, xs[i]) as real
  {
    seq(|xs|, i requires 0 <= i < |xs| => Bisect(levels, xs[i]) as real)
  }

  /** The sample points of the window of width `width` centred at `centre`. */
  function Window(centre: real, width: real): (es: seq<real>)
    ensures |es| == NumPoints
  {
    Linspace(centre - width / 2.0, centre + width / 2.0, NumPoints)
  }

  /** A window of non-zero width has distinct abscissae, increasing for a
      positive width and decreasing for a negative one. */
  lemma {:induction false} WindowShape(centre: real, width: real)
    requires width != 0.0
    ensures Spread(Window(centre, width)) > 0.0
    ensures width > 0.0 ==> Increasing(Window(centre, width))
    ensures width < 0.0 ==> Decreasing(Window(centre, width))
  {
    var es := Window(centre, width);
    var step := ((centre + width / 2.0) - (centre - width / 2.0)) / ((NumPoints - 1) as real);
    StepSign(centre, width, step, (NumPoints - 1) as real);
    assert es[1] - es[0] == step;
    SpreadPositive(es, 0, 1);
    if width > 0.0 {
      forall i | 0 <= i < |es| - 1
        ensures es[i] <= es[i + 1]
      {
        assert es[i + 1] - es[i] == step;
      }
    }
    if width < 0.0 {
      forall i | 0 <= i < |es| - 1
        ensures es[i] >= es[i + 1]
      {
        assert es[i + 1] - es[i] == step;
      }
    }
  }

  lemma StepSign(centre: real, width: real, step: real, k: real)
    requires k > 0.0
    requires step == ((centre + width / 2.0) - (centre - width / 2.0)) / k
    ensures width > 0.0 ==> step > 0.0
    ensures width < 0.0 ==> step < 0.0
    ensures width != 0.0 ==> step != 0.0
  {
    assert (centre + width / 2.0) - (centre - width / 2.0) == width;
  }

  /** The integral, over the sample points `es`, of the squared distance
      from the samples `ns` to their least-squares line. */
  function ResidualArea(es: seq<real>, ns: seq<real>): real
    requires |es| == |ns| > 0
    requires Spread(es) != 0.0
  {
    var r := Residuals(es, ns, FitLine(es, ns));
    Trapz(Products(r, r), es)
  }

  /** Mean squared deviation of the staircase from its best line over one
      window. */
  function WindowDeviation(levels: seq<real>, centre: real, width: real): (d: real)
    requires width != 0.0
    ensures d >= 0.0
  {
    var es := Window(centre, width);
    var ns := Staircase(levels, es);
    WindowShape(centre, width);
    ResidualAreaSign(es, ns, width);
    ResidualArea(es, ns) / width
  }

  /** Squared residuals are non-negative, so the area has the sign of the
      direction of travel, which is the sign of the width. */
  lemma {:induction false} ResidualAreaSign(es: seq<real>, ns: seq<real>, width: real)
    requires |es| == |ns| > 0
    requires Spread(es) != 0.0
    requires width > 0.0 ==> Increasing(es)
    requires width < 0.0 ==> Decreasing(es)
    requires width != 0.0
    ensures ResidualArea(es, ns) / width >= 0.0
  {
    var r := Residuals(es, ns, FitLine(es, ns));
    var x2s := Products(r, r);
    SquaresNonNegative(r);
    TrapzSign(x2s, es);
    QuotientSameSign(Trapz(x2s, es), width);
  }

  /** Samples lying exactly on a line leave no residual area. */
  lemma {:induction false} ExactFitHasNoArea(es: seq<real>, ns: seq<real>, exact: Line)
    requires |es| == |ns| > 0
    requires Spread(es) != 0.0
    requires forall i :: 0 <= i < |es| ==> ns[i] == exact.intercept + exact.slope * es[i]
    ensures ResidualArea(es, ns) == 0.0
  {
    FitRecoversLine(es, ns, exact);
    var r := Residuals(es, ns, FitLine(es, ns));
    var x2s := Products(r, r);
    forall i | 0 <= i < |x2s|
      ensures x2s[i] == 0.0
    {
      assert r[i] == 0.0;
    }
    TrapzConstant(0.0, x2s, es);
  }

  lemma QuotientSameSign(x: real, w: real)
    requires w != 0.0
    requires w > 0.0 ==> x >= 0.0
    requires w < 0.0 ==> x <= 0.0
    ensures x / w >= 0.0
  {
  }

  /** Delta_3(L): the window deviation averaged over 500 window centres
      spread evenly between min(bounds) + L/2 and max(bounds) - L/2. A zero
      width short-cuts to 0 before the bounds are examined. */
  function Rigidity(width: real, bounds: seq<real>, levels: seq<real>): (r: Result<real, SpectrumError>)
    ensures width == 0.0 ==> r == Ok(0.0)
    ensures r.Err? <==> width != 0.0 && |bounds| == 0
    ensures r.Ok? ==> r.value >= 0.0
  {
    if width == 0.0 then Ok(0.0)
    else if |bounds| == 0 then Err(EmptySequence)
    else
      var centres := Linspace(MinOf(bounds) + width / 2.0, MaxOf(bounds) - width / 2.0, NumCentres);
      var ds := seq(|centres|, i requires 0 <= i < |centres| => WindowDeviation(levels, centres[i], width));
      SumNonNegative(ds);
      QuotientNonNegative(Sum(ds), |ds| as real);
      Ok(Mean(ds))
  }

  // ---------------------------------------------------------------------
  // Reference spectra and the whole analysis

  /** The picket-fence spectrum 0, 1, ..., n-1. */
  function PicketFence(n: nat): (p: seq<real>)
    ensures |p| == n
  {
    seq(n, i requires 0 <= i < n => i as real)
  }

  /** The picket fence is already unfolded: unit spacings and unchanged
      levels. */
  lemma {:induction false} PicketFenceUnfolded(n: nat)
    requires n >= 2
    ensures Unfold(PicketFence(n)) ==
      Ok(Unfolded(PicketFence(n), seq(n - 1, i requires 0 <= i < n - 1 => 1.0)))
  {
    var p := PicketFence(n);
    assert Spacings(p) == seq(n - 1, i requires 0 <= i < n - 1 => 1.0);
    PicketFenceUnitSpacing(n);
    UnfoldOfUnitSpectrum(p);
  }

  lemma {:induction false} PicketFenceUnitSpacing(n: nat)
    requires n >= 2
    ensures MeanSpacingOf(PicketFence(n)) == 1.0
  {
    var p := PicketFence(n);
    MeanSpacing(p);
    assert p[n - 1] - p[0] == (n - 1) as real;
    SelfQuotient((n - 1) as real);
  }

  lemma SelfQuotient(k: real)
    requires k != 0.0
    ensures k / k == 1.0
  {
  }

  /** The ascending order numpy sorts reals by. */
  predicate LessEq(a: real, b: real)
  {
    a <= b
  }

  /** The Poisson reference: uniform draws (an input here), sorted and
      unfolded. It fails exactly when the sorted draws span no width, and
      otherwise holds the sorted draws over their mean spacing, in order. */
  function PoissonLevels(draws: seq<real>): (r: Result<seq<real>, SpectrumError>)
    ensures var s := Sorting.Sort(draws, LessEq);
      && |s| == |draws| && multiset(s) == multiset(draws)
      && (r.Ok? <==> |s| >= 2 && s[|s| - 1] != s[0])
      && (r.Ok? ==> |r.value| == |draws| && Sorted(r.value))
      && (r.Ok? ==> Unfold(s).Ok? && r.value == Unfold(s).value.levels)
  {
    var sorted := Sorting.Sort(draws, LessEq);
    Sorting.SortSorted(draws, LessEq);
    var u :- Unfold(sorted);
    UnfoldKeepsOrder(sorted);
    Ok(u.levels)
  }

  function RigidityCurve(widths: seq<real>, bounds: seq<real>, levels: seq<real>): (c: seq<real>)
    requires |bounds| > 0
    ensures |c| == |widths|
    ensures forall i :: 0 <= i < |c| ==> c[i] >= 0.0
    ensures forall i :: 0 <= i < |c| ==> widths[i] == 0.0 ==> c[i] == 0.0
  {
    seq(|widths|, i requires 0 <= i < |widths| => Rigidity(widths[i], bounds, levels).value)
  }

  datatype Curves = Curves(unfolded: seq<real>, data: seq<real>, picketFence: seq<real>, poisson: seq<real>)

  /** The rigidity part of the script: the first `numConverged` final
      energies are unfolded and their Delta_3 is computed over widths
      0..20, next to the picket-fence and Poisson references. */
  function Analyse(finalEnergies: seq<real>, numConverged: nat, draws: seq<real>): (r: Result<Curves, SpectrumError>)
    requires |draws| == 1000
    ensures r.Ok? <==> Unfold(Take(finalEnergies, numConverged)).Ok? && PoissonLevels(draws).Ok?
    ensures Unfold(Take(finalEnergies, numConverged)).Err? ==> r == Err(NonFinite)
    ensures r.Ok? ==> Unfold(Take(finalEnergies, numConverged)) == Ok(Unfolded(r.value.unfolded, Spacings(r.value.unfolded)))
    ensures r.Ok? ==> |r.value.data| == |r.value.picketFence| == |r.value.poisson| == 50
    ensures r.Ok? ==> r.value.data[0] == 0.0 && r.value.picketFence[0] == 0.0 && r.value.poisson[0] == 0.0
    ensures r.Ok? ==> var widths := Linspace(0.0, 20.0, 50); var u := r.value.unfolded;
      && |u| >= 2
      && r.value.data == RigidityCurve(widths, Linspace(0.0, MaxOf(u), 1000), u)
      && r.value.picketFence == RigidityCurve(widths, PicketFence(1000), PicketFence(1000))
      && r.value.poisson == RigidityCurve(widths, PoissonLevels(draws).value, PoissonLevels(draws).value)
  {
    var energies := Take(finalEnergies, numConverged);
    var u :- Unfold(energies);
    var grid := Linspace(0.0, MaxOf(u.levels), 1000);
    var widths := Linspace(0.0, 20.0, 50);
    var fence := PicketFence(1000);
    var po :- PoissonLevels(draws);
    Ok(Curves(u.levels, RigidityCurve(widths, grid, u.levels),
              RigidityCurve(widths, fence, fence), RigidityCurve(widths, po, po)))
  }
}
