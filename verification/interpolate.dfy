/** The hand-written piecewise-linear interpolator of Sin.py (`linear_interpolate`):
    linear interpolation between bracketing samples, and linear extrapolation
    along the first or last segment outside the sample range. Values are reals. */
module LinearInterpolation {
  import opened Numpy

  /** What the caller must supply: one y per x, at least two samples, and
      strictly increasing x (the interpolator checks none of this). */
  predicate ValidSamples(xs: seq<real>, ys: seq<real>)
  {
    |xs| == |ys| && |xs| >= 2 && StrictlyIncreasing(xs)
  }

  /** Slope of the segment from `(x0, y0)` to `(x1, y1)`. */
  function SlopeOf(x0: real, y0: real, x1: real, y1: real): real
    requires x0 < x1
  {
    (y1 - y0) / (x1 - x0)
  }

  /** The line through `(x0, y0)` and `(x1, y1)`, anchored at `(x0, y0)`,
      evaluated at `x`. */
  function LineAt(x0: real, y0: real, x1: real, y1: real, x: real): real
    requires x0 < x1
  {
    y0 + SlopeOf(x0, y0, x1, y1) * (x - x0)
  }

  /** The line passes through both points that define it. */
  lemma LineAtEnds(x0: real, y0: real, x1: real, y1: real)
    requires x0 < x1
    ensures LineAt(x0, y0, x1, y1, x0) == y0
    ensures LineAt(x0, y0, x1, y1, x1) == y1
  {
  }

  /** Anchoring the line at its second point gives the same line. */
  lemma LineAtReanchored(x0: real, y0: real, x1: real, y1: real, x: real)
    requires x0 < x1
    ensures LineAt(x0, y0, x1, y1, x) == y1 + SlopeOf(x0, y0, x1, y1) * (x - x1)
  {
    var m := SlopeOf(x0, y0, x1, y1);
    LineAtEnds(x0, y0, x1, y1);
    assert m * (x - x0) == m * (x1 - x0) + m * (x - x1);
  }

  /** The product of two non-negative reals is non-negative. */
  lemma ProductNonnegative(a: real, b: real)
    requires 0.0 <= a && 0.0 <= b
    ensures 0.0 <= a * b
  {
  }

  /** A segment's slope has the sign of its rise. */
  lemma SlopeOfSign(x0: real, y0: real, x1: real, y1: real)
    requires x0 < x1
    ensures y0 <= y1 ==> 0.0 <= SlopeOf(x0, y0, x1, y1)
    ensures y1 <= y0 ==> SlopeOf(x0, y0, x1, y1) <= 0.0
  {
  }

  /** Between its two points the line stays between their values. */
  lemma LineAtBetweenEnds(x0: real, y0: real, x1: real, y1: real, x: real)
    requires x0 < x1
    requires x0 <= x <= x1
    ensures y0 <= y1 ==> y0 <= LineAt(x0, y0, x1, y1, x) <= y1
    ensures y1 <= y0 ==> y1 <= LineAt(x0, y0, x1, y1, x) <= y0
  {
    var m := SlopeOf(x0, y0, x1, y1);
    LineAtEnds(x0, y0, x1, y1);
    assert m * (x - x0) + m * (x1 - x) == y1 - y0;
    SlopeOfSign(x0, y0, x1, y1);
    if y0 <= y1 {
      ProductNonnegative(m, x - x0);
      ProductNonnegative(m, x1 - x);
    } else {
      ProductNonnegative(-m, x - x0);
      ProductNonnegative(-m, x1 - x);
    }
  }

  /** Slope of segment `k`, the one from sample `k` to sample `k+1`. */
  function Slope(xs: seq<real>, ys: seq<real>, k: int): real
    requires ValidSamples(xs, ys)
    requires 0 <= k <= |xs| - 2
  {
    SlopeOf(xs[k], ys[k], xs[k + 1], ys[k + 1])
  }

  /** The straight line carrying segment `k`, evaluated at `x`. */
  function Line(xs: seq<real>, ys: seq<real>, k: int, x: real): real
    requires ValidSamples(xs, ys)
    requires 0 <= k <= |xs| - 2
  {
    LineAt(xs[k], ys[k], xs[k + 1], ys[k + 1], x)
  }

  /** The line of segment `k` passes through both of its end samples. */
  lemma LineThroughEnds(xs: seq<real>, ys: seq<real>, k: int)
    requires ValidSamples(xs, ys)
    requires 0 <= k <= |xs| - 2
    ensures Line(xs, ys, k, xs[k]) == ys[k]
    ensures Line(xs, ys, k, xs[k + 1]) == ys[k + 1]
  {
    assert xs[k] < xs[k + 1];
    LineAtEnds(xs[k], ys[k], xs[k + 1], ys[k + 1]);
  }

  /** The three ways a query is handled. */
  datatype Branch = Below | Above | Inside

  /** Which branch a query takes: the first test is against the first sample,
      the second against the last one, and everything else is in range. */
  function Classify(xs: seq<real>, x: real): (b: Branch)
    requires |xs| >= 1
    ensures b == Below <==> x < xs[0]
    ensures b == Above <==> xs[0] <= x && xs[|xs| - 1] < x
    ensures b == Inside <==> xs[0] <= x <= xs[|xs| - 1]
  {
    if x < xs[0] then Below
    else if x > xs[|xs| - 1] then Above
    else Inside
  }

  /** On valid samples the branch is decided by comparing `x` with the two end
      samples alone, each test on its own: the guard of the second branch never
      needs the failure of the first. */
  lemma ClassifyOnSamples(xs: seq<real>, ys: seq<real>, x: real)
    requires ValidSamples(xs, ys)
    ensures Classify(xs, x) == Above <==> xs[|xs| - 1] < x
    ensures Classify(xs, x) == Inside <==> !(x < xs[0]) && !(xs[|xs| - 1] < x)
  {
    assert xs[0] < xs[|xs| - 1];
  }

  /** Python's `min` and `max` on two integers. */
  function Min(a: int, b: int): int { if a <= b then a else b }
  function Max(a: int, b: int): int { if a >= b then a else b }

  /** The segment chosen for an in-range query: one less than the left
      insertion point, clamped into `[0, n-2]`. */
  function SegmentIndex(xs: seq<real>, x: real): (idx: int)
    requires |xs| >= 2
    ensures 0 <= idx <= |xs| - 2
  {
    Max(0, Min(SearchSortedLeft(xs, x) - 1, |xs| - 2))
  }

  /** On valid samples the search for a real in-range query never runs past
      the last sample, so the upper clamp `min(idx, n-2)` never changes the
      index; for such queries only the lower clamp, at the first sample, does
      any work. */
  lemma UpperClampInactive(xs: seq<real>, ys: seq<real>, x: real)
    requires ValidSamples(xs, ys)
    requires xs[0] <= x <= xs[|xs| - 1]
    ensures SearchSortedLeft(xs, x) < |xs|
    ensures Min(SearchSortedLeft(xs, x) - 1, |xs| - 2) == SearchSortedLeft(xs, x) - 1
  {
  }

  /** The same choice of segment written case by case, as the second copy of
      the interpolator does: the segment left of the insertion point `i` when
      `0 < i < n`, the first segment when `i == 0`, the last one otherwise. */
  function CaseIndex(n: int, i: int): int
  {
    if 0 < i < n then i - 1
    else if i == 0 then 0
    else n - 2
  }

  /** The clamp and the case-by-case choice pick the same segment for every query. */
  lemma SegmentIndexMatchesCaseIndex(xs: seq<real>, x: real)
    requires |xs| >= 2
    ensures SegmentIndex(xs, x) == CaseIndex(|xs|, SearchSortedLeft(xs, x))
  {
  }

  /** When the first two abscissae are equal, the query equal to them is in
      range and selects the zero-width first segment, whose slope divides by
      zero. */
  lemma FirstRepeatSelected(xs: seq<real>, x: real)
    requires |xs| >= 2 && NonDecreasing(xs)
    requires xs[0] == xs[1] && x == xs[0]
    ensures xs[0] <= x <= xs[|xs| - 1]
    ensures SegmentIndex(xs, x) == 0
    ensures xs[SegmentIndex(xs, x)] == xs[SegmentIndex(xs, x) + 1]
  {
  }

  /** With sorted abscissae that repeat only in the interior, the chosen segment
      never has zero width, so the in-range division is still defined: the
      search stops at the first of a run of equal samples. */
  lemma InteriorRepeatsNeverSelected(xs: seq<real>, x: real)
    requires |xs| >= 2 && NonDecreasing(xs)
    requires xs[0] < xs[1] && xs[|xs| - 2] < xs[|xs| - 1]
    requires xs[0] <= x <= xs[|xs| - 1]
    ensures xs[SegmentIndex(xs, x)] < xs[SegmentIndex(xs, x) + 1]
  {
    var n := |xs|;
    var s := SearchSortedLeft(xs, x);
    if 0 < s < n {
      assert xs[s - 1] < x <= xs[s];
    }
  }

  /** The chosen segment brackets every in-range query. */
  lemma SegmentIndexBrackets(xs: seq<real>, ys: seq<real>, x: real)
    requires ValidSamples(xs, ys)
    requires xs[0] <= x <= xs[|xs| - 1]
    ensures xs[SegmentIndex(xs, x)] <= x <= xs[SegmentIndex(xs, x) + 1]
  {
    var n := |xs|;
    var s := SearchSortedLeft(xs, x);
    if s == 0 {
      assert x == xs[0];
      assert xs[0] < xs[1];
    } else {
      assert xs[s - 1] < x <= xs[s];
    }
  }

  /** A query equal to a sample selects the segment that ends there, except the
      first sample, where the search gives 0, the clamp lifts -1 to 0, and the
      segment starts there. */
  lemma SegmentIndexAtKnot(xs: seq<real>, ys: seq<real>, k: nat)
    requires ValidSamples(xs, ys)
    requires k < |xs|
    ensures SegmentIndex(xs, xs[k]) == if k == 0 then 0 else k - 1
  {
    SearchSortedLeftFindsKnot(xs, k);
  }

  /** The value `linear_interpolate` produces for a single query `x`. */
  function EvalAt(xs: seq<real>, ys: seq<real>, x: real): real
    requires ValidSamples(xs, ys)
  {
    var n := |xs|;
    match Classify(xs, x)
    case Below => Line(xs, ys, 0, x)
    case Above => ys[n - 1] + Slope(xs, ys, n - 2) * (x - xs[n - 1])
    case Inside => Line(xs, ys, SegmentIndex(xs, x), x)
  }

  /** Below the first sample the result lies on the line of the first segment,
      `y_data[0] + s0 * (x - x_data[0])`. */
  lemma BelowExtendsFirstSegment(xs: seq<real>, ys: seq<real>, x: real)
    requires ValidSamples(xs, ys)
    requires x < xs[0]
    ensures EvalAt(xs, ys, x) == Line(xs, ys, 0, x)
    ensures EvalAt(xs, ys, x) == ys[0] + (ys[1] - ys[0]) / (xs[1] - xs[0]) * (x - xs[0])
  {
  }

  /** Above the last sample the result lies on the line of the last segment,
      although the source anchors that line at the last sample rather than at
      the start of the segment. */
  lemma AboveExtendsLastSegment(xs: seq<real>, ys: seq<real>, x: real)
    requires ValidSamples(xs, ys)
    requires xs[|xs| - 1] < x
    ensures EvalAt(xs, ys, x) == Line(xs, ys, |xs| - 2, x)
    ensures EvalAt(xs, ys, x)
         == ys[|xs| - 1] + (ys[|xs| - 1] - ys[|xs| - 2]) / (xs[|xs| - 1] - xs[|xs| - 2]) * (x - xs[|xs| - 1])
  {
    var n := |xs|;
    ClassifyOnSamples(xs, ys, x);
    assert Classify(xs, x) == Above;
    assert xs[n - 2] < xs[n - 1];
    LineAtReanchored(xs[n - 2], ys[n - 2], xs[n - 1], ys[n - 1], x);
  }

  /** In range, the result is the value on the line of the bracketing segment. */
  lemma InsideFollowsSegment(xs: seq<real>, ys: seq<real>, x: real)
    requires ValidSamples(xs, ys)
    requires xs[0] <= x <= xs[|xs| - 1]
    ensures EvalAt(xs, ys, x) == Line(xs, ys, SegmentIndex(xs, x), x)
    ensures var k := SegmentIndex(xs, x);
      EvalAt(xs, ys, x) == ys[k] + (ys[k + 1] - ys[k]) / (xs[k + 1] - xs[k]) * (x - xs[k])
  {
    assert Classify(xs, x) == Inside;
  }

  /** The interpolant passes through every sample exactly. */
  lemma EvalAtKnot(xs: seq<real>, ys: seq<real>, k: nat)
    requires ValidSamples(xs, ys)
    requires k < |xs|
    ensures EvalAt(xs, ys, xs[k]) == ys[k]
  {
    var n := |xs|;
    assert xs[0] <= xs[k] <= xs[n - 1] by {
      assert 0 < k ==> xs[0] < xs[k];
      assert k < n - 1 ==> xs[k] < xs[n - 1];
    }
    SegmentIndexAtKnot(xs, ys, k);
    InsideFollowsSegment(xs, ys, xs[k]);
    if k == 0 {
      LineThroughEnds(xs, ys, 0);
    } else {
      LineThroughEnds(xs, ys, k - 1);
    }
  }

  /** In range, the result lies between the values at the two ends of the
      bracketing segment. */
  lemma InsideBetweenEnds(xs: seq<real>, ys: seq<real>, x: real)
    requires ValidSamples(xs, ys)
    requires xs[0] <= x <= xs[|xs| - 1]
    ensures var k := SegmentIndex(xs, x);
      (ys[k] <= ys[k + 1] ==> ys[k] <= EvalAt(xs, ys, x) <= ys[k + 1]) &&
      (ys[k + 1] <= ys[k] ==> ys[k + 1] <= EvalAt(xs, ys, x) <= ys[k])
  {
    var k := SegmentIndex(xs, x);
    InsideFollowsSegment(xs, ys, x);
    SegmentIndexBrackets(xs, ys, x);
    assert xs[k] < xs[k + 1];
    LineAtBetweenEnds(xs[k], ys[k], xs[k + 1], ys[k + 1], x);
  }

  /** Whichever segment contains an in-range query, its line gives the result:
      adjacent segments meet at their shared sample, so the choice made at a
      sample does not matter. */
  lemma EvalAtOnAnySegment(xs: seq<real>, ys: seq<real>, k: int, x: real)
    requires ValidSamples(xs, ys)
    requires 0 <= k <= |xs| - 2
    requires xs[k] <= x <= xs[k + 1]
    ensures EvalAt(xs, ys, x) == Line(xs, ys, k, x)
  {
    var n := |xs|;
    assert xs[0] <= x <= xs[n - 1] by {
      assert xs[0] <= xs[k];
      assert xs[k + 1] <= xs[n - 1];
    }
    var j := SegmentIndex(xs, x);
    InsideFollowsSegment(xs, ys, x);
    SegmentIndexBrackets(xs, ys, x);
    assert 0 < j ==> xs[j] < x by {
      assert 0 < j ==> j < SearchSortedLeft(xs, x);
    }
    if j != k {
      assert j + 1 == k by {
        assert j < k;
      }
      LineThroughEnds(xs, ys, j);
      LineThroughEnds(xs, ys, k);
    }
  }

  /** Three evaluations worked by hand: the midpoint of the first segment,
      one step below the range, and half a step above it. */
  lemma WorkedExamples()
    ensures EvalAt([0.0, 1.0, 2.0, 3.0, 4.0, 5.0], [-1.0, 1.0, 2.0, 3.0, 1.0, 4.0], 0.5) == 0.0
    ensures EvalAt([-1.0, 0.0, 1.0], [-3.0, -1.0, 1.0], -2.0) == -5.0
    ensures EvalAt([0.0, 1.0, 2.0], [0.0, 1.0, 4.0], 2.5) == 5.5
  {
    var xs := [0.0, 1.0, 2.0, 3.0, 4.0, 5.0];
    assert SearchSortedLeft(xs, 0.5) == 1;
  }

  /** `linear_interpolate`: one result per query, in query order, each the
      value of the interpolant (or its boundary extrapolation) at that query. */
  method LinearInterpolate(xEval: seq<real>, xData: seq<real>, yData: seq<real>) returns (yEval: seq<real>)
    requires ValidSamples(xData, yData)
    ensures |yEval| == |xEval|
    ensures forall q :: 0 <= q < |xEval| ==> yEval[q] == EvalAt(xData, yData, xEval[q])
    ensures forall q, k :: 0 <= q < |xEval| && 0 <= k < |xData| && xEval[q] == xData[k] ==> yEval[q] == yData[k]
  {
    var n := |xData|;
    yEval := [];
    for q := 0 to |xEval|
      invariant |yEval| == q
      invariant forall p :: 0 <= p < q ==> yEval[p] == EvalAt(xData, yData, xEval[p])
    {
      var x := xEval[q];
      var y: real;
      if x < xData[0] {
        // y_data[0] + slope * (x - x_data[0]), with the slope of the first segment
        y := LineAt(xData[0], yData[0], xData[1], yData[1], x);
        BelowExtendsFirstSegment(xData, yData, x);
      } else if x > xData[n - 1] {
        var slope := SlopeOf(xData[n - 2], yData[n - 2], xData[n - 1], yData[n - 1]);
        y := yData[n - 1] + slope * (x - xData[n - 1]);
        AboveExtendsLastSegment(xData, yData, x);
      } else {
        var idx := SearchSortedLeft(xData, x) - 1;
        idx := Max(0, Min(idx, n - 2));
        var x0, x1 := xData[idx], xData[idx + 1];
        var y0, y1 := yData[idx], yData[idx + 1];
        // y0 + slope * (x - x0), with slope (y1 - y0) / (x1 - x0)
        y := LineAt(x0, y0, x1, y1, x);
        assert idx == SegmentIndex(xData, x);
        InsideFollowsSegment(xData, yData, x);
      }
      yEval := yEval + [y];
    }
    forall q, k | 0 <= q < |xEval| && 0 <= k < |xData| && xEval[q] == xData[k]
      ensures yEval[q] == yData[k]
    {
      EvalAtKnot(xData, yData, k);
    }
  }
}
