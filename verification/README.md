# Piecewise-linear interpolation with boundary extrapolation

This project models `linear_interpolate` from `Sin.py`, the one hand-written
algorithm in the repository. The rest of the repository is data set-up, library
calls and plotting.

Given sample abscissae `x_data`, ordinates `y_data` and a list of queries
`x_eval`, the function returns one value per query. The value depends on where
the query falls:

- below the first sample, the line of the first segment is extended;
- above the last sample, the line of the last segment is extended, anchored at
  the last sample;
- otherwise the bracketing segment is found with `np.searchsorted(x_data, x) - 1`,
  the index is clamped into `[0, n-2]`, and the value is interpolated linearly.

Files:

- `numpy.dfy` (module `Numpy`) models `np.searchsorted` with its default
  `side='left'`. `SearchSortedLeft` returns the first index whose element is
  at least the key, or the length of the array when there is none.
- `interpolate.dfy` (module `LinearInterpolation`) holds the rest:
  - the caller's obligations, `ValidSamples`: equal lengths, at least two
    samples, strictly increasing abscissae;
  - the slope and line of a segment;
  - the branch selection `Classify` and the clamped segment index
    `SegmentIndex`;
  - `EvalAt`, the value produced for one query, written branch for branch
    like the source;
  - the lemmas about these definitions;
  - the method `LinearInterpolate`. Its `for` loop appends one value per query,
    like the source loop. The below-range and in-range branches compute
    `y0 + slope*(x - x0)` through `LineAt`. The above-range branch computes
    the formula of Sin.py:30-31, anchored at the last sample, inline. Its postcondition ties every
    output to `EvalAt` and states that the result reproduces the samples at
    the knots.

Numbers are Dafny `real`s, so the formulas are exact. The source divides in
IEEE doubles, where reproducing a sample at its own abscissa, for example, is
exact over the reals but not guaranteed bit for bit. Its abscissae may be a
fixed-width integer array (Sin.py:10 builds `x_data` with `np.arange(0, 11, 1)`),
so the differences `x1 - x0` at Sin.py:27, 30 and 37 are integer subtractions
done before the division; here they are exact reals.

The source checks none of the caller's obligations. With fewer than two
samples, any query indexes out of range. When the first two abscissae are
equal, the below-range slope divides by zero, and so does the in-range query
equal to them: it selects the zero-width first segment, as
`FirstRepeatSelected` shows. When the last two abscissae are equal, the
above-range slope divides by zero. Equal abscissae elsewhere in a sorted array
are harmless: the left search never picks the zero-width segment between them,
as `InteriorRepeatsNeverSelected` shows. The model requires strictly
increasing abscissae (`ValidSamples`), the order that `np.searchsorted` and the
slope formulas assume. It does not model an error result, because
`linear_interpolate` raises none of its own.

## Model

| member | source | states |
|---|---|---|
| `Numpy.SearchSortedLeft` | Sin.py:33 | The result lies in `0..n`. Every element before it is below the key. The element at it, if any, is at least the key. So it is numpy's left insertion point. |
| `Numpy.SearchSortedLeftFindsKnot` | Sin.py:33 | Searching a strictly increasing array for its own element `a[k]` gives `k`. |
| `LinearInterpolation.SlopeOf` | Sin.py:37 | No contract of its own: the slope `(y1 - y0)/(x1 - x0)` of the segment between two samples, as Sin.py:27, 30 and 37 compute it. Its properties are the `LineAt` lemmas below. |
| `LinearInterpolation.LineAt` | Sin.py:38 | No contract of its own: the line `y0 + slope*(x - x0)` through two samples, anchored at the first, as Sin.py:28 and 37-38 evaluate it. Its properties are the lemmas below. |
| `LinearInterpolation.LineAtEnds` | Sin.py:37-38 | The line `y0 + slope*(x - x0)`, with `slope = (y1 - y0)/(x1 - x0)`, takes the value `y0` at `x0` and `y1` at `x1`. |
| `LinearInterpolation.LineAtReanchored` | Sin.py:29-31 | The same line anchored at its right point, `y1 + slope*(x - x1)`, equals the left-anchored form for every `x`. |
| `LinearInterpolation.LineAtBetweenEnds` | Sin.py:35-38 | For `x0 <= x <= x1` the line's value lies between `y0` and `y1`, whichever of them is larger. |
| `LinearInterpolation.LineThroughEnds` | Sin.py:35-38 | The line of segment `k` takes the value `y_data[k]` at `x_data[k]` and `y_data[k+1]` at `x_data[k+1]`. |
| `LinearInterpolation.Classify` | Sin.py:26-32 | There are exactly three branches. The query is below the first sample iff `x < x_data[0]`. It is above iff it is not below and `x > x_data[-1]`. It is in range iff `x_data[0] <= x <= x_data[-1]`. |
| `LinearInterpolation.ClassifyOnSamples` | Sin.py:26-32 | On valid samples, the above-range branch is taken iff `x > x_data[-1]`, with no condition on the first test. The in-range branch is taken iff neither guard holds. |
| `LinearInterpolation.SegmentIndex` | Sin.py:33-34 | The search-minus-one index, clamped, always lies in `[0, n-2]`, so both `idx` and `idx+1` are valid indices. |
| `LinearInterpolation.UpperClampInactive` | Sin.py:33-34 | On valid samples the search for a real in-range query returns at most `n-1`, so `min(idx, n-2)` leaves the index unchanged. For such queries only the lower clamp acts. |
| `LinearInterpolation.SegmentIndexMatchesCaseIndex` | Sin.py:33-34 | For every query and `n >= 2`, the clamped index equals the case-by-case choice made by the second copy of the interpolator (lines 38-46 of `Linear vs Cubic Spline Interpolation.py`): `i-1` for `0 < i < n`, 0 for `i == 0` and `n-2` for `i == n`. |
| `LinearInterpolation.FirstRepeatSelected` | Sin.py:32-37 | Take non-decreasing abscissae whose first two samples are equal. The query equal to them is in range, and the segment chosen for it is segment 0, which has zero width. |
| `LinearInterpolation.InteriorRepeatsNeverSelected` | Sin.py:33-37 | Take non-decreasing abscissae whose first two and last two samples differ. Then the segment chosen for an in-range query has non-zero width. |
| `LinearInterpolation.SegmentIndexBrackets` | Sin.py:32-35 | For every in-range query the chosen segment brackets it: `x_data[idx] <= x <= x_data[idx+1]`. |
| `LinearInterpolation.SegmentIndexAtKnot` | Sin.py:33-34 | A query equal to sample `k > 0` selects segment `k-1`, the segment ending there. At the first sample the search gives 0 and the clamp lifts -1 to segment 0. |
| `LinearInterpolation.EvalAt` | Sin.py:26-38 | No contract of its own: the value for one query, branch for branch as the loop body computes it. Its properties are the lemmas below, and `LinearInterpolate` is proved against it. |
| `LinearInterpolation.BelowExtendsFirstSegment` | Sin.py:26-28 | Below the first sample the result is `y_data[0] + s0*(x - x_data[0])`, which lies on the line of segment 0. |
| `LinearInterpolation.AboveExtendsLastSegment` | Sin.py:29-31 | Above the last sample the result is `y_data[-1] + s*(x - x_data[-1])`, with `s` the slope of the last segment. It lies on the line of segment `n-2`. |
| `LinearInterpolation.InsideFollowsSegment` | Sin.py:33-38 | An in-range result is the value, at the query, of the line of the segment that `SegmentIndex` chooses. |
| `LinearInterpolation.EvalAtKnot` | Sin.py:33-38 | The interpolant passes through every sample: the query `x_data[k]` yields exactly `y_data[k]`. |
| `LinearInterpolation.InsideBetweenEnds` | Sin.py:35-38 | An in-range result lies between `y_data[idx]` and `y_data[idx+1]` of its bracketing segment. |
| `LinearInterpolation.EvalAtOnAnySegment` | Sin.py:32-38 | For any segment `k` that contains an in-range query, the result equals the value of segment `k`'s line there. So the choice the search makes at a shared sample does not change the value. |
| `LinearInterpolation.WorkedExamples` | Sin.py:22-40 | Three values worked by hand: 0 at the midpoint of a first segment, -5 one step below a range, and 5.5 half a step above one. |
| `LinearInterpolation.LinearInterpolate` | Sin.py:22-40 | There is one output per query, in query order, and output `q` equals `EvalAt` of query `q`. Any query equal to a sample abscissa yields that sample's ordinate. |

## Left out

- `true_function` (Sin.py:6-7) is left out: it is built from `np.sin` and pi, transcendental floating-point functions.
- `CubicSpline` (Sin.py:45-46) and `interp1d` in `Interpolation.py` are left out: they are SciPy library routines, not code of this repository.
- The relative-error computation under `np.errstate` and the overwriting of the value at `x = 0` (Sin.py:52-61) are left out: they are about IEEE division by zero and NaN.
- Grid construction with `np.arange` and `np.linspace` (Sin.py:10, 18) is left out: the model takes the queries and samples as given sequences.
- Plotting, `savefig` and `print` (Sin.py:65-91) are left out: they are I/O.
- IEEE double rounding and fixed-width integer abscissae are not modelled: every value, and every difference of abscissae, is an exact real.
- The conversion of the result list with `np.array` is not modelled: the result is a sequence.
- Checking the caller's obligations is not modelled, because the source does no such check. They are a precondition.
- `LinearInterpolation.LinearInterpolate` requires `ValidSamples`, which excludes inputs the source runs on. The first is sorted abscissae with repeats only in the interior: no branch divides by zero for them. The second is an empty query list with invalid samples, for which the source returns an empty array. The third is ordinates and abscissae of unequal lengths: with more ordinates, for example, the source runs without error, but the above-range branch (Sin.py:30-31) reads `y_data[-1]` and `y_data[-2]`, which are not the ordinates of the last two samples.
- `LinearInterpolation.UpperClampInactive` speaks of real queries only; NaN queries are not modelled, because Dafny's reals have no NaN. For a NaN query both guards (Sin.py:26, 29) are false, `np.searchsorted` places NaN after every number and returns `n`, so `idx` is `n-1`, and the upper clamp `min(idx, n-2)` at Sin.py:34 is what keeps `x_data[idx+1]` in range. The result is NaN.
- The near-identical interpolator in `Linear vs Cubic Spline Interpolation.py` is not modelled as a whole. Only its choice of segment is, as `CaseIndex`, which is proved equal to the clamp in `Sin.py`.
- `Numpy.SearchSortedLeft` is written as a linear scan, not numpy's bisection. The two agree on sorted input, and the sorted case is the only one the model uses.
