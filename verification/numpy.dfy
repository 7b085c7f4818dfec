/** A model of the one numpy routine the interpolator relies on:
    `np.searchsorted(a, v)` with its default `side='left'`. */
module Numpy {

  /** Every element strictly below its successors: the order numpy's search assumes. */
  predicate StrictlyIncreasing(a: seq<real>)
  {
    forall i, j :: 0 <= i < j < |a| ==> a[i] < a[j]
  }

  /** Sorted in the sense numpy's search needs: repeats allowed. */
  predicate NonDecreasing(a: seq<real>)
  {
    forall i, j :: 0 <= i < j < |a| ==> a[i] <= a[j]
  }

  /** The insertion point of `v` in `a` on the left: the first index `i` with
      `a[i] >= v`, or `|a|` when every element is below `v`. Written as a scan;
      numpy finds the same index by bisection when `a` is sorted. */
  function SearchSortedLeft(a: seq<real>, v: real): (i: nat)
    ensures i <= |a|
    ensures forall j :: 0 <= j < i ==> a[j] < v
    ensures i < |a| ==> v <= a[i]
  {
    if |a| == 0 || v <= a[0] then 0 else 1 + SearchSortedLeft(a[1..], v)
  }

  /** Searching for an element of a strictly increasing array finds its own
      index. It follows from the search's contract: every element before `k`
      is below `a[k]`, and `a[k]` itself is not. */
  lemma SearchSortedLeftFindsKnot(a: seq<real>, k: nat)
    requires StrictlyIncreasing(a)
    requires k < |a|
    ensures SearchSortedLeft(a, a[k]) == k
  {
  }
}
