/** Greedy packing is optimal: cutting a row of items into consecutive groups, always
    taking the longest group that still fits, needs no more groups than any other way of
    cutting it. The requests of a write, and of a read nobody rejects, are such cuts. */
module Greedy {
  /** Whether the items from one index up to another fit one group. */
  type Fit = (nat, nat) -> bool

  /** Every part of a group that fits also fits. */
  ghost predicate SegmentClosed(fits: Fit) {
    forall from: nat, to: nat, innerFrom: nat, innerTo: nat ::
      from <= innerFrom <= innerTo <= to && fits(from, to) ==> fits(innerFrom, innerTo)
  }

  /** The group boundaries of a cut of `count` items, from the first to the last. */
  ghost predicate IsCut(cuts: seq<nat>, count: nat) {
    && cuts != []
    && cuts[0] == 0
    && cuts[|cuts| - 1] == count
    && forall k | 0 <= k < |cuts| - 1 :: cuts[k] < cuts[k + 1]
  }

  ghost predicate GroupsFit(cuts: seq<nat>, fits: Fit) {
    forall k | 0 <= k < |cuts| - 1 :: fits(cuts[k], cuts[k + 1])
  }

  /** No group could have taken the item behind it. */
  ghost predicate Maximal(cuts: seq<nat>, count: nat, fits: Fit) {
    forall k | 0 <= k < |cuts| - 1 :: cuts[k + 1] < count ==> !fits(cuts[k], cuts[k + 1] + 1)
  }

  lemma {:induction false} CutGrows(cuts: seq<nat>, count: nat, low: nat, high: nat)
    requires IsCut(cuts, count) && low <= high < |cuts|
    ensures cuts[low] <= cuts[high] && (low < high ==> cuts[low] < cuts[high])
  {
    if low < high {
      CutGrows(cuts, count, low, high - 1);
      assert cuts[high - 1] < cuts[high - 1 + 1];
    }
  }

  lemma {:induction false} CutsAt(greedy: seq<nat>, other: seq<nat>, count: nat, fits: Fit, k: nat)
    requires Maximal(greedy, count, fits) && GroupsFit(other, fits) && k + 1 < |greedy| && k + 1 < |other|
    ensures greedy[k + 1] < count ==> !fits(greedy[k], greedy[k + 1] + 1)
    ensures fits(other[k], other[k + 1])
  {
  }

  lemma {:induction false} SegmentAt(fits: Fit, from: nat, to: nat, innerFrom: nat, innerTo: nat)
    requires SegmentClosed(fits) && fits(from, to)
    ensures from <= innerFrom <= innerTo <= to ==> fits(innerFrom, innerTo)
  {
  }

  /** After k groups the greedy cut is at least as far as any other. */
  lemma {:induction false} GreedyStaysAhead(greedy: seq<nat>, other: seq<nat>, count: nat, fits: Fit, k: nat)
    requires SegmentClosed(fits)
    requires IsCut(greedy, count) && Maximal(greedy, count, fits)
    requires IsCut(other, count) && GroupsFit(other, fits)
    requires k < |greedy| && k < |other|
    ensures greedy[k] >= other[k]
  {
    if k > 0 {
      GreedyStaysAhead(greedy, other, count, fits, k - 1);
      CutGrows(greedy, count, k - 1, k);
      CutGrows(other, count, k, |other| - 1);
      CutsAt(greedy, other, count, fits, k - 1);
      SegmentAt(fits, other[k - 1], other[k], greedy[k - 1], greedy[k] + 1);
    }
  }

  /** The greedy cut has no more groups than any cut whose groups fit. */
  lemma {:induction false} GreedyIsOptimal(greedy: seq<nat>, other: seq<nat>, count: nat, fits: Fit)
    requires SegmentClosed(fits)
    requires IsCut(greedy, count) && Maximal(greedy, count, fits)
    requires IsCut(other, count) && GroupsFit(other, fits)
    ensures |greedy| <= |other|
  {
    if |other| < |greedy| {
      GreedyStaysAhead(greedy, other, count, fits, |other| - 1);
      CutGrows(greedy, count, |other| - 1, |greedy| - 1);
    }
  }

  /** One more group at the end of a cut. */
  lemma {:induction false} CutGoesOn(cuts: seq<nat>, next: nat, count: nat, fits: Fit)
    requires cuts != [] && IsCut(cuts, cuts[|cuts| - 1]) && cuts[|cuts| - 1] < next
    ensures IsCut(cuts + [next], next)
    ensures GroupsFit(cuts, fits) && fits(cuts[|cuts| - 1], next) ==> GroupsFit(cuts + [next], fits)
    ensures Maximal(cuts, count, fits) && (next < count ==> !fits(cuts[|cuts| - 1], next + 1)) ==> Maximal(cuts + [next], count, fits)
  {
  }
}
