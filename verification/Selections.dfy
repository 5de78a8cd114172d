/** Parts of a sequence that keep their order: the elements at ascending positions. */
module Selections {

  /** Ascending positions below `n`. */
  ghost predicate Positions(kept: seq<nat>, n: nat) {
    && (forall k, l | 0 <= k < l < |kept| :: kept[k] < kept[l])
    && (forall k | 0 <= k < |kept| :: kept[k] < n)
  }

  function Pick<T>(xs: seq<T>, kept: seq<nat>): (r: seq<T>)
    requires forall k | 0 <= k < |kept| :: kept[k] < |xs|
    ensures |r| == |kept|
  {
    seq(|kept|, k requires 0 <= k < |kept| => xs[kept[k]])
  }

  lemma PickNext<T>(xs: seq<T>, kept: seq<nat>, i: nat)
    requires Positions(kept, i) && i < |xs|
    ensures Positions(kept, i + 1) && Positions(kept + [i], i + 1)
    ensures Pick(xs, kept + [i]) == Pick(xs, kept) + [xs[i]]
  {}
}
