/**
 * `Ranking` (app/algorithms/types.py): the ranked indices together with the
 * scores read in that order, and what it means for one to rank a list of
 * scores from best (largest) to worst.
 */
module Rankings {
  import opened Sorting

  datatype Ranking = Ranking(order: seq<nat>, values: seq<real>)

  /** order lists every index of 0..n-1 exactly once. */
  predicate IsPermutation(order: seq<nat>, n: nat) {
    && |order| == n
    && (forall t :: 0 <= t < n ==> order[t] < n)
    && (forall k :: 0 <= k < n ==> k in order)
    && (forall a, b :: 0 <= a < b < n ==> order[a] != order[b])
  }

  /** r ranks scores: a permutation, its values read through it, never increasing. */
  predicate RanksDescending(scores: seq<real>, r: Ranking) {
    && IsPermutation(r.order, |scores|)
    && |r.values| == |scores|
    && (forall t :: 0 <= t < |scores| ==> r.values[t] == scores[r.order[t]])
    && (forall a, b :: 0 <= a < b < |scores| ==> r.values[a] >= r.values[b])
  }

  /** Equal scores keep their original index order, as a stable sort leaves them. */
  predicate TiesInIndexOrder(r: Ranking) {
    forall a, b :: 0 <= a < b < |r.order| && b < |r.values| && r.values[a] == r.values[b] ==> r.order[a] < r.order[b]
  }

  /**
   * The indices by descending score, equal scores in index order, with the
   * scores read in that order (`sorted(range(n), key=..., reverse=True)`).
   */
  function DescendingRanking(scores: seq<real>): (r: Ranking)
    ensures RanksDescending(scores, r) && TiesInIndexOrder(r)
  {
    var order := SortedIndicesDescending(scores);
    SortedIndicesDescendingCorrect(scores);
    Ranking(order, seq(|order|, t requires 0 <= t < |order| => scores[order[t]]))
  }
}
