/**
 * Ranking comparison (app/algorithms/ranking_comparison.py): distances between
 * two rankings given as the rank of every alternative, and `compare`, which
 * checks the rankings and the name of the comparison before dispatching to the
 * function registered under that name.  The two correlation coefficients are
 * computed by scipy; the model receives them as parameters.
 */
module RankingComparison {
  import opened Wrappers

  function Abs(x: int): nat {
    if x < 0 then -x else x
  }

  /** `np.sum(np.abs(rank1 - rank2))`. */
  function AbsoluteDifference(r1: seq<int>, r2: seq<int>): (d: int)
    requires |r1| == |r2|
    ensures d >= 0
  {
    if |r1| == 0 then 0 else Abs(r1[0] - r2[0]) + AbsoluteDifference(r1[1..], r2[1..])
  }

  /** The weight `max(n - a, n - b)` of a pair of ranks. */
  function Weight(n: int, a: int, b: int): (w: int)
    ensures w >= n - a && w >= n - b
    ensures w == n - a || w == n - b
  {
    if n - a >= n - b then n - a else n - b
  }

  /** `np.sum(weights * diff)` with n fixed. */
  function WeightedSum(r1: seq<int>, r2: seq<int>, n: int): (s: int)
    requires |r1| == |r2|
    ensures r1 == r2 ==> s == 0
  {
    if |r1| == 0 then 0
    else Weight(n, r1[0], r2[0]) * Abs(r1[0] - r2[0]) + WeightedSum(r1[1..], r2[1..], n)
  }

  /** `weighted_absolute_difference`: n is the length of the second ranking. */
  function WeightedAbsoluteDifference(r1: seq<int>, r2: seq<int>): (d: int)
    requires |r1| == |r2|
    ensures r1 == r2 ==> d == 0
  {
    WeightedSum(r1, r2, |r2|)
  }

  /** Ranks no larger than n. */
  predicate AtMost(r: seq<int>, n: int) {
    forall k :: 0 <= k < |r| ==> r[k] <= n
  }

  /** The absolute difference is never negative and is 0 exactly for identical rankings. */
  lemma {:induction false} AbsoluteDifferenceZeroIff(r1: seq<int>, r2: seq<int>)
    requires |r1| == |r2|
    ensures AbsoluteDifference(r1, r2) >= 0
    ensures AbsoluteDifference(r1, r2) == 0 <==> r1 == r2
  {
    if |r1| > 0 {
      AbsoluteDifferenceZeroIff(r1[1..], r2[1..]);
      assert r1 == [r1[0]] + r1[1..] && r2 == [r2[0]] + r2[1..];
    }
  }

  /** Exchanging the rankings does not change their absolute difference. */
  lemma {:induction false} AbsoluteDifferenceSymmetric(r1: seq<int>, r2: seq<int>)
    requires |r1| == |r2|
    ensures AbsoluteDifference(r1, r2) == AbsoluteDifference(r2, r1)
  {
    if |r1| > 0 {
      AbsoluteDifferenceSymmetric(r1[1..], r2[1..]);
    }
  }

  /** The absolute difference satisfies the triangle inequality, so it is a metric. */
  lemma {:induction false} AbsoluteDifferenceTriangle(r1: seq<int>, r2: seq<int>, r3: seq<int>)
    requires |r1| == |r2| == |r3|
    ensures AbsoluteDifference(r1, r3) <= AbsoluteDifference(r1, r2) + AbsoluteDifference(r2, r3)
  {
    if |r1| > 0 {
      AbsoluteDifferenceTriangle(r1[1..], r2[1..], r3[1..]);
    }
  }

  /** One term of the weighted sum, for ranks no larger than n. */
  lemma WeightedTerm(n: int, a: int, b: int)
    requires a <= n && b <= n
    ensures Weight(n, a, b) * Abs(a - b) >= 0
    ensures Weight(n, a, b) * Abs(a - b) == 0 <==> a == b
  {
    if a != b {
      assert Weight(n, a, b) > 0;
      assert Abs(a - b) > 0;
    }
  }

  /** Exchanging the rankings does not change the weighted sum. */
  lemma {:induction false} WeightedSumSymmetric(r1: seq<int>, r2: seq<int>, n: int)
    requires |r1| == |r2|
    ensures WeightedSum(r1, r2, n) == WeightedSum(r2, r1, n)
  {
    if |r1| > 0 {
      WeightedSumSymmetric(r1[1..], r2[1..], n);
      assert Weight(n, r1[0], r2[0]) == Weight(n, r2[0], r1[0]);
      assert Abs(r1[0] - r2[0]) == Abs(r2[0] - r1[0]);
    }
  }

  /** For ranks no larger than n the weighted sum is never negative and is 0 exactly for identical rankings. */
  lemma {:induction false} WeightedSumZeroIff(r1: seq<int>, r2: seq<int>, n: int)
    requires |r1| == |r2| && AtMost(r1, n) && AtMost(r2, n)
    ensures WeightedSum(r1, r2, n) >= 0
    ensures WeightedSum(r1, r2, n) == 0 <==> r1 == r2
  {
    if |r1| > 0 {
      assert AtMost(r1[1..], n) && AtMost(r2[1..], n);
      WeightedSumZeroIff(r1[1..], r2[1..], n);
      WeightedTerm(n, r1[0], r2[0]);
      assert r1 == [r1[0]] + r1[1..] && r2 == [r2[0]] + r2[1..];
    }
  }

  /**
   * The weighted absolute difference is symmetric, 0 for identical rankings,
   * and for ranks 1..n (any ranks up to the length) never negative and 0 only
   * for identical rankings.
   */
  lemma WeightedAbsoluteDifferenceProperties(r1: seq<int>, r2: seq<int>)
    requires |r1| == |r2|
    ensures WeightedAbsoluteDifference(r1, r2) == WeightedAbsoluteDifference(r2, r1)
    ensures r1 == r2 ==> WeightedAbsoluteDifference(r1, r2) == 0
    ensures AtMost(r1, |r2|) && AtMost(r2, |r2|) ==>
      WeightedAbsoluteDifference(r1, r2) >= 0 && (WeightedAbsoluteDifference(r1, r2) == 0 <==> r1 == r2)
  {
    WeightedSumSymmetric(r1, r2, |r2|);
    if AtMost(r1, |r2|) && AtMost(r2, |r2|) {
      WeightedSumZeroIff(r1, r2, |r2|);
    }
  }

  /** The names under which `COMPARISON_FUNCTIONS` registers its functions. */
  const AbsoluteDifferenceName := "absolute difference"
  const WeightedAbsoluteDifferenceName := "weighted absolute difference"
  const SpearmanName := "spearman correlation"
  const KendallName := "kendall tau"
  const ComparisonTypes: seq<string> := [AbsoluteDifferenceName, WeightedAbsoluteDifferenceName, SpearmanName, KendallName]

  const SizeMismatch := "Rankings are not the same size."
  const WrongType := "Wrong comparison type"

  /** A coefficient computed outside the model (scipy's spearmanr and kendalltau, rounded). */
  type Coefficient = (seq<int>, seq<int>) -> real

  /**
   * `compare`: rankings of different lengths are refused first, then an
   * unregistered name; otherwise the registered function's value.
   */
  function Compare(r1: seq<int>, r2: seq<int>, comparisonType: string, spearman: Coefficient, kendall: Coefficient): (r: Result<real>)
    ensures |r1| != |r2| ==> r == Err(ValueError(SizeMismatch))
    ensures |r1| == |r2| && comparisonType !in ComparisonTypes ==> r == Err(ValueError(WrongType))
    ensures r.Ok? <==> |r1| == |r2| && comparisonType in ComparisonTypes
    ensures r.Ok? && comparisonType == AbsoluteDifferenceName ==> r.value == AbsoluteDifference(r1, r2) as real
    ensures r.Ok? && comparisonType == WeightedAbsoluteDifferenceName ==> r.value == WeightedAbsoluteDifference(r1, r2) as real
    ensures r.Ok? && comparisonType == SpearmanName ==> r.value == spearman(r1, r2)
    ensures r.Ok? && comparisonType == KendallName ==> r.value == kendall(r1, r2)
  {
    if |r1| != |r2| then Err(ValueError(SizeMismatch))
    else if comparisonType == AbsoluteDifferenceName then Ok(AbsoluteDifference(r1, r2) as real)
    else if comparisonType == WeightedAbsoluteDifferenceName then Ok(WeightedAbsoluteDifference(r1, r2) as real)
    else if comparisonType == SpearmanName then Ok(spearman(r1, r2))
    else if comparisonType == KendallName then Ok(kendall(r1, r2))
    else Err(ValueError(WrongType))
  }

  /**
   * Both differences are symmetric, so comparing with either of them gives the
   * same value in both directions, and 0 when a ranking is compared with itself.
   */
  lemma CompareDifferencesSymmetric(r1: seq<int>, r2: seq<int>, comparisonType: string, spearman: Coefficient, kendall: Coefficient)
    requires comparisonType == AbsoluteDifferenceName || comparisonType == WeightedAbsoluteDifferenceName
    ensures Compare(r1, r2, comparisonType, spearman, kendall) == Compare(r2, r1, comparisonType, spearman, kendall)
    ensures Compare(r1, r1, comparisonType, spearman, kendall) == Ok(0.0)
  {
    if |r1| == |r2| {
      AbsoluteDifferenceSymmetric(r1, r2);
      WeightedAbsoluteDifferenceProperties(r1, r2);
    }
    AbsoluteDifferenceZeroIff(r1, r1);
    WeightedAbsoluteDifferenceProperties(r1, r1);
  }
}
