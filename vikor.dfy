/**
 * VIKOR (app/algorithms/vikor.py): every column is rescaled to [0, 1] by its
 * minimum and maximum and weighted; a point's group utility S is its row sum
 * and its individual regret R its row maximum; both are rescaled again, with
 * 1e-6 added to the spread, and combined as `Q = v * S + (1 - v) * R` for the
 * threshold v of the compromise strategy.  The points are ranked by Q, largest
 * first.  The arithmetic is exact.
 */
module Vikor {
  import opened Wrappers
  import opened Rankings
  import opened Matrix

  datatype CompromiseStrategy = MaximumGroupUtility | ByConsensus | ByVeto

  /**
   * What a caller passes as the strategy: a member of the enumeration, or any
   * other value, which Python accepts at the call and rejects later; `repr`
   * is how that value prints.
   */
  datatype StrategyArg = Strategy(strategy: CompromiseStrategy) | Other(repr: string)

  /** The default of the `strategy` parameter. */
  const DefaultStrategy: StrategyArg := Strategy(ByConsensus)

  /**
   * `get_strategy_thresholds`: consensus weighs S and R equally, maximum group
   * utility favours S, veto favours R; anything else is a `ValueError`.
   */
  function GetStrategyThresholds(strategy: StrategyArg): (r: Result<real>)
    ensures r.Ok? <==> strategy.Strategy?
    ensures r.Ok? ==> 0.0 < r.value < 1.0
    ensures r.Ok? ==> (r.value == 0.5 <==> strategy.strategy == ByConsensus)
    ensures r.Ok? ==> (r.value > 0.5 <==> strategy.strategy == MaximumGroupUtility)
    ensures r.Ok? ==> (r.value < 0.5 <==> strategy.strategy == ByVeto)
    ensures strategy == Strategy(MaximumGroupUtility) ==> r == Ok(0.75)
    ensures strategy == Strategy(ByVeto) ==> r == Ok(0.25)
    ensures strategy.Other? ==> r == Err(ValueError("Unknown strategy: " + strategy.repr))
  {
    match strategy
    case Strategy(ByConsensus) => Ok(0.5)
    case Strategy(MaximumGroupUtility) => Ok(0.75)
    case Strategy(ByVeto) => Ok(0.25)
    case Other(repr) => Err(ValueError("Unknown strategy: " + repr))
  }

  /** A rectangular matrix with one weight per column. */
  predicate Shaped(rows: seq<seq<real>>, weights: seq<real>) {
    |rows| > 0 ==> (forall k :: 0 <= k < |rows| ==> |rows[k]| == |rows[0]|) && |weights| == |rows[0]|
  }

  /**
   * The matrices VIKOR accepts: at least one point with at least one
   * criterion, and every column taking at least two values, so that the
   * normalisation divides by a positive spread.
   */
  predicate Valid(rows: seq<seq<real>>, weights: seq<real>) {
    && |rows| > 0 && |rows[0]| > 0
    && Shaped(rows, weights)
    && forall i :: 0 <= i < |rows[0]| ==> MinValue(rows, i) < MaxValue(rows, i)
  }

  /** The position of x above lo, in units of d. */
  function Ratio(x: real, lo: real, d: real): real
    requires d > 0.0
  {
    (x - lo) / d
  }

  /** Between lo and lo + d the ratio runs from 0 to 1, below 1 short of lo + d. */
  lemma RatioBounds(x: real, lo: real, d: real)
    requires d > 0.0 && lo <= x <= lo + d
    ensures 0.0 <= Ratio(x, lo, d) <= 1.0
    ensures x == lo ==> Ratio(x, lo, d) == 0.0
    ensures x == lo + d ==> Ratio(x, lo, d) == 1.0
    ensures x < lo + d ==> Ratio(x, lo, d) < 1.0
  {
    NonnegQuotient(x - lo, d);
    QuotientAtMostOne(x - lo, d);
    if x < lo + d {
      QuotientBelowOne(x - lo, d);
    }
    if x == lo + d {
      RatioAtTop(x, lo, d);
    }
  }

  lemma RatioAtTop(x: real, lo: real, d: real)
    requires d > 0.0 && x == lo + d
    ensures Ratio(x, lo, d) == 1.0
  {
    assert x - lo == d;
  }

  /** The ratio keeps the order of the values. */
  lemma RatioMonotone(x: real, y: real, lo: real, d: real)
    requires d > 0.0 && x <= y
    ensures Ratio(x, lo, d) <= Ratio(y, lo, d)
  {
    QuotientMonotone(x - lo, y - lo, d);
  }

  /** `(data - min_values) / (max_values - min_values)` at column i. */
  function Normalized(rows: seq<seq<real>>, weights: seq<real>, i: nat, x: real): (r: real)
    requires Valid(rows, weights) && i < |rows[0]|
    ensures x == MinValue(rows, i) ==> r == 0.0
    ensures x == MaxValue(rows, i) ==> r == 1.0
  {
    var lo, hi := MinValue(rows, i), MaxValue(rows, i);
    RatioBounds(hi, lo, hi - lo);
    Ratio(x, lo, hi - lo)
  }

  /** Row k of `norm_data * weights`. */
  function WeightedRow(rows: seq<seq<real>>, weights: seq<real>, k: nat): (w: seq<real>)
    requires Valid(rows, weights) && k < |rows|
    ensures |w| == |rows[0]| > 0
    ensures forall i :: 0 <= i < |w| ==> w[i] == Normalized(rows, weights, i, rows[k][i]) * weights[i]
  {
    seq(|rows[0]|, i requires 0 <= i < |rows[0]| => Normalized(rows, weights, i, rows[k][i]) * weights[i])
  }

  /** `S = weighted_data.sum(axis=1)`: each point's group utility. */
  function GroupUtility(rows: seq<seq<real>>, weights: seq<real>): (s: seq<real>)
    requires Valid(rows, weights)
    ensures |s| == |rows|
    ensures forall k :: 0 <= k < |rows| ==> s[k] == Sum(WeightedRow(rows, weights, k))
  {
    seq(|rows|, k requires 0 <= k < |rows| => Sum(WeightedRow(rows, weights, k)))
  }

  /** `R = weighted_data.max(axis=1)`: each point's individual regret. */
  function IndividualRegret(rows: seq<seq<real>>, weights: seq<real>): (r: seq<real>)
    requires Valid(rows, weights)
    ensures |r| == |rows|
    ensures forall k :: 0 <= k < |rows| ==> r[k] == SeqMax(WeightedRow(rows, weights, k))
  {
    seq(|rows|, k requires 0 <= k < |rows| => SeqMax(WeightedRow(rows, weights, k)))
  }

  /**
   * `(S - S.min()) / (S.max() - S.min() + 1e-6)`: every entry lies in [0, 1),
   * the smallest becomes 0, and the order of the entries is kept.
   */
  function Rescale(v: seq<real>): (s: seq<real>)
    requires |v| > 0
    ensures |s| == |v|
    ensures forall k :: 0 <= k < |v| ==> 0.0 <= s[k] < 1.0
    ensures forall k :: 0 <= k < |v| && v[k] == SeqMin(v) ==> s[k] == 0.0
    ensures forall a, b :: 0 <= a < |v| && 0 <= b < |v| && v[a] <= v[b] ==> s[a] <= s[b]
  {
    var lo, hi := SeqMin(v), SeqMax(v);
    var d := hi - lo + 0.000001;
    var s := seq(|v|, k requires 0 <= k < |v| => Ratio(v[k], lo, d));
    forall k | 0 <= k < |v|
      ensures 0.0 <= s[k] < 1.0 && (v[k] == lo ==> s[k] == 0.0)
    {
      RatioBounds(v[k], lo, d);
    }
    forall a, b | 0 <= a < |v| && 0 <= b < |v| && v[a] <= v[b]
      ensures s[a] <= s[b]
    {
      RatioMonotone(v[a], v[b], lo, d);
    }
    s
  }

  /** The weighted mean `v * a + (1 - v) * b`. */
  function Mix(v: real, a: real, b: real): real {
    v * a + (1.0 - v) * b
  }

  /** `Q = v * S + (1 - v) * R`. */
  function Compromise(v: real, s: seq<real>, r: seq<real>): (q: seq<real>)
    requires |s| == |r|
    ensures |q| == |s|
    ensures forall k :: 0 <= k < |s| ==> q[k] == Mix(v, s[k], r[k])
  {
    seq(|s|, k requires 0 <= k < |s| => Mix(v, s[k], r[k]))
  }

  /** The Q value of every point for threshold v. */
  function QValues(rows: seq<seq<real>>, weights: seq<real>, v: real): (q: seq<real>)
    requires Valid(rows, weights)
    ensures |q| == |rows|
  {
    Compromise(v, Rescale(GroupUtility(rows, weights)), Rescale(IndividualRegret(rows, weights)))
  }

  /** numpy's messages for `min` and `max` of an empty axis. */
  const EmptyMinimum := "zero-size array to reduction operation minimum which has no identity"
  const EmptyMaximum := "zero-size array to reduction operation maximum which has no identity"

  /**
   * `vikor`.  No points, or points without criteria, make numpy's reductions
   * raise; an unknown strategy raises; otherwise the points are ranked by Q,
   * largest first, with the Q values read in that order.
   */
  function Vikor(rows: seq<seq<real>>, weights: seq<real>, strategy: StrategyArg): (r: Result<Ranking>)
    requires Shaped(rows, weights)
    requires |rows| > 0 ==> forall i :: 0 <= i < |rows[0]| ==> MinValue(rows, i) < MaxValue(rows, i)
    ensures |rows| == 0 ==> r == Err(ValueError(EmptyMinimum))
    ensures |rows| > 0 && |rows[0]| == 0 ==> r == Err(ValueError(EmptyMaximum))
    ensures Valid(rows, weights) ==> (r.Ok? <==> strategy.Strategy?)
    ensures Valid(rows, weights) && strategy.Other? ==> r == Err(ValueError("Unknown strategy: " + strategy.repr))
    ensures r.Ok? ==> (Valid(rows, weights) && strategy.Strategy? &&
      RanksDescending(QValues(rows, weights, GetStrategyThresholds(strategy).value), r.value))
  {
    if |rows| == 0 then Err(ValueError(EmptyMinimum))
    else if |rows[0]| == 0 then Err(ValueError(EmptyMaximum))
    else
      match GetStrategyThresholds(strategy)
      case Err(e) => Err(e)
      case Ok(v) => Ok(DescendingRanking(QValues(rows, weights, v)))
  }

  /** With the default strategy VIKOR never fails on a valid matrix and weighs S and R equally. */
  lemma DefaultStrategyRanks(rows: seq<seq<real>>, weights: seq<real>)
    requires Valid(rows, weights)
    ensures Vikor(rows, weights, DefaultStrategy).Ok?
    ensures RanksDescending(QValues(rows, weights, 0.5), Vikor(rows, weights, DefaultStrategy).value)
  {
  }

  /** Every normalised value lies in [0, 1], the column minimum at 0 and its maximum at 1. */
  lemma NormalizedBounds(rows: seq<seq<real>>, weights: seq<real>, k: nat, i: nat)
    requires Valid(rows, weights) && k < |rows| && i < |rows[0]|
    ensures 0.0 <= Normalized(rows, weights, i, rows[k][i]) <= 1.0
    ensures rows[k][i] == MinValue(rows, i) ==> Normalized(rows, weights, i, rows[k][i]) == 0.0
    ensures rows[k][i] == MaxValue(rows, i) ==> Normalized(rows, weights, i, rows[k][i]) == 1.0
  {
    var lo, hi := MinValue(rows, i), MaxValue(rows, i);
    RatioBounds(rows[k][i], lo, hi - lo);
  }

  /** A larger value in a column never has a smaller weighted value, when the weight is not negative. */
  lemma WeightedMonotone(rows: seq<seq<real>>, weights: seq<real>, i: nat, x: real, y: real)
    requires Valid(rows, weights) && i < |rows[0]| && weights[i] >= 0.0 && x <= y
    ensures Normalized(rows, weights, i, x) * weights[i] <= Normalized(rows, weights, i, y) * weights[i]
  {
    var lo, hi := MinValue(rows, i), MaxValue(rows, i);
    RatioMonotone(x, y, lo, hi - lo);
    ProductMonotone(weights[i], Normalized(rows, weights, i, x), Normalized(rows, weights, i, y));
  }

  /** Every entry of a vector of non-negative values is at most its sum. */
  lemma {:induction false} EntryAtMostSum(s: seq<real>, k: nat)
    requires k < |s| && forall i :: 0 <= i < |s| ==> s[i] >= 0.0
    ensures s[k] <= Sum(s)
  {
    var init := s[..|s| - 1];
    if k < |s| - 1 {
      EntryAtMostSum(init, k);
      SumNonneg(init);
    } else {
      SumNonneg(init);
    }
  }

  lemma {:induction false} SumNonneg(s: seq<real>)
    requires forall i :: 0 <= i < |s| ==> s[i] >= 0.0
    ensures Sum(s) >= 0.0
  {
    if |s| > 0 {
      SumNonneg(s[..|s| - 1]);
    }
  }

  /**
   * With non-negative weights a point's regret, its worst weighted
   * criterion, is at most its group utility, the sum of all of them.
   */
  lemma RegretAtMostUtility(rows: seq<seq<real>>, weights: seq<real>, k: nat)
    requires Valid(rows, weights) && k < |rows|
    requires forall i :: 0 <= i < |weights| ==> weights[i] >= 0.0
    ensures 0.0 <= IndividualRegret(rows, weights)[k] <= GroupUtility(rows, weights)[k]
  {
    var w := WeightedRow(rows, weights, k);
    forall i | 0 <= i < |w|
      ensures w[i] >= 0.0
    {
      NormalizedBounds(rows, weights, k, i);
      NonnegProduct(Normalized(rows, weights, i, rows[k][i]), weights[i]);
    }
    var j :| 0 <= j < |w| && w[j] == SeqMax(w);
    EntryAtMostSum(w, j);
  }

  /**
   * The weights v and u of a mean are passed separately: with `1 - v` written
   * out inside the products Z3 rewrites them into forms it compares poorly.
   */
  lemma PairBetween(v: real, u: real, a: real, b: real)
    requires 0.0 <= v && 0.0 <= u && v + u == 1.0 && a <= b
    ensures a <= v * a + u * b <= b
  {
    assert v * a + u * b - a == u * (b - a) by {
      assert a == (v + u) * a;
    }
    assert b - (v * a + u * b) == v * (b - a) by {
      assert b == (v + u) * b;
    }
    NonnegProduct(u, b - a);
    NonnegProduct(v, b - a);
  }

  lemma PairMonotone(v: real, u: real, a: real, b: real, c: real, d: real)
    requires 0.0 <= v && 0.0 <= u && a <= c && b <= d
    ensures v * a + u * b <= v * c + u * d
  {
    ProductMonotone(v, a, c);
    ProductMonotone(u, b, d);
  }

  /** A weighted mean of a and b lies between them. */
  lemma Between(v: real, a: real, b: real)
    requires 0.0 <= v <= 1.0 && a <= b
    ensures a <= Mix(v, a, b) <= b
  {
    PairBetween(v, 1.0 - v, a, b);
  }

  /** Swapping the two values swaps the weights. */
  lemma MixSwap(v: real, a: real, b: real)
    ensures Mix(v, a, b) == Mix(1.0 - v, b, a)
  {
  }

  /** A weighted mean of two values in [0, 1) stays in [0, 1). */
  lemma MixBounds(v: real, x: real, y: real)
    requires 0.0 <= v <= 1.0 && 0.0 <= x < 1.0 && 0.0 <= y < 1.0
    ensures 0.0 <= Mix(v, x, y) < 1.0
  {
    if x <= y {
      Between(v, x, y);
    } else {
      Between(1.0 - v, y, x);
      MixSwap(v, x, y);
    }
  }

  /** A weighted mean with weights in [0, 1] grows with both values. */
  lemma MixMonotone(v: real, a: real, b: real, c: real, d: real)
    requires 0.0 <= v <= 1.0 && a <= c && b <= d
    ensures Mix(v, a, b) <= Mix(v, c, d)
  {
    PairMonotone(v, 1.0 - v, a, b, c, d);
  }

  /** For a threshold in [0, 1] every Q value lies in [0, 1). */
  lemma QBounds(rows: seq<seq<real>>, weights: seq<real>, v: real, k: nat)
    requires Valid(rows, weights) && k < |rows| && 0.0 <= v <= 1.0
    ensures 0.0 <= QValues(rows, weights, v)[k] < 1.0
  {
    var s := Rescale(GroupUtility(rows, weights));
    var r := Rescale(IndividualRegret(rows, weights));
    MixBounds(v, s[k], r[k]);
  }

  /**
   * With non-negative weights and a threshold in [0, 1], a point at least as
   * large as another on every criterion has at least its Q value, so VIKOR
   * never ranks it below the other.
   */
  lemma QMonotone(rows: seq<seq<real>>, weights: seq<real>, v: real, a: nat, b: nat)
    requires Valid(rows, weights) && a < |rows| && b < |rows| && 0.0 <= v <= 1.0
    requires forall i :: 0 <= i < |weights| ==> weights[i] >= 0.0
    requires forall i :: 0 <= i < |rows[0]| ==> rows[b][i] <= rows[a][i]
    ensures QValues(rows, weights, v)[b] <= QValues(rows, weights, v)[a]
  {
    var wa, wb := WeightedRow(rows, weights, a), WeightedRow(rows, weights, b);
    forall i | 0 <= i < |wa|
      ensures wb[i] <= wa[i]
    {
      WeightedMonotone(rows, weights, i, rows[b][i], rows[a][i]);
    }
    var su, re := GroupUtility(rows, weights), IndividualRegret(rows, weights);
    assert su[b] <= su[a] by {
      SumMonotone(wb, wa);
    }
    assert re[b] <= re[a] by {
      var j :| 0 <= j < |wb| && wb[j] == SeqMax(wb);
    }
    var s, r := Rescale(su), Rescale(re);
    MixMonotone(v, s[b], r[b], s[a], r[a]);
  }
}
