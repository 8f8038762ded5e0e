/**
 * The numeric matrices the ranking methods work on: one row of reals per
 * point (`np.array([p.to_numpy() for p in points])`), column minima and
 * maxima, and sums.
 */
module Matrix {
  import opened Points

  /** Every row has at least `size` values. */
  predicate Wide(rows: seq<seq<real>>, size: nat) {
    forall k :: 0 <= k < |rows| ==> size <= |rows[k]|
  }

  /** The minimum of column d (`data.min(axis=0)`, the 0th percentile). */
  function MinValue(rows: seq<seq<real>>, d: nat): (m: real)
    requires |rows| > 0 && Wide(rows, d + 1)
    ensures exists k :: 0 <= k < |rows| && rows[k][d] == m
    ensures forall k :: 0 <= k < |rows| ==> m <= rows[k][d]
  {
    if |rows| == 1 then rows[0][d]
    else
      var rest := MinValue(rows[1..], d);
      if rows[0][d] <= rest then rows[0][d] else rest
  }

  /** The maximum of column d (`data.max(axis=0)`, the 100th percentile). */
  function MaxValue(rows: seq<seq<real>>, d: nat): (m: real)
    requires |rows| > 0 && Wide(rows, d + 1)
    ensures exists k :: 0 <= k < |rows| && rows[k][d] == m
    ensures forall k :: 0 <= k < |rows| ==> rows[k][d] <= m
  {
    if |rows| == 1 then rows[0][d]
    else
      var rest := MaxValue(rows[1..], d);
      if rows[0][d] >= rest then rows[0][d] else rest
  }

  /** The smallest entry of a non-empty vector (`S.min()`). */
  function SeqMin(s: seq<real>): (m: real)
    requires |s| > 0
    ensures exists k :: 0 <= k < |s| && s[k] == m
    ensures forall k :: 0 <= k < |s| ==> m <= s[k]
  {
    if |s| == 1 then s[0]
    else
      var rest := SeqMin(s[1..]);
      assert forall k :: 1 <= k < |s| ==> s[k] == s[1..][k - 1];
      if s[0] <= rest then s[0] else rest
  }

  /** The largest entry of a non-empty vector (`S.max()`, `max(axis=1)` of one row). */
  function SeqMax(s: seq<real>): (m: real)
    requires |s| > 0
    ensures exists k :: 0 <= k < |s| && s[k] == m
    ensures forall k :: 0 <= k < |s| ==> s[k] <= m
  {
    if |s| == 1 then s[0]
    else
      var rest := SeqMax(s[1..]);
      assert forall k :: 1 <= k < |s| ==> s[k] == s[1..][k - 1];
      if s[0] >= rest then s[0] else rest
  }

  /** The points' coordinates read as reals, one row per point. */
  function Rows(points: seq<Point>): (rows: seq<seq<real>>)
    ensures |rows| == |points|
    ensures forall k :: 0 <= k < |points| ==> |rows[k]| == |points[k].x|
    ensures forall k, i :: 0 <= k < |points| && 0 <= i < |points[k].x| ==> rows[k][i] == points[k].x[i] as real
  {
    seq(|points|, k requires 0 <= k < |points| =>
      seq(|points[k].x|, i requires 0 <= i < |points[k].x| => points[k].x[i] as real))
  }

  /** The sum of a sequence of reals (`sum`, `np.sum`). */
  function Sum(s: seq<real>): real {
    if |s| == 0 then 0.0 else Sum(s[..|s| - 1]) + s[|s| - 1]
  }

  lemma SumAppend(s: seq<real>, v: real)
    ensures Sum(s + [v]) == Sum(s) + v
  {
    assert (s + [v])[..|s|] == s;
  }

  /** Pointwise smaller sequences have smaller sums. */
  lemma {:induction false} SumMonotone(s: seq<real>, t: seq<real>)
    requires |s| == |t| && forall i :: 0 <= i < |s| ==> s[i] <= t[i]
    ensures Sum(s) <= Sum(t)
  {
    if |s| > 0 {
      SumMonotone(s[..|s| - 1], t[..|t| - 1]);
    }
  }

  // Facts of real arithmetic the ranking proofs use one at a time.

  lemma NonnegQuotient(x: real, d: real)
    requires d > 0.0 && x >= 0.0
    ensures x / d >= 0.0
  {
  }

  lemma QuotientAtMostOne(x: real, d: real)
    requires d > 0.0 && x <= d
    ensures x / d <= 1.0
  {
  }

  lemma NonnegProduct(a: real, b: real)
    requires a >= 0.0 && b >= 0.0
    ensures a * b >= 0.0
  {
  }

  lemma ProductAtMost(w: real, f: real)
    requires w >= 0.0 && f <= 1.0
    ensures w * f <= w
  {
  }

  lemma QuotientBelowOne(x: real, d: real)
    requires d > 0.0 && x < d
    ensures x / d < 1.0
  {
  }

  lemma QuotientMonotone(a: real, b: real, d: real)
    requires d > 0.0 && a <= b
    ensures a / d <= b / d
  {
    assert b / d - a / d == (b - a) / d;
    NonnegQuotient(b - a, d);
  }

  lemma ProductMonotone(w: real, f: real, g: real)
    requires w >= 0.0 && f <= g
    ensures w * f <= w * g
  {
    assert w * g - w * f == w * (g - f);
    NonnegProduct(w, g - f);
  }
}
