/**
 * UTA-Star (app/algorithms/uta_star.py) with two parts per criterion: the
 * breakpoints are the criterion's minimum and maximum, the utility of a
 * breakpoint is the criterion's weight times its position, the marginal
 * utility is the line through consecutive breakpoints, and the points are
 * ranked by the sum of their marginal utilities, best first.  The
 * arithmetic is exact and works on the points' coordinates read as reals.
 */
module UtaStar {
  import opened Wrappers
  import opened Points
  import opened Sorting
  import opened Rankings
  import opened Matrix

  /** A Python dict from floats to floats, as its entries in insertion order. */
  type Dict = seq<(real, real)>

  /** A dict from intervals `(k0, k1)` to line coefficients `(a, b)`. */
  type IntervalDict = seq<((real, real), (real, real))>

  predicate DistinctKeys(d: Dict) {
    forall a, b :: 0 <= a < b < |d| ==> d[a].0 != d[b].0
  }

  predicate HasKey(d: Dict, k: real) {
    exists a :: 0 <= a < |d| && d[a].0 == k
  }

  /** `d[k] = v`: an existing key keeps its place and takes the new value; a new key goes last. */
  function Put(d: Dict, k: real, v: real): (r: Dict)
    requires DistinctKeys(d)
    ensures DistinctKeys(r) && HasKey(r, k)
    ensures HasKey(d, k) ==> |r| == |d| && forall a :: 0 <= a < |d| ==> r[a] == if d[a].0 == k then (k, v) else d[a]
    ensures !HasKey(d, k) ==> r == d + [(k, v)]
    ensures forall q :: HasKey(r, q) <==> HasKey(d, q) || q == k
  {
    if HasKey(d, k) then
      var r := seq(|d|, a requires 0 <= a < |d| => if d[a].0 == k then (k, v) else d[a]);
      assert forall a :: 0 <= a < |d| ==> r[a].0 == d[a].0;
      r
    else
      var r := d + [(k, v)];
      assert r[|d|] == (k, v) && forall a :: 0 <= a < |d| ==> r[a] == d[a];
      r
  }

  /** Adds `parts[j]: v + w * j` for every j, in order, to d. */
  function Fill(d: Dict, parts: seq<real>, w: real, v: real): (r: Dict)
    requires DistinctKeys(d)
    decreases |parts|
    ensures DistinctKeys(r)
    ensures forall q :: HasKey(r, q) <==> HasKey(d, q) || q in parts
  {
    if |parts| == 0 then d else Fill(Put(d, parts[0], v), parts[1..], w, v + w)
  }

  /** `{parts[j]: w * j for j in range(len(parts))}`. */
  function Comprehension(parts: seq<real>, w: real): (d: Dict)
    ensures DistinctKeys(d)
    ensures forall q :: HasKey(d, q) <==> q in parts
  {
    Fill([], parts, w, 0.0)
  }

  /**
   * With the two breakpoints `[lo, hi]` the dict maps lo to 0 and hi to w,
   * unless they coincide, when the single key lo ends with the value w.
   */
  lemma TwoPartDict(lo: real, hi: real, w: real)
    ensures Comprehension([lo, hi], w) == if lo == hi then [(lo, w)] else [(lo, 0.0), (hi, w)]
  {
    PutIntoEmpty(lo, 0.0);
    var d1 := [(lo, 0.0)];
    assert [lo, hi][1..] == [hi] && [hi][1..] == [];
    assert Fill([], [lo, hi], w, 0.0) == Fill(d1, [hi], w, w);
    assert Fill(d1, [hi], w, w) == Put(d1, hi, w);
    if lo == hi {
      PutExistingKey(lo, 0.0, w);
    } else {
      PutNewKey(lo, 0.0, hi, w);
    }
  }

  /** A key put into an empty dict is its only entry. */
  lemma PutIntoEmpty(k: real, v: real)
    ensures Put([], k, v) == [(k, v)]
  {
    assert !HasKey([], k);
  }

  /** A new key goes after the existing entry. */
  lemma PutNewKey(k0: real, v0: real, k: real, v: real)
    requires k0 != k
    ensures Put([(k0, v0)], k, v) == [(k0, v0), (k, v)]
  {
    assert !HasKey([(k0, v0)], k);
  }

  /** Putting the existing key again replaces its value. */
  lemma PutExistingKey(k: real, v0: real, v: real)
    ensures Put([(k, v0)], k, v) == [(k, v)]
  {
    assert [(k, v0)][0].0 == k;
  }

  /** The breakpoints of criterion d: its 0th and 100th percentiles. */
  function Breakpoints(rows: seq<seq<real>>, d: nat): (parts: seq<real>)
    requires |rows| > 0 && Wide(rows, d + 1)
    ensures |parts| == 2 && parts[0] <= parts[1]
    ensures forall k :: 0 <= k < |rows| ==> parts[0] <= rows[k][d] <= parts[1]
  {
    [MinValue(rows, d), MaxValue(rows, d)]
  }

  /**
   * `divide_into_parts` with two parts for every criterion: one list of
   * breakpoints per coordinate of the first point.
   */
  method DivideIntoParts(rows: seq<seq<real>>) returns (parts: seq<seq<real>>)
    requires |rows| > 0 && Wide(rows, |rows[0]|)
    ensures |parts| == |rows[0]|
    ensures forall i :: 0 <= i < |parts| ==> parts[i] == Breakpoints(rows, i)
  {
    parts := [];
    var i := 0;
    while i < |rows[0]|
      invariant 0 <= i <= |rows[0]| && |parts| == i
      invariant forall t :: 0 <= t < i ==> parts[t] == Breakpoints(rows, t)
    {
      parts := parts + [Breakpoints(rows, i)];
      i := i + 1;
    }
  }

  /** `create_usability_function_values`: one dict of breakpoint utilities per criterion. */
  method CreateUsabilityFunctionValues(weights: seq<real>, size: nat, parts: seq<seq<real>>)
    returns (functionValues: seq<Dict>)
    requires size <= |weights| && size <= |parts|
    ensures |functionValues| == size
    ensures forall i :: 0 <= i < size ==> functionValues[i] == Comprehension(parts[i], weights[i])
  {
    functionValues := [];
    var i := 0;
    while i < size
      invariant 0 <= i <= size && |functionValues| == i
      invariant forall t :: 0 <= t < i ==> functionValues[t] == Comprehension(parts[t], weights[t])
    {
      functionValues := functionValues + [Comprehension(parts[i], weights[i])];
      i := i + 1;
    }
  }

  /** The slope of the line through entries j and j + 1. */
  function Slope(d: Dict, j: nat): (a: real)
    requires DistinctKeys(d) && j + 1 < |d|
    ensures a * (d[j].0 - d[j + 1].0) == d[j].1 - d[j + 1].1
  {
    (d[j].1 - d[j + 1].1) / (d[j].0 - d[j + 1].0)
  }

  /** The intercept of the line through entries j and j + 1. */
  function Intercept(d: Dict, j: nat): (b: real)
    requires DistinctKeys(d) && j + 1 < |d|
    ensures Slope(d, j) * d[j].0 + b == d[j].1
  {
    d[j].1 - Slope(d, j) * d[j].0
  }

  /** The line through entries j and j + 1 passes through both. */
  lemma LineThroughBreakpoints(d: Dict, j: nat)
    requires DistinctKeys(d) && j + 1 < |d|
    ensures Slope(d, j) * d[j].0 + Intercept(d, j) == d[j].1
    ensures Slope(d, j) * d[j + 1].0 + Intercept(d, j) == d[j + 1].1
  {
    var k0, k1, v0, v1 := d[j].0, d[j + 1].0, d[j].1, d[j + 1].1;
    var a := (v0 - v1) / (k0 - k1);
    assert a * (k0 - k1) == v0 - v1;
    assert a * k1 + (v0 - a * k0) == v1 by {
      assert a * k1 - a * k0 == -(a * (k0 - k1));
    }
  }

  /** The entries of `values_for_interval` for one criterion, consecutive breakpoints paired. */
  function Segments(d: Dict): (iv: IntervalDict)
    requires DistinctKeys(d)
    ensures |iv| == if |d| == 0 then 0 else |d| - 1
    ensures forall j :: 0 <= j < |iv| ==> iv[j] == ((d[j].0, d[j + 1].0), (Slope(d, j), Intercept(d, j)))
  {
    if |d| == 0 then []
    else seq(|d| - 1, j requires 0 <= j < |d| - 1 => ((d[j].0, d[j + 1].0), (Slope(d, j), Intercept(d, j))))
  }

  /** The interval keys of one criterion are distinct, so no assignment overwrites another. */
  lemma SegmentKeysDistinct(d: Dict)
    requires DistinctKeys(d)
    ensures forall a, b :: 0 <= a < b < |Segments(d)| ==> Segments(d)[a].0 != Segments(d)[b].0
  {
  }

  /**
   * `create_functions`: for every criterion, each pair of consecutive
   * breakpoints is keyed to the line through them.
   */
  method CreateFunctions(functionValues: seq<Dict>) returns (intervals: seq<IntervalDict>)
    requires forall i :: 0 <= i < |functionValues| ==> DistinctKeys(functionValues[i])
    ensures |intervals| == |functionValues|
    ensures forall i :: 0 <= i < |intervals| ==> intervals[i] == Segments(functionValues[i])
  {
    intervals := [];
    var i := 0;
    while i < |functionValues|
      invariant 0 <= i <= |functionValues| && |intervals| == i
      invariant forall t :: 0 <= t < i ==> intervals[t] == Segments(functionValues[t])
    {
      var valuesForInterval := LinesOf(functionValues[i]);
      intervals := intervals + [valuesForInterval];
      i := i + 1;
    }
  }

  /** The inner loop of `create_functions`, over the breakpoints of one criterion. */
  method LinesOf(d: Dict) returns (valuesForInterval: IntervalDict)
    requires DistinctKeys(d)
    ensures valuesForInterval == Segments(d)
  {
    ghost var target := Segments(d);
    valuesForInterval := [];
    var j := 0;
    while j < |d| - 1
      invariant 0 <= j && (|d| == 0 ==> j == 0) && (|d| > 0 ==> j <= |d| - 1)
      invariant valuesForInterval == target[..j]
    {
      var a := Slope(d, j);
      var b := Intercept(d, j);
      assert target[j] == ((d[j].0, d[j + 1].0), (a, b));
      assert target[..j + 1] == target[..j] + [target[j]];
      valuesForInterval := valuesForInterval + [((d[j].0, d[j + 1].0), (a, b))];
      j := j + 1;
    }
    assert target[..|target|] == target;
  }

  predicate Contains(key: (real, real), x: real) {
    key.0 <= x <= key.1
  }

  /** The coefficients of the first interval, in dict order, that contains x. */
  function FirstContaining(iv: IntervalDict, x: real): (r: Option<(real, real)>)
    ensures r.None? <==> forall s :: 0 <= s < |iv| ==> !Contains(iv[s].0, x)
    ensures r.Some? ==> exists s :: 0 <= s < |iv| && Contains(iv[s].0, x) && r.value == iv[s].1 &&
                                    forall u :: 0 <= u < s ==> !Contains(iv[u].0, x)
  {
    if |iv| == 0 then None
    else if Contains(iv[0].0, x) then Some(iv[0].1)
    else
      var rest := FirstContaining(iv[1..], x);
      if rest.Some? then
        var s :| 0 <= s < |iv[1..]| && Contains(iv[1..][s].0, x) && rest.value == iv[1..][s].1 &&
          forall u :: 0 <= u < s ==> !Contains(iv[1..][u].0, x);
        assert iv[s + 1] == iv[1..][s];
        rest
      else rest
  }

  /** The interval a scan finds first is the one FirstContaining picks. */
  lemma {:induction false} FirstContainingAt(iv: IntervalDict, x: real, t: nat)
    requires t < |iv| && Contains(iv[t].0, x) && forall s :: 0 <= s < t ==> !Contains(iv[s].0, x)
    ensures FirstContaining(iv, x) == Some(iv[t].1)
  {
    if t > 0 {
      FirstContainingAt(iv[1..], x, t - 1);
    }
  }

  /** What a criterion contributes for value x: `a * x + b` of its first containing interval, or nothing. */
  function Contribution(iv: IntervalDict, x: real): (c: real)
    ensures (forall s :: 0 <= s < |iv| ==> !Contains(iv[s].0, x)) ==> c == 0.0
    ensures c != 0.0 ==> exists s :: 0 <= s < |iv| && Contains(iv[s].0, x)
  {
    match FirstContaining(iv, x)
    case None => 0.0
    case Some(ab) => ab.0 * x + ab.1
  }

  /** The contributions of the first n criteria to a row's utility. */
  function Contributions(row: seq<real>, intervals: seq<IntervalDict>, n: nat): (cs: seq<real>)
    requires n <= |intervals| && n <= |row|
    ensures |cs| == n && forall i :: 0 <= i < n ==> cs[i] == Contribution(intervals[i], row[i])
  {
    seq(n, i requires 0 <= i < n => Contribution(intervals[i], row[i]))
  }

  /**
   * The scan over one criterion's intervals: the first that contains x adds
   * `a * x + b` to the utilities collected so far, and the scan stops.
   */
  method AppendFirstMatch(iv: IntervalDict, x: real, uValues: seq<real>) returns (next: seq<real>)
    ensures Sum(next) == Sum(uValues) + Contribution(iv, x)
  {
    next := uValues;
    var t := 0;
    while t < |iv|
      invariant 0 <= t <= |iv| && next == uValues
      invariant forall s :: 0 <= s < t ==> !Contains(iv[s].0, x)
    {
      if iv[t].0.0 <= x <= iv[t].0.1 {
        FirstContainingAt(iv, x, t);
        next := next + [iv[t].1.0 * x + iv[t].1.1];
        SumAppend(uValues, iv[t].1.0 * x + iv[t].1.1);
        break;
      }
      t := t + 1;
    }
  }

  /** The utility of one point: the sum of its contributions over the first size criteria. */
  method PointUtility(row: seq<real>, size: nat, intervals: seq<IntervalDict>) returns (u: real)
    requires size <= |intervals| && size <= |row|
    ensures u == Sum(Contributions(row, intervals, size))
  {
    var uValues: seq<real> := [];
    var i := 0;
    while i < size
      invariant 0 <= i <= size && Sum(uValues) == Sum(Contributions(row, intervals, i))
    {
      uValues := AppendFirstMatch(intervals[i], row[i], uValues);
      assert Contributions(row, intervals, i + 1) == Contributions(row, intervals, i) + [Contribution(intervals[i], row[i])];
      SumAppend(Contributions(row, intervals, i), Contribution(intervals[i], row[i]));
      i := i + 1;
    }
    u := Sum(uValues);
  }

  /**
   * The marginal utility at x of a criterion with weight w ranging over
   * [lo, hi], in closed form: the weight scaled by where x lies in the range,
   * or nothing for a constant criterion.
   */
  function Score(w: real, lo: real, hi: real, x: real): real {
    if lo < hi then w * (x - lo) / (hi - lo) else 0.0
  }

  /** The closed-form marginal utilities of the first n criteria of a row. */
  function Scores(weights: seq<real>, lows: seq<real>, highs: seq<real>, row: seq<real>, n: nat): (ss: seq<real>)
    requires n <= |weights| && n <= |lows| && n <= |highs| && n <= |row|
    ensures |ss| == n && forall i :: 0 <= i < n ==> ss[i] == Score(weights[i], lows[i], highs[i], row[i])
  {
    seq(n, i requires 0 <= i < n => Score(weights[i], lows[i], highs[i], row[i]))
  }

  /** The minimum of each of the first n criteria. */
  function Lows(rows: seq<seq<real>>, n: nat): (lows: seq<real>)
    requires |rows| > 0 && Wide(rows, n)
    ensures |lows| == n && forall i :: 0 <= i < n ==> lows[i] == Breakpoints(rows, i)[0]
  {
    seq(n, i requires 0 <= i < n => Breakpoints(rows, i)[0])
  }

  /** The maximum of each of the first n criteria. */
  function Highs(rows: seq<seq<real>>, n: nat): (highs: seq<real>)
    requires |rows| > 0 && Wide(rows, n)
    ensures |highs| == n && forall i :: 0 <= i < n ==> highs[i] == Breakpoints(rows, i)[1]
  {
    seq(n, i requires 0 <= i < n => Breakpoints(rows, i)[1])
  }

  /** A non-negative weight bounds a marginal utility, which is never negative. */
  lemma ScoreBounds(w: real, lo: real, hi: real, x: real)
    requires w >= 0.0 && lo <= x <= hi
    ensures 0.0 <= Score(w, lo, hi, x) <= w
  {
    if lo < hi {
      var f := (x - lo) / (hi - lo);
      assert 0.0 <= f by {
        NonnegQuotient(x - lo, hi - lo);
      }
      assert f <= 1.0 by {
        QuotientAtMostOne(x - lo, hi - lo);
      }
      assert w * (x - lo) / (hi - lo) == w * f;
      NonnegProduct(w, f);
      ProductAtMost(w, f);
    }
  }

  /** The line from (lo, 0) to (hi, w) evaluated at x. */
  lemma LineValue(lo: real, hi: real, w: real, x: real)
    requires lo < hi
    ensures ((0.0 - w) / (lo - hi)) * x + (0.0 - ((0.0 - w) / (lo - hi)) * lo) == w * (x - lo) / (hi - lo)
  {
  }

  /**
   * For a value within the two breakpoints, the dict, interval and
   * first-match steps give exactly the closed-form marginal utility.
   */
  lemma ContributionIsScore(lo: real, hi: real, w: real, x: real)
    requires lo <= x <= hi
    ensures Contribution(Segments(Comprehension([lo, hi], w)), x) == Score(w, lo, hi, x)
  {
    TwoPartDict(lo, hi, w);
    if lo < hi {
      var d := Comprehension([lo, hi], w);
      var iv := Segments(d);
      var a := (0.0 - w) / (lo - hi);
      assert d == [(lo, 0.0), (hi, w)];
      assert Slope(d, 0) == a && Intercept(d, 0) == 0.0 - a * lo;
      assert |iv| == 1 && iv[0] == ((lo, hi), (a, 0.0 - a * lo)) && Contains(iv[0].0, x);
      FirstContainingAt(iv, x, 0);
      assert Contribution(iv, x) == a * x + (0.0 - a * lo);
      LineValue(lo, hi, w, x);
    }
  }

  /**
   * The pipeline's contributions for a row are its closed-form marginal
   * utilities, when each interval dict is built from that criterion's two
   * breakpoints and the row's value lies between them.
   */
  lemma ContributionsAreScores(weights: seq<real>, lows: seq<real>, highs: seq<real>,
                               row: seq<real>, intervals: seq<IntervalDict>, n: nat)
    requires n <= |weights| && n <= |lows| && n <= |highs| && n <= |row| && n <= |intervals|
    requires forall i :: 0 <= i < n ==>
      intervals[i] == Segments(Comprehension([lows[i], highs[i]], weights[i])) && lows[i] <= row[i] <= highs[i]
    ensures Contributions(row, intervals, n) == Scores(weights, lows, highs, row, n)
  {
    forall i | 0 <= i < n
      ensures Contributions(row, intervals, n)[i] == Scores(weights, lows, highs, row, n)[i]
    {
      ContributionIsScore(lows[i], highs[i], weights[i], row[i]);
    }
  }

  /** The closed-form utility of every row over the first size criteria. */
  function ClosedFormValues(rows: seq<seq<real>>, weights: seq<real>, size: nat): (values: seq<real>)
    requires |rows| > 0 && Wide(rows, size) && size <= |weights|
    ensures |values| == |rows|
  {
    seq(|rows|, k requires 0 <= k < |rows| => Sum(Scores(weights, Lows(rows, size), Highs(rows, size), rows[k], size)))
  }

  /** With non-negative weights, the closed-form utility lies between 0 and the sum of the weights. */
  lemma {:induction false} ClosedFormBounds(weights: seq<real>, lows: seq<real>, highs: seq<real>, row: seq<real>, n: nat)
    requires n <= |weights| && n <= |lows| && n <= |highs| && n <= |row|
    requires forall i :: 0 <= i < n ==> weights[i] >= 0.0 && lows[i] <= row[i] <= highs[i]
    ensures 0.0 <= Sum(Scores(weights, lows, highs, row, n)) <= Sum(weights[..n])
  {
    if n > 0 {
      var ss := Scores(weights, lows, highs, row, n);
      ClosedFormBounds(weights, lows, highs, row, n - 1);
      assert ss[..n - 1] == Scores(weights, lows, highs, row, n - 1);
      assert weights[..n][..n - 1] == weights[..n - 1];
      ScoreBounds(weights[n - 1], lows[n - 1], highs[n - 1], row[n - 1]);
      SumStep(Sum(Scores(weights, lows, highs, row, n - 1)), ss[n - 1], Sum(weights[..n - 1]), weights[n - 1]);
    }
  }

  lemma SumStep(s: real, x: real, t: real, w: real)
    requires 0.0 <= s <= t && 0.0 <= x <= w
    ensures 0.0 <= s + x <= t + w
  {
  }

  /**
   * With non-negative weights every closed-form utility lies between 0 and
   * the sum of the weights: the worst point on every criterion scores 0 and
   * the best scores the total weight.
   */
  lemma UtilityBounds(rows: seq<seq<real>>, weights: seq<real>, size: nat, k: nat)
    requires |rows| > 0 && Wide(rows, size) && size <= |weights| && k < |rows|
    requires forall i :: 0 <= i < size ==> weights[i] >= 0.0
    ensures 0.0 <= ClosedFormValues(rows, weights, size)[k] <= Sum(weights[..size])
  {
    var lows, highs := Lows(rows, size), Highs(rows, size);
    forall i | 0 <= i < size
      ensures lows[i] <= rows[k][i] <= highs[i]
    {
      assert Breakpoints(rows, i)[0] <= rows[k][i] <= Breakpoints(rows, i)[1];
    }
    ClosedFormBounds(weights, lows, highs, rows[k], size);
  }

  /** A larger value never has a smaller marginal utility. */
  lemma ScoreMonotone(w: real, lo: real, hi: real, x: real, y: real)
    requires w >= 0.0 && x <= y
    ensures Score(w, lo, hi, x) <= Score(w, lo, hi, y)
  {
    if lo < hi {
      assert w * (x - lo) / (hi - lo) == w * ((x - lo) / (hi - lo));
      assert w * (y - lo) / (hi - lo) == w * ((y - lo) / (hi - lo));
      QuotientMonotone(x - lo, y - lo, hi - lo);
      ProductMonotone(w, (x - lo) / (hi - lo), (y - lo) / (hi - lo));
    }
  }

  /**
   * With non-negative weights a point at least as good as another on every
   * criterion has at least its utility, so UTA-Star never ranks a dominated
   * point (all criteria maximised) strictly above its dominator.
   */
  lemma UtilityMonotone(rows: seq<seq<real>>, weights: seq<real>, size: nat, k: nat, m: nat)
    requires |rows| > 0 && Wide(rows, size) && size <= |weights| && k < |rows| && m < |rows|
    requires forall i :: 0 <= i < size ==> weights[i] >= 0.0 && rows[k][i] <= rows[m][i]
    ensures ClosedFormValues(rows, weights, size)[k] <= ClosedFormValues(rows, weights, size)[m]
  {
    var lows, highs := Lows(rows, size), Highs(rows, size);
    var sk, sm := Scores(weights, lows, highs, rows[k], size), Scores(weights, lows, highs, rows[m], size);
    forall i | 0 <= i < size
      ensures sk[i] <= sm[i]
    {
      ScoreMonotone(weights[i], lows[i], highs[i], rows[k][i], rows[m][i]);
    }
    SumMonotone(sk, sm);
  }

  /** The interval dicts the pipeline builds are those of each criterion's two breakpoints. */
  ghost predicate PipelineIntervals(rows: seq<seq<real>>, weights: seq<real>, intervals: seq<IntervalDict>, size: nat)
    requires |rows| > 0 && Wide(rows, size) && size <= |weights|
  {
    |intervals| == size &&
    forall i :: 0 <= i < size ==> intervals[i] == Segments(Comprehension(Breakpoints(rows, i), weights[i]))
  }

  /** Each criterion's breakpoints are its entries in Lows and Highs. */
  lemma PipelineBounds(rows: seq<seq<real>>, weights: seq<real>, intervals: seq<IntervalDict>, size: nat)
    requires |rows| > 0 && Wide(rows, size) && size <= |weights|
    requires PipelineIntervals(rows, weights, intervals, size)
    ensures forall i :: 0 <= i < size ==>
      intervals[i] == Segments(Comprehension([Lows(rows, size)[i], Highs(rows, size)[i]], weights[i]))
  {
    forall i | 0 <= i < size
      ensures intervals[i] == Segments(Comprehension([Lows(rows, size)[i], Highs(rows, size)[i]], weights[i]))
    {
      var parts := Breakpoints(rows, i);
      assert parts == [Lows(rows, size)[i], Highs(rows, size)[i]];
    }
  }

  /** The utility the pipeline computes for row k is its closed form. */
  lemma RowIsClosedForm(rows: seq<seq<real>>, weights: seq<real>, intervals: seq<IntervalDict>, size: nat, k: nat)
    requires |rows| > 0 && Wide(rows, size) && size <= |weights| && k < |rows|
    requires PipelineIntervals(rows, weights, intervals, size)
    ensures Sum(Contributions(rows[k], intervals, size)) == ClosedFormValues(rows, weights, size)[k]
  {
    PipelineBounds(rows, weights, intervals, size);
    ContributionsAreScores(weights, Lows(rows, size), Highs(rows, size), rows[k], intervals, size);
  }

  /** The three building stages together give the pipeline's interval dicts. */
  lemma StagesGivePipeline(rows: seq<seq<real>>, weights: seq<real>, parts: seq<seq<real>>,
                           functionValues: seq<Dict>, intervals: seq<IntervalDict>, size: nat)
    requires |rows| > 0 && Wide(rows, size) && size <= |weights|
    requires |parts| == size && forall i :: 0 <= i < size ==> parts[i] == Breakpoints(rows, i)
    requires |functionValues| == size &&
      forall i :: 0 <= i < size ==> functionValues[i] == Comprehension(parts[i], weights[i])
    requires |intervals| == size && forall i :: 0 <= i < size ==>
      DistinctKeys(functionValues[i]) && intervals[i] == Segments(functionValues[i])
    ensures PipelineIntervals(rows, weights, intervals, size)
  {
  }

  /**
   * `create_solution_table`: for every point and criterion, the first interval
   * containing the point's value contributes `a * x + b`; the point's utility
   * is the sum of the contributions, which for the pipeline's intervals is its
   * closed-form utility.
   */
  method CreateSolutionTable(rows: seq<seq<real>>, weights: seq<real>, size: nat, intervals: seq<IntervalDict>)
    returns (values: seq<real>)
    requires |rows| > 0 && Wide(rows, size) && size <= |weights|
    requires PipelineIntervals(rows, weights, intervals, size)
    ensures values == ClosedFormValues(rows, weights, size)
  {
    ghost var target := ClosedFormValues(rows, weights, size);
    values := [];
    var k := 0;
    while k < |rows|
      invariant 0 <= k <= |rows| && values == target[..k]
    {
      var u := PointUtility(rows[k], size, intervals);
      RowIsClosedForm(rows, weights, intervals, size, k);
      PrefixStep(target, k, u);
      values := values + [u];
      k := k + 1;
    }
    assert target[..|rows|] == target;
  }

  /** Extending a prefix by the next element gives the next prefix. */
  lemma PrefixStep(target: seq<real>, k: nat, u: real)
    requires k < |target| && u == target[k]
    ensures target[..k] + [u] == target[..k + 1]
  {
  }

  /**
   * The three building stages of `uta_star`: breakpoints, their utilities,
   * and the line through each pair of consecutive breakpoints.
   */
  method BuildIntervals(rows: seq<seq<real>>, weights: seq<real>) returns (intervals: seq<IntervalDict>)
    requires |rows| > 0 && Wide(rows, |rows[0]|) && |rows[0]| <= |weights|
    ensures PipelineIntervals(rows, weights, intervals, |rows[0]|)
  {
    var size := |rows[0]|;
    var parts := DivideIntoParts(rows);
    var functionValues := CreateUsabilityFunctionValues(weights, size, parts);
    intervals := CreateFunctions(functionValues);
    StagesGivePipeline(rows, weights, parts, functionValues, intervals, size);
  }

  /** The building stages and the solution table give the closed-form utilities. */
  method ComputeUtilities(rows: seq<seq<real>>, weights: seq<real>) returns (utaStarValues: seq<real>)
    requires |rows| > 0 && Wide(rows, |rows[0]|) && |rows[0]| <= |weights|
    ensures utaStarValues == ClosedFormValues(rows, weights, |rows[0]|)
  {
    var intervals := BuildIntervals(rows, weights);
    utaStarValues := CreateSolutionTable(rows, weights, |rows[0]|, intervals);
  }

  /**
   * `uta_star`: two parts per criterion, then the pipeline above.  The
   * result ranks the points by their closed-form utilities, best first, ties
   * in input order.
   */
  method UtaStar(points: seq<Point>, weights: seq<real>) returns (r: Ranking)
    requires |points| > 0 && (forall k :: 0 <= k < |points| ==> |points[0].x| <= |points[k].x|)
    requires |points[0].x| <= |weights|
    ensures r == DescendingRanking(ClosedFormValues(Rows(points), weights, |points[0].x|))
    ensures RanksDescending(ClosedFormValues(Rows(points), weights, |points[0].x|), r) && TiesInIndexOrder(r)
  {
    var rows := Rows(points);
    var utaStarValues := ComputeUtilities(rows, weights);
    r := DescendingRanking(utaStarValues);
  }
}
