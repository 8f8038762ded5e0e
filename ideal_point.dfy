/**
 * `ideal_point_method` (app/algorithms/ideal_point.py): points are visited in
 * ascending squared distance from the coordinate-wise minimum; each active
 * visited point deactivates every point it weakly dominates and is emitted.
 */
module IdealPoint {
  import opened Points
  import opened Dominance
  import opened Sorting

  /** `min(points, key=lambda p: p.x[d]).x[d]`: the smallest coordinate d. */
  function MinCoord(points: seq<Point>, d: nat): (m: int)
    requires |points| > 0 && forall k :: 0 <= k < |points| ==> d < |points[k].x|
    ensures exists k :: 0 <= k < |points| && points[k].x[d] == m
    ensures forall k :: 0 <= k < |points| ==> m <= points[k].x[d]
  {
    if |points| == 1 then points[0].x[d]
    else
      var rest := MinCoord(points[1..], d);
      if points[0].x[d] <= rest then points[0].x[d] else rest
  }

  /** The ideal point: coordinate d is the minimum of coordinate d. */
  function Ideal(points: seq<Point>): (ideal: Point)
    requires Rectangular(points) && |points| > 0
    ensures ideal.Dim() == points[0].Dim()
  {
    Point(seq(points[0].Dim(), d requires 0 <= d < points[0].Dim() => MinCoord(points, d)))
  }

  /** The ideal point is weakly below every point, and each coordinate is attained. */
  lemma IdealBelowAll(points: seq<Point>)
    requires Rectangular(points) && |points| > 0
    ensures forall k :: 0 <= k < |points| ==> Leq(Ideal(points), points[k])
    ensures forall d :: 0 <= d < points[0].Dim() ==>
      exists k :: 0 <= k < |points| && points[k].x[d] == Ideal(points).x[d]
  {
  }

  /** The loop over `range(points[0].dim)` that appends each minimum. */
  method ComputeIdealPoint(points: seq<Point>) returns (ideal: Point)
    requires Rectangular(points) && |points| > 0
    ensures ideal == Ideal(points)
    ensures forall k :: 0 <= k < |points| ==> Leq(ideal, points[k])
  {
    var dim := points[0].Dim();
    var mins: seq<int> := [];
    var d := 0;
    while d < dim
      invariant 0 <= d <= dim && |mins| == d
      invariant forall t :: 0 <= t < d ==> mins[t] == MinCoord(points, t)
    {
      mins := mins + [MinCoord(points, d)];
      d := d + 1;
    }
    ideal := Point(mins);
    IdealBelowAll(points);
  }

  /** `np.sum(np.square(u - v))`. */
  function SumSquares(u: seq<int>, v: seq<int>): (r: int)
    requires |u| == |v|
    ensures r >= 0
  {
    if |u| == 0 then 0 else (u[0] - v[0]) * (u[0] - v[0]) + SumSquares(u[1..], v[1..])
  }

  /** `distance_between_points`: the squared Euclidean distance. */
  function DistanceBetweenPoints(p1: Point, p2: Point): (r: int)
    requires p1.Dim() == p2.Dim()
    ensures r >= 0
  {
    SumSquares(p1.x, p2.x)
  }

  /** One coordinate: moving q towards m, never past it, shrinks the square. */
  lemma SquareStep(m: int, q: int, p: int)
    requires m <= q <= p
    ensures (m - q) * (m - q) <= (m - p) * (m - p)
    ensures q < p ==> (m - q) * (m - q) < (m - p) * (m - p)
  {
    assert (p - q) * (p + q - 2 * m) >= 0;
    if q < p {
      assert (p - q) * (p + q - 2 * m) > 0;
    }
  }

  /** The distance is zero exactly between points with equal coordinates. */
  lemma {:induction false} SumSquaresZero(u: seq<int>, v: seq<int>)
    requires |u| == |v|
    ensures SumSquares(u, v) == 0 <==> u == v
  {
    if |u| > 0 {
      SumSquaresZero(u[1..], v[1..]);
      if u[0] != v[0] {
        assert (u[0] - v[0]) * (u[0] - v[0]) > 0;
      }
      assert u == [u[0]] + u[1..] && v == [v[0]] + v[1..];
    }
  }

  lemma DistanceZero(p1: Point, p2: Point)
    requires p1.Dim() == p2.Dim()
    ensures DistanceBetweenPoints(p1, p2) == 0 <==> p1 == p2
  {
    SumSquaresZero(p1.x, p2.x);
  }

  /** Coordinate-wise closer to m means a smaller sum of squares, strictly so when some coordinate is strictly closer. */
  lemma {:induction false} SumSquaresMonotone(m: seq<int>, q: seq<int>, p: seq<int>)
    requires |m| == |q| == |p|
    requires forall i :: 0 <= i < |m| ==> m[i] <= q[i] <= p[i]
    ensures SumSquares(m, q) <= SumSquares(m, p)
    ensures q != p ==> SumSquares(m, q) < SumSquares(m, p)
  {
    if |m| > 0 {
      SumSquaresMonotone(m[1..], q[1..], p[1..]);
      SquareStep(m[0], q[0], p[0]);
      assert q == [q[0]] + q[1..] && p == [p[0]] + p[1..];
    }
  }

  /** Above the ideal point, strict dominance means strictly nearer to it. */
  lemma DominatorIsNearer(ideal: Point, q: Point, p: Point)
    requires ideal.Dim() == q.Dim() == p.Dim() && Leq(ideal, q)
    ensures StrictlyDominates(q, p) ==> DistanceBetweenPoints(ideal, q) < DistanceBetweenPoints(ideal, p)
  {
    if StrictlyDominates(q, p) {
      SumSquaresMonotone(ideal.x, q.x, p.x);
    }
  }

  /** The distance of every point from the ideal point, in input order. */
  function Distances(points: seq<Point>, ideal: Point): (dist: seq<int>)
    requires forall k :: 0 <= k < |points| ==> points[k].Dim() == ideal.Dim()
    ensures |dist| == |points|
    ensures forall k :: 0 <= k < |points| ==> dist[k] == DistanceBetweenPoints(ideal, points[k])
  {
    seq(|points|, k requires 0 <= k < |points| => DistanceBetweenPoints(ideal, points[k]))
  }

  /** Distances as sort keys (the sort compares them as numbers). */
  function Keys(dist: seq<int>): (keys: seq<real>)
    ensures |keys| == |dist| && forall k :: 0 <= k < |dist| ==> keys[k] == dist[k] as real
  {
    seq(|dist|, k requires 0 <= k < |dist| => dist[k] as real)
  }

  /** `sorted_indices`: the indices in stable ascending order of distance. */
  function VisitOrder(points: seq<Point>): (order: seq<nat>)
    requires Rectangular(points) && |points| > 0
    ensures |order| == |points| && forall t :: 0 <= t < |order| ==> order[t] < |points|
  {
    SortedIndices(Keys(Distances(points, Ideal(points))))
  }

  /**
   * What the visits rely on: ideal is below every point, and order is a
   * permutation of the indices along which the distance from ideal never
   * decreases.
   */
  ghost predicate ValidOrder(points: seq<Point>, ideal: Point, order: seq<nat>) {
    && (forall k :: 0 <= k < |points| ==> points[k].Dim() == ideal.Dim() && Leq(ideal, points[k]))
    && |order| == |points| && (forall t :: 0 <= t < |order| ==> order[t] < |points|)
    && (forall k :: 0 <= k < |points| ==> k in order)
    && (forall a, b :: 0 <= a < b < |order| ==>
          DistanceBetweenPoints(ideal, points[order[a]]) <= DistanceBetweenPoints(ideal, points[order[b]]))
  }

  /** The ideal point and the stable sort by distance satisfy ValidOrder. */
  lemma VisitOrderValid(points: seq<Point>)
    requires Rectangular(points) && |points| > 0
    ensures ValidOrder(points, Ideal(points), VisitOrder(points))
  {
    IdealBelowAll(points);
    SortedIndicesCorrect(Keys(Distances(points, Ideal(points))));
  }

  ghost predicate OrderShape(points: seq<Point>, order: seq<nat>) {
    |order| == |points| && forall t :: 0 <= t < |order| ==> order[t] < |points|
  }

  /** Every point whose flag is cleared is weakly dominated by an output. */
  ghost predicate InactiveCovered(points: seq<Point>, active: seq<bool>, results: seq<Point>)
    requires |active| == |points|
  {
    forall k :: 0 <= k < |points| && !active[k] ==> Covered(results, points[k])
  }

  /** Every point an output weakly dominates has its flag cleared. */
  ghost predicate EmittedDeactivate(points: seq<Point>, active: seq<bool>, results: seq<Point>)
    requires |active| == |points|
  {
    forall e, k :: e in results && 0 <= k < |points| && Leq(e, points[k]) ==> !active[k]
  }

  /** Every output is an input point that no input strictly dominates. */
  ghost predicate Sound(points: seq<Point>, results: seq<Point>) {
    forall e :: e in results ==> e in points && NonDominated(points, e)
  }

  /** The state before visiting sorted position c. */
  ghost predicate VisitInvariant(points: seq<Point>, order: seq<nat>, active: seq<bool>, results: seq<Point>, c: int)
    requires OrderShape(points, order)
  {
    && |active| == |points| && 0 <= c <= |points| && |results| <= c
    && (|results| == 0 ==> c == 0 && forall k :: 0 <= k < |points| ==> active[k])
    && (forall t :: 0 <= t < c ==> !active[order[t]])
    && InactiveCovered(points, active, results)
    && EmittedDeactivate(points, active, results)
    && Sound(points, results)
    && Pairwise(results)
  }

  /** The point at sorted position t does not strictly dominate the active point at position c. */
  lemma PositionNotDominating(points: seq<Point>, ideal: Point, order: seq<nat>, active: seq<bool>,
                              results: seq<Point>, c: int, t: int)
    requires Rectangular(points) && ValidOrder(points, ideal, order) && OrderShape(points, order)
    requires VisitInvariant(points, order, active, results, c) && c < |points| && 0 <= t < |points|
    requires active[order[c]]
    ensures !StrictlyDominates(points[order[t]], points[order[c]])
  {
    var e := points[order[c]];
    var p := points[order[t]];
    DominatorIsNearer(ideal, p, e);
    if t < c {
      var w :| w in results && Leq(w, p);
      assert !Leq(w, e);
      NotLeqThrough(w, p, e);
    } else if t > c {
      assert DistanceBetweenPoints(ideal, e) <= DistanceBetweenPoints(ideal, p);
    } else {
      LeqReflexive(e);
    }
  }

  /** The point at an active sorted position is dominated by no input point. */
  lemma VisitedNonDominated(points: seq<Point>, ideal: Point, order: seq<nat>, active: seq<bool>,
                            results: seq<Point>, c: int)
    requires Rectangular(points) && ValidOrder(points, ideal, order) && OrderShape(points, order)
    requires VisitInvariant(points, order, active, results, c) && c < |points|
    requires active[order[c]]
    ensures NonDominated(points, points[order[c]])
  {
    var n := |points|;
    var e := points[order[c]];
    forall t | 0 <= t < n
      ensures !StrictlyDominates(points[order[t]], e)
    {
      PositionNotDominating(points, ideal, order, active, results, c, t);
    }
    forall k | 0 <= k < n
      ensures !StrictlyDominates(points[k], e)
    {
      assert k in order;
      var t :| 0 <= t < n && order[t] == k;
    }
  }

  /** The active flags after a sweep by e: those e weakly dominates are cleared. */
  function Swept(points: seq<Point>, active: seq<bool>, e: Point): (r: seq<bool>)
    requires |active| == |points|
    ensures |r| == |points|
    ensures forall m :: 0 <= m < |points| ==> r[m] == (active[m] && !Leq(e, points[m]))
  {
    seq(|points|, m requires 0 <= m < |points| => active[m] && !Leq(e, points[m]))
  }

  /**
   * `for idx, point in enumerate(points): if ... <= point:
   * is_point_active[idx] = False`: every point, active or not, is compared.
   */
  method Sweep(points: seq<Point>, active: array<bool>, e: Point, counter: Counter)
    requires active.Length == |points| && forall k :: 0 <= k < |points| ==> |points[k].x| == |e.x| > 0
    modifies active, counter
    ensures active[..] == Swept(points, old(active[..]), e)
    ensures counter.globalPointCounter == old(counter.globalPointCounter) + |points|
  {
    var idx := 0;
    while idx < |points|
      invariant 0 <= idx <= |points|
      invariant forall m :: 0 <= m < idx ==> active[m] == (old(active[m]) && !Leq(e, points[m]))
      invariant forall m :: idx <= m < |points| ==> active[m] == old(active[m])
      invariant counter.globalPointCounter == old(counter.globalPointCounter) + idx
    {
      var le := counter.Le(e, points[idx]);
      if le {
        active[idx] := false;
      }
      idx := idx + 1;
    }
  }

  /** An inactive sorted position is passed over. */
  lemma SkipPreserves(points: seq<Point>, order: seq<nat>, active: seq<bool>, results: seq<Point>, c: int)
    requires OrderShape(points, order)
    requires VisitInvariant(points, order, active, results, c) && c < |points|
    requires !active[order[c]]
    ensures VisitInvariant(points, order, active, results, c + 1)
  {
  }

  lemma EmitCovered(points: seq<Point>, before: seq<bool>, after: seq<bool>, results: seq<Point>, e: Point)
    requires |before| == |after| == |points| && InactiveCovered(points, before, results)
    requires forall m :: 0 <= m < |points| ==> after[m] == (before[m] && !Leq(e, points[m]))
    ensures InactiveCovered(points, after, results + [e])
  {
    var out := results + [e];
    assert e in out;
    forall k | 0 <= k < |points| && !after[k]
      ensures Covered(out, points[k])
    {
      if before[k] {
        assert Leq(e, points[k]);
      } else {
        var w :| w in results && Leq(w, points[k]);
        assert w in out;
      }
    }
  }

  lemma EmitDeactivates(points: seq<Point>, before: seq<bool>, after: seq<bool>, results: seq<Point>, e: Point)
    requires |before| == |after| == |points| && EmittedDeactivate(points, before, results)
    requires forall m :: 0 <= m < |points| ==> after[m] == (before[m] && !Leq(e, points[m]))
    ensures EmittedDeactivate(points, after, results + [e])
  {
    forall w, k | w in results + [e] && 0 <= k < |points| && Leq(w, points[k])
      ensures !after[k]
    {
      if w != e {
        assert w in results;
      }
    }
  }

  lemma EmitSound(points: seq<Point>, results: seq<Point>, e: Point)
    requires Sound(points, results) && e in points && NonDominated(points, e)
    ensures Sound(points, results + [e])
  {
    forall w | w in results + [e]
      ensures w in points && NonDominated(points, w)
    {
      if w != e {
        assert w in results;
      }
    }
  }

  lemma EmitPairwise(results: seq<Point>, e: Point)
    requires Pairwise(results) && forall w :: w in results ==> !Leq(w, e)
    ensures Pairwise(results + [e])
  {
    var out := results + [e];
    forall a, b | 0 <= a < b < |out|
      ensures !Leq(out[a], out[b])
    {
      if b < |results| {
        assert out[a] == results[a] && out[b] == results[b];
      } else {
        assert out[a] in results;
      }
    }
  }

  /** Emitting the active point at position c restores the invariant for c + 1. */
  lemma EmitPreserves(points: seq<Point>, ideal: Point, order: seq<nat>, before: seq<bool>, after: seq<bool>,
                      results: seq<Point>, c: int)
    requires Rectangular(points) && ValidOrder(points, ideal, order) && OrderShape(points, order)
    requires VisitInvariant(points, order, before, results, c) && c < |points|
    requires before[order[c]]
    requires |after| == |points|
    requires forall m :: 0 <= m < |points| ==> after[m] == (before[m] && !Leq(points[order[c]], points[m]))
    ensures VisitInvariant(points, order, after, results + [points[order[c]]], c + 1)
  {
    var e := points[order[c]];
    var out := results + [e];
    assert forall t :: 0 <= t < c + 1 ==> !after[order[t]] by {
      LeqReflexive(e);
    }
    assert InactiveCovered(points, after, out) by {
      EmitCovered(points, before, after, results, e);
    }
    assert EmittedDeactivate(points, after, out) by {
      EmitDeactivates(points, before, after, results, e);
    }
    assert Sound(points, out) by {
      VisitedNonDominated(points, ideal, order, before, results, c);
      EmitSound(points, results, e);
    }
    assert Pairwise(out) by {
      assert forall w :: w in results ==> !Leq(w, e);
      EmitPairwise(results, e);
    }
  }

  /**
   * One visit of sorted position c: an inactive position is passed over; an
   * active one deactivates every point it weakly dominates, its own index
   * included, and is emitted.  One `<=` per input point when it emits.
   */
  method Visit(points: seq<Point>, ghost ideal: Point, order: seq<nat>, active: array<bool>,
               results: seq<Point>, c: int, counter: Counter)
    returns (emitted: bool, next: seq<Point>)
    requires Rectangular(points) && ValidOrder(points, ideal, order) && OrderShape(points, order)
    requires active.Length == |points| && VisitInvariant(points, order, active[..], results, c) && c < |points|
    modifies active, counter
    ensures emitted == old(active[order[c]])
    ensures next == if emitted then results + [points[order[c]]] else results
    ensures VisitInvariant(points, order, active[..], next, c + 1)
    ensures counter.globalPointCounter == old(counter.globalPointCounter) + if emitted then |points| else 0
  {
    ghost var before := active[..];
    if !active[order[c]] {
      SkipPreserves(points, order, before, results, c);
      return false, results;
    }
    var e := points[order[c]];
    Sweep(points, active, e, counter);
    active[order[c]] := false;
    LeqReflexive(e);
    EmitPreserves(points, ideal, order, before, active[..], results, c);
    return true, results + [e];
  }

  /** n * r as repeated addition, which keeps the visiting loops' counter arithmetic linear. */
  function Times(n: nat, r: nat): nat {
    if r == 0 then 0 else Times(n, r - 1) + n
  }

  lemma {:induction false} TimesIsProduct(n: nat, r: nat)
    ensures Times(n, r) == n * r
  {
    if r > 0 {
      TimesIsProduct(n, r - 1);
    }
  }

  /** A visit, with the point comparisons so far counted as n per emitted point. */
  method CountedVisit(points: seq<Point>, ghost ideal: Point, order: seq<nat>, active: array<bool>,
                      results: seq<Point>, c: int, counter: Counter, ghost base: int)
    returns (emitted: bool, next: seq<Point>)
    requires Rectangular(points) && ValidOrder(points, ideal, order) && OrderShape(points, order)
    requires active.Length == |points| && VisitInvariant(points, order, active[..], results, c) && c < |points|
    requires counter.globalPointCounter == base + Times(|points|, |results|)
    modifies active, counter
    ensures next == if emitted then results + [points[order[c]]] else results
    ensures VisitInvariant(points, order, active[..], next, c + 1)
    ensures counter.globalPointCounter == base + Times(|points|, |next|)
  {
    assert Times(|points|, |results| + 1) == Times(|points|, |results|) + |points|;
    emitted, next := Visit(points, ideal, order, active, results, c, counter);
  }

  /** Before the first visit every point is active and nothing is emitted. */
  lemma InitialInvariant(points: seq<Point>, order: seq<nat>, active: seq<bool>)
    requires OrderShape(points, order)
    requires |active| == |points| && forall k :: 0 <= k < |points| ==> active[k]
    ensures VisitInvariant(points, order, active, [], 0)
  {
  }

  /**
   * What the loop as written guarantees once `current_index` exceeds
   * `total_points`: the positions up to n - |results| were all visited.
   */
  lemma GuardedExit(points: seq<Point>, order: seq<nat>, active: seq<bool>, results: seq<Point>, c: int)
    requires |points| > 0 && OrderShape(points, order) && VisitInvariant(points, order, active, results, c)
    requires |points| - |results| < c <= |points| - |results| + 2
    ensures 1 <= |results| && 2 * |results| <= |points| + 2
    ensures forall t :: 0 <= t <= |points| - |results| ==> Covered(results, points[order[t]])
  {
  }

  /** After every position was visited, every point is covered. */
  lemma FullExit(points: seq<Point>, ideal: Point, order: seq<nat>, active: seq<bool>, results: seq<Point>)
    requires ValidOrder(points, ideal, order) && OrderShape(points, order)
    requires VisitInvariant(points, order, active, results, |points|)
    ensures forall k :: 0 <= k < |points| ==> Covered(results, points[k])
  {
    forall k | 0 <= k < |points|
      ensures Covered(results, points[k])
    {
      assert k in order;
      var t :| 0 <= t < |points| && order[t] == k;
    }
  }

  /** The ideal point and the visit order, as the two methods compute them. */
  method Prepare(points: seq<Point>) returns (ghost ideal: Point, order: seq<nat>)
    requires Rectangular(points) && |points| > 0
    ensures order == VisitOrder(points) && ValidOrder(points, ideal, order) && OrderShape(points, order)
  {
    var y := ComputeIdealPoint(points);
    order := SortedIndices(Keys(Distances(points, y)));
    ideal := y;
    VisitOrderValid(points);
  }

  /**
   * `ideal_point_method` with its loop guard as written,
   * `current_index <= total_points` with `total_points` decremented on each
   * emission.  Every output is a non-dominated input point, no output weakly
   * dominates a later one, the sorted positions up to n - |results| are
   * covered, and at most half the inputs plus one are emitted.
   */
  method IdealPointMethod(points: seq<Point>, counter: Counter) returns (results: seq<Point>)
    requires Rectangular(points) && |points| > 0
    modifies counter
    ensures forall e :: e in results ==> e in points && NonDominated(points, e)
    ensures Pairwise(results)
    ensures 1 <= |results| && 2 * |results| <= |points| + 2
    ensures forall t :: 0 <= t <= |points| - |results| ==> Covered(results, points[VisitOrder(points)[t]])
    ensures counter.globalPointCounter == old(counter.globalPointCounter) + |points| * |results|
  {
    ghost var ideal;
    var order;
    ideal, order := Prepare(points);
    var n := |points|;
    var active := new bool[n](_ => true);
    InitialInvariant(points, order, active[..]);
    results := [];
    var c := 0;
    var total := n;
    while c <= total
      invariant VisitInvariant(points, order, active[..], results, c)
      invariant total == n - |results| && c <= total + 2
      invariant counter.globalPointCounter == old(counter.globalPointCounter) + Times(n, |results|)
      decreases total - c + 1
    {
      var emitted;
      emitted, results := CountedVisit(points, ideal, order, active, results, c, counter, old(counter.globalPointCounter));
      if emitted {
        total := total - 1;
      }
      c := c + 1;
    }
    GuardedExit(points, order, active[..], results, c);
    TimesIsProduct(n, |results|);
  }

  /**
   * The loop as evidently intended, visiting every sorted position
   * (`while current_index < len(points)`): the output then covers every
   * input point.
   */
  method IdealPointMethodComplete(points: seq<Point>, counter: Counter) returns (results: seq<Point>)
    requires Rectangular(points) && |points| > 0
    modifies counter
    ensures forall e :: e in results ==> e in points && NonDominated(points, e)
    ensures Pairwise(results)
    ensures forall k :: 0 <= k < |points| ==> Covered(results, points[k])
    ensures counter.globalPointCounter == old(counter.globalPointCounter) + |points| * |results|
  {
    ghost var ideal;
    var order;
    ideal, order := Prepare(points);
    var n := |points|;
    var active := new bool[n](_ => true);
    InitialInvariant(points, order, active[..]);
    results := [];
    var c := 0;
    while c < n
      invariant VisitInvariant(points, order, active[..], results, c)
      invariant counter.globalPointCounter == old(counter.globalPointCounter) + Times(n, |results|)
    {
      var emitted;
      emitted, results := CountedVisit(points, ideal, order, active, results, c, counter, old(counter.globalPointCounter));
      c := c + 1;
    }
    FullExit(points, ideal, order, active[..], results);
    TimesIsProduct(n, |results|);
  }
}
