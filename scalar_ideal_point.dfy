/**
 * `estimate_ideal_point` and `scalarisation`
 * (app/algorithms/scalar_ideal_point.py): the coordinate-wise minimum of a
 * set of points, and the first point that minimises a metric of its
 * difference to that (or a given) reference point.
 */
module ScalarIdealPoint {
  import opened Wrappers
  import opened Points
  import opened Dominance
  import IdealPoint

  /**
   * `y = zeros_like(points[0].x)`, then `y[i] = min(p.x[i] for p in points)`
   * for every coordinate of the first point.  Every point needs at least
   * that many coordinates.
   */
  method EstimateIdealPoint(points: seq<Point>) returns (ideal: Point)
    requires |points| > 0 && forall k :: 0 <= k < |points| ==> |points[0].x| <= |points[k].x|
    ensures |ideal.x| == |points[0].x|
    ensures forall d :: 0 <= d < |ideal.x| ==>
      (forall k :: 0 <= k < |points| ==> ideal.x[d] <= points[k].x[d]) &&
      (exists k :: 0 <= k < |points| && points[k].x[d] == ideal.x[d])
    ensures Rectangular(points) ==> ideal == IdealPoint.Ideal(points)
  {
    var dim := points[0].Dim();
    var y := new int[dim](_ => 0);
    var i := 0;
    while i < dim
      invariant 0 <= i <= dim
      invariant forall d :: 0 <= d < i ==> y[d] == IdealPoint.MinCoord(points, d)
    {
      y[i] := IdealPoint.MinCoord(points, i);
      i := i + 1;
    }
    ideal := Point(y[..]);
  }

  /** `p.x - ideal_point.x`, coordinate by coordinate. */
  function Difference(u: seq<int>, v: seq<int>): (r: seq<int>)
    requires |u| == |v|
    ensures |r| == |u| && forall k :: 0 <= k < |u| ==> r[k] + v[k] == u[k]
  {
    seq(|u|, k requires 0 <= k < |u| => u[k] - v[k])
  }

  /** The position of the first smallest key, as `min` with a key function picks it. */
  function FirstMinimum(keys: seq<real>): (k: nat)
    requires |keys| > 0
    ensures k < |keys|
    ensures forall j :: 0 <= j < |keys| ==> keys[k] <= keys[j]
    ensures forall j :: 0 <= j < k ==> keys[k] < keys[j]
  {
    if |keys| == 1 then 0
    else
      var rest := FirstMinimum(keys[1..]);
      if keys[0] <= keys[1 + rest] then 0 else 1 + rest
  }

  /** The reference point: the given one, or the estimate when none is given. */
  function Reference(points: seq<Point>, idealPoint: Option<Point>): (ref: Point)
    requires |points| > 0
    requires idealPoint.None? ==> Rectangular(points)
    requires idealPoint.Some? ==> forall k :: 0 <= k < |points| ==> |points[k].x| == |idealPoint.value.x|
    ensures forall k :: 0 <= k < |points| ==> |points[k].x| == |ref.x|
    ensures idealPoint.Some? ==> ref == idealPoint.value
    ensures idealPoint.None? ==> forall k :: 0 <= k < |points| ==> Leq(ref, points[k])
  {
    match idealPoint
    case Some(y) => y
    case None =>
      IdealPoint.IdealBelowAll(points);
      IdealPoint.Ideal(points)
  }

  /** `metric(p.x - ref.x)` for every point. */
  function MetricKeys(points: seq<Point>, ref: Point, metric: seq<int> -> real): (keys: seq<real>)
    requires forall k :: 0 <= k < |points| ==> |points[k].x| == |ref.x|
    ensures |keys| == |points|
    ensures forall j :: 0 <= j < |points| ==> keys[j] == metric(Difference(points[j].x, ref.x))
  {
    seq(|points|, j requires 0 <= j < |points| => metric(Difference(points[j].x, ref.x)))
  }

  /**
   * `min(points, key=lambda p: metric(p.x - ideal_point.x))`: an input point
   * whose metric is minimal, the first such one in list order.
   */
  function Scalarisation(points: seq<Point>, idealPoint: Option<Point>, metric: seq<int> -> real): (r: Point)
    requires |points| > 0
    requires idealPoint.None? ==> Rectangular(points)
    requires idealPoint.Some? ==> forall k :: 0 <= k < |points| ==> |points[k].x| == |idealPoint.value.x|
    ensures var keys := MetricKeys(points, Reference(points, idealPoint), metric);
      exists k :: 0 <= k < |points| && r == points[k] &&
        (forall j :: 0 <= j < |points| ==> keys[k] <= keys[j]) &&
        (forall j :: 0 <= j < k ==> keys[k] < keys[j])
  {
    points[FirstMinimum(MetricKeys(points, Reference(points, idealPoint), metric))]
  }

  /** The metric grows strictly when any coordinate grows and none shrinks. */
  ghost predicate StrictlyMonotone(metric: seq<int> -> real) {
    forall u: seq<int>, v: seq<int> ::
      |u| == |v| && (forall d :: 0 <= d < |u| ==> u[d] <= v[d]) && u != v ==> metric(u) < metric(v)
  }

  lemma DominatorScoresLower(q: Point, r: Point, ref: Point, metric: seq<int> -> real)
    requires |q.x| == |r.x| == |ref.x| && StrictlyDominates(q, r) && StrictlyMonotone(metric)
    ensures metric(Difference(q.x, ref.x)) < metric(Difference(r.x, ref.x))
  {
    var u := Difference(q.x, ref.x);
    var v := Difference(r.x, ref.x);
    assert forall d :: 0 <= d < |u| ==> u[d] <= v[d];
    var d :| 0 <= d < |r.x| && r.x[d] > q.x[d];
    assert u[d] < v[d];
  }

  /** A strictly monotone metric picks a point that no input strictly dominates. */
  lemma ScalarisationNonDominated(points: seq<Point>, idealPoint: Option<Point>, metric: seq<int> -> real)
    requires |points| > 0
    requires idealPoint.None? ==> Rectangular(points)
    requires idealPoint.Some? ==> forall k :: 0 <= k < |points| ==> |points[k].x| == |idealPoint.value.x|
    requires StrictlyMonotone(metric)
    ensures NonDominated(points, Scalarisation(points, idealPoint, metric))
  {
    var r := Scalarisation(points, idealPoint, metric);
    var ref := Reference(points, idealPoint);
    var keys := MetricKeys(points, ref, metric);
    var k :| 0 <= k < |points| && r == points[k] && forall j :: 0 <= j < |points| ==> keys[k] <= keys[j];
    forall j | 0 <= j < |points|
      ensures !StrictlyDominates(points[j], r)
    {
      if StrictlyDominates(points[j], r) {
        DominatorScoresLower(points[j], r, ref, metric);
      }
    }
  }
}
