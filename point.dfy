/**
 * The point abstraction (app/algorithms/point.py): a vector of criteria
 * values with coordinate-wise comparisons, and the two comparison counters
 * the Python class keeps as class attributes, here fields of an explicit
 * counter object that the algorithms receive.
 */
module Points {

  /** A point: the numpy vector `x`. */
  datatype Point = Point(x: seq<int>) {
    /** The `dim` attribute, fixed at construction to the length of `x`. */
    function Dim(): nat { |x| }
  }

  /** `p <= q`: every coordinate of p is at most the matching one of q. */
  predicate Leq(p: Point, q: Point) {
    |p.x| == |q.x| && forall k :: 0 <= k < |p.x| ==> p.x[k] <= q.x[k]
  }

  /** `p >= q`: every coordinate of p is at least the matching one of q. */
  predicate Geq(p: Point, q: Point) {
    |p.x| == |q.x| && forall k :: 0 <= k < |p.x| ==> p.x[k] >= q.x[k]
  }

  /** `p == q` as numpy computes it here: all coordinates equal. */
  predicate CoordEq(p: Point, q: Point) {
    |p.x| == |q.x| && forall k :: 0 <= k < |p.x| ==> p.x[k] == q.x[k]
  }

  /** p weakly dominates q and q does not weakly dominate p. */
  predicate StrictlyDominates(p: Point, q: Point) {
    Leq(p, q) && !Leq(q, p)
  }

  /** The boolean vector `self.x <= other.x`. */
  function LePredicate(p: Point, q: Point): (pred: seq<bool>)
    requires |p.x| == |q.x|
    ensures |pred| == |p.x|
    ensures forall k :: 0 <= k < |pred| ==> (pred[k] <==> p.x[k] <= q.x[k])
  {
    seq(|p.x|, k requires 0 <= k < |p.x| => p.x[k] <= q.x[k])
  }

  /** The boolean vector `self.x >= other.x`. */
  function GePredicate(p: Point, q: Point): (pred: seq<bool>)
    requires |p.x| == |q.x|
    ensures |pred| == |p.x|
    ensures forall k :: 0 <= k < |pred| ==> (pred[k] <==> p.x[k] >= q.x[k])
  {
    seq(|p.x|, k requires 0 <= k < |p.x| => p.x[k] >= q.x[k])
  }

  /** The boolean vector `self.x == other.x`. */
  function EqPredicate(p: Point, q: Point): (pred: seq<bool>)
    requires |p.x| == |q.x|
    ensures |pred| == |p.x|
    ensures forall k :: 0 <= k < |pred| ==> (pred[k] <==> p.x[k] == q.x[k])
  {
    seq(|p.x|, k requires 0 <= k < |p.x| => p.x[k] == q.x[k])
  }

  /** `np.all(pred)`. */
  predicate All(pred: seq<bool>) {
    forall k :: 0 <= k < |pred| ==> pred[k]
  }

  /** Index of the first False of a boolean vector that has one. */
  function FirstFalse(pred: seq<bool>): (k: nat)
    requires !All(pred)
    ensures k < |pred| && !pred[k]
    ensures forall j :: 0 <= j < k ==> pred[j]
  {
    if !pred[0] then 0 else FirstFalse(pred[1..]) + 1
  }

  /**
   * `np.argmin(pred)` on a boolean vector: the first index holding the
   * minimum.  That is the first False, or 0 when every entry is True.
   * numpy raises on an empty vector, hence the precondition.
   */
  function ArgMin(pred: seq<bool>): (k: nat)
    requires |pred| > 0
    ensures k < |pred|
    ensures !All(pred) ==> !pred[k] && forall j :: 0 <= j < k ==> pred[j]
    ensures All(pred) ==> k == 0
  {
    if All(pred) then 0 else FirstFalse(pred)
  }

  /** `-p`: every coordinate negated. */
  function Neg(p: Point): (r: Point)
    ensures r.Dim() == p.Dim()
  {
    Point(seq(|p.x|, k requires 0 <= k < |p.x| => -p.x[k]))
  }

  /** `create_points_from_datapoints`: one point per datapoint, in order. */
  function CreatePointsFromDatapoints(datapoints: seq<seq<int>>): (points: seq<Point>)
    ensures |points| == |datapoints|
    ensures forall k :: 0 <= k < |points| ==> points[k].x == datapoints[k] && points[k].Dim() == |datapoints[k]|
  {
    seq(|datapoints|, k requires 0 <= k < |datapoints| => Point(datapoints[k]))
  }

  /**
   * The two class-level counters of `Point`.  Every comparison adds one to
   * `globalPointCounter` and `argmin(predicate) + 1` to
   * `globalCoordinateCounter`.
   */
  class Counter {
    var globalPointCounter: nat
    var globalCoordinateCounter: nat

    constructor ()
      ensures globalPointCounter == 0 && globalCoordinateCounter == 0
    {
      globalPointCounter := 0;
      globalCoordinateCounter := 0;
    }

    /** `reset_counter`. */
    method ResetCounter()
      modifies this
      ensures globalPointCounter == 0 && globalCoordinateCounter == 0
    {
      globalPointCounter := 0;
      globalCoordinateCounter := 0;
    }

    /** `get_global_point_counter`; changes nothing. */
    method GetGlobalPointCounter() returns (r: nat)
      ensures r == globalPointCounter
    {
      r := globalPointCounter;
    }

    /** `get_global_coordinate_counter`; changes nothing. */
    method GetGlobalCoordinateCounter() returns (r: nat)
      ensures r == globalCoordinateCounter
    {
      r := globalCoordinateCounter;
    }

    /** The bookkeeping shared by the three comparison operators. */
    method Record(pred: seq<bool>)
      requires |pred| > 0
      modifies this
      ensures globalPointCounter == old(globalPointCounter) + 1
      ensures globalCoordinateCounter == old(globalCoordinateCounter) + ArgMin(pred) + 1
    {
      globalPointCounter := globalPointCounter + 1;
      globalCoordinateCounter := globalCoordinateCounter + ArgMin(pred) + 1;
    }

    /** `p <= q` (`Point.__le__`). */
    method Le(p: Point, q: Point) returns (b: bool)
      requires |p.x| == |q.x| > 0
      modifies this
      ensures b == Leq(p, q)
      ensures globalPointCounter == old(globalPointCounter) + 1
      ensures globalCoordinateCounter == old(globalCoordinateCounter) + ArgMin(LePredicate(p, q)) + 1
    {
      var pred := LePredicate(p, q);
      Record(pred);
      b := All(pred);
    }

    /** `p >= q` (`Point.__ge__`). */
    method Ge(p: Point, q: Point) returns (b: bool)
      requires |p.x| == |q.x| > 0
      modifies this
      ensures b == Geq(p, q)
      ensures globalPointCounter == old(globalPointCounter) + 1
      ensures globalCoordinateCounter == old(globalCoordinateCounter) + ArgMin(GePredicate(p, q)) + 1
    {
      var pred := GePredicate(p, q);
      Record(pred);
      b := All(pred);
    }

    /** `p == q` (`Point.__eq__`). */
    method Eq(p: Point, q: Point) returns (b: bool)
      requires |p.x| == |q.x| > 0
      modifies this
      ensures b == CoordEq(p, q) && (b <==> p == q)
      ensures globalPointCounter == old(globalPointCounter) + 1
      ensures globalCoordinateCounter == old(globalCoordinateCounter) + ArgMin(EqPredicate(p, q)) + 1
    {
      var pred := EqPredicate(p, q);
      Record(pred);
      b := All(pred);
      if b {
        assert p.x == q.x;
      }
    }
  }

  lemma LeqReflexive(p: Point)
    ensures Leq(p, p)
  {
  }

  lemma LeqTransitive(p: Point, q: Point, r: Point)
    requires Leq(p, q) && Leq(q, r)
    ensures Leq(p, r)
  {
  }

  /** Points that weakly dominate each other are the same point. */
  lemma LeqAntisymmetric(p: Point, q: Point)
    requires Leq(p, q) && Leq(q, p)
    ensures p == q
  {
    assert p.x == q.x;
  }

  /** `-(-p)` has p's coordinates. */
  lemma NegNeg(p: Point)
    ensures Neg(Neg(p)) == p
  {
    assert Neg(Neg(p)).x == p.x;
  }

  /** Negation reverses dominance: the sign flip that turns Max criteria into Min ones. */
  lemma NegReversesLeq(p: Point, q: Point)
    ensures Leq(p, q) <==> Leq(Neg(q), Neg(p))
  {
    if Leq(Neg(q), Neg(p)) {
      forall k | 0 <= k < |p.x|
        ensures p.x[k] <= q.x[k]
      {
        assert Neg(q).x[k] <= Neg(p).x[k];
      }
    }
  }

  /** `>=` is `<=` with the arguments swapped. */
  lemma GeqIsFlippedLeq(p: Point, q: Point)
    ensures Geq(p, q) <==> Leq(q, p)
  {
  }
}
