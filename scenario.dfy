/**
 * Concrete runs of the frontier algorithms.  The twelve points are those of
 * tests/test_ideal_point.py, whose non-dominated points are (3, 3), (4, 1)
 * and (1, 8); all three frontier algorithms, the ideal point method as
 * written included, find exactly those.  The three points (1, 3), (2, 2),
 * (3, 1) are all non-dominated, and the ideal point method as written stops
 * before it reaches the last of them in distance order.
 */
module Scenarios {
  import opened Points
  import opened Dominance
  import NaiveWithoutFiltration
  import Filtered
  import IdealPoint

  const TestPoints: seq<Point> := [
    Point([5, 5]), Point([3, 6]), Point([4, 4]), Point([5, 3]), Point([3, 3]), Point([1, 8]),
    Point([3, 4]), Point([4, 5]), Point([3, 10]), Point([6, 6]), Point([4, 1]), Point([3, 5])
  ]

  const TestFrontier: set<Point> := {Point([3, 3]), Point([4, 1]), Point([1, 8])}

  /** Three points none of which dominates another. */
  const Diagonal: seq<Point> := [Point([1, 3]), Point([2, 2]), Point([3, 1])]

  /** Weak dominance between two points of the plane, coordinate by coordinate. */
  lemma Leq2(p: Point, q: Point)
    requires |p.x| == 2 && |q.x| == 2
    ensures Leq(p, q) <==> p.x[0] <= q.x[0] && p.x[1] <= q.x[1]
  {
  }

  /** Where the three frontier points sit among the test points. */
  lemma FrontierPositions()
    ensures |TestPoints| == 12
    ensures TestPoints[4] == Point([3, 3]) && TestPoints[5] == Point([1, 8]) && TestPoints[10] == Point([4, 1])
  {
  }

  /** (3, 3), (4, 1) and (1, 8) are not dominated by any test point. */
  lemma FrontierNonDominated(e: Point)
    requires e in TestFrontier
    ensures NonDominated(TestPoints, e)
  {
    forall q | q in TestPoints
      ensures !StrictlyDominates(q, e)
    {
      Leq2(q, e);
      Leq2(e, q);
    }
  }

  /** (3, 3) dominates every other test point. */
  lemma OthersDominated(e: Point)
    requires e in TestPoints && e !in TestFrontier
    ensures !NonDominated(TestPoints, e)
  {
    var d := Point([3, 3]);
    Leq2(d, e);
    Leq2(e, d);
    FrontierPositions();
    assert d in TestPoints && StrictlyDominates(d, e);
  }

  /**
   * An output that holds only non-dominated input points and weakly
   * dominates every input point holds every non-dominated input point.
   */
  lemma CoveredFrontierIsOutput(data: seq<Point>, results: seq<Point>, p: Point)
    requires forall e :: e in results ==> e in data && NonDominated(data, e)
    requires p in data && NonDominated(data, p) && Covered(results, p)
    ensures p in results
  {
    var e :| e in results && Leq(e, p);
    assert !StrictlyDominates(e, p);
    LeqAntisymmetric(e, p);
  }

  /** Sound and complete outputs on the test points hold exactly the three frontier points. */
  lemma ExactTestFrontier(results: seq<Point>)
    requires forall e :: e in results ==> e in TestPoints && NonDominated(TestPoints, e)
    requires forall k :: 0 <= k < |TestPoints| ==> Covered(results, TestPoints[k])
    ensures (set e | e in results) == TestFrontier
  {
    forall e | e in results
      ensures e in TestFrontier
    {
      if e !in TestFrontier {
        OthersDominated(e);
      }
    }
    FrontierPositions();
    forall p | p in TestFrontier
      ensures p in results
    {
      FrontierNonDominated(p);
      CoveredFrontierIsOutput(TestPoints, results, p);
    }
  }

  /** `naive_without_filtering` on the test points finds exactly their frontier. */
  method NaiveWithoutFilteringOnTestPoints() returns (results: seq<Point>)
    ensures (set e | e in results) == TestFrontier
  {
    var counter := new Counter();
    results := NaiveWithoutFiltration.NaiveWithoutFiltering(TestPoints, counter);
    ExactTestFrontier(results);
  }

  /** `naive_with_filtering` on the test points finds exactly their frontier, each point once. */
  method NaiveWithFilteringOnTestPoints() returns (results: seq<Point>)
    ensures (set e | e in results) == TestFrontier
    ensures |results| == 3
  {
    var counter := new Counter();
    results := Filtered.NaiveWithFiltering(TestPoints, counter);
    ExactTestFrontier(results);
    FrontierOnce(results);
  }

  /** Pairwise incomparable outputs repeat no point. */
  lemma PairwiseDistinct(results: seq<Point>)
    requires Pairwise(results)
    ensures |set e | e in results| == |results|
  {
    forall a, b | 0 <= a < b < |results|
      ensures results[a] != results[b]
    {
      assert !Leq(results[a], results[b]);
      LeqReflexive(results[a]);
    }
    DistinctCount(results);
  }

  /** Pairwise incomparable outputs holding the frontier hold each of its three points once. */
  lemma FrontierOnce(results: seq<Point>)
    requires Pairwise(results) && (set e | e in results) == TestFrontier
    ensures |results| == 3
  {
    PairwiseDistinct(results);
    FrontierSize();
  }

  lemma FrontierSize()
    ensures |TestFrontier| == 3
  {
    assert Point([3, 3]) != Point([4, 1]) && Point([3, 3]) != Point([1, 8]) && Point([4, 1]) != Point([1, 8]);
  }

  lemma SubsetSize(a: set<Point>, b: set<Point>)
    requires a <= b
    ensures |a| <= |b|
  {
    assert b == a + (b - a);
  }

  /** Pairwise incomparable outputs made of non-dominated test points have at most three entries. */
  lemma SoundOutputSize(results: seq<Point>)
    requires forall e :: e in results ==> e in TestPoints && NonDominated(TestPoints, e)
    requires Pairwise(results)
    ensures |results| <= 3
  {
    forall e | e in results
      ensures e in TestFrontier
    {
      if e !in TestFrontier {
        OthersDominated(e);
      }
    }
    PairwiseDistinct(results);
    SubsetSize((set e | e in results), TestFrontier);
    FrontierSize();
  }

  /** Every test point has two coordinates, both at least 1. */
  lemma TestPointCoordinates(k: nat)
    requires k < 12
    ensures |TestPoints| == 12 && |TestPoints[k].x| == 2 && TestPoints[k].x[0] >= 1 && TestPoints[k].x[1] >= 1
  {
    if k == 0 {} else if k == 1 {} else if k == 2 {} else if k == 3 {} else if k == 4 {} else if k == 5 {}
    else if k == 6 {} else if k == 7 {} else if k == 8 {} else if k == 9 {} else if k == 10 {} else {}
  }

  /**
   * What the visit argument uses of the test points: twelve points of the
   * plane with coordinates at least 1, the three frontier points at
   * positions 4, 5 and 10, and (3, 10) and (6, 6) at positions 8 and 9.
   */
  ghost predicate TestShape(points: seq<Point>) {
    && |points| == 12
    && (forall k :: 0 <= k < 12 ==> |points[k].x| == 2 && points[k].x[0] >= 1 && points[k].x[1] >= 1)
    && points[4] == Point([3, 3]) && points[5] == Point([1, 8]) && points[10] == Point([4, 1])
    && points[8] == Point([3, 10]) && points[9] == Point([6, 6])
  }

  lemma TestPointsShape()
    ensures TestShape(TestPoints)
  {
    forall k | 0 <= k < 12
      ensures |TestPoints[k].x| == 2 && TestPoints[k].x[0] >= 1 && TestPoints[k].x[1] >= 1
    {
      TestPointCoordinates(k);
    }
  }

  predicate IsOneOne(p: Point) {
    |p.x| == 2 && p.x[0] == 1 && p.x[1] == 1
  }

  /** Points of that shape are rectangular and their ideal point is (1, 1). */
  lemma ShapeIdeal(points: seq<Point>)
    requires TestShape(points)
    ensures Rectangular(points) && IsOneOne(IdealPoint.Ideal(points))
  {
    assert Rectangular(points);
    assert points[5].x[0] == 1 && points[10].x[1] == 1;
    var id := IdealPoint.Ideal(points);
    assert id.x[0] == IdealPoint.MinCoord(points, 0);
    assert id.x[1] == IdealPoint.MinCoord(points, 1);
  }

  /** The squared distance of a plane point from (1, 1). */
  lemma DistanceFromOneOne(id: Point, p: Point)
    requires IsOneOne(id) && |p.x| == 2
    ensures IdealPoint.DistanceBetweenPoints(id, p) == (p.x[0] - 1) * (p.x[0] - 1) + (p.x[1] - 1) * (p.x[1] - 1)
  {
    var u, v := id.x, p.x;
    assert u[1..][1..] == [] && v[1..][1..] == [];
    assert IdealPoint.SumSquares(u[1..][1..], v[1..][1..]) == 0;
    assert IdealPoint.SumSquares(u[1..], v[1..]) == (u[1] - v[1]) * (u[1] - v[1]);
  }

  /** The squared distances from (1, 1) of the points at positions 4, 10, 5, 9 and 8. */
  lemma ShapeDistances(points: seq<Point>, id: Point)
    requires TestShape(points) && IsOneOne(id)
    ensures IdealPoint.DistanceBetweenPoints(id, points[4]) == 8
    ensures IdealPoint.DistanceBetweenPoints(id, points[10]) == 9
    ensures IdealPoint.DistanceBetweenPoints(id, points[5]) == 49
    ensures IdealPoint.DistanceBetweenPoints(id, points[9]) == 50
    ensures IdealPoint.DistanceBetweenPoints(id, points[8]) == 85
  {
    DistanceFromOneOne(id, points[4]);
    DistanceFromOneOne(id, points[10]);
    DistanceFromOneOne(id, points[5]);
    DistanceFromOneOne(id, points[9]);
    DistanceFromOneOne(id, points[8]);
  }

  /** A visit order puts a strictly nearer point at a strictly earlier position. */
  lemma NearerFirst(points: seq<Point>, id: Point, order: seq<nat>, ta: nat, tb: nat)
    requires IdealPoint.ValidOrder(points, id, order) && ta < |order| && tb < |order|
    requires IdealPoint.DistanceBetweenPoints(id, points[order[ta]]) < IdealPoint.DistanceBetweenPoints(id, points[order[tb]])
    ensures ta < tb
  {
  }

  /**
   * In any visit order by distance from (1, 1), the frontier points (3, 3),
   * (4, 1) and (1, 8), at squared distances 8, 9 and 49, come among the first
   * ten: (3, 10) and (6, 6), at 85 and 50, come after (1, 8).
   */
  lemma FrontierVisitPositions(points: seq<Point>, id: Point, order: seq<nat>) returns (t4: nat, t10: nat, t5: nat)
    requires TestShape(points) && IsOneOne(id) && IdealPoint.ValidOrder(points, id, order)
    ensures t4 <= 9 && t10 <= 9 && t5 <= 9 && t4 < |order| && t10 < |order| && t5 < |order|
    ensures order[t4] == 4 && order[t10] == 10 && order[t5] == 5
  {
    ShapeDistances(points, id);
    assert 4 in order && 10 in order && 5 in order && 8 in order && 9 in order;
    t4 :| 0 <= t4 < 12 && order[t4] == 4;
    t10 :| 0 <= t10 < 12 && order[t10] == 10;
    t5 :| 0 <= t5 < 12 && order[t5] == 5;
    var t8 :| 0 <= t8 < 12 && order[t8] == 8;
    var t9 :| 0 <= t9 < 12 && order[t9] == 9;
    NearerFirst(points, id, order, t4, t5);
    NearerFirst(points, id, order, t10, t5);
    NearerFirst(points, id, order, t5, t8);
    NearerFirst(points, id, order, t5, t9);
  }

  /**
   * An output of at most three points that covers the first 12 - |results|
   * positions of the visit order covers the three frontier points.
   */
  lemma FrontierVisited(points: seq<Point>, results: seq<Point>)
    requires TestShape(points) && 1 <= |results| <= 3
    requires Rectangular(points)
    requires forall t :: 0 <= t <= |points| - |results| ==> Covered(results, points[IdealPoint.VisitOrder(points)[t]])
    ensures Covered(results, points[4]) && Covered(results, points[10]) && Covered(results, points[5])
  {
    ShapeIdeal(points);
    var order := IdealPoint.VisitOrder(points);
    IdealPoint.VisitOrderValid(points);
    var t4, t10, t5 := FrontierVisitPositions(points, IdealPoint.Ideal(points), order);
    assert Covered(results, points[order[t4]]);
    assert Covered(results, points[order[t10]]);
    assert Covered(results, points[order[t5]]);
  }

  /** Sound outputs on the test points that cover the three frontier points hold exactly them. */
  lemma CoveredTestFrontier(results: seq<Point>)
    requires forall e :: e in results ==> e in TestPoints && NonDominated(TestPoints, e)
    requires Covered(results, Point([3, 3])) && Covered(results, Point([4, 1])) && Covered(results, Point([1, 8]))
    ensures (set e | e in results) == TestFrontier
  {
    forall e | e in results
      ensures e in TestFrontier
    {
      if e !in TestFrontier {
        OthersDominated(e);
      }
    }
    FrontierPositions();
    forall p | p in TestFrontier
      ensures p in results
    {
      FrontierNonDominated(p);
      CoveredFrontierIsOutput(TestPoints, results, p);
    }
  }

  /**
   * `ideal_point_method` as written on the test points finds exactly their
   * frontier: it emits at most three points, so its visit reaches at least
   * the first ten positions, and (1, 8), the last frontier point in distance
   * order, is tenth.
   */
  method IdealPointMethodOnTestPoints() returns (results: seq<Point>)
    ensures (set e | e in results) == TestFrontier
  {
    TestPointsShape();
    ShapeIdeal(TestPoints);
    var counter := new Counter();
    results := IdealPoint.IdealPointMethod(TestPoints, counter);
    SoundOutputSize(results);
    FrontierVisited(TestPoints, results);
    CoveredTestFrontier(results);
  }

  /** A sequence without repetitions has as many elements as its set. */
  lemma {:induction false} DistinctCount(s: seq<Point>)
    requires forall a, b :: 0 <= a < b < |s| ==> s[a] != s[b]
    ensures |set e | e in s| == |s|
  {
    if |s| > 0 {
      var init := s[..|s| - 1];
      DistinctCount(init);
      assert (set e | e in s) == (set e | e in init) + {s[|s| - 1]};
      assert s[|s| - 1] !in init;
    }
  }

  /** The ideal point method with its loop visiting every position also finds exactly the frontier. */
  method IdealPointMethodCompleteOnTestPoints() returns (results: seq<Point>)
    ensures (set e | e in results) == TestFrontier
  {
    var counter := new Counter();
    results := IdealPoint.IdealPointMethodComplete(TestPoints, counter);
    ExactTestFrontier(results);
  }

  /** No point of the diagonal is strictly dominated by another one. */
  lemma DiagonalIncomparable()
    ensures forall e :: e in Diagonal ==> NonDominated(Diagonal, e)
  {
    forall e, q | e in Diagonal && q in Diagonal
      ensures !StrictlyDominates(q, e)
    {
      Leq2(q, e);
      Leq2(e, q);
    }
  }

  /**
   * `ideal_point_method` as written on the diagonal: it emits at most two
   * points, so one of the three non-dominated points is neither output nor
   * dominated by an output.
   */
  method IdealPointMethodMissesDiagonal() returns (results: seq<Point>)
    ensures exists k :: 0 <= k < 3 && !Covered(results, Diagonal[k])
  {
    var counter := new Counter();
    results := IdealPoint.IdealPointMethod(Diagonal, counter);
    DiagonalIncomparable();
    if forall k :: 0 <= k < 3 ==> Covered(results, Diagonal[k]) {
      forall k | 0 <= k < 3
        ensures Diagonal[k] in results
      {
        CoveredFrontierIsOutput(Diagonal, results, Diagonal[k]);
      }
      DiagonalOutputs(results);
    }
  }

  /** An output containing all three diagonal points has at least three entries. */
  lemma DiagonalOutputs(results: seq<Point>)
    requires forall k :: 0 <= k < 3 ==> Diagonal[k] in results
    ensures |results| >= 3
  {
    var s := set e | e in results;
    assert {Diagonal[0], Diagonal[1], Diagonal[2]} <= s;
    assert |{Diagonal[0], Diagonal[1], Diagonal[2]}| == 3;
    SetAtMostSeq(results);
  }

  lemma {:induction false} SetAtMostSeq(s: seq<Point>)
    ensures |set e | e in s| <= |s|
  {
    if |s| > 0 {
      var init := s[..|s| - 1];
      SetAtMostSeq(init);
      assert (set e | e in s) == (set e | e in init) + {s[|s| - 1]};
    }
  }

  /** The corrected loop outputs all three diagonal points. */
  method IdealPointMethodCompleteOnDiagonal() returns (results: seq<Point>)
    ensures forall k :: 0 <= k < 3 ==> Diagonal[k] in results
  {
    var counter := new Counter();
    results := IdealPoint.IdealPointMethodComplete(Diagonal, counter);
    DiagonalIncomparable();
    forall k | 0 <= k < 3
      ensures Diagonal[k] in results
    {
      CoveredFrontierIsOutput(Diagonal, results, Diagonal[k]);
    }
  }

  /** `naive_with_filtering` on no points outputs nothing, and on one point outputs that point. */
  method NaiveWithFilteringOnSmallInputs(p: Point) returns (none: seq<Point>, one: seq<Point>)
    requires |p.x| > 0
    ensures none == []
    ensures one == [p]
  {
    var counter := new Counter();
    none := Filtered.NaiveWithFiltering([], counter);
    EmptyWithoutMembers(none);
    one := Filtered.NaiveWithFiltering([p], counter);
    assert Covered(one, [p][0]);
    var e :| e in one && Leq(e, p);
    assert e == p;
    SingleOutput(one, p);
  }

  /** A sequence with no members is empty. */
  lemma EmptyWithoutMembers(s: seq<Point>)
    ensures (forall e :: e !in s) ==> s == []
  {
    if |s| > 0 {
      assert s[0] in s;
    }
  }

  /** A pairwise incomparable output of copies of p has at most one entry. */
  lemma SingleOutput(one: seq<Point>, p: Point)
    requires Pairwise(one) && (forall e :: e in one ==> e == p) && p in one
    ensures one == [p]
  {
    assert one[0] in one;
    if |one| > 1 {
      assert one[1] in one;
      LeqReflexive(p);
      assert false;
    }
  }
}
