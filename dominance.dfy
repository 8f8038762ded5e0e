/**
 * Dominance notions shared by the three frontier algorithms: what it means
 * for an output point to be non-dominated, for an input point to be covered
 * by an output, and the fact that every dominated point is dominated by a
 * frontier point.
 */
module Dominance {
  import opened Points

  /** All points have the same, positive, dimension (numpy broadcasting needs it). */
  predicate Rectangular(data: seq<Point>) {
    forall i :: 0 <= i < |data| ==> |data[i].x| == |data[0].x| > 0
  }

  /** No point of data strictly dominates p. */
  predicate NonDominated(data: seq<Point>, p: Point) {
    forall q :: q in data ==> !StrictlyDominates(q, p)
  }

  /** Some point of out weakly dominates p. */
  predicate Covered(out: seq<Point>, p: Point) {
    exists e :: e in out && Leq(e, p)
  }

  /** Index q holds a non-dominated point whose value occurs at no earlier index. */
  predicate FirstFrontier(data: seq<Point>, q: int)
    requires 0 <= q < |data|
  {
    NonDominated(data, data[q]) && forall k :: 0 <= k < q ==> data[k] != data[q]
  }

  /** No two entries of out, earlier before later, weakly dominate in that order. */
  predicate Pairwise(out: seq<Point>) {
    forall a, b :: 0 <= a < b < |out| ==> !Leq(out[a], out[b])
  }

  /** Improving the candidate keeps "not strictly dominated by x". */
  lemma NotStrictlyDominatedDown(x: Point, c: Point, c': Point)
    requires Leq(c', c) && !StrictlyDominates(x, c)
    ensures !StrictlyDominates(x, c')
  {
    if Leq(x, c') {
      LeqTransitive(x, c', c);
      LeqTransitive(c', c, x);
    }
  }

  /** If e is below q but not below r, then q is not below r either. */
  lemma NotLeqThrough(e: Point, q: Point, r: Point)
    requires Leq(e, q) && |e.x| == |r.x| && !Leq(e, r)
    ensures !Leq(q, r)
  {
    var k :| 0 <= k < |e.x| && e.x[k] > r.x[k];
    assert q.x[k] > r.x[k];
  }

  /** The indices whose points weakly dominate p. */
  function DominatorsOf(data: seq<Point>, p: Point): set<int> {
    set k | 0 <= k < |data| && Leq(data[k], p)
  }

  /** The first index holding the value of data[q]. */
  lemma FirstIndex(data: seq<Point>, q: int) returns (r: int)
    requires 0 <= q < |data|
    ensures 0 <= r <= q && data[r] == data[q]
    ensures forall k :: 0 <= k < r ==> data[k] != data[q]
    decreases q
  {
    if k :| 0 <= k < q && data[k] == data[q] {
      r := FirstIndex(data, k);
    } else {
      r := q;
    }
  }

  lemma StrictSubsetSmaller(a: set<int>, b: set<int>, x: int)
    requires a <= b && x in b && x !in a
    ensures |a| < |b|
  {
    var d := b - a;
    assert b == a + d;
    assert x in d;
  }

  /** Every point of the dataset is weakly dominated by a first-occurring frontier point. */
  lemma {:induction false} FrontierDominator(data: seq<Point>, q: int) returns (r: int)
    requires Rectangular(data) && 0 <= q < |data|
    ensures 0 <= r < |data| && FirstFrontier(data, r) && Leq(data[r], data[q])
    decreases |DominatorsOf(data, data[q])|
  {
    if NonDominated(data, data[q]) {
      r := FirstIndex(data, q);
    } else {
      var p :| p in data && StrictlyDominates(p, data[q]);
      var s :| 0 <= s < |data| && data[s] == p;
      forall k | k in DominatorsOf(data, data[s])
        ensures k in DominatorsOf(data, data[q])
      {
        LeqTransitive(data[k], data[s], data[q]);
      }
      LeqReflexive(data[q]);
      assert q in DominatorsOf(data, data[q]);
      assert !Leq(data[q], data[s]);
      assert q !in DominatorsOf(data, data[s]);
      StrictSubsetSmaller(DominatorsOf(data, data[s]), DominatorsOf(data, data[q]), q);
      r := FrontierDominator(data, s);
      LeqTransitive(data[r], data[s], data[q]);
    }
  }

  /** A point strictly dominated by some input point is strictly dominated by a first-occurring frontier point. */
  lemma StrictFrontierDominator(data: seq<Point>, p: Point, q: int) returns (r: int)
    requires Rectangular(data) && 0 <= q < |data| && StrictlyDominates(data[q], p)
    ensures 0 <= r < |data| && FirstFrontier(data, r) && StrictlyDominates(data[r], p)
  {
    r := FrontierDominator(data, q);
    LeqTransitive(data[r], data[q], p);
    if Leq(p, data[r]) {
      LeqTransitive(p, data[r], data[q]);
    }
  }
}
