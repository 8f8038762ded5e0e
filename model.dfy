/**
 * `DataPointModel` (app/model.py): holds the data points, runs a frontier
 * algorithm over them, and splits the data into the algorithm's result and
 * the points that equal none of its outputs.
 */
module Model {
  import opened Points
  import opened Dominance

  /** The points of s, in order, that equal no point of nonDominated. */
  function Unmatched(s: seq<Point>, nonDominated: seq<Point>): (r: seq<Point>)
    ensures |r| <= |s|
    ensures forall p :: p in r <==> p in s && p !in nonDominated
  {
    if s == [] then []
    else (if s[0] in nonDominated then [] else [s[0]]) + Unmatched(s[1..], nonDominated)
  }

  /** Filtering a concatenation filters each part and keeps their order. */
  lemma {:induction false} UnmatchedAppend(a: seq<Point>, b: seq<Point>, nonDominated: seq<Point>)
    ensures Unmatched(a + b, nonDominated) == Unmatched(a, nonDominated) + Unmatched(b, nonDominated)
  {
    if a == [] {
      assert a + b == b;
    } else {
      assert (a + b)[0] == a[0];
      assert (a + b)[1..] == a[1..] + b;
      UnmatchedAppend(a[1..], b, nonDominated);
    }
  }

  /** Every data point is in exactly one of the two lists. */
  lemma Partition(data: seq<Point>, nonDominated: seq<Point>)
    requires forall e :: e in nonDominated ==> e in data
    ensures forall p :: p in data ==> (p in nonDominated <==> p !in Unmatched(data, nonDominated))
    ensures forall p :: p in nonDominated || p in Unmatched(data, nonDominated) ==> p in data
  {
  }

  /**
   * When the result is drawn from the data and weakly dominates every data
   * point (as for the frontier algorithms), every point left out of it is
   * strictly dominated by some data point.
   */
  lemma UnmatchedAreDominated(data: seq<Point>, nonDominated: seq<Point>)
    requires Rectangular(data)
    requires forall e :: e in nonDominated ==> e in data
    requires forall k :: 0 <= k < |data| ==> Covered(nonDominated, data[k])
    ensures forall p :: p in Unmatched(data, nonDominated) ==> !NonDominated(data, p)
  {
    forall p | p in Unmatched(data, nonDominated)
      ensures !NonDominated(data, p)
    {
      var k :| 0 <= k < |data| && data[k] == p;
      var e :| e in nonDominated && Leq(e, p);
      if Leq(p, e) {
        LeqAntisymmetric(e, p);
      }
      assert StrictlyDominates(e, p);
    }
  }

  class DataPointModel {
    var data: seq<Point>
    var dominated: seq<Point>
    var nonDominated: seq<Point>

    /** All three lists start empty. */
    constructor()
      ensures data == [] && dominated == [] && nonDominated == []
    {
      data := [];
      dominated := [];
      nonDominated := [];
    }

    /** The `data` setter: what is stored is what a later read returns. */
    method SetData(value: seq<Point>)
      modifies this
      ensures data == value
      ensures dominated == old(dominated) && nonDominated == old(nonDominated)
    {
      data := value;
    }

    /**
     * `process_data_with_algorithm`: the result of the algorithm on the data
     * becomes `non_dominated`, the rest `dominated`; data is unchanged.
     * The algorithm is any function from point lists to point lists.
     */
    method ProcessDataWithAlgorithm(algorithm: seq<Point> -> seq<Point>)
      modifies this
      ensures data == old(data)
      ensures nonDominated == algorithm(old(data))
      ensures dominated == Unmatched(old(data), nonDominated)
    {
      var result := algorithm(data);
      nonDominated := result;
      dominated := FilterNonDominated(result);
    }

    /** `_filter_non_dominated`: the data points, in order, that are not in the given list. */
    method FilterNonDominated(nonDominated: seq<Point>) returns (dominated: seq<Point>)
      ensures dominated == Unmatched(data, nonDominated)
    {
      dominated := [];
      var i := 0;
      while i < |data|
        invariant 0 <= i <= |data|
        invariant dominated == Unmatched(data[..i], nonDominated)
      {
        var p := data[i];
        UnmatchedAppend(data[..i], [p], nonDominated);
        assert data[..i + 1] == data[..i] + [p];
        if p !in nonDominated {
          dominated := dominated + [p];
        }
        i := i + 1;
      }
      assert data[..i] == data;
    }
  }
}
