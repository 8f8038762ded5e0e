/**
 * `naive_without_filtering` (app/algorithms/naive_without_filtration.py):
 * one forward pass; each processed index starts a candidate that walks the
 * later active points, deactivating those it weakly dominates and jumping to
 * any that strictly dominates it.  An inactive index is processed again when
 * its value was already emitted, so duplicates of a frontier value can be
 * emitted several times.
 */
module NaiveWithoutFiltration {
  import opened Points
  import opened Dominance

  /** The state the outer loop keeps before index i. */
  ghost predicate OuterInvariant(data: seq<Point>, active: seq<bool>, results: seq<Point>, i: int) {
    && |active| == |data| && 0 <= i <= |data| && |results| <= i
    && (forall e :: e in results ==> e in data && NonDominated(data, e))
    && (forall k :: 0 <= k < i ==> Covered(results, data[k]))
    && (forall k :: 0 <= k < |data| && !active[k] ==> Covered(results, data[k]))
    && (forall q :: 0 <= q < |data| && FirstFrontier(data, q) ==> active[q])
    && (forall q, m :: 0 <= q < i && q < m < |data| && FirstFrontier(data, q) && Leq(data[q], data[m]) ==> !active[m])
  }

  /**
   * The state of the inner loop of iteration i before step j; `initial` is
   * `active` when the iteration began.  Only i (when the candidate was
   * replaced) and later indices the candidate weakly dominates have been
   * deactivated.
   */
  ghost predicate ScanInvariant(data: seq<Point>, initial: seq<bool>, active: seq<bool>,
                                i: int, j: int, candidate: Point, candidateIndex: int)
  {
    && |initial| == |active| == |data| && 0 <= i < j <= |data|
    && i <= candidateIndex < j && candidate == data[candidateIndex]
    && (candidateIndex != i ==> active[candidateIndex] && !Leq(data[i], candidate))
    && Leq(candidate, data[i])
    && (forall k :: 0 <= k < |data| && active[k] ==> initial[k])
    && (forall k :: 0 <= k < |data| && initial[k] && !active[k] ==>
          (k == i && candidateIndex != i) || (i < k < j && Leq(candidate, data[k])))
    && (forall k :: j <= k < |data| ==> active[k] == initial[k])
    && (forall q :: i < q < j && initial[q] ==> !StrictlyDominates(data[q], candidate))
    && (FirstFrontier(data, i) ==> candidateIndex == i)
    && (forall q :: 0 <= q < |data| && FirstFrontier(data, q) && initial[q] ==> active[q])
    && (FirstFrontier(data, i) ==> forall m :: i < m < j && Leq(data[i], data[m]) ==> !active[m])
  }

  /** `if candidate <= x: active[j] = False`. */
  lemma ScanDeactivate(data: seq<Point>, initial: seq<bool>, active: seq<bool>,
                       i: int, j: int, candidate: Point, candidateIndex: int)
    requires Rectangular(data)
    requires ScanInvariant(data, initial, active, i, j, candidate, candidateIndex)
    requires j < |data| && active[j] && Leq(candidate, data[j])
    ensures ScanInvariant(data, initial, active[j := false], i, j + 1, candidate, candidateIndex)
  {
    if FirstFrontier(data, j) {
      assert candidate in data;
      LeqAntisymmetric(candidate, data[j]);
      assert false;
    }
  }

  /** An inactive j, or one incomparable with the candidate, changes nothing. */
  lemma ScanPass(data: seq<Point>, initial: seq<bool>, active: seq<bool>,
                 i: int, j: int, candidate: Point, candidateIndex: int)
    requires ScanInvariant(data, initial, active, i, j, candidate, candidateIndex)
    requires j < |data| && (active[j] ==> !Leq(candidate, data[j]) && !Leq(data[j], candidate))
    ensures ScanInvariant(data, initial, active, i, j + 1, candidate, candidateIndex)
  {
  }

  /** `elif x <= candidate`: only i is deactivated, and x becomes the candidate. */
  lemma ScanReplace(data: seq<Point>, initial: seq<bool>, active: seq<bool>,
                    i: int, j: int, candidate: Point, candidateIndex: int)
    requires Rectangular(data)
    requires ScanInvariant(data, initial, active, i, j, candidate, candidateIndex)
    requires j < |data| && active[j] && !Leq(candidate, data[j]) && Leq(data[j], candidate)
    ensures ScanInvariant(data, initial, active[i := false], i, j + 1, data[j], j)
  {
    var next := active[i := false];
    LeqTransitive(data[j], candidate, data[i]);
    if Leq(data[i], data[j]) {
      LeqTransitive(candidate, data[i], data[j]);
    }
    assert StrictlyDominates(data[j], data[i]) && data[j] in data;
    forall k | 0 <= k < |data| && initial[k] && !next[k] && k != i
      ensures i < k < j + 1 && Leq(data[j], data[k])
    {
      LeqTransitive(data[j], candidate, data[k]);
    }
    forall q | i < q < j + 1 && initial[q]
      ensures !StrictlyDominates(data[q], data[j])
    {
      if q < j {
        NotStrictlyDominatedDown(data[q], candidate, data[j]);
      }
    }
  }

  /**
   * The inner loop `for j, x in enumerate(data[i + 1 :], i + 1)` of a
   * processed index i.  Entries only go from True to False; a later index
   * is deactivated only when the final candidate weakly dominates it; i is
   * deactivated only when the candidate was replaced by a point that
   * strictly dominates `data[i]`, and that point's index stays active.
   */
  method Scan(data: seq<Point>, active: array<bool>, i: int, ghost results: seq<Point>, counter: Counter)
    returns (candidate: Point, ghost candidateIndex: int)
    requires Rectangular(data) && active.Length == |data|
    requires OuterInvariant(data, active[..], results, i) && i < |data|
    modifies active, counter
    ensures ScanInvariant(data, old(active[..]), active[..], i, |data|, candidate, candidateIndex)
  {
    var n := |data|;
    candidate := data[i];
    candidateIndex := i;
    LeqReflexive(candidate);
    var j := i + 1;
    while j < n
      invariant ScanInvariant(data, old(active[..]), active[..], i, j, candidate, candidateIndex)
    {
      candidate, candidateIndex := ScanStep(data, old(active[..]), active, i, j, candidate, candidateIndex, counter);
      j := j + 1;
    }
  }

  /** One step of the inner loop, at index j. */
  method ScanStep(data: seq<Point>, ghost initial: seq<bool>, active: array<bool>, i: int, j: int,
                  candidate: Point, ghost candidateIndex: int, counter: Counter)
    returns (next: Point, ghost nextIndex: int)
    requires Rectangular(data) && active.Length == |data| && j < |data|
    requires ScanInvariant(data, initial, active[..], i, j, candidate, candidateIndex)
    modifies active, counter
    ensures ScanInvariant(data, initial, active[..], i, j + 1, next, nextIndex)
  {
    ghost var before := active[..];
    next, nextIndex := candidate, candidateIndex;
    if active[j] {
      var le := counter.Le(candidate, data[j]);
      if le {
        ScanDeactivate(data, initial, before, i, j, candidate, candidateIndex);
        active[j] := false;
      } else {
        var ge := counter.Le(data[j], candidate);
        if ge {
          ScanReplace(data, initial, before, i, j, candidate, candidateIndex);
          active[i] := false;
          next, nextIndex := data[j], j;
        } else {
          ScanPass(data, initial, before, i, j, candidate, candidateIndex);
        }
      }
    } else {
      ScanPass(data, initial, before, i, j, candidate, candidateIndex);
    }
  }

  /** The candidate a scan ends with is dominated by no input point. */
  lemma ScannedCandidateNonDominated(data: seq<Point>, initial: seq<bool>, active: seq<bool>, results: seq<Point>,
                                     i: int, candidate: Point, candidateIndex: int)
    requires Rectangular(data)
    requires OuterInvariant(data, initial, results, i) && i < |data|
    requires initial[i] || data[i] in results
    requires ScanInvariant(data, initial, active, i, |data|, candidate, candidateIndex)
    ensures NonDominated(data, candidate)
  {
    forall p | p in data
      ensures !StrictlyDominates(p, candidate)
    {
      if StrictlyDominates(p, candidate) {
        var s :| 0 <= s < |data| && data[s] == p;
        var q := StrictFrontierDominator(data, candidate, s);
        if q == i {
          LeqReflexive(candidate);
          assert false;
        } else if q < i {
          assert false;
        } else {
          assert false;
        }
      }
    }
  }

  /** Appending the candidate restores the outer invariant for i + 1. */
  lemma EmitPreserves(data: seq<Point>, initial: seq<bool>, active: seq<bool>, results: seq<Point>,
                      i: int, candidate: Point, candidateIndex: int)
    requires Rectangular(data)
    requires OuterInvariant(data, initial, results, i) && i < |data|
    requires ScanInvariant(data, initial, active, i, |data|, candidate, candidateIndex)
    requires NonDominated(data, candidate)
    ensures OuterInvariant(data, active, results + [candidate], i + 1)
  {
    var out := results + [candidate];
    assert candidate in out && candidate in data;
    forall k | 0 <= k < |data| && (k < i + 1 || !active[k])
      ensures Covered(out, data[k])
    {
      if k == i || (initial[k] && !active[k]) {
        assert Leq(candidate, data[k]);
      } else {
        var e :| e in results && Leq(e, data[k]);
        assert e in out;
      }
    }
    forall e | e in out
      ensures e in data && NonDominated(data, e)
    {
      if e != candidate {
        assert e in results;
      }
    }
  }

  /** `if not active[i] and y not in non_dominated_results: continue`. */
  lemma OuterSkip(data: seq<Point>, active: seq<bool>, results: seq<Point>, i: int)
    requires OuterInvariant(data, active, results, i) && i < |data| && !active[i]
    ensures OuterInvariant(data, active, results, i + 1)
  {
    forall k | 0 <= k < i + 1
      ensures Covered(results, data[k])
    {
      if k == i {
        assert !active[i];
      }
    }
    assert !FirstFrontier(data, i);
    forall q, m | 0 <= q < i + 1 && q < m < |data| && FirstFrontier(data, q) && Leq(data[q], data[m])
      ensures !active[m]
    {
      assert q != i;
    }
  }

  /**
   * `naive_without_filtering`.  Every output is an input point that no input
   * strictly dominates, every input is weakly dominated by some output, and
   * at most one candidate is appended per index.
   */
  method NaiveWithoutFiltering(data: seq<Point>, counter: Counter) returns (results: seq<Point>)
    requires Rectangular(data)
    modifies counter
    ensures |results| <= |data|
    ensures forall e :: e in results ==> e in data && NonDominated(data, e)
    ensures forall k :: 0 <= k < |data| ==> Covered(results, data[k])
  {
    var n := |data|;
    var active := new bool[n](_ => true);
    results := [];
    var i := 0;
    assert OuterInvariant(data, active[..], results, i);
    while i < n
      invariant OuterInvariant(data, active[..], results, i)
    {
      if !active[i] && data[i] !in results {
        OuterSkip(data, active[..], results, i);
        i := i + 1;
        continue;
      }
      ghost var initial := active[..];
      var candidate, candidateIndex := Scan(data, active, i, results, counter);
      ScannedCandidateNonDominated(data, initial, active[..], results, i, candidate, candidateIndex);
      EmitPreserves(data, initial, active[..], results, i, candidate, candidateIndex);
      results := results + [candidate];
      i := i + 1;
    }
  }
}
