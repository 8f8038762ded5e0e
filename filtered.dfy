/**
 * `naive_with_filtering` (app/algorithms/filtered.py): the naive nested
 * scan, followed after every emission by a sweep that deactivates every
 * active point the emitted candidate weakly dominates, and an early stop
 * when exactly one point is left active.
 */
module Filtered {
  import opened Points
  import opened Dominance

  /** `sum(active)`: the number of True entries. */
  function CountTrue(s: seq<bool>): (c: nat)
    ensures c <= |s|
  {
    if s == [] then 0 else (if s[0] then 1 else 0) + CountTrue(s[1..])
  }

  /** `argmax(active)`: the first True entry, or 0 when there is none. */
  function ArgMax(s: seq<bool>): (k: nat)
    requires |s| > 0
    ensures k < |s|
    ensures (exists j :: 0 <= j < |s| && s[j]) ==> s[k] && forall j :: 0 <= j < k ==> !s[j]
  {
    if s[0] || |s| == 1 then 0
    else
      var k := ArgMax(s[1..]);
      if s[1..][k] then k + 1 else 0
  }

  /** Two distinct True entries make the count at least two. */
  lemma {:induction false} TwoTrue(s: seq<bool>, a: int, b: int)
    requires 0 <= a < b < |s| && s[a] && s[b]
    ensures CountTrue(s) >= 2
  {
    if a == 0 {
      OneTrue(s[1..], b - 1);
    } else {
      TwoTrue(s[1..], a - 1, b - 1);
    }
  }

  lemma {:induction false} OneTrue(s: seq<bool>, a: int)
    requires 0 <= a < |s| && s[a]
    ensures CountTrue(s) >= 1
  {
    if a > 0 {
      OneTrue(s[1..], a - 1);
    }
  }

  /** When exactly one entry is True, `argmax` finds it and every other entry is False. */
  lemma SoleTrue(s: seq<bool>)
    requires CountTrue(s) == 1
    ensures |s| > 0 && s[ArgMax(s)]
    ensures forall j :: 0 <= j < |s| && j != ArgMax(s) ==> !s[j]
  {
    if forall j :: 0 <= j < |s| ==> !s[j] {
      NoTrue(s);
    }
    var a :| 0 <= a < |s| && s[a];
    var k := ArgMax(s);
    forall j | 0 <= j < |s| && j != k
      ensures !s[j]
    {
      if s[j] {
        if j < k { TwoTrue(s, j, k); } else { TwoTrue(s, k, j); }
      }
    }
  }

  lemma {:induction false} NoTrue(s: seq<bool>)
    requires forall j :: 0 <= j < |s| ==> !s[j]
    ensures CountTrue(s) == 0
  {
    if s != [] {
      NoTrue(s[1..]);
    }
  }

  /** The state the outer loop keeps between iterations. */
  ghost predicate OuterInvariant(data: seq<Point>, active: seq<bool>, results: seq<Point>, i: int) {
    && |active| == |data| && 0 <= i <= |data|
    && (forall k :: 0 <= k < i ==> !active[k])
    && (forall k :: 0 <= k < |data| && active[k] ==> !Covered(results, data[k]))
    && (forall k :: 0 <= k < |data| && !active[k] ==> Covered(results, data[k]))
    && (forall e :: e in results ==> e in data && NonDominated(data, e))
    && Pairwise(results)
  }

  /** The state of the inner loop of iteration i before step j; `initial` is `active` before the loop. */
  ghost predicate ScanInvariant(data: seq<Point>, initial: seq<bool>, active: seq<bool>, results: seq<Point>,
                                i: int, j: int, candidate: Point, candidateIndex: int)
  {
    && |initial| == |active| == |data| && 0 <= i < j <= |data|
    && i <= candidateIndex < j && candidate == data[candidateIndex] && active[candidateIndex]
    && (active[i] ==> candidateIndex == i)
    && Leq(candidate, data[i])
    && (forall k :: 0 <= k < |data| && active[k] ==> initial[k])
    && (forall k :: 0 <= k < i ==> !active[k])
    && (forall k :: 0 <= k < |data| && active[k] ==> !Covered(results, data[k]))
    && (forall k :: 0 <= k < |data| && !active[k] ==> Covered(results, data[k]) || Leq(candidate, data[k]))
    && (forall q :: i < q < j && active[q] ==> !StrictlyDominates(data[q], candidate))
  }

  /** `if candidate <= x: active[j] = False` keeps the scan's invariant. */
  lemma ScanDeactivate(data: seq<Point>, initial: seq<bool>, active: seq<bool>, results: seq<Point>,
                       i: int, j: int, candidate: Point, candidateIndex: int)
    requires ScanInvariant(data, initial, active, results, i, j, candidate, candidateIndex)
    requires j < |data| && active[j] && Leq(candidate, data[j])
    ensures ScanInvariant(data, initial, active[j := false], results, i, j + 1, candidate, candidateIndex)
  {
  }

  /** A j that is inactive, or incomparable with the candidate, leaves everything as it is. */
  lemma ScanPass(data: seq<Point>, initial: seq<bool>, active: seq<bool>, results: seq<Point>,
                 i: int, j: int, candidate: Point, candidateIndex: int)
    requires ScanInvariant(data, initial, active, results, i, j, candidate, candidateIndex)
    requires j < |data| && (active[j] ==> !Leq(candidate, data[j]) && !Leq(data[j], candidate))
    ensures ScanInvariant(data, initial, active, results, i, j + 1, candidate, candidateIndex)
  {
  }

  /**
   * `elif x <= candidate`: x strictly dominates the candidate; i and the old
   * candidate's index are deactivated and x becomes the candidate.
   */
  lemma ScanReplace(data: seq<Point>, initial: seq<bool>, active: seq<bool>, results: seq<Point>,
                    i: int, j: int, candidate: Point, candidateIndex: int)
    requires ScanInvariant(data, initial, active, results, i, j, candidate, candidateIndex)
    requires j < |data| && active[j] && !Leq(candidate, data[j]) && Leq(data[j], candidate)
    ensures ScanInvariant(data, initial, active[i := false][candidateIndex := false], results, i, j + 1, data[j], j)
  {
    var next := active[i := false][candidateIndex := false];
    LeqTransitive(data[j], candidate, data[i]);
    forall k | 0 <= k < |data| && !next[k] && !Covered(results, data[k])
      ensures Leq(data[j], data[k])
    {
      if k != i && k != candidateIndex {
        LeqTransitive(data[j], candidate, data[k]);
      }
    }
    forall q | i < q < j + 1 && next[q]
      ensures !StrictlyDominates(data[q], data[j])
    {
      if q < j {
        NotStrictlyDominatedDown(data[q], candidate, data[j]);
      }
    }
  }

  /**
   * The inner loop of one outer iteration i, from `candidate = y` to the end of
   * `for j, x in enumerate(data[i + 1 :], i + 1)`.  A later point is deactivated
   * only when the candidate weakly dominates it; the candidate is replaced only
   * by a point that strictly dominates it, and then i and the old candidate's
   * index are deactivated.
   */
  method Scan(data: seq<Point>, active: array<bool>, i: int, results: seq<Point>, counter: Counter)
    returns (candidate: Point, candidateIndex: int)
    requires Rectangular(data) && active.Length == |data|
    requires OuterInvariant(data, active[..], results, i) && i < |data| && active[i]
    modifies active, counter
    ensures ScanInvariant(data, old(active[..]), active[..], results, i, |data|, candidate, candidateIndex)
  {
    var n := |data|;
    candidate := data[i];
    candidateIndex := i;
    LeqReflexive(candidate);
    var j := i + 1;
    while j < n
      invariant ScanInvariant(data, old(active[..]), active[..], results, i, j, candidate, candidateIndex)
    {
      ghost var before := active[..];
      if active[j] {
        var le := counter.Le(candidate, data[j]);
        if le {
          ScanDeactivate(data, old(active[..]), before, results, i, j, candidate, candidateIndex);
          active[j] := false;
        } else {
          var ge := counter.Le(data[j], candidate);
          if ge {
            ScanReplace(data, old(active[..]), before, results, i, j, candidate, candidateIndex);
            active[i] := false;
            active[candidateIndex] := false;
            candidateIndex := j;
            candidate := data[j];
          } else {
            ScanPass(data, old(active[..]), before, results, i, j, candidate, candidateIndex);
          }
        }
      } else {
        ScanPass(data, old(active[..]), before, results, i, j, candidate, candidateIndex);
      }
      j := j + 1;
    }
  }

  /** After the scan, no input point strictly dominates the candidate. */
  lemma ScannedCandidateNonDominated(data: seq<Point>, initial: seq<bool>, active: seq<bool>, i: int,
                                     results: seq<Point>, candidate: Point, candidateIndex: int)
    requires ScanInvariant(data, initial, active, results, i, |data|, candidate, candidateIndex)
    ensures NonDominated(data, candidate)
  {
    forall q | q in data
      ensures !StrictlyDominates(q, candidate)
    {
      var r :| 0 <= r < |data| && data[r] == q;
      if r == i {
        LeqReflexive(candidate);
      } else if !active[r] && Covered(results, data[r]) {
        var e :| e in results && Leq(e, data[r]);
        if Leq(q, candidate) {
          LeqTransitive(e, data[r], candidate);
          assert false;
        }
      }
    }
  }

  /**
   * `for i, x in enumerate(data): if active[i] and candidate <= x: active[i] = False`:
   * exactly the active points the candidate weakly dominates are deactivated.
   */
  method Sweep(data: seq<Point>, active: array<bool>, candidate: Point, counter: Counter)
    requires Rectangular(data) && active.Length == |data| && candidate in data
    modifies active, counter
    ensures forall m :: 0 <= m < |data| ==> active[m] == (old(active[m]) && !Leq(candidate, data[m]))
  {
    var k := 0;
    while k < |data|
      invariant 0 <= k <= |data|
      invariant forall m :: 0 <= m < k ==> active[m] == (old(active[m]) && !Leq(candidate, data[m]))
      invariant forall m :: k <= m < |data| ==> active[m] == old(active[m])
    {
      if active[k] {
        var le := counter.Le(candidate, data[k]);
        if le {
          active[k] := false;
        }
      }
      k := k + 1;
    }
  }

  /** Emitting the scanned candidate and sweeping restores the outer invariant for i + 1. */
  lemma EmitPreserves(data: seq<Point>, initial: seq<bool>, scanned: seq<bool>, swept: seq<bool>, i: int,
                      results: seq<Point>, candidate: Point, candidateIndex: int)
    requires ScanInvariant(data, initial, scanned, results, i, |data|, candidate, candidateIndex)
    requires forall e :: e in results ==> e in data && NonDominated(data, e)
    requires Pairwise(results)
    requires NonDominated(data, candidate)
    requires |swept| == |data|
    requires forall m :: 0 <= m < |data| ==> swept[m] == (scanned[m] && !Leq(candidate, data[m]))
    ensures OuterInvariant(data, swept, results + [candidate], i + 1)
  {
    var out := results + [candidate];
    LeqReflexive(candidate);
    forall m | 0 <= m < |data| && !swept[m]
      ensures Covered(out, data[m])
    {
      if Covered(results, data[m]) {
        var e :| e in results && Leq(e, data[m]);
        assert e in out;
      } else {
        assert candidate in out;
      }
    }
    forall m | 0 <= m < |data| && swept[m]
      ensures !Covered(out, data[m])
    {
      forall e | e in out
        ensures !Leq(e, data[m])
      {
        if e != candidate {
          assert e in results;
        }
      }
    }
    forall a, b | 0 <= a < b < |out|
      ensures !Leq(out[a], out[b])
    {
      if b == |results| {
        assert out[a] in results;
      }
    }
  }

  /** An inactive i is skipped (`continue`). */
  lemma OuterSkip(data: seq<Point>, active: seq<bool>, results: seq<Point>, i: int)
    requires OuterInvariant(data, active, results, i) && i < |data| && !active[i]
    ensures OuterInvariant(data, active, results, i + 1)
  {
  }

  /** The early stop: the single point left active joins the output and the result is final. */
  lemma LastActivePreserves(data: seq<Point>, active: seq<bool>, results: seq<Point>, r: int)
    requires Rectangular(data) && |active| == |data| && 0 <= r < |data| && active[r]
    requires forall m :: 0 <= m < |data| && m != r ==> !active[m]
    requires forall k :: 0 <= k < |data| && active[k] ==> !Covered(results, data[k])
    requires forall k :: 0 <= k < |data| && !active[k] ==> Covered(results, data[k])
    requires forall e :: e in results ==> e in data && NonDominated(data, e)
    requires Pairwise(results)
    ensures forall e :: e in results + [data[r]] ==> e in data && NonDominated(data, e)
    ensures forall k :: 0 <= k < |data| ==> Covered(results + [data[r]], data[k])
    ensures Pairwise(results + [data[r]])
  {
    var out := results + [data[r]];
    forall s | 0 <= s < |data|
      ensures !StrictlyDominates(data[s], data[r])
    {
      if s == r {
        LeqReflexive(data[r]);
      } else {
        assert !active[s] && Covered(results, data[s]);
        var e :| e in results && Leq(e, data[s]);
        assert !Leq(e, data[r]);
        NotLeqThrough(e, data[s], data[r]);
      }
    }
    forall m | 0 <= m < |data|
      ensures Covered(out, data[m])
    {
      if m == r {
        LeqReflexive(data[r]);
        assert data[r] in out;
      } else {
        assert !active[m] && Covered(results, data[m]);
        var e :| e in results && Leq(e, data[m]);
        assert e in out;
      }
    }
    forall a, b | 0 <= a < b < |out|
      ensures !Leq(out[a], out[b])
    {
      if b == |results| {
        assert out[a] in results;
      }
    }
  }

  /**
   * `naive_with_filtering`.  The result is exactly the frontier: every
   * output is an input point no input strictly dominates, every input is
   * weakly dominated by some output, and no output weakly dominates a
   * later one (so no value is emitted twice).
   */
  method NaiveWithFiltering(data: seq<Point>, counter: Counter) returns (results: seq<Point>)
    requires Rectangular(data)
    modifies counter
    ensures forall e :: e in results ==> e in data && NonDominated(data, e)
    ensures forall k :: 0 <= k < |data| ==> Covered(results, data[k])
    ensures Pairwise(results)
  {
    var n := |data|;
    var active := new bool[n](_ => true);
    results := [];
    var i := 0;
    assert OuterInvariant(data, active[..], results, i);
    while i < n
      invariant OuterInvariant(data, active[..], results, i)
    {
      if !active[i] {
        OuterSkip(data, active[..], results, i);
        i := i + 1;
        continue;
      }
      ghost var initial := active[..];
      var candidate, candidateIndex := Scan(data, active, i, results, counter);
      ghost var scanned := active[..];
      ScannedCandidateNonDominated(data, initial, scanned, i, results, candidate, candidateIndex);
      Sweep(data, active, candidate, counter);
      EmitPreserves(data, initial, scanned, active[..], i, results, candidate, candidateIndex);
      results := results + [candidate];
      if CountTrue(active[..]) == 1 {
        SoleTrue(active[..]);
        var r := ArgMax(active[..]);
        LastActivePreserves(data, active[..], results, r);
        results := results + [data[r]];
        return;
      }
      i := i + 1;
    }
  }
}
