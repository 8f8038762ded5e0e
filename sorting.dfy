/**
 * Python's stable sort of the indices 0..n-1 by a key
 * (`list.sort(key=...)` in app/algorithms/ideal_point.py and
 * `sorted(..., reverse=True)` in app/algorithms/uta_star.py).  A stable sort
 * is the order of the pairs (key, index); it is built here by insertion.
 */
module Sorting {
  /** `s` lists indices of keys in ascending (key, index) order. */
  ghost predicate LexSorted(keys: seq<real>, s: seq<nat>)
    requires forall t :: 0 <= t < |s| ==> s[t] < |keys|
  {
    forall a, b :: 0 <= a < b < |s| ==>
      keys[s[a]] < keys[s[b]] || (keys[s[a]] == keys[s[b]] && s[a] < s[b])
  }

  /** The indices 0..n-1 in order. */
  function Range(n: nat): (r: seq<nat>)
    ensures |r| == n && forall t :: 0 <= t < n ==> r[t] == t
  {
    seq(n, t requires 0 <= t => t as nat)
  }

  /** Inserts index k after every element whose key is not larger than keys[k]. */
  function Insert(keys: seq<real>, k: nat, s: seq<nat>): (r: seq<nat>)
    requires k < |keys| && forall t :: 0 <= t < |s| ==> s[t] < |keys|
    ensures |r| == |s| + 1 && multiset(r) == multiset(s) + multiset{k}
    ensures forall t :: 0 <= t < |r| ==> r[t] < |keys|
  {
    if |s| == 0 then [k]
    else if keys[s[0]] > keys[k] then [k] + s
    else
      var tail := Insert(keys, k, s[1..]);
      assert s == [s[0]] + s[1..];
      [s[0]] + tail
  }

  /** Insertion of a larger index keeps the (key, index) order. */
  lemma {:induction false} InsertSorted(keys: seq<real>, k: nat, s: seq<nat>)
    requires k < |keys| && forall t :: 0 <= t < |s| ==> s[t] < k
    requires LexSorted(keys, s)
    ensures LexSorted(keys, Insert(keys, k, s))
  {
    if |s| > 0 && keys[s[0]] <= keys[k] {
      var tail := Insert(keys, k, s[1..]);
      InsertSorted(keys, k, s[1..]);
      forall b | 0 <= b < |tail|
        ensures keys[s[0]] < keys[tail[b]] || (keys[s[0]] == keys[tail[b]] && s[0] < tail[b])
      {
        HeadPrecedes(keys, k, s, b);
      }
      var r := Insert(keys, k, s);
      assert r == [s[0]] + tail;
      assert forall b :: 1 <= b < |r| ==> r[b] == tail[b - 1];
    }
  }

  /** The head of s precedes every element of the insertion into its tail. */
  lemma HeadPrecedes(keys: seq<real>, k: nat, s: seq<nat>, b: nat)
    requires k < |keys| && |s| > 0 && forall t :: 0 <= t < |s| ==> s[t] < k
    requires LexSorted(keys, s) && keys[s[0]] <= keys[k]
    requires b < |s|
    ensures var tail := Insert(keys, k, s[1..]);
      keys[s[0]] < keys[tail[b]] || (keys[s[0]] == keys[tail[b]] && s[0] < tail[b])
  {
    var tail := Insert(keys, k, s[1..]);
    assert tail[b] in multiset(tail);
    assert tail[b] == k || tail[b] in multiset(s[1..]);
    if tail[b] != k {
      var t :| 0 <= t < |s[1..]| && s[1..][t] == tail[b];
      assert s[t + 1] == tail[b];
    }
  }

  /** The first m indices, sorted. */
  function SortedPrefix(keys: seq<real>, m: nat): (r: seq<nat>)
    requires m <= |keys|
    ensures |r| == m && multiset(r) == multiset(Range(m))
    ensures forall t :: 0 <= t < m ==> r[t] < m
  {
    if m == 0 then []
    else
      var prefix := SortedPrefix(keys, m - 1);
      assert Range(m) == Range(m - 1) + [m - 1];
      var r := Insert(keys, m - 1, prefix);
      assert forall t :: 0 <= t < m ==> r[t] in multiset(Range(m));
      r
  }

  /** The indices of keys in stable ascending order of their keys. */
  function SortedIndices(keys: seq<real>): (r: seq<nat>)
    ensures |r| == |keys| && multiset(r) == multiset(Range(|keys|))
    ensures forall t :: 0 <= t < |r| ==> r[t] < |keys|
  {
    SortedPrefix(keys, |keys|)
  }

  /** Keys descending, ties in ascending index order: `sorted(..., reverse=True)`. */
  function SortedIndicesDescending(keys: seq<real>): (r: seq<nat>)
    ensures |r| == |keys| && multiset(r) == multiset(Range(|keys|))
    ensures forall t :: 0 <= t < |r| ==> r[t] < |keys|
  {
    SortedIndices(seq(|keys|, t requires 0 <= t < |keys| => -keys[t]))
  }

  lemma {:induction false} SortedPrefixSorted(keys: seq<real>, m: nat)
    requires m <= |keys|
    ensures LexSorted(keys, SortedPrefix(keys, m))
  {
    if m > 0 {
      SortedPrefixSorted(keys, m - 1);
      InsertSorted(keys, m - 1, SortedPrefix(keys, m - 1));
    }
  }

  /** A permutation of 0..n-1 visits every index exactly once. */
  lemma PermutationFacts(s: seq<nat>, n: nat)
    requires |s| == n && multiset(s) == multiset(Range(n))
    ensures forall t :: 0 <= t < n ==> s[t] < n
    ensures forall k :: 0 <= k < n ==> k in s
    ensures forall a, b :: 0 <= a < b < n ==> s[a] != s[b]
  {
    forall t | 0 <= t < n
      ensures s[t] < n
    {
      assert s[t] in multiset(Range(n));
    }
    forall k | 0 <= k < n
      ensures k in s
    {
      assert Range(n)[k] == k;
      assert k in multiset(Range(n));
    }
    forall a, b | 0 <= a < b < n
      ensures s[a] != s[b]
    {
      if s[a] == s[b] {
        var x := s[a];
        assert multiset(s)[x] >= 2 by {
          assert s == s[..a] + [s[a]] + s[a + 1..b] + [s[b]] + s[b + 1..];
        }
        RangeOnce(n, x);
        assert false;
      }
    }
  }

  lemma {:induction false} RangeOnce(n: nat, x: nat)
    ensures multiset(Range(n))[x] <= 1
  {
    if n > 0 {
      assert Range(n) == Range(n - 1) + [n - 1];
      RangeOnce(n - 1, x);
      if x == n - 1 {
        var r := Range(n - 1);
        assert forall t :: 0 <= t < n - 1 ==> r[t] != x;
        assert x !in multiset(r);
      }
    }
  }

  /**
   * The stable ascending sort: a permutation of 0..n-1, keys non-decreasing
   * along it, and equal keys in ascending index order.
   */
  lemma SortedIndicesCorrect(keys: seq<real>)
    ensures forall k :: 0 <= k < |keys| ==> k in SortedIndices(keys)
    ensures forall a, b :: 0 <= a < b < |keys| ==> SortedIndices(keys)[a] != SortedIndices(keys)[b]
    ensures forall a, b :: 0 <= a < b < |keys| ==>
      keys[SortedIndices(keys)[a]] < keys[SortedIndices(keys)[b]] ||
      (keys[SortedIndices(keys)[a]] == keys[SortedIndices(keys)[b]] && SortedIndices(keys)[a] < SortedIndices(keys)[b])
  {
    PermutationFacts(SortedIndices(keys), |keys|);
    SortedPrefixSorted(keys, |keys|);
  }

  /**
   * The stable descending sort: a permutation of 0..n-1, keys non-increasing
   * along it, and equal keys in ascending index order.
   */
  lemma SortedIndicesDescendingCorrect(keys: seq<real>)
    ensures forall k :: 0 <= k < |keys| ==> k in SortedIndicesDescending(keys)
    ensures forall a, b :: 0 <= a < b < |keys| ==> SortedIndicesDescending(keys)[a] != SortedIndicesDescending(keys)[b]
    ensures forall a, b :: 0 <= a < b < |keys| ==>
      keys[SortedIndicesDescending(keys)[a]] > keys[SortedIndicesDescending(keys)[b]] ||
      (keys[SortedIndicesDescending(keys)[a]] == keys[SortedIndicesDescending(keys)[b]] &&
       SortedIndicesDescending(keys)[a] < SortedIndicesDescending(keys)[b])
  {
    var neg := seq(|keys|, t requires 0 <= t < |keys| => -keys[t]);
    SortedIndicesCorrect(neg);
  }
}
