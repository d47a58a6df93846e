/** Rearranging a sequence by an index map that has an inverse keeps its elements. */
module Permutations {

  /** `p` and `q` are mutually inverse maps on the indices `0 .. |p| - 1`. */
  ghost predicate Inverse(p: seq<nat>, q: seq<nat>)
  {
    |p| == |q| &&
    (forall k :: 0 <= k < |p| ==> p[k] < |q| && q[p[k]] == k) &&
    (forall i :: 0 <= i < |q| ==> q[i] < |p| && p[q[i]] == i)
  }

  /** Position `k` of `t` holds the element at position `p[k]` of `s`. */
  ghost predicate Rearranged<T>(t: seq<T>, s: seq<T>, p: seq<nat>)
  {
    |t| == |p| && forall k :: 0 <= k < |p| ==> p[k] < |s| && t[k] == s[p[k]]
  }

  /** A rearrangement by an invertible index map is a permutation: no element is lost or duplicated. */
  lemma {:induction false} RearrangedMultiset<T>(t: seq<T>, s: seq<T>, p: seq<nat>, q: seq<nat>)
    requires Inverse(p, q) && |s| == |p| && Rearranged(t, s, p)
    ensures multiset(t) == multiset(s)
    decreases |s|
  {
    if |s| > 0 {
      var n := |s| - 1;
      var t', p', q' := SwapLast(t, s, p, q);
      RearrangedMultiset(t'[..n], s[..n], p'[..n], q'[..n]);
      assert t' == t'[..n] + [s[n]];
      assert s == s[..n] + [s[n]];
    }
  }

  /** Swapping the element `s[n]` (n the last position) to the end of `t` leaves a rearrangement
      of `s[..n]` by an invertible map in front of it. */
  lemma SwapLast<T>(t: seq<T>, s: seq<T>, p: seq<nat>, q: seq<nat>) returns (t': seq<T>, p': seq<nat>, q': seq<nat>)
    requires Inverse(p, q) && |s| == |p| > 0 && Rearranged(t, s, p)
    ensures |t'| == |p'| == |q'| == |s|
    ensures multiset(t') == multiset(t) && t'[|s| - 1] == s[|s| - 1]
    ensures Inverse(p'[..|s| - 1], q'[..|s| - 1]) && Rearranged(t'[..|s| - 1], s[..|s| - 1], p'[..|s| - 1])
  {
    var n := |s| - 1;
    var j, m := q[n], p[n];
    t' := t[j := t[n]][n := t[j]];
    p' := p[j := m][n := n];
    q' := q[m := j][n := n];
    assert j == n <==> m == n;
    forall k | 0 <= k < n
      ensures p'[k] < n && q'[p'[k]] == k && t'[k] == s[p'[k]]
    {
      if k != j {
        assert p[k] != n && p[k] != m;
      }
    }
    forall i | 0 <= i < n
      ensures q'[i] < n && p'[q'[i]] == i
    {
      if i != m {
        assert q[i] != n && q[i] != j;
      }
    }
  }
}
