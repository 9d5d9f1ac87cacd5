/** Small facts about sets and sequences that several modules need. */
module Collections {

  lemma SubsetSize<T>(a: set<T>, b: set<T>)
    requires a <= b
    ensures |a| <= |b|
  {
    assert b == a + (b - a);
  }

  lemma CountInserted<T>(s: seq<T>, x: T, k: nat)
    requires k <= |s|
    ensures multiset(s[..k] + [x] + s[k..]) == multiset(s) + multiset{x}
  {
    assert s == s[..k] + s[k..];
  }

  lemma SliceOfSlice<T>(s: seq<T>, base: nat, n: nat, lo: nat, hi: nat)
    requires lo <= hi <= n && base + n <= |s|
    ensures s[base..base + n][lo..hi] == s[base + lo..base + hi]
  {
    var left, right := s[base..base + n][lo..hi], s[base + lo..base + hi];
    forall i | 0 <= i < hi - lo ensures left[i] == right[i] {
      assert s[base..base + n][lo + i] == s[base + (lo + i)];
    }
  }

  /** The part stands in the sequence at a position. */
  predicate At<T(==)>(s: seq<T>, pos: nat, part: seq<T>) {
    pos + |part| <= |s| && s[pos..pos + |part|] == part
  }

  lemma AtSplit<T>(s: seq<T>, pos: nat, a: seq<T>, b: seq<T>)
    requires At(s, pos, a + b)
    ensures At(s, pos, a) && At(s, pos + |a|, b)
  {
    assert s[pos..pos + |a|] == (a + b)[..|a|];
    assert s[pos + |a|..pos + |a| + |b|] == (a + b)[|a|..];
  }

  function UpTo(n: nat): (s: set<nat>)
    ensures |s| == n && forall x: nat :: x in s <==> x < n
  {
    if n == 0 then {} else UpTo(n - 1) + {n - 1}
  }

  /** More places than numbers to put there. */
  lemma Pigeonhole(places: seq<nat>, n: nat) returns (i: nat, j: nat)
    requires n < |places| && forall k :: 0 <= k < |places| ==> places[k] < n
    ensures i < j < |places| && places[i] == places[j]
  {
    var seen: set<nat> := {};
    j := 0;
    while true
      invariant j <= |places| && |seen| == j && forall x :: x in seen <==> x in places[..j]
      decreases |places| - j
    {
      if j == |places| {
        SubsetSize(seen, UpTo(n));
        assert false;
      }
      if places[j] in seen {
        i :| 0 <= i < j && places[..j][i] == places[j];
        return;
      }
      assert places[..j + 1] == places[..j] + [places[j]];
      seen := seen + {places[j]};
      j := j + 1;
    }
  }
}
