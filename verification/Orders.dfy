/** Strict total orders, the lexicographic order they induce on sequences, and the
    one sorted arrangement of a collection. */
module Orders {

  ghost predicate StrictTotal<T(!new)>(less: (T, T) -> bool) {
    && (forall x :: !less(x, x))
    && (forall x, y, z :: less(x, y) && less(y, z) ==> less(x, z))
    && (forall x, y :: x == y || less(x, y) || less(y, x))
  }

  predicate LexLess<T(==)>(less: (T, T) -> bool, a: seq<T>, b: seq<T>) {
    b != [] && (a == [] || less(a[0], b[0]) || (a[0] == b[0] && LexLess(less, a[1..], b[1..])))
  }

  lemma {:induction false} LexIrreflexive<T(!new)>(less: (T, T) -> bool, a: seq<T>)
    requires StrictTotal(less)
    ensures !LexLess(less, a, a)
  {
    if a != [] {
      LexIrreflexive(less, a[1..]);
    }
  }

  lemma {:induction false} LexTransitive<T(!new)>(less: (T, T) -> bool, a: seq<T>, b: seq<T>, c: seq<T>)
    requires StrictTotal(less) && LexLess(less, a, b) && LexLess(less, b, c)
    ensures LexLess(less, a, c)
  {
    if a != [] && a[0] == b[0] && b[0] == c[0] && !less(a[0], b[0]) && !less(b[0], c[0]) {
      LexTransitive(less, a[1..], b[1..], c[1..]);
    }
  }

  lemma {:induction false} LexConnected<T(!new)>(less: (T, T) -> bool, a: seq<T>, b: seq<T>)
    requires StrictTotal(less)
    ensures a == b || LexLess(less, a, b) || LexLess(less, b, a)
  {
    if a != [] && b != [] && a[0] == b[0] {
      LexConnected(less, a[1..], b[1..]);
      assert a == [a[0]] + a[1..] && b == [b[0]] + b[1..];
    }
  }

  lemma LexStrictTotal<T(!new)>(less: (T, T) -> bool)
    requires StrictTotal(less)
    ensures StrictTotal((a: seq<T>, b: seq<T>) => LexLess(less, a, b))
  {
    forall a: seq<T> ensures !LexLess(less, a, a) {
      LexIrreflexive(less, a);
    }
    forall a: seq<T>, b: seq<T>, c: seq<T> | LexLess(less, a, b) && LexLess(less, b, c)
      ensures LexLess(less, a, c)
    {
      LexTransitive(less, a, b, c);
    }
    forall a: seq<T>, b: seq<T> ensures a == b || LexLess(less, a, b) || LexLess(less, b, a) {
      LexConnected(less, a, b);
    }
  }

  /** For words of one length the last letters decide only between equal heads. */
  lemma {:induction false} LexSnoc<T(!new)>(less: (T, T) -> bool, a: seq<T>, b: seq<T>)
    requires StrictTotal(less) && |a| == |b| > 0
    ensures var m := |a| - 1;
            LexLess(less, a, b) <==> LexLess(less, a[..m], b[..m]) || (a[..m] == b[..m] && less(a[m], b[m]))
    decreases |a|
  {
    var m := |a| - 1;
    if m > 0 {
      assert a[..m][0] == a[0] && b[..m][0] == b[0];
      assert a[..m][1..] == a[1..][..m - 1] && b[..m][1..] == b[1..][..m - 1];
      if a[0] == b[0] {
        LexSnoc(less, a[1..], b[1..]);
        assert a[..m] == [a[0]] + a[..m][1..] && b[..m] == [b[0]] + b[..m][1..];
      }
    } else {
      assert a[1..] == [] && b[1..] == [];
    }
  }

  /** What `std::sort` leaves behind: no element is less than an earlier one. */
  predicate SortedBy<T>(less: (T, T) -> bool, s: seq<T>) {
    forall i, j :: 0 <= i < j < |s| ==> !less(s[j], s[i])
  }

  lemma SortedFirst<T(!new)>(less: (T, T) -> bool, a: seq<T>, b: seq<T>)
    requires StrictTotal(less) && a != [] && b != []
    requires SortedBy(less, a) && SortedBy(less, b)
    requires a[0] in b && b[0] in a
    ensures a[0] == b[0]
  {
    var i :| 0 <= i < |a| && a[i] == b[0];
    var j :| 0 <= j < |b| && b[j] == a[0];
    assert i > 0 ==> !less(a[i], a[0]);
    assert j > 0 ==> !less(b[j], b[0]);
  }

  lemma SortedRest<T>(less: (T, T) -> bool, a: seq<T>)
    requires SortedBy(less, a) && a != []
    ensures SortedBy(less, a[1..]) && multiset(a) == multiset{a[0]} + multiset(a[1..])
  {
    assert a == [a[0]] + a[1..];
  }

  lemma SameSize<T>(a: seq<T>, b: seq<T>)
    requires multiset(a) == multiset(b)
    ensures |a| == |b|
  {
    assert |a| == |multiset(a)| == |multiset(b)| == |b|;
  }

  lemma SameHeads<T>(a: seq<T>, b: seq<T>)
    requires multiset(a) == multiset(b) && a != [] && b != []
    ensures a[0] in b && b[0] in a
  {
    assert a[0] in multiset(b) && b[0] in multiset(a);
  }

  lemma SameRest<T>(a: seq<T>, b: seq<T>)
    requires multiset(a) == multiset(b) && a != [] && b != [] && a[0] == b[0]
    ensures multiset(a[1..]) == multiset(b[1..])
  {
    assert a == [a[0]] + a[1..] && b == [b[0]] + b[1..];
    assert multiset(a[1..]) == multiset(a) - multiset{a[0]};
  }

  /** Under a strict total order a collection has one sorted arrangement, so the
      result of sorting does not depend on the order the items came in. */
  lemma {:induction false} SortedOnce<T(!new)>(less: (T, T) -> bool, a: seq<T>, b: seq<T>)
    requires StrictTotal(less)
    requires SortedBy(less, a) && SortedBy(less, b)
    requires multiset(a) == multiset(b)
    ensures a == b
  {
    hide *;
    SameSize(a, b);
    if a != [] {
      SameHeads(a, b);
      SortedFirst(less, a, b);
      SortedRest(less, a);
      SortedRest(less, b);
      SameRest(a, b);
      SortedOnce(less, a[1..], b[1..]);
      assert a == [a[0]] + a[1..] && b == [b[0]] + b[1..];
    }
  }
}
