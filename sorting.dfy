/** Python's `list.sort(key=...)` and numpy's `np.sort`: a stable sort that orders
    elements by ascending key, keeping elements of equal key in input order. */
module Sorting {

  /** The key never decreases along `s`. */
  ghost predicate SortedBy<T>(s: seq<T>, key: T -> real) {
    forall i, j :: 0 <= i < j < |s| ==> key(s[i]) <= key(s[j])
  }

  /** The elements of `s` whose key is `v`, in their order in `s`. */
  function WithKey<T>(s: seq<T>, key: T -> real, v: real): (r: seq<T>)
    ensures |r| <= |s|
    ensures forall i :: 0 <= i < |r| ==> key(r[i]) == v
  {
    if s == [] then []
    else if key(s[0]) == v then [s[0]] + WithKey(s[1..], key, v)
    else WithKey(s[1..], key, v)
  }

  /** Places `x` in front of the first element of `t` whose key is at least x's. */
  function Insert<T>(x: T, t: seq<T>, key: T -> real): seq<T>
  {
    if t == [] || key(x) <= key(t[0]) then [x] + t
    else [t[0]] + Insert(x, t[1..], key)
  }

  /** Stable insertion sort by ascending key. */
  function SortBy<T>(s: seq<T>, key: T -> real): seq<T>
  {
    if s == [] then [] else Insert(s[0], SortBy(s[1..], key), key)
  }

  /** The key used for sorting plain numbers by value (`np.sort`). */
  function Identity(x: real): real { x }

  lemma {:induction false} InsertPermutes<T>(x: T, t: seq<T>, key: T -> real)
    ensures multiset(Insert(x, t, key)) == multiset(t) + multiset{x}
    ensures |Insert(x, t, key)| == |t| + 1
  {
    if t != [] && key(x) > key(t[0]) {
      InsertPermutes(x, t[1..], key);
      assert t == [t[0]] + t[1..];
    }
  }

  /** Inserting an element no smaller than `lo` into elements no smaller than
      `lo` yields elements no smaller than `lo`. */
  lemma {:induction false} InsertLowerBound<T>(x: T, t: seq<T>, key: T -> real, lo: real)
    requires lo <= key(x) && forall i :: 0 <= i < |t| ==> lo <= key(t[i])
    ensures forall i :: 0 <= i < |Insert(x, t, key)| ==> lo <= key(Insert(x, t, key)[i])
  {
    if t != [] && key(x) > key(t[0]) {
      InsertLowerBound(x, t[1..], key, lo);
    }
  }

  lemma {:induction false} InsertSorted<T>(x: T, t: seq<T>, key: T -> real)
    requires SortedBy(t, key)
    ensures SortedBy(Insert(x, t, key), key)
  {
    if t != [] && key(x) > key(t[0]) {
      SortedByTail(t, key);
      InsertSorted(x, t[1..], key);
      var r := Insert(x, t[1..], key);
      InsertLowerBound(x, t[1..], key, key(t[0]));
      var u := [t[0]] + r;
      forall i, j | 0 <= i < j < |u| ensures key(u[i]) <= key(u[j]) {
        assert u[j] == r[j - 1];
        if i > 0 {
          assert u[i] == r[i - 1];
        }
      }
    }
  }

  lemma InsertFacts<T>(x: T, t: seq<T>, key: T -> real)
    requires SortedBy(t, key)
    ensures SortedBy(Insert(x, t, key), key)
    ensures multiset(Insert(x, t, key)) == multiset(t) + multiset{x}
    ensures |Insert(x, t, key)| == |t| + 1
  {
    InsertPermutes(x, t, key);
    InsertSorted(x, t, key);
  }

  lemma {:induction false} SortByOrders<T>(s: seq<T>, key: T -> real)
    ensures SortedBy(SortBy(s, key), key)
  {
    if s != [] {
      SortByOrders(s[1..], key);
      InsertSorted(s[0], SortBy(s[1..], key), key);
    }
  }

  lemma {:induction false} SortByPermutes<T>(s: seq<T>, key: T -> real)
    ensures multiset(SortBy(s, key)) == multiset(s)
    ensures |SortBy(s, key)| == |s|
  {
    if s != [] {
      SortByPermutes(s[1..], key);
      InsertPermutes(s[0], SortBy(s[1..], key), key);
      assert s == [s[0]] + s[1..];
    }
  }

  /** The sort orders by key and permutes its input. */
  lemma SortByFacts<T>(s: seq<T>, key: T -> real)
    ensures SortedBy(SortBy(s, key), key)
    ensures multiset(SortBy(s, key)) == multiset(s)
    ensures |SortBy(s, key)| == |s|
  {
    SortByOrders(s, key);
    SortByPermutes(s, key);
  }

  lemma {:induction false} InsertWithKey<T>(x: T, t: seq<T>, key: T -> real, v: real)
    requires SortedBy(t, key)
    ensures WithKey(Insert(x, t, key), key, v) ==
            if key(x) == v then [x] + WithKey(t, key, v) else WithKey(t, key, v)
  {
    if t != [] && key(x) > key(t[0]) {
      InsertWithKey(x, t[1..], key, v);
      if key(x) == v {
        assert key(t[0]) != v;
      }
    }
  }

  /** Stability: among elements of one key, the sort keeps input order. */
  lemma {:induction false} SortByStable<T>(s: seq<T>, key: T -> real, v: real)
    ensures WithKey(SortBy(s, key), key, v) == WithKey(s, key, v)
  {
    if s != [] {
      SortByStable(s[1..], key, v);
      SortByFacts(s[1..], key);
      InsertWithKey(s[0], SortBy(s[1..], key), key, v);
    }
  }

  /** Sorting a sequence that is already in key order changes nothing. */
  lemma {:induction false} SortBySorted<T>(s: seq<T>, key: T -> real)
    requires SortedBy(s, key)
    ensures SortBy(s, key) == s
  {
    if s != [] {
      SortBySorted(s[1..], key);
      assert s == [s[0]] + s[1..];
    }
  }

  /** Equal keys keep their relative order: a relation that holds between every
      earlier and later element of equal key in the input holds in the output. */
  lemma {:induction false} SortByKeepsTies<T>(s: seq<T>, key: T -> real, before: (T, T) -> bool)
    requires TiesOrdered(s, key, before)
    ensures TiesOrdered(SortBy(s, key), key, before)
  {
    if s != [] {
      var t := SortBy(s[1..], key);
      TiesTail(s, key, before);
      SortByKeepsTies(s[1..], key, before);
      SortByFacts(s[1..], key);
      forall y | y in t && key(y) == key(s[0]) ensures before(s[0], y) {
        assert y in multiset(s[1..]);
        var j :| 0 <= j < |s[1..]| && s[1..][j] == y;
        assert s[j + 1] == y;
      }
      InsertKeepsTies(s[0], t, key, before);
    }
  }

  /** `before` holds between every earlier and later element of equal key. */
  ghost predicate TiesOrdered<T>(s: seq<T>, key: T -> real, before: (T, T) -> bool) {
    forall i, j :: 0 <= i < j < |s| && key(s[i]) == key(s[j]) ==> before(s[i], s[j])
  }

  lemma TiesCons<T>(y: T, u: seq<T>, key: T -> real, before: (T, T) -> bool)
    requires TiesOrdered(u, key, before)
    requires forall z :: z in u && key(z) == key(y) ==> before(y, z)
    ensures TiesOrdered([y] + u, key, before)
  {
    var r := [y] + u;
    forall i, j | 0 <= i < j < |r| && key(r[i]) == key(r[j]) ensures before(r[i], r[j]) {
      assert r[j] == u[j - 1];
      if i > 0 {
        assert r[i] == u[i - 1];
      }
    }
  }

  lemma {:induction false} InsertKeepsTies<T>(x: T, t: seq<T>, key: T -> real, before: (T, T) -> bool)
    requires SortedBy(t, key) && TiesOrdered(t, key, before)
    requires forall y :: y in t && key(y) == key(x) ==> before(x, y)
    ensures TiesOrdered(Insert(x, t, key), key, before)
  {
    if t == [] || key(x) <= key(t[0]) {
      TiesCons(x, t, key, before);
    } else {
      SortedByTail(t, key);
      TiesTail(t, key, before);
      InsertKeepsTies(x, t[1..], key, before);
      InsertElements(x, t[1..], key);
      var u := Insert(x, t[1..], key);
      forall z | z in u && key(z) == key(t[0]) ensures before(t[0], z) {
        var j :| 0 <= j < |u| && u[j] == z;
        if z != x {
          var k :| 0 <= k < |t[1..]| && t[1..][k] == z;
          assert t[k + 1] == z;
        }
      }
      TiesCons(t[0], u, key, before);
    }
  }

  /** Every element of an insertion is the inserted one or an element of `t`. */
  lemma {:induction false} InsertElements<T>(x: T, t: seq<T>, key: T -> real)
    ensures |Insert(x, t, key)| == |t| + 1
    ensures forall i :: 0 <= i < |Insert(x, t, key)| ==> Insert(x, t, key)[i] == x || Insert(x, t, key)[i] in t
  {
    if t != [] && key(x) > key(t[0]) {
      InsertElements(x, t[1..], key);
      var u := Insert(x, t[1..], key);
      forall i | 0 < i < |u| + 1 ensures ([t[0]] + u)[i] == x || ([t[0]] + u)[i] in t {
        assert ([t[0]] + u)[i] == u[i - 1];
      }
    }
  }

  lemma TiesTail<T>(t: seq<T>, key: T -> real, before: (T, T) -> bool)
    requires t != [] && TiesOrdered(t, key, before)
    ensures TiesOrdered(t[1..], key, before)
  {
    forall i, j | 0 <= i < j < |t[1..]| && key(t[1..][i]) == key(t[1..][j]) ensures before(t[1..][i], t[1..][j]) {
      assert t[1..][i] == t[i + 1] && t[1..][j] == t[j + 1];
    }
  }

  /** The first element of a sequence sorted by value is its least element. */
  lemma SortedHeadIsLeast(a: seq<real>, y: real)
    requires SortedBy(a, Identity) && y in a
    ensures a[0] <= y
  {
    var i :| 0 <= i < |a| && a[i] == y;
    if i > 0 {
      assert Identity(a[0]) <= Identity(a[i]);
    }
  }

  lemma SortedByTail<T>(s: seq<T>, key: T -> real)
    requires s != [] && SortedBy(s, key)
    ensures SortedBy(s[1..], key)
  {
    forall i, j | 0 <= i < j < |s[1..]| ensures key(s[1..][i]) <= key(s[1..][j]) {
      assert s[1..][i] == s[i + 1] && s[1..][j] == s[j + 1];
    }
  }

  lemma MultisetTail<T>(a: seq<T>, b: seq<T>)
    requires a != [] && b != [] && a[0] == b[0] && multiset(a) == multiset(b)
    ensures multiset(a[1..]) == multiset(b[1..])
  {
    assert a == [a[0]] + a[1..] && b == [b[0]] + b[1..];
    assert multiset(a[1..]) == multiset(a) - multiset{a[0]};
    assert multiset(b[1..]) == multiset(b) - multiset{b[0]};
  }

  /** Two number sequences sorted by value with the same elements are equal. */
  lemma {:induction false} SortedUnique(a: seq<real>, b: seq<real>)
    requires SortedBy(a, Identity) && SortedBy(b, Identity)
    requires multiset(a) == multiset(b)
    ensures a == b
  {
    assert |a| == |b| by {
      assert |multiset(a)| == |a| && |multiset(b)| == |b|;
    }
    if a != [] {
      assert a[0] in multiset(b) && b[0] in multiset(a);
      SortedHeadIsLeast(b, a[0]);
      SortedHeadIsLeast(a, b[0]);
      MultisetTail(a, b);
      SortedByTail(a, Identity);
      SortedByTail(b, Identity);
      SortedUnique(a[1..], b[1..]);
      assert a == [a[0]] + a[1..] && b == [b[0]] + b[1..];
    }
  }

  /** Sorting numbers by value depends only on the multiset of the input. */
  lemma SortByValueDependsOnMultiset(a: seq<real>, b: seq<real>)
    requires multiset(a) == multiset(b)
    ensures SortBy(a, Identity) == SortBy(b, Identity)
  {
    SortByFacts(a, Identity);
    SortByFacts(b, Identity);
    SortedUnique(SortBy(a, Identity), SortBy(b, Identity));
  }
}
