/** Ordered listings. A listing of distinct elements in a strict order is unique, so every place that sorts
    (canonical object keys, ORDER BY, atoms of a segment, queue positions) can be described by this one function. */
module Sorting {

  /** A strict order; elements need not all be comparable. */
  ghost predicate StrictOrder<T(!new)>(lt: (T, T) -> bool) {
    && (forall x :: !lt(x, x))
    && (forall x, y, z :: lt(x, y) && lt(y, z) ==> lt(x, z))
  }

  /** Any two different elements of s are ordered one way or the other. */
  ghost predicate Comparable<T(!new)>(lt: (T, T) -> bool, s: seq<T>) {
    forall x, y :: x in s && y in s && x != y ==> lt(x, y) || lt(y, x)
  }

  ghost predicate Distinct<T(!new)>(s: seq<T>) {
    forall i, j :: 0 <= i < j < |s| ==> s[i] != s[j]
  }

  ghost predicate Sorted<T(!new)>(lt: (T, T) -> bool, s: seq<T>) {
    forall i, j :: 0 <= i < j < |s| ==> lt(s[i], s[j])
  }

  ghost predicate SameElements<T(!new)>(a: seq<T>, b: seq<T>) {
    forall x :: x in a <==> x in b
  }

  function Insert<T>(lt: (T, T) -> bool, x: T, s: seq<T>): (r: seq<T>)
    ensures |r| == |s| + 1
  {
    if s == [] then [x]
    else if lt(x, s[0]) then [x] + s
    else [s[0]] + Insert(lt, x, s[1..])
  }

  function Sort<T>(lt: (T, T) -> bool, s: seq<T>): (r: seq<T>)
    ensures |r| == |s|
  {
    if s == [] then [] else Insert(lt, s[0], Sort(lt, s[1..]))
  }

  lemma {:induction false} InsertElements<T(!new)>(lt: (T, T) -> bool, x: T, s: seq<T>)
    ensures multiset(Insert(lt, x, s)) == multiset(s) + multiset{x}
    ensures forall y :: y in Insert(lt, x, s) <==> y == x || y in s
  {
    if s == [] {
    } else if lt(x, s[0]) {
    } else {
      InsertElements(lt, x, s[1..]);
      assert s == [s[0]] + s[1..];
      assert multiset(s) == multiset{s[0]} + multiset(s[1..]);
    }
  }

  lemma {:induction false} SortElements<T(!new)>(lt: (T, T) -> bool, s: seq<T>)
    ensures multiset(Sort(lt, s)) == multiset(s)
    ensures SameElements(Sort(lt, s), s)
  {
    if s != [] {
      SortElements(lt, s[1..]);
      InsertElements(lt, s[0], Sort(lt, s[1..]));
      assert s == [s[0]] + s[1..];
    }
  }

  lemma {:induction false} InsertSorts<T(!new)>(lt: (T, T) -> bool, x: T, s: seq<T>)
    requires StrictOrder(lt) && Sorted(lt, s)
    requires forall y :: y in s ==> y != x && (lt(x, y) || lt(y, x))
    ensures Sorted(lt, Insert(lt, x, s))
  {
    if s == [] || lt(x, s[0]) {
    } else {
      InsertSorts(lt, x, s[1..]);
      var r := Insert(lt, x, s[1..]);
      InsertElements(lt, x, s[1..]);
      assert Insert(lt, x, s) == [s[0]] + r;
      forall j | 0 <= j < |r| ensures lt(s[0], r[j]) {
        assert r[j] in r;
        if r[j] != x {
          var k :| 0 <= k < |s[1..]| && s[1..][k] == r[j];
          assert s[k + 1] == r[j];
        } else {
          assert s[0] in s;
        }
      }
    }
  }

  /** Sorting distinct comparable elements lists them in strictly increasing order. */
  lemma {:induction false} SortSorts<T(!new)>(lt: (T, T) -> bool, s: seq<T>)
    requires StrictOrder(lt) && Comparable(lt, s) && Distinct(s)
    ensures Sorted(lt, Sort(lt, s))
  {
    if s != [] {
      var t := s[1..];
      forall x, y | x in t && y in t && x != y ensures lt(x, y) || lt(y, x) {
        assert x in s && y in s;
      }
      assert Distinct(t) by {
        forall i, j | 0 <= i < j < |t| ensures t[i] != t[j] { assert s[i + 1] == t[i] && s[j + 1] == t[j]; }
      }
      SortSorts(lt, t);
      SortElements(lt, t);
      forall y | y in Sort(lt, t) ensures y != s[0] && (lt(s[0], y) || lt(y, s[0])) {
        assert y in t;
        var k :| 0 <= k < |t| && t[k] == y;
        assert s[k + 1] == y;
      }
      InsertSorts(lt, s[0], Sort(lt, t));
    }
  }

  /** A strictly increasing listing is determined by what it lists. */
  lemma {:induction false} ListingUnique<T(!new)>(lt: (T, T) -> bool, a: seq<T>, b: seq<T>)
    requires StrictOrder(lt) && Sorted(lt, a) && Sorted(lt, b) && SameElements(a, b)
    ensures a == b
  {
    assert a != [] ==> a[0] in b;
    assert b != [] ==> b[0] in a;
    if a != [] && b != [] {
      HeadsAgree(lt, a, b);
      var s, t := a[1..], b[1..];
      forall x ensures x in s <==> x in t {
        TailElement(lt, a, x);
        TailElement(lt, b, x);
        assert x in a <==> x in b;
      }
      ListingUnique(lt, s, t);
      assert a == [a[0]] + s && b == [b[0]] + t;
    }
  }

  lemma HeadsAgree<T(!new)>(lt: (T, T) -> bool, a: seq<T>, b: seq<T>)
    requires StrictOrder(lt) && Sorted(lt, a) && Sorted(lt, b) && SameElements(a, b) && a != [] && b != []
    ensures a[0] == b[0]
  {
    assert a[0] in a && b[0] in b;
    var i :| 0 <= i < |b| && b[i] == a[0];
    var j :| 0 <= j < |a| && a[j] == b[0];
    var p, q := a[0], b[0];
    assert i == 0 || lt(q, p);
    assert j == 0 || lt(p, q);
  }

  lemma TailElement<T(!new)>(lt: (T, T) -> bool, a: seq<T>, x: T)
    requires StrictOrder(lt) && Sorted(lt, a) && a != []
    ensures x in a[1..] <==> x in a && x != a[0]
  {
    if x in a[1..] {
      var k :| 0 <= k < |a[1..]| && a[1..][k] == x;
      assert a[k + 1] == x && lt(a[0], a[k + 1]);
    }
    if x in a && x != a[0] {
      var k :| 0 <= k < |a| && a[k] == x;
      assert a[1..][k - 1] == x;
    }
  }

  lemma SortIsTheListing<T(!new)>(lt: (T, T) -> bool, s: seq<T>, r: seq<T>)
    requires StrictOrder(lt) && Comparable(lt, s) && Distinct(s)
    requires Sorted(lt, r) && SameElements(r, s)
    ensures r == Sort(lt, s)
  {
    SortSorts(lt, s);
    SortElements(lt, s);
    ListingUnique(lt, r, Sort(lt, s));
  }

  lemma SortIgnoresOrder<T(!new)>(lt: (T, T) -> bool, a: seq<T>, b: seq<T>)
    requires StrictOrder(lt) && Comparable(lt, a) && Distinct(a) && Distinct(b) && SameElements(a, b)
    ensures Sort(lt, a) == Sort(lt, b)
  {
    forall x, y | x in b && y in b && x != y ensures lt(x, y) || lt(y, x) { assert x in a && y in a; }
    SortSorts(lt, a);
    SortElements(lt, a);
    SortIsTheListing(lt, b, Sort(lt, a));
  }
}
