/**
 A stable sort and what determines it: for any total preorder on the elements at
 hand, the sorted arrangement that keeps equivalent elements in their order is
 unique, so it does not matter which stable algorithm the platform uses.
 */
module StableSort {
  /** `leq` compares any two of the elements and is transitive on them. */
  ghost predicate Preorder<T(!new)>(s: seq<T>, leq: (T, T) -> bool) {
    && (forall a, b :: a in s && b in s ==> leq(a, b) || leq(b, a))
    && (forall a, b, c :: a in s && b in s && c in s && leq(a, b) && leq(b, c) ==> leq(a, c))
  }

  predicate Sorted<T>(s: seq<T>, leq: (T, T) -> bool) {
    forall i, j :: 0 <= i < j < |s| ==> leq(s[i], s[j])
  }

  /** Places `x` after every element not above it, working from the end. */
  function Insert<T>(s: seq<T>, x: T, leq: (T, T) -> bool): (r: seq<T>)
    ensures |r| == |s| + 1
    ensures multiset(r) == multiset(s) + multiset{x}
  {
    if s == [] then [x]
    else
      var n := |s| - 1;
      assert s == s[..n] + [s[n]];
      if leq(s[n], x) then s + [x] else Insert(s[..n], x, leq) + [s[n]]
  }

  function Sort<T>(s: seq<T>, leq: (T, T) -> bool): (r: seq<T>)
    ensures |r| == |s|
    ensures multiset(r) == multiset(s)
  {
    if s == [] then []
    else
      var n := |s| - 1;
      assert s == s[..n] + [s[n]];
      Insert(Sort(s[..n], leq), s[n], leq)
  }

  predicate Equivalent<T>(a: T, b: T, leq: (T, T) -> bool) {
    leq(a, b) && leq(b, a)
  }

  /** The elements of `s` equivalent to `x`, in order. */
  function ClassOf<T>(s: seq<T>, x: T, leq: (T, T) -> bool): seq<T> {
    if s == [] then []
    else
      var n := |s| - 1;
      ClassOf(s[..n], x, leq) + (if Equivalent(s[n], x, leq) then [s[n]] else [])
  }

  lemma SameElements<T>(r: seq<T>, s: seq<T>)
    requires multiset(r) == multiset(s)
    ensures forall x :: x in r <==> x in s
  {
    forall x ensures x in r <==> x in s {
      assert x in multiset(r) <==> x in multiset(s);
    }
  }

  ghost function Elements<T(!new)>(s: seq<T>): set<T> {
    set x | x in s
  }

  lemma {:induction false} InsertMembers<T>(s: seq<T>, x: T, leq: (T, T) -> bool)
    ensures forall y :: y in Insert(s, x, leq) <==> y in s || y == x
  {
    if s != [] {
      InsertMembers(s[..|s| - 1], x, leq);
    }
  }

  /** `leq` is a total preorder on a set that holds everything being sorted. */
  ghost predicate PreorderOn<T(!new)>(all: set<T>, leq: (T, T) -> bool) {
    && (forall a, b :: a in all && b in all ==> leq(a, b) || leq(b, a))
    && (forall a, b, c :: a in all && b in all && c in all && leq(a, b) && leq(b, c) ==> leq(a, c))
  }

  lemma SortedAppend<T>(s: seq<T>, x: T, leq: (T, T) -> bool)
    requires Sorted(s, leq) && forall i :: 0 <= i < |s| ==> leq(s[i], x)
    ensures Sorted(s + [x], leq)
  {
  }

  /** What the last element is not above, no other is. */
  lemma AllBelow<T(!new)>(s: seq<T>, x: T, leq: (T, T) -> bool, all: set<T>)
    requires PreorderOn(all, leq) && x in all && (forall i :: 0 <= i < |s| ==> s[i] in all)
    requires Sorted(s, leq) && s != [] && leq(s[|s| - 1], x)
    ensures forall i :: 0 <= i < |s| ==> leq(s[i], x)
  {
    var n := |s| - 1;
    forall i | 0 <= i < n ensures leq(s[i], x) {
      assert leq(s[i], s[n]) && s[i] in all && s[n] in all;
    }
  }

  lemma InsertStaysBelow<T(!new)>(s: seq<T>, x: T, z: T, leq: (T, T) -> bool)
    requires leq(x, z) && forall i :: 0 <= i < |s| ==> leq(s[i], z)
    ensures forall i :: 0 <= i < |Insert(s, x, leq)| ==> leq(Insert(s, x, leq)[i], z)
  {
    hide Insert;
    var r := Insert(s, x, leq);
    InsertMembers(s, x, leq);
    forall i | 0 <= i < |r| ensures leq(r[i], z) {
      assert r[i] in r;
    }
  }

  lemma {:induction false} InsertSorted<T(!new)>(s: seq<T>, x: T, leq: (T, T) -> bool, all: set<T>)
    requires PreorderOn(all, leq) && x in all && (forall i :: 0 <= i < |s| ==> s[i] in all) && Sorted(s, leq)
    ensures Sorted(Insert(s, x, leq), leq)
  {
    if s == [] {
    } else {
      var n := |s| - 1;
      assert s[n] in all && (leq(s[n], x) || leq(x, s[n]));
      if leq(s[n], x) {
        AllBelow(s, x, leq, all);
        hide PreorderOn;
        SortedAppend(s, x, leq);
      } else {
        InsertSorted(s[..n], x, leq, all);
        hide PreorderOn;
        InsertStaysBelow(s[..n], x, s[n], leq);
        SortedAppend(Insert(s[..n], x, leq), s[n], leq);
      }
    }
  }

  lemma {:induction false} SortSortedIn<T(!new)>(s: seq<T>, leq: (T, T) -> bool, all: set<T>)
    requires PreorderOn(all, leq) && forall y :: y in s ==> y in all
    ensures Sorted(Sort(s, leq), leq)
  {
    if s != [] {
      var n := |s| - 1;
      assert s[n] in s && forall y :: y in s[..n] ==> y in s;
      SortSortedIn(s[..n], leq, all);
      SortStaysWithin(s[..n], leq, all);
      InsertSorted(Sort(s[..n], leq), s[n], leq, all);
    }
  }

  lemma SortSorted<T(!new)>(s: seq<T>, leq: (T, T) -> bool)
    requires Preorder(s, leq)
    ensures Sorted(Sort(s, leq), leq)
  {
    SortSortedIn(s, leq, Elements(s));
  }

  /** Inserting adds the element at the end of its class and leaves the other classes alone. */
  lemma {:induction false} InsertStable<T(!new)>(s: seq<T>, y: T, x: T, leq: (T, T) -> bool, all: set<T>)
    requires PreorderOn(all, leq) && x in all && y in all && forall i :: 0 <= i < |s| ==> s[i] in all
    ensures ClassOf(Insert(s, y, leq), x, leq) == ClassOf(s + [y], x, leq)
  {
    if s == [] {
      assert s + [y] == [y];
    } else {
      var init, last := s[..|s| - 1], s[|s| - 1];
      assert s == init + [last];
      if !leq(last, y) {
        InsertStable(init, y, x, leq, all);
      }
    }
  }

  lemma SortStaysWithin<T(!new)>(s: seq<T>, leq: (T, T) -> bool, all: set<T>)
    requires forall i :: 0 <= i < |s| ==> s[i] in all
    ensures forall i :: 0 <= i < |Sort(s, leq)| ==> Sort(s, leq)[i] in all
  {
    SameElements(Sort(s, leq), s);
    forall i | 0 <= i < |Sort(s, leq)| ensures Sort(s, leq)[i] in all {
      assert Sort(s, leq)[i] in s;
    }
  }

  lemma {:induction false} SortStableIn<T(!new)>(s: seq<T>, x: T, leq: (T, T) -> bool, all: set<T>)
    requires PreorderOn(all, leq) && x in all && forall i :: 0 <= i < |s| ==> s[i] in all
    ensures ClassOf(Sort(s, leq), x, leq) == ClassOf(s, x, leq)
  {
    if s != [] {
      var init, last := s[..|s| - 1], s[|s| - 1];
      assert s == init + [last];
      SortStableIn(init, x, leq, all);
      SortStaysWithin(init, leq, all);
      InsertStable(Sort(init, leq), last, x, leq, all);
    }
  }

  /** Sorting keeps the order within every class of equivalent elements. */
  lemma SortStable<T(!new)>(s: seq<T>, x: T, leq: (T, T) -> bool)
    requires Preorder(s + [x], leq)
    ensures ClassOf(Sort(s, leq), x, leq) == ClassOf(s, x, leq)
  {
    SortStableIn(s, x, leq, Elements(s + [x]));
  }

  ghost predicate SameClasses<T(!new)>(s: seq<T>, t: seq<T>, leq: (T, T) -> bool) {
    forall x :: x in s || x in t ==> ClassOf(s, x, leq) == ClassOf(t, x, leq)
  }

  lemma ClassMembers<T>(s: seq<T>, x: T, leq: (T, T) -> bool)
    ensures forall y :: y in ClassOf(s, x, leq) <==> y in s && Equivalent(y, x, leq)
  {
  }

  /** The last elements of two sorted arrangements with the same classes are the same. */
  lemma SameLast<T(!new)>(s: seq<T>, t: seq<T>, leq: (T, T) -> bool)
    requires s != [] && t != []
    requires Preorder(s, leq) && Preorder(t, leq) && Sorted(s, leq) && Sorted(t, leq)
    requires SameClasses(s, t, leq)
    ensures s[|s| - 1] == t[|t| - 1]
  {
    var a, b := s[|s| - 1], t[|t| - 1];
    assert a in s && b in t;
    ClassMembers(s, a, leq);
    ClassMembers(t, a, leq);
    ClassMembers(s, b, leq);
    ClassMembers(t, b, leq);
    assert leq(a, a) && leq(b, b);
    assert a in t && b in s;
    assert leq(a, b) && leq(b, a);
    assert ClassOf(s, a, leq)[|ClassOf(s, a, leq)| - 1] == a;
    assert ClassOf(t, a, leq)[|ClassOf(t, a, leq)| - 1] == b;
  }

  /** A sorted arrangement is determined by the order inside its classes. */
  lemma {:induction false} StableArrangementIsUnique<T(!new)>(s: seq<T>, t: seq<T>, leq: (T, T) -> bool)
    requires Preorder(s, leq) && Preorder(t, leq) && Sorted(s, leq) && Sorted(t, leq)
    requires SameClasses(s, t, leq)
    ensures s == t
  {
    SharesItsElements(s, t, leq);
    SharesItsElements(t, s, leq);
    if s != [] && t != [] {
      SameLast(s, t, leq);
      SameClassesWithoutLast(s, t, leq);
      StableArrangementIsUnique(s[..|s| - 1], t[..|t| - 1], leq);
    }
  }

  lemma SameClassesWithoutLast<T(!new)>(s: seq<T>, t: seq<T>, leq: (T, T) -> bool)
    requires s != [] && t != [] && s[|s| - 1] == t[|t| - 1] && SameClasses(s, t, leq)
    ensures SameClasses(s[..|s| - 1], t[..|t| - 1], leq)
  {
    var n, m := |s| - 1, |t| - 1;
    forall x | x in s[..n] || x in t[..m] ensures ClassOf(s[..n], x, leq) == ClassOf(t[..m], x, leq) {
      assert ClassOf(s, x, leq) == ClassOf(t, x, leq);
      assert ClassOf(s[..n], x, leq) + [] == ClassOf(s[..n], x, leq);
      assert ClassOf(t[..m], x, leq) + [] == ClassOf(t[..m], x, leq);
      if Equivalent(s[n], x, leq) {
        assert ClassOf(s[..n], x, leq) == ClassOf(s, x, leq)[..|ClassOf(s, x, leq)| - 1];
        assert ClassOf(t[..m], x, leq) == ClassOf(t, x, leq)[..|ClassOf(t, x, leq)| - 1];
      }
    }
  }

  lemma SharesItsElements<T(!new)>(s: seq<T>, t: seq<T>, leq: (T, T) -> bool)
    requires Preorder(s, leq) && SameClasses(s, t, leq)
    ensures s != [] ==> t != []
  {
    if s != [] {
      ClassMembers(s, s[0], leq);
      ClassMembers(t, s[0], leq);
      assert leq(s[0], s[0]);
      assert s[0] in ClassOf(t, s[0], leq) by {
        assert ClassOf(s, s[0], leq) == ClassOf(t, s[0], leq);
      }
    }
  }

  /** Any sorted arrangement of `s` that keeps the order within classes is `Sort(s)`. */
  lemma SortIsTheStableArrangement<T(!new)>(s: seq<T>, t: seq<T>, leq: (T, T) -> bool)
    requires Preorder(s, leq) && multiset(t) == multiset(s) && Sorted(t, leq)
    requires forall x :: x in s ==> ClassOf(t, x, leq) == ClassOf(s, x, leq)
    ensures t == Sort(s, leq)
  {
    SameElements(t, s);
    SameElements(Sort(s, leq), s);
    SortSorted(s, leq);
    forall x | x in t || x in Sort(s, leq) ensures ClassOf(t, x, leq) == ClassOf(Sort(s, leq), x, leq) {
      SortStable(s, x, leq);
    }
    StableArrangementIsUnique(t, Sort(s, leq), leq);
  }
}
