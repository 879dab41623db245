/** Sums over the rows of a table. */
module Sums {
  ghost function Sum<T>(s: seq<T>, f: T -> real): real {
    if s == [] then 0.0 else Sum(s[..|s| - 1], f) + f(s[|s| - 1])
  }

  lemma SumAppend<T>(s: seq<T>, x: T, f: T -> real)
    ensures Sum(s + [x], f) == Sum(s, f) + f(x)
  {
    assert (s + [x])[..|s|] == s;
  }

  lemma {:induction false} SumUpdate<T>(s: seq<T>, i: nat, x: T, f: T -> real)
    requires i < |s|
    ensures Sum(s[i := x], f) == Sum(s, f) - f(s[i]) + f(x)
  {
    var n := |s| - 1;
    if i == n {
      assert s[i := x][..n] == s[..n];
    } else {
      assert s[i := x][..n] == s[..n][i := x];
      SumUpdate(s[..n], i, x, f);
    }
  }

  lemma {:induction false} SumAgree<T>(s: seq<T>, f: T -> real, g: T -> real)
    requires forall x :: x in s ==> f(x) == g(x)
    ensures Sum(s, f) == Sum(s, g)
  {
    if s != [] {
      SumAgree(s[..|s| - 1], f, g);
    }
  }

  lemma {:induction false} SumPlus<T>(s: seq<T>, f: T -> real, g: T -> real, h: T -> real)
    requires forall x :: x in s ==> h(x) == f(x) + g(x)
    ensures Sum(s, h) == Sum(s, f) + Sum(s, g)
  {
    if s != [] {
      SumPlus(s[..|s| - 1], f, g, h);
    }
  }

  lemma {:induction false} SumScale<T>(s: seq<T>, f: T -> real, g: T -> real, k: real)
    requires forall x :: x in s ==> g(x) == k * f(x)
    ensures Sum(s, g) == k * Sum(s, f)
  {
    if s != [] {
      SumScale(s[..|s| - 1], f, g, k);
      var n := |s| - 1;
      assert k * (Sum(s[..n], f) + f(s[n])) == k * Sum(s[..n], f) + k * f(s[n]);
    }
  }

  lemma {:induction false} SumZero<T>(s: seq<T>, f: T -> real)
    requires forall x :: x in s ==> f(x) == 0.0
    ensures Sum(s, f) == 0.0
  {
    if s != [] {
      SumZero(s[..|s| - 1], f);
    }
  }

  /** Rows changed one by one change the sum by the sum of the changes. */
  lemma {:induction false} SumDiff<T>(s: seq<T>, s': seq<T>, f: T -> real, g: T -> real)
    requires |s| == |s'|
    requires forall k :: 0 <= k < |s| ==> f(s'[k]) == f(s[k]) - g(s[k])
    ensures Sum(s', f) == Sum(s, f) - Sum(s, g)
  {
    if s != [] {
      var n := |s| - 1;
      SumDiff(s[..n], s'[..n], f, g);
    }
  }
}
