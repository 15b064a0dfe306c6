/**
 Sequences up to reordering: sums and images that do not depend on the order,
 and stretches of an array that are shuffled in place while the rest stays put.
 */
module Permutations {

  function Map<T, U>(f: T -> U, s: seq<T>): (r: seq<U>)
    ensures |r| == |s| && forall i | 0 <= i < |s| :: r[i] == f(s[i])
  {
    seq(|s|, i requires 0 <= i < |s| => f(s[i]))
  }

  function Sum<T>(f: T -> real, s: seq<T>): real {
    if s == [] then 0.0 else Sum(f, s[..|s| - 1]) + f(s[|s| - 1])
  }

  lemma {:induction false} SumConcat<T>(f: T -> real, s: seq<T>, t: seq<T>)
    ensures Sum(f, s + t) == Sum(f, s) + Sum(f, t)
  {
    if t == [] {
      assert s + t == s;
    } else {
      assert (s + t)[..|s + t| - 1] == s + t[..|t| - 1];
      SumConcat(f, s, t[..|t| - 1]);
    }
  }

  lemma {:induction false} SumSingle<T>(f: T -> real, x: T)
    ensures Sum(f, [x]) == f(x)
  {
  }

  lemma {:induction false} SumNonNegative<T>(f: T -> real, s: seq<T>)
    requires forall x | x in s :: 0.0 <= f(x)
    ensures 0.0 <= Sum(f, s)
  {
    if s != [] {
      assert forall x | x in s[..|s| - 1] :: x in s;
      assert s[|s| - 1] in s;
      SumNonNegative(f, s[..|s| - 1]);
    }
  }

  /** Sums of functions that agree on the elements agree. */
  lemma {:induction false} SumCongruent<T>(f: T -> real, s: seq<T>, t: seq<T>)
    requires |s| == |t| && forall i | 0 <= i < |s| :: f(s[i]) == f(t[i])
    ensures Sum(f, s) == Sum(f, t)
  {
    if s != [] {
      SumCongruent(f, s[..|s| - 1], t[..|t| - 1]);
    }
  }

  // ----- reordering

  lemma {:induction false} MultisetCancel<T>(a: multiset<T>, b: multiset<T>, x: T)
    requires a + multiset{x} == b + multiset{x}
    ensures a == b
  {
    forall y
      ensures a[y] == b[y]
    {
      assert (a + multiset{x})[y] == (b + multiset{x})[y];
    }
  }

  lemma {:induction false} AppendTwo<T>(a: seq<T>, b: seq<T>, x: T, y: T)
    requires multiset(b) == multiset(a + [x])
    ensures multiset(b + [y]) == multiset(a + [y] + [x])
  {
  }

  lemma {:induction false} SameElements<T>(s: seq<T>, t: seq<T>)
    requires multiset(s) == multiset(t)
    ensures |s| == |t| && forall x :: x in s <==> x in t
  {
    assert |s| == |multiset(s)| == |multiset(t)| == |t|;
    assert forall x :: x in s <==> x in multiset(s);
    assert forall x :: x in t <==> x in multiset(t);
  }

  /** Takes the last element of s out of a permutation t of s. */
  lemma {:induction false} Extract<T>(s: seq<T>, t: seq<T>) returns (u: seq<T>, v: seq<T>)
    requires s != [] && multiset(s) == multiset(t)
    ensures t == u + [s[|s| - 1]] + v
    ensures multiset(s[..|s| - 1]) == multiset(u + v)
  {
    var x := s[|s| - 1];
    var s' := s[..|s| - 1];
    assert s == s' + [x];
    assert x in multiset(t);
    var j :| 0 <= j < |t| && t[j] == x;
    u, v := t[..j], t[j + 1..];
    assert t == u + [x] + v;
    assert multiset(t) == multiset(u) + multiset{x} + multiset(v);
    assert multiset(u + v) == multiset(u) + multiset(v);
    MultisetCancel(multiset(s'), multiset(u + v), x);
  }

  lemma {:induction false} SumPermute<T>(f: T -> real, s: seq<T>, t: seq<T>)
    requires multiset(s) == multiset(t)
    ensures Sum(f, s) == Sum(f, t)
  {
    if s == [] {
      assert |multiset(t)| == 0;
    } else {
      var u, v := Extract(s, t);
      var x := s[|s| - 1];
      SumPermute(f, s[..|s| - 1], u + v);
      SumConcat(f, u, v);
      SumConcat(f, u + [x], v);
      SumConcat(f, u, [x]);
      SumSingle(f, x);
    }
  }

  lemma {:induction false} MapConcat<T, U>(f: T -> U, s: seq<T>, t: seq<T>)
    ensures Map(f, s + t) == Map(f, s) + Map(f, t)
  {
  }

  lemma {:induction false} MapPermute<T, U>(f: T -> U, s: seq<T>, t: seq<T>)
    requires multiset(s) == multiset(t)
    ensures multiset(Map(f, s)) == multiset(Map(f, t))
  {
    if s == [] {
      assert |multiset(t)| == 0;
      assert s == t;
    } else {
      var u, v := Extract(s, t);
      var x := s[|s| - 1];
      MapPermute(f, s[..|s| - 1], u + v);
      MapConcat(f, u, v);
      MapConcat(f, u + [x], v);
      MapConcat(f, u, [x]);
      assert s == s[..|s| - 1] + [x];
      MapConcat(f, s[..|s| - 1], [x]);
    }
  }

  // ----- stretches shuffled in place

  /** t is s with the stretch [lo, hi) reordered and everything else in place. */
  ghost predicate Shuffled<T>(s: seq<T>, t: seq<T>, lo: nat, hi: nat) {
    && lo <= hi <= |s| == |t|
    && (forall k | 0 <= k < lo || hi <= k < |s| :: s[k] == t[k])
    && multiset(s[lo..hi]) == multiset(t[lo..hi])
  }

  lemma {:induction false} ShuffledRefl<T>(s: seq<T>, lo: nat, hi: nat)
    requires lo <= hi <= |s|
    ensures Shuffled(s, s, lo, hi)
  {
  }

  lemma {:induction false} ShuffledTrans<T>(s: seq<T>, t: seq<T>, u: seq<T>, lo: nat, hi: nat)
    requires Shuffled(s, t, lo, hi) && Shuffled(t, u, lo, hi)
    ensures Shuffled(s, u, lo, hi)
  {
  }

  lemma {:induction false} ShuffledWiden<T>(s: seq<T>, t: seq<T>, lo: nat, hi: nat, lo': nat, hi': nat)
    requires Shuffled(s, t, lo, hi) && lo' <= lo && hi <= hi' <= |s|
    ensures Shuffled(s, t, lo', hi')
  {
    assert s[lo'..hi'] == s[lo'..lo] + s[lo..hi] + s[hi..hi'];
    assert t[lo'..hi'] == t[lo'..lo] + t[lo..hi] + t[hi..hi'];
    assert s[lo'..lo] == t[lo'..lo] && s[hi..hi'] == t[hi..hi'];
  }

  lemma {:induction false} SwapPermutes<T>(u: seq<T>, i: nat, j: nat)
    requires i < |u| && j < |u|
    ensures multiset(u[i := u[j]][j := u[i]]) == multiset(u)
  {
  }

  lemma {:induction false} ShuffledSwap<T>(s: seq<T>, t: seq<T>, lo: nat, hi: nat, i: nat, j: nat)
    requires lo <= i < hi <= |s| && lo <= j < hi
    requires t == s[i := s[j]][j := s[i]]
    ensures Shuffled(s, t, lo, hi)
  {
    var u := s[lo..hi];
    assert t[lo..hi] == u[i - lo := u[j - lo]][j - lo := u[i - lo]];
    SwapPermutes(u, i - lo, j - lo);
  }

  /** Every element of the shuffled stretch was already in it. */
  lemma {:induction false} ShuffledOrigin<T>(s: seq<T>, t: seq<T>, lo: nat, hi: nat, j: nat) returns (i: nat)
    requires Shuffled(s, t, lo, hi) && lo <= j < hi
    ensures lo <= i < hi && s[i] == t[j]
  {
    SameElements(s[lo..hi], t[lo..hi]);
    assert t[lo..hi][j - lo] in t[lo..hi];
    var k :| 0 <= k < hi - lo && s[lo..hi][k] == t[j];
    i := lo + k;
  }

  // ----- sorting

  predicate Ascending<T>(key: T -> real, s: seq<T>) {
    forall i, j | 0 <= i <= j < |s| :: key(s[i]) <= key(s[j])
  }

  /** Every outcome the C library's `qsort` may produce: its order among ties is unspecified. */
  predicate SortOf<T(==)>(key: T -> real, s: seq<T>, t: seq<T>) {
    |s| == |t| && multiset(s) == multiset(t) && Ascending(key, t)
  }

  lemma {:induction false} AppendLargest<T>(key: T -> real, u: seq<T>, x: T)
    requires Ascending(key, u) && forall e | e in u :: key(e) <= key(x)
    ensures Ascending(key, u + [x])
  {
  }

  lemma {:induction false} InsertSorted<T>(key: T -> real, u: seq<T>, x: T) returns (t: seq<T>)
    requires Ascending(key, u)
    ensures SortOf(key, u + [x], t)
  {
    if u == [] || key(u[|u| - 1]) <= key(x) {
      t := u + [x];
    } else {
      var last, init := u[|u| - 1], u[..|u| - 1];
      var rest := InsertSorted(key, init, x);
      t := rest + [last];
      AppendTwo(init, rest, x, last);
      assert u == init + [last];
      assert Ascending(key, t) by {
        SameElements(init + [x], rest);
        AppendLargest(key, rest, last);
      }
    }
  }

  lemma {:induction false} SortExists<T>(key: T -> real, s: seq<T>) returns (t: seq<T>)
    ensures SortOf(key, s, t)
  {
    if s == [] {
      t := [];
    } else {
      var u := SortExists(key, s[..|s| - 1]);
      t := InsertSorted(key, u, s[|s| - 1]);
      assert s == s[..|s| - 1] + [s[|s| - 1]];
    }
  }
}
