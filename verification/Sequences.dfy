/** Facts about sequences: distinct elements, reversal, permutations. */
module Sequences {

  ghost predicate Distinct<T>(s: seq<T>) {
    forall i, j :: 0 <= i < j < |s| ==> s[i] != s[j]
  }

  lemma DistinctSnoc<T>(s: seq<T>, x: T)
    requires Distinct(s) && x !in s
    ensures Distinct(s + [x])
  {
  }

  function Reversed<T>(s: seq<T>): seq<T> {
    seq(|s|, i requires 0 <= i < |s| => s[|s| - 1 - i])
  }

  lemma ReversedSnoc<T>(s: seq<T>, x: T)
    ensures Reversed(s + [x]) == [x] + Reversed(s)
  {
  }

  /** Reversal in place: swap from both ends inwards. */
  method Reverse<T>(given: seq<T>) returns (r: seq<T>)
    ensures r == Reversed(given)
  {
    r := given;
    var i, j := 0, |given| - 1;
    while i < j
      invariant 0 <= i && i + j == |given| - 1 && i <= j + 1 && |r| == |given|
      invariant forall k :: 0 <= k < i ==> r[k] == given[|given| - 1 - k]
      invariant forall k :: j < k < |given| ==> r[k] == given[|given| - 1 - k]
      invariant forall k :: i <= k <= j ==> r[k] == given[k]
    {
      r := r[i := r[j]][j := r[i]];
      i, j := i + 1, j - 1;
    }
    forall k | 0 <= k < |given| ensures r[k] == given[|given| - 1 - k] {
    }
  }

  lemma SeqAssoc<T>(a: seq<T>, b: seq<T>, c: seq<T>)
    ensures a + b + c == a + (b + c)
  {
  }

  lemma SameSize<T>(a: seq<T>, b: seq<T>)
    requires multiset(a) == multiset(b)
    ensures |a| == |b|
  {
    assert |multiset(a)| == |a| && |multiset(b)| == |b|;
  }

  /** The last element of a sequence, found in a permutation of it and taken out of both. */
  lemma TakeOut<T>(a: seq<T>, b: seq<T>) returns (i: nat)
    requires a != [] && multiset(a) == multiset(b)
    ensures i < |b| && b[i] == a[|a| - 1] && b == b[..i] + [b[i]] + b[i + 1..]
    ensures multiset(a[..|a| - 1]) == multiset(b[..i] + b[i + 1..])
  {
    var x := a[|a| - 1];
    assert x in multiset(b);
    i :| 0 <= i < |b| && b[i] == x;
    assert a == a[..|a| - 1] + [x];
    assert b == b[..i] + [x] + b[i + 1..];
    assert multiset(a[..|a| - 1]) == multiset(a) - multiset{x};
    assert multiset(b[..i] + b[i + 1..]) == multiset(b) - multiset{x};
  }

  lemma SameTail<T>(a: seq<T>, b: seq<T>)
    requires multiset(a) == multiset(b) && a != [] && b != [] && a[0] == b[0]
    ensures multiset(a[1..]) == multiset(b[1..])
  {
    assert a == [a[0]] + a[1..] && b == [b[0]] + b[1..];
    assert multiset(a[1..]) == multiset(a) - multiset{a[0]};
    assert multiset(b[1..]) == multiset(b) - multiset{a[0]};
  }

  /** Elements told apart by a key stay told apart in any other order. */
  lemma DistinctKeysPermute<T, K>(a: seq<T>, b: seq<T>, key: T -> K)
    requires multiset(a) == multiset(b)
    requires forall i, j :: 0 <= i < j < |a| ==> key(a[i]) != key(a[j])
    ensures forall i, j :: 0 <= i < j < |b| ==> key(b[i]) != key(b[j])
  {
    forall i, j | 0 <= i < j < |b| ensures key(b[i]) != key(b[j]) {
      assert b[i] in multiset(a) && b[j] in multiset(a);
      var k :| 0 <= k < |a| && a[k] == b[i];
      var l :| 0 <= l < |a| && a[l] == b[j];
      if k == l {
        TwiceIn(b, i, j);
        OnceInA(a, k, key);
      }
    }
  }

  lemma TwiceIn<T>(s: seq<T>, i: nat, j: nat)
    requires i < j < |s| && s[i] == s[j]
    ensures multiset(s)[s[i]] >= 2
  {
    assert s == s[..i] + [s[i]] + s[i + 1..j] + [s[j]] + s[j + 1..];
  }

  lemma OnceInA<T, K>(a: seq<T>, k: nat, key: T -> K)
    requires k < |a|
    requires forall i, j :: 0 <= i < j < |a| ==> key(a[i]) != key(a[j])
    ensures multiset(a)[a[k]] == 1
  {
    assert a == a[..k] + [a[k]] + a[k + 1..];
    assert a[k] !in a[..k];
    assert a[k] !in a[k + 1..];
  }

  lemma DistinctPermutes<T>(a: seq<T>, b: seq<T>)
    requires multiset(a) == multiset(b) && Distinct(a)
    ensures Distinct(b)
  {
    DistinctKeysPermute(a, b, x => x);
  }

  /** Sequences of distinct elements that hold the same elements are permutations. */
  lemma SameElementsPermute<T>(a: seq<T>, b: seq<T>)
    requires Distinct(a) && Distinct(b) && forall x :: x in a <==> x in b
    ensures multiset(a) == multiset(b)
  {
    forall x ensures multiset(a)[x] == multiset(b)[x] {
      if x in a {
        var i :| 0 <= i < |a| && a[i] == x;
        var j :| 0 <= j < |b| && b[j] == x;
        OnceInA(a, i, y => y);
        OnceInA(b, j, y => y);
      }
    }
  }

  function Map<T, U>(f: T -> U, s: seq<T>): seq<U> {
    seq(|s|, i requires 0 <= i < |s| => f(s[i]))
  }

  lemma MapInsert<T, U>(f: T -> U, a: seq<T>, x: T, b: seq<T>)
    ensures Map(f, a + [x] + b) == Map(f, a) + [f(x)] + Map(f, b)
    ensures Map(f, a + b) == Map(f, a) + Map(f, b)
  {
  }

  lemma MapOut<T, U>(f: T -> U, s: seq<T>, i: nat)
    requires i < |s|
    ensures multiset(Map(f, s)) == multiset(Map(f, s[..i] + s[i + 1..])) + multiset{f(s[i])}
  {
    assert s == s[..i] + [s[i]] + s[i + 1..];
    MapInsert(f, s[..i], s[i], s[i + 1..]);
  }

  lemma {:induction false} MapPermutes<T, U>(f: T -> U, a: seq<T>, b: seq<T>)
    requires multiset(a) == multiset(b)
    ensures multiset(Map(f, a)) == multiset(Map(f, b))
    decreases |a|
  {
    SameSize(a, b);
    if a != [] {
      var i := TakeOut(a, b);
      var n := |a| - 1;
      MapPermutes(f, a[..n], b[..i] + b[i + 1..]);
      MapOut(f, a, n);
      assert a[..n] + a[n + 1..] == a[..n];
      MapOut(f, b, i);
    }
  }

  /** A set of numbers below a bound has no more elements, and with as many holds them all. */
  lemma {:induction false} BoundedSet(s: set<nat>, n: nat)
    requires forall i :: i in s ==> i < n
    ensures |s| <= n && (|s| == n ==> forall i: nat :: i < n ==> i in s)
  {
    if n == 0 {
      assert s == {};
    } else {
      BoundedSet(s - {n - 1}, n - 1);
    }
  }
}
