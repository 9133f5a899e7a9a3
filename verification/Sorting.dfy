/** Stable sorting by a strict weak order, as the callers of the sort library need it. */
module Sorting {
  import opened Sequences

  ghost predicate StrictWeak<T(!new)>(less: (T, T) -> bool) {
    && (forall x :: !less(x, x))
    && (forall x, y, z :: !less(y, x) && !less(z, y) ==> !less(z, x))
    && (forall x, y :: less(x, y) ==> !less(y, x))
  }

  ghost predicate Sorted<T(!new)>(less: (T, T) -> bool, s: seq<T>) {
    forall i, j :: 0 <= i < j < |s| ==> !less(s[j], s[i])
  }

  /** `x` goes after every element it is not below. */
  function Insert<T>(less: (T, T) -> bool, s: seq<T>, x: T): seq<T> {
    if s == [] || !less(x, s[|s| - 1]) then s + [x]
    else Insert(less, s[..|s| - 1], x) + [s[|s| - 1]]
  }

  function SortBy<T>(less: (T, T) -> bool, s: seq<T>): seq<T> {
    if s == [] then [] else Insert(less, SortBy(less, s[..|s| - 1]), s[|s| - 1])
  }

  lemma {:induction false} InsertKeeps<T(!new)>(less: (T, T) -> bool, s: seq<T>, x: T)
    requires StrictWeak(less) && Sorted(less, s)
    ensures Sorted(less, Insert(less, s, x))
    ensures multiset(Insert(less, s, x)) == multiset(s) + multiset{x}
  {
    if s != [] && less(x, s[|s| - 1]) {
      var init, last := s[..|s| - 1], s[|s| - 1];
      assert s == init + [last];
      InsertKeeps(less, init, x);
      var r := Insert(less, init, x);
      InsertedBelow(less, init, x, last, r);
      SortedSnoc(less, r, last);
    } else {
      forall i | 0 <= i < |s| ensures !less(x, s[i]) {
        assert i < |s| - 1 ==> !less(s[|s| - 1], s[i]);
      }
      SortedSnoc(less, s, x);
    }
  }

  lemma SortedSnoc<T(!new)>(less: (T, T) -> bool, s: seq<T>, x: T)
    requires Sorted(less, s) && forall i :: 0 <= i < |s| ==> !less(x, s[i])
    ensures Sorted(less, s + [x])
  {
  }

  /** What an insertion leaves is not above what came last. */
  lemma InsertedBelow<T(!new)>(less: (T, T) -> bool, init: seq<T>, x: T, last: T, r: seq<T>)
    requires StrictWeak(less) && Sorted(less, init + [last]) && less(x, last)
    requires multiset(r) == multiset(init) + multiset{x}
    ensures forall i :: 0 <= i < |r| ==> !less(last, r[i])
  {
    forall i | 0 <= i < |r| ensures !less(last, r[i]) {
      assert r[i] in multiset(r);
      if r[i] != x {
        assert r[i] in multiset(init);
        var k :| 0 <= k < |init| && init[k] == r[i];
        assert (init + [last])[k] == r[i] && (init + [last])[|init|] == last;
      }
    }
  }

  /** The result is sorted and holds exactly the elements given. */
  lemma {:induction false} SortKeeps<T(!new)>(less: (T, T) -> bool, s: seq<T>)
    requires StrictWeak(less)
    ensures Sorted(less, SortBy(less, s)) && multiset(SortBy(less, s)) == multiset(s)
    ensures |SortBy(less, s)| == |s|
    decreases |s|
  {
    if s != [] {
      assert s == s[..|s| - 1] + [s[|s| - 1]];
      SortKeeps(less, s[..|s| - 1]);
      InsertKeeps(less, SortBy(less, s[..|s| - 1]), s[|s| - 1]);
    }
    SameSize(SortBy(less, s), s);
  }

  /** Sorted, and what ties stands as it stood before: `earlier` tells how. */
  ghost predicate Stably<T(!new)>(less: (T, T) -> bool, earlier: (T, T) -> bool, s: seq<T>) {
    forall i, j :: 0 <= i < j < |s| ==> InTurn(less, earlier, s[i], s[j])
  }

  predicate InTurn<T>(less: (T, T) -> bool, earlier: (T, T) -> bool, x: T, y: T) {
    less(x, y) || (!less(y, x) && earlier(x, y))
  }

  lemma StablyIsSorted<T(!new)>(less: (T, T) -> bool, earlier: (T, T) -> bool, s: seq<T>)
    requires StrictWeak(less) && Stably(less, earlier, s)
    ensures Sorted(less, s)
  {
    forall i, j | 0 <= i < j < |s| ensures !less(s[j], s[i]) {
      assert InTurn(less, earlier, s[i], s[j]);
    }
  }

  lemma {:induction false} InsertStably<T(!new)>(less: (T, T) -> bool, earlier: (T, T) -> bool, s: seq<T>, x: T)
    requires StrictWeak(less) && Stably(less, earlier, s) && forall i :: 0 <= i < |s| ==> earlier(s[i], x)
    ensures Stably(less, earlier, Insert(less, s, x))
    decreases |s|
  {
    StablyIsSorted(less, earlier, s);
    if s != [] && less(x, s[|s| - 1]) {
      var init, last := s[..|s| - 1], s[|s| - 1];
      assert s == init + [last];
      StablyIsSorted(less, earlier, init);
      InsertStably(less, earlier, init, x);
      InsertKeeps(less, init, x);
      var r := Insert(less, init, x);
      forall i | 0 <= i < |r| ensures InTurn(less, earlier, r[i], last) {
        assert r[i] in multiset(r);
        if r[i] != x {
          var k :| 0 <= k < |init| && init[k] == r[i];
          assert InTurn(less, earlier, s[k], s[|init|]);
        }
      }
    } else {
      forall i | 0 <= i < |s| ensures InTurn(less, earlier, s[i], x) {
        assert i < |s| - 1 ==> !less(s[|s| - 1], s[i]);
      }
    }
  }

  /** Sorting keeps the order of what ties. */
  lemma {:induction false} SortStably<T(!new)>(less: (T, T) -> bool, earlier: (T, T) -> bool, s: seq<T>)
    requires StrictWeak(less) && forall i, j :: 0 <= i < j < |s| ==> earlier(s[i], s[j])
    ensures Stably(less, earlier, SortBy(less, s))
    decreases |s|
  {
    if s != [] {
      var init, last := s[..|s| - 1], s[|s| - 1];
      SortStably(less, earlier, init);
      SortKeeps(less, init);
      var r := SortBy(less, init);
      forall i | 0 <= i < |r| ensures earlier(r[i], last) {
        assert r[i] in multiset(r) && r[i] in multiset(init);
        var k :| 0 <= k < |init| && init[k] == r[i];
        assert earlier(s[k], s[|s| - 1]);
      }
      InsertStably(less, earlier, r, last);
    }
  }

  /** Where the order tells any two elements apart, the sorted form is unique. */
  lemma {:induction false} SortedIsUnique<T(!new)>(less: (T, T) -> bool, a: seq<T>, b: seq<T>)
    requires StrictWeak(less) && Sorted(less, a) && Sorted(less, b) && multiset(a) == multiset(b)
    requires forall x, y :: x in a && y in a && !less(x, y) && !less(y, x) ==> x == y
    ensures a == b
    decreases |a|
  {
    SameSize(a, b);
    if a != [] {
      SameHead(less, a, b);
      SameTail(a, b);
      forall x | x in a[1..] ensures x in a {
      }
      SortedIsUnique(less, a[1..], b[1..]);
      assert a == [a[0]] + a[1..] && b == [b[0]] + b[1..];
    }
  }

  lemma SameHead<T(!new)>(less: (T, T) -> bool, a: seq<T>, b: seq<T>)
    requires Sorted(less, a) && Sorted(less, b) && multiset(a) == multiset(b) && a != [] && b != []
    requires forall x :: !less(x, x)
    requires forall x, y :: x in a && y in a && !less(x, y) && !less(y, x) ==> x == y
    ensures a[0] == b[0]
  {
    assert a[0] in multiset(b) && b[0] in multiset(a);
    var i :| 0 <= i < |b| && b[i] == a[0];
    var j :| 0 <= j < |a| && a[j] == b[0];
  }

  // Strings compare character by character, a proper prefix first.

  predicate StrLess(a: string, b: string)
    decreases |a|
  {
    b != [] && (a == [] || a[0] < b[0] || (a[0] == b[0] && StrLess(a[1..], b[1..])))
  }

  lemma {:induction false} StrTotal(a: string, b: string)
    ensures StrLess(a, b) || StrLess(b, a) || a == b
    ensures StrLess(a, b) ==> !StrLess(b, a)
    decreases |a|
  {
    if a != [] && b != [] && a[0] == b[0] {
      StrTotal(a[1..], b[1..]);
      assert a == [a[0]] + a[1..] && b == [b[0]] + b[1..];
    }
  }

  lemma {:induction false} StrTransitive(a: string, b: string, c: string)
    requires StrLess(a, b) && StrLess(b, c)
    ensures StrLess(a, c)
    decreases |a|
  {
    if a != [] && a[0] == b[0] == c[0] {
      StrTransitive(a[1..], b[1..], c[1..]);
    }
  }

  /** `a` and `b` agree before `i`, where `a` ends or has the smaller character. */
  ghost predicate FirstApart(a: string, b: string, i: nat) {
    i <= |a| && i < |b| && a[..i] == b[..i] && (i == |a| || a[i] < b[i])
  }

  lemma {:induction false} StrLessIs(a: string, b: string)
    ensures StrLess(a, b) <==> exists i: nat :: FirstApart(a, b, i)
    decreases |a|
  {
    if b == [] || a == [] || a[0] != b[0] {
      assert b != [] && (a == [] || a[0] < b[0]) ==> FirstApart(a, b, 0);
      if i: nat :| FirstApart(a, b, i) {
        FirstApartHead(a, b, i);
      }
    } else {
      StrLessIs(a[1..], b[1..]);
      forall i: nat ensures FirstApart(a[1..], b[1..], i) <==> FirstApart(a, b, i + 1) {
        FirstApartTail(a, b, i);
      }
      if i: nat :| FirstApart(a, b, i) {
        assert FirstApart(a[1..], b[1..], i - 1);
      }
    }
  }

  lemma FirstApartHead(a: string, b: string, i: nat)
    requires FirstApart(a, b, i)
    ensures if i == 0 then b != [] && (a == [] || a[0] < b[0]) else a != [] && b != [] && a[0] == b[0]
  {
    if i > 0 {
      assert a[..i][0] == b[..i][0];
    }
  }

  lemma FirstApartTail(a: string, b: string, i: nat)
    requires a != [] && b != [] && a[0] == b[0]
    ensures FirstApart(a[1..], b[1..], i) <==> FirstApart(a, b, i + 1)
  {
    if i <= |a[1..]| && i <= |b[1..]| {
      assert a[..i + 1] == [a[0]] + a[1..][..i] && b[..i + 1] == [b[0]] + b[1..][..i];
      assert a[..i + 1][1..] == a[1..][..i] && b[..i + 1][1..] == b[1..][..i];
    }
  }

  /** First by weight, then by name: the order of neighbours and of candidate paths. */
  predicate WeightThenName(w: real, a: string, v: real, b: string) {
    if w != v then w < v else StrLess(a, b)
  }

  lemma WeightThenNameTotal(w: real, a: string, v: real, b: string)
    ensures WeightThenName(w, a, v, b) || WeightThenName(v, b, w, a) || (w == v && a == b)
    ensures WeightThenName(w, a, v, b) ==> !WeightThenName(v, b, w, a)
  {
    StrTotal(a, b);
  }

  lemma WeightThenNameChains(w: real, a: string, v: real, b: string, u: real, c: string)
    requires !WeightThenName(v, b, w, a) && !WeightThenName(u, c, v, b)
    ensures !WeightThenName(u, c, w, a)
  {
    StrTotal(a, b);
    StrTotal(b, c);
    StrTotal(a, c);
    if StrLess(a, b) && StrLess(b, c) {
      StrTransitive(a, b, c);
    }
  }
}
