/** The priority queue of the shortest-path searches: a hand-written binary heap over a
    growable list. `SiftUp` and `SiftDown` say which cell moves where, ties included; the
    class runs them in place, and the lemmas say why the list stays a heap. */
module Heap {

  /** One queue entry: a node and the distance it was reached at when it was pushed. */
  datatype Item = Item(node: string, d: real)

  function Parent(j: nat): (i: nat)
    ensures i <= j && (i == j <==> j == 0)
  {
    if j == 0 then 0 else (j - 1) / 2
  }

  function Swap(a: seq<Item>, i: nat, j: nat): (r: seq<Item>)
    requires i < |a| && j < |a|
    ensures |r| == |a|
  {
    a[i := a[j]][j := a[i]]
  }

  function SiftUp(a: seq<Item>, j: nat): (r: seq<Item>)
    requires j < |a|
    ensures |r| == |a|
    decreases j
  {
    var i := Parent(j);
    if i == j || !(a[j].d < a[i].d) then a else SiftUp(Swap(a, i, j), i)
  }

  /** The child of `i` below `n` that sifting down compares with; the left one on a tie. */
  function Child(a: seq<Item>, i: nat, n: nat): (j: nat)
    requires n <= |a| && 2 * i + 1 < n
    ensures j == 2 * i + 1 || j == 2 * i + 2
    ensures j < n
  {
    var left := 2 * i + 1;
    if left + 1 < n && a[left + 1].d < a[left].d then left + 1 else left
  }

  function SiftDown(a: seq<Item>, i: nat, n: nat): (r: seq<Item>)
    requires i < n <= |a| || n == 0
    requires n <= |a|
    ensures |r| == |a|
    decreases n - i
  {
    if 2 * i + 1 >= n then a
    else
      var j := Child(a, i, n);
      if !(a[j].d < a[i].d) then a else SiftDown(Swap(a, i, j), j, n)
  }

  function Pushed(a: seq<Item>, it: Item): seq<Item> {
    SiftUp(a + [it], |a|)
  }

  /** What `pop` leaves in the list before it cuts the last cell off. */
  function Popped(a: seq<Item>): (r: seq<Item>)
    requires a != []
    ensures |r| == |a|
  {
    SiftDown(Swap(a, 0, |a| - 1), 0, |a| - 1)
  }

  ghost predicate IsHeap(a: seq<Item>, n: nat)
    requires n <= |a|
  {
    forall j :: 0 < j < n ==> a[Parent(j)].d <= a[j].d
  }

  /** A heap but for the cell `j` against its parent, where `j`'s children still respect
      the parent. */
  ghost predicate HeapAbove(a: seq<Item>, j: nat)
    requires j < |a|
  {
    && (forall c :: 0 < c < |a| && c != j ==> a[Parent(c)].d <= a[c].d)
    && (forall c :: 0 < c < |a| && Parent(c) == j && j > 0 ==> a[Parent(j)].d <= a[c].d)
  }

  /** A heap but for the cell `i` against its children, which still respect `i`'s parent. */
  ghost predicate HeapBelow(a: seq<Item>, i: nat, n: nat)
    requires i < n <= |a| || n == 0
    requires n <= |a|
  {
    && (forall c :: 0 < c < n && Parent(c) != i ==> a[Parent(c)].d <= a[c].d)
    && (forall c :: 0 < c < n && Parent(c) == i && i > 0 ==> a[Parent(i)].d <= a[c].d)
  }

  lemma SwapKeeps(a: seq<Item>, i: nat, j: nat)
    requires i < |a| && j < |a|
    ensures multiset(Swap(a, i, j)) == multiset(a)
  {
  }

  lemma {:induction false} SiftUpHeaps(a: seq<Item>, j: nat)
    requires j < |a| && HeapAbove(a, j)
    ensures IsHeap(SiftUp(a, j), |a|) && multiset(SiftUp(a, j)) == multiset(a)
    decreases j
  {
    var i := Parent(j);
    if i != j && a[j].d < a[i].d {
      SwapKeeps(a, i, j);
      SiftUpHeaps(Swap(a, i, j), i);
    }
  }

  lemma ChildIsLeast(a: seq<Item>, i: nat, n: nat)
    requires n <= |a| && 2 * i + 1 < n
    ensures var j := Child(a, i, n);
      Parent(j) == i && forall c :: 0 < c < n && Parent(c) == i ==> a[j].d <= a[c].d
  {
    assert forall c :: 0 < c < n && Parent(c) == i ==> c == 2 * i + 1 || c == 2 * i + 2;
  }

  lemma {:induction false} SiftDownKeeps(a: seq<Item>, i: nat, n: nat)
    requires i < n <= |a| || n == 0
    requires n <= |a|
    ensures var r := SiftDown(a, i, n);
      multiset(r) == multiset(a) && forall k :: n <= k < |a| ==> r[k] == a[k]
    decreases n - i
  {
    if 2 * i + 1 < n {
      var j := Child(a, i, n);
      SwapKeeps(a, i, j);
      if a[j].d < a[i].d {
        SiftDownKeeps(Swap(a, i, j), j, n);
      }
    }
  }

  lemma {:induction false} SiftDownHeaps(a: seq<Item>, i: nat, n: nat)
    requires i < n <= |a| || n == 0
    requires n <= |a| && HeapBelow(a, i, n)
    ensures IsHeap(SiftDown(a, i, n), n)
    decreases n - i
  {
    if 2 * i + 1 < n {
      var j := Child(a, i, n);
      ChildIsLeast(a, i, n);
      if a[j].d < a[i].d {
        SiftDownHeaps(Swap(a, i, j), j, n);
      }
    }
  }

  lemma {:induction false} RootIsLeast(a: seq<Item>, k: nat)
    requires k < |a| && IsHeap(a, |a|)
    ensures a[0].d <= a[k].d
    decreases k
  {
    if k > 0 {
      RootIsLeast(a, Parent(k));
    }
  }

  /** Pushing keeps a heap a heap, of the old entries and the new one. */
  lemma PushHeaps(a: seq<Item>, it: Item)
    requires IsHeap(a, |a|)
    ensures var r := Pushed(a, it);
      |r| == |a| + 1 && IsHeap(r, |r|) && multiset(r) == multiset(a) + multiset{it}
  {
    SiftUpHeaps(a + [it], |a|);
  }

  lemma PoppedHeaps(a: seq<Item>)
    requires a != [] && IsHeap(a, |a|)
    ensures IsHeap(Popped(a), |a| - 1)
  {
    var n, b := |a| - 1, Swap(a, 0, |a| - 1);
    forall c | 0 < c < n && Parent(c) != 0 ensures b[Parent(c)].d <= b[c].d {
      assert a[Parent(c)].d <= a[c].d;
    }
    SiftDownHeaps(b, 0, n);
  }

  lemma PoppedKeeps(a: seq<Item>)
    requires a != []
    ensures multiset(Popped(a)) == multiset(a) && Popped(a)[|a| - 1] == a[0]
  {
    SwapKeeps(a, 0, |a| - 1);
    SiftDownKeeps(Swap(a, 0, |a| - 1), 0, |a| - 1);
  }

  /** Popping a heap yields one of its least entries and leaves a heap of all the others. */
  lemma PopHeaps(a: seq<Item>)
    requires a != [] && IsHeap(a, |a|)
    ensures var n, r := |a| - 1, Popped(a);
      && IsHeap(r[..n], n)
      && multiset(a) == multiset(r[..n]) + multiset{r[n]}
      && forall it :: it in a ==> r[n].d <= it.d
  {
    var n, r := |a| - 1, Popped(a);
    PoppedHeaps(a);
    PoppedKeeps(a);
    assert r == r[..n] + [r[n]];
    forall it | it in a ensures r[n].d <= it.d {
      var k :| 0 <= k < |a| && a[k] == it;
      RootIsLeast(a, k);
    }
  }

  class MinHeap {
    var a: seq<Item>

    constructor ()
      ensures a == []
    {
      a := [];
    }

    method Clear()
      modifies this
      ensures a == []
    {
      a := [];
    }

    method Push(it: Item)
      modifies this
      ensures a == Pushed(old(a), it)
    {
      a := a + [it];
      var j: nat := |a| - 1;
      while true
        invariant j < |a| && SiftUp(a, j) == Pushed(old(a), it)
        decreases j
      {
        var i := if j == 0 then 0 else (j - 1) / 2;
        if i == j || !(a[j].d < a[i].d) {
          break;
        }
        a := a[i := a[j]][j := a[i]];
        j := i;
      }
    }

    method Pop() returns (top: Item)
      requires a != []
      modifies this
      ensures a == Popped(old(a))[..|old(a)| - 1] && top == Popped(old(a))[|old(a)| - 1]
    {
      var n := |a| - 1;
      a := a[0 := a[n]][n := a[0]];
      var i := 0;
      while true
        invariant |a| == n + 1 && (i < n || n == 0)
        invariant SiftDown(a, i, n) == Popped(old(a))
        decreases n - i
      {
        var j1 := 2 * i + 1;
        if j1 >= n {
          break;
        }
        var j := j1;
        if j1 + 1 < n && a[j1 + 1].d < a[j1].d {
          j := j1 + 1;
        }
        if !(a[j].d < a[i].d) {
          break;
        }
        a := a[i := a[j]][j := a[i]];
        i := j;
      }
      top := a[n];
      a := a[..n];
    }
  }
}
