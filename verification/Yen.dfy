/** Why Yen's algorithm misses nothing. A root is the part of an accepted path before one of
    its spur nodes; a root is covered when every loopless path that leaves all accepted
    paths right after it is matched by a candidate that starts with it and costs no more. */
module Yen {
  import opened Sequences
  import opened Paths

  datatype Cand = Cand(nodes: seq<string>, cost: real)

  ghost predicate Good(g: WGraph, src: string, dst: string, s: seq<Cand>) {
    forall k :: 0 <= k < |s| ==> Simple(g, src, dst, s[k].nodes) && s[k].cost == PathCost(g, s[k].nodes)
  }

  /** `r` is a proper prefix of `p`. */
  predicate Extends(r: seq<string>, p: seq<string>) {
    |r| < |p| && p[..|r|] == r
  }

  /** Some path of `a` starts with the first `n` nodes of `q`. */
  ghost predicate Taken(a: seq<Cand>, q: seq<string>, n: nat)
    requires n <= |q|
  {
    exists k :: 0 <= k < |a| && n <= |a[k].nodes| && a[k].nodes[..n] == q[..n]
  }

  ghost predicate Beaten(b: seq<Cand>, r: seq<string>, cost: real) {
    exists k :: 0 <= k < |b| && Extends(r, b[k].nodes) && b[k].cost <= cost
  }

  ghost predicate Covered(g: WGraph, src: string, dst: string, r: seq<string>, a: seq<Cand>, b: seq<Cand>) {
    forall q {:trigger Simple(g, src, dst, q)} ::
      Simple(g, src, dst, q) && Extends(r, q) && !Taken(a, q, |r| + 1) ==> Beaten(b, r, PathCost(g, q))
  }

  /** Every root of every path of `a` is covered. */
  ghost predicate AllCovered(g: WGraph, src: string, dst: string, a: seq<Cand>, b: seq<Cand>) {
    forall k, n {:trigger a[k].nodes[..n]} :: 0 <= k < |a| && 0 < n < |a[k].nodes| ==>
      Covered(g, src, dst, a[k].nodes[..n], a, b)
  }

  /** Every root is, but for those of the last path of `a` from its `m`-th on. */
  ghost predicate CoveredBut(g: WGraph, src: string, dst: string, a: seq<Cand>, b: seq<Cand>, m: nat)
    requires a != []
  {
    var last := a[|a| - 1].nodes;
    forall k, n {:trigger a[k].nodes[..n]} ::
      && 0 <= k < |a| && 0 < n < |a[k].nodes|
      && (n < m || !Extends(a[k].nodes[..n], last))
      ==> Covered(g, src, dst, a[k].nodes[..n], a, b)
  }

  lemma CoveredGrows(g: WGraph, src: string, dst: string, r: seq<string>, a: seq<Cand>, b: seq<Cand>, c: Cand)
    requires Covered(g, src, dst, r, a, b)
    ensures Covered(g, src, dst, r, a, b + [c])
  {
    forall q | Simple(g, src, dst, q) && Extends(r, q) && !Taken(a, q, |r| + 1)
      ensures Beaten(b + [c], r, PathCost(g, q))
    {
      var k :| 0 <= k < |b| && Extends(r, b[k].nodes) && b[k].cost <= PathCost(g, q);
      assert (b + [c])[k] == b[k];
    }
  }

  lemma TakenGrows(a: seq<Cand>, c: Cand, q: seq<string>, n: nat)
    requires n <= |q|
    ensures Taken(a, q, n) ==> Taken(a + [c], q, n)
  {
    if Taken(a, q, n) {
      var k :| 0 <= k < |a| && n <= |a[k].nodes| && a[k].nodes[..n] == q[..n];
      assert (a + [c])[k] == a[k];
    }
  }

  /** Accepting the cheapest candidate keeps a root covered, unless it starts with that root. */
  lemma CoveredMoves(g: WGraph, src: string, dst: string, r: seq<string>, a: seq<Cand>, b: seq<Cand>, s: seq<Cand>)
    requires Covered(g, src, dst, r, a, b)
    requires multiset(s) == multiset(b) && s != [] && !Extends(r, s[0].nodes)
    ensures Covered(g, src, dst, r, a + [s[0]], s[1..])
  {
    forall q | Simple(g, src, dst, q) && Extends(r, q) && !Taken(a + [s[0]], q, |r| + 1)
      ensures Beaten(s[1..], r, PathCost(g, q))
    {
      TakenGrows(a, s[0], q, |r| + 1);
      var k :| 0 <= k < |b| && Extends(r, b[k].nodes) && b[k].cost <= PathCost(g, q);
      assert b[k] in multiset(s);
      var j :| 0 <= j < |s| && s[j] == b[k];
      assert s[1..][j - 1] == b[k];
    }
  }

  /** Where a path that was not accepted leaves the accepted ones. */
  lemma LeavesSomewhere(g: WGraph, src: string, dst: string, a: seq<Cand>, q: seq<string>) returns (k: nat, n: nat)
    requires Good(g, src, dst, a) && a != [] && Simple(g, src, dst, q)
    requires forall i :: 0 <= i < |a| ==> a[i].nodes != q
    ensures k < |a| && 0 < n < |q| && n < |a[k].nodes| && a[k].nodes[..n] == q[..n]
    ensures !Taken(a, q, n + 1)
  {
    n, k := 1, 0;
    assert a[0].nodes[..1] == q[..1];
    while n < |q| && Taken(a, q, n + 1)
      invariant 0 < n <= |q| && k < |a| && n <= |a[k].nodes| && a[k].nodes[..n] == q[..n]
      decreases |q| - n
    {
      k :| 0 <= k < |a| && n + 1 <= |a[k].nodes| && a[k].nodes[..n + 1] == q[..n + 1];
      n := n + 1;
    }
    EndsApart(g, src, dst, a[k].nodes, q, n);
  }

  /** Neither of two different loopless paths to one end is a prefix of the other. */
  lemma EndsApart(g: WGraph, src: string, dst: string, p: seq<string>, q: seq<string>, n: nat)
    requires Simple(g, src, dst, p) && Simple(g, src, dst, q) && p != q
    requires 0 < n <= |p| && n <= |q| && p[..n] == q[..n]
    ensures n < |p| && n < |q|
  {
    assert p[n - 1] == p[..n][n - 1] && q[n - 1] == q[..n][n - 1];
    EndOnce(g, src, dst, p, n - 1);
    EndOnce(g, src, dst, q, n - 1);
    assert p[..|p|] == p && q[..|q|] == q;
  }

  lemma EndOnce(g: WGraph, src: string, dst: string, p: seq<string>, i: nat)
    requires Simple(g, src, dst, p) && i < |p|
    ensures p[i] == dst <==> i == |p| - 1
  {
    assert i < |p| - 1 ==> p[i] != p[|p| - 1];
  }

  /** With every root covered, a path not accepted is no cheaper than some candidate. */
  lemma SomeCandidateBeats(g: WGraph, src: string, dst: string, a: seq<Cand>, b: seq<Cand>, q: seq<string>) returns (j: nat)
    requires Good(g, src, dst, a) && a != [] && AllCovered(g, src, dst, a, b)
    requires Simple(g, src, dst, q) && forall i :: 0 <= i < |a| ==> a[i].nodes != q
    ensures j < |b| && b[j].cost <= PathCost(g, q)
  {
    var k, n := LeavesSomewhere(g, src, dst, a, q);
    j := RootBeats(g, src, dst, a, b, k, n, q);
  }

  lemma RootBeats(g: WGraph, src: string, dst: string, a: seq<Cand>, b: seq<Cand>, k: nat, n: nat, q: seq<string>) returns (j: nat)
    requires AllCovered(g, src, dst, a, b) && Simple(g, src, dst, q)
    requires k < |a| && 0 < n < |q| && n < |a[k].nodes| && a[k].nodes[..n] == q[..n] && !Taken(a, q, n + 1)
    ensures j < |b| && b[j].cost <= PathCost(g, q)
  {
    var r := a[k].nodes[..n];
    CoveredBeats(g, src, dst, r, a, b, q);
    j :| 0 <= j < |b| && Extends(r, b[j].nodes) && b[j].cost <= PathCost(g, q);
  }

  lemma {:induction false} CoveredBeats(g: WGraph, src: string, dst: string, r: seq<string>, a: seq<Cand>, b: seq<Cand>, q: seq<string>)
    requires Covered(g, src, dst, r, a, b) && Simple(g, src, dst, q) && Extends(r, q) && !Taken(a, q, |r| + 1)
    ensures Beaten(b, r, PathCost(g, q))
  {
  }

  /** Accepting the cheapest candidate keeps every root covered but the new path's own. */
  lemma AcceptKeepsCovered(g: WGraph, src: string, dst: string, a: seq<Cand>, b: seq<Cand>, s: seq<Cand>)
    requires AllCovered(g, src, dst, a, b) && multiset(s) == multiset(b) && s != []
    ensures CoveredBut(g, src, dst, a + [s[0]], s[1..], 0)
  {
    var a' := a + [s[0]];
    forall k, n | 0 <= k < |a'| && 0 < n < |a'[k].nodes| && !Extends(a'[k].nodes[..n], s[0].nodes)
      ensures Covered(g, src, dst, a'[k].nodes[..n], a', s[1..])
    {
      assert k < |a|;
      assert a'[k].nodes[..n] == a[k].nodes[..n];
      CoveredMoves(g, src, dst, a[k].nodes[..n], a, b, s);
    }
  }

  // ── One spur ───────────────────────────────────────────────────────

  /** The edges by which accepted paths leave `root`. */
  ghost function SpurEdges(a: seq<Cand>, root: seq<string>): set<(string, string)>
    requires root != []
  {
    set k | 0 <= k < |a| && Extends(root, a[k].nodes) :: (root[|root| - 1], a[k].nodes[|root|])
  }

  ghost function Before(root: seq<string>): set<string>
    requires root != []
  {
    set i | 0 <= i < |root| - 1 :: root[i]
  }

  /** What a path does after `root`, when it leaves the accepted ones there, is open to the
      spur search. */
  lemma {:induction false} SpurIsAllowed(g: WGraph, src: string, dst: string, a: seq<Cand>, root: seq<string>, q: seq<string>)
    requires root != [] && Simple(g, src, dst, q) && Extends(root, q) && !Taken(a, q, |root| + 1)
    ensures Allowed(g, root[|root| - 1], dst, Before(root), SpurEdges(a, root), q[|root| - 1..])
    ensures PathCost(g, q) == PathCost(g, root) + PathCost(g, q[|root| - 1..])
  {
    var i, s := |root| - 1, q[|root| - 1..];
    CostSplits(g, q, i);
    assert q[i] == root[i] by {
      assert q[..|root|][i] == root[i];
    }
    assert forall l :: 0 <= l < i ==> root[l] == q[..|root|][l] == q[l];
    forall j | 0 <= j < |s| ensures s[j] !in Before(root) {
      assert s[j] == q[i + j];
    }
    forall j | 0 <= j < |s| - 1
      ensures HasEdge(g, s[j], s[j + 1]) && (s[j], s[j + 1]) !in SpurEdges(a, root)
    {
      assert HasEdge(g, q[i + j], q[i + j + 1]);
      if (s[j], s[j + 1]) in SpurEdges(a, root) {
        assert q[i + j] == q[i];
        EdgeTaken(a, root, q);
      }
    }
  }

  lemma EdgeTaken(a: seq<Cand>, root: seq<string>, q: seq<string>)
    requires root != [] && Extends(root, q) && (root[|root| - 1], q[|root|]) in SpurEdges(a, root)
    ensures Taken(a, q, |root| + 1)
  {
    var n := |root|;
    var k :| 0 <= k < |a| && Extends(root, a[k].nodes) && q[n] == a[k].nodes[n];
    assert a[k].nodes[..n + 1] == root + [a[k].nodes[n]];
    assert q[..n + 1] == root + [q[n]];
  }

  lemma JoinLinks(g: WGraph, src: string, dst: string, p: seq<string>, i: nat, s: seq<string>)
    requires IsPath(g, p) && p[0] == src && i < |p|
    requires IsPath(g, s) && s[0] == p[i] && s[|s| - 1] == dst
    ensures Links(g, src, dst, p[..i] + s)
  {
    var total := p[..i] + s;
    forall j | 0 <= j < |total| - 1 ensures HasEdge(g, total[j], total[j + 1]) {
      if j < i {
        assert HasEdge(g, p[j], p[j + 1]);
      } else {
        assert HasEdge(g, s[j - i], s[j - i + 1]);
      }
    }
  }

  lemma JoinDistinct(a: seq<string>, s: seq<string>)
    requires Distinct(a) && Distinct(s) && forall j, l :: 0 <= j < |a| && 0 <= l < |s| ==> a[j] != s[l]
    ensures Distinct(a + s)
  {
  }

  /** A path that uses none of the spur edges leaves the accepted paths at the root. */
  lemma AvoidingLeaves(a: seq<Cand>, root: seq<string>, total: seq<string>)
    requires root != [] && Extends(root, total)
    requires (total[|root| - 1], total[|root|]) !in SpurEdges(a, root)
    ensures !Taken(a, total, |root| + 1)
  {
    var n := |root|;
    forall k | 0 <= k < |a| && n + 1 <= |a[k].nodes| ensures a[k].nodes[..n + 1] != total[..n + 1] {
      PrefixGives(a[k].nodes, total, n);
    }
    assert total[..n][n - 1] == total[n - 1];
  }

  lemma PrefixGives(x: seq<string>, y: seq<string>, n: nat)
    requires n < |x| && n < |y|
    ensures x[..n + 1] == y[..n + 1] ==> x[..n] == y[..n] && x[n] == y[n]
  {
    assert x[..n + 1][..n] == x[..n] && x[..n + 1][n] == x[n];
    assert y[..n + 1][..n] == y[..n] && y[..n + 1][n] == y[n];
  }

  /** What a spur search finds completes `root` to a loopless path that leaves the accepted
      ones there. */
  lemma SpurCompletes(g: WGraph, src: string, dst: string, a: seq<Cand>, root: seq<string>, p: seq<string>, s: seq<string>)
    requires Simple(g, src, dst, p) && root != [] && Extends(root, p)
    requires Allowed(g, root[|root| - 1], dst, Before(root), SpurEdges(a, root), s) && Distinct(s)
    ensures var total := root[..|root| - 1] + s;
      && Simple(g, src, dst, total) && Extends(root, total) && !Taken(a, total, |root| + 1)
      && PathCost(g, total) == PathCost(g, root) + PathCost(g, s)
  {
    var i, total := |root| - 1, root[..|root| - 1] + s;
    assert root[..i] == p[..i] && root[i] == p[i] by {
      assert forall j :: 0 <= j <= i ==> p[..|root|][j] == p[j];
    }
    JoinLinks(g, src, dst, p, i, s);
    forall j, l | 0 <= j < i && 0 <= l < |s| ensures root[..i][j] != s[l] {
      assert root[j] in Before(root);
    }
    JoinDistinct(root[..i], s);
    assert total[..|root|] == root && total[i..] == s;
    SpurMoves(p, root, s);
    CostSplits(g, total, i);
    assert (total[i], total[i + 1]) == (s[0], s[1]);
    AvoidingLeaves(a, root, total);
  }

  lemma SpurMoves(p: seq<string>, root: seq<string>, s: seq<string>)
    requires Distinct(p) && root != [] && Extends(root, p) && s != []
    requires s[0] == root[|root| - 1] && s[|s| - 1] == p[|p| - 1]
    ensures |s| > 1
  {
    assert p[..|root|][|root| - 1] == p[|root| - 1];
  }
}
