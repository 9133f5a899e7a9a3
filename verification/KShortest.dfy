/** The k best loopless routes between two nodes: the strongest-edge graph, the spur search
    and Yen's enumeration. */
module KShortest {
  import opened Options
  import opened Sequences
  import opened Sorting
  import opened Graph
  import opened Search
  import opened Paths
  import opened Yen
  import opened PathKeys
  import Heap

  // ── newWGraph ──────────────────────────────────────────────────────

  /** Parallel edges collapse to a cheapest one: `g` has an edge exactly where the list does,
      it is one of the list's, and none of the list's between those nodes is cheaper. */
  ghost predicate KeepsStrongest(g: WGraph, edges: seq<Edge>, index: map<string, Node>, negLog: real -> real) {
    && (forall u, v :: HasEdge(g, u, v) ==> IsStrongest(g[u][v], u, v, edges, index, negLog))
    && (forall e :: e in edges ==> HasEdge(g, e.from, e.to))
  }

  ghost predicate IsStrongest(oe: OutEdge, u: string, v: string, edges: seq<Edge>, index: map<string, Node>, negLog: real -> real) {
    && (exists e: Edge :: e in edges && e.from == u && e.to == v && oe == ToOutEdge(e, index, negLog))
    && (forall e: Edge :: e in edges && e.from == u && e.to == v ==> oe.weight <= ToOutEdge(e, index, negLog).weight)
  }

  method NewWGraph(edges: seq<Edge>, index: map<string, Node>, negLog: real -> real) returns (g: WGraph)
    requires IsNegLog(negLog)
    ensures KeepsStrongest(g, edges, index, negLog) && WellFormed(g)
  {
    g := map[];
    for i := 0 to |edges|
      invariant KeepsStrongest(g, edges[..i], index, negLog)
    {
      assert edges[..i + 1] == edges[..i] + [edges[i]];
      var oe := ToOutEdge(edges[i], index, negLog);
      var m := OutMap(g, edges[i].from);
      ghost var before := g;
      if oe.to !in m || oe.weight < m[oe.to].weight {
        g := g[edges[i].from := m[oe.to := oe]];
      }
      StrongestGrows(before, g, edges[..i], edges[i], index, negLog);
    }
    assert edges[..|edges|] == edges;
    StrongestIsWellFormed(g, edges, index, negLog);
  }

  lemma StrongestGrows(g: WGraph, g': WGraph, edges: seq<Edge>, e: Edge, index: map<string, Node>, negLog: real -> real)
    requires KeepsStrongest(g, edges, index, negLog)
    requires var oe, m := ToOutEdge(e, index, negLog), OutMap(g, e.from);
      g' == if oe.to !in m || oe.weight < m[oe.to].weight then g[e.from := m[oe.to := oe]] else g
    ensures KeepsStrongest(g', edges + [e], index, negLog)
  {
    var oe := ToOutEdge(e, index, negLog);
    assert e in edges + [e];
    forall u, v | HasEdge(g', u, v) ensures IsStrongest(g'[u][v], u, v, edges + [e], index, negLog) {
      if u == e.from && v == e.to {
        if HasEdge(g, u, v) {
          assert IsStrongest(g[u][v], u, v, edges, index, negLog);
        } else {
          assert forall d: Edge :: d in edges && d.from == u ==> d.to != v;
        }
      } else {
        assert IsStrongest(g[u][v], u, v, edges, index, negLog);
      }
    }
    forall d | d in edges + [e] ensures HasEdge(g', d.from, d.to) {
      assert d in edges || d == e;
    }
  }

  lemma StrongestIsWellFormed(g: WGraph, edges: seq<Edge>, index: map<string, Node>, negLog: real -> real)
    requires IsNegLog(negLog) && KeepsStrongest(g, edges, index, negLog)
    ensures WellFormed(g)
  {
    forall u, v | HasEdge(g, u, v) ensures g[u][v].to == v && g[u][v].weight >= 0.0 {
      assert IsStrongest(g[u][v], u, v, edges, index, negLog);
      var e: Edge :| e in edges && e.from == u && e.to == v && g[u][v] == ToOutEdge(e, index, negLog);
      NegLogSigns(negLog, ClampProb(e.probability));
    }
  }

  // ── shortest ───────────────────────────────────────────────────────

  function FromsOf(link: map<string, Link>): (prev: map<string, string>)
    ensures prev.Keys == link.Keys && forall v :: v in link ==> prev[v] == link[v].from
  {
    map v | v in link :: link[v].from
  }

  /** The working set of one spur search. */
  class SpurSearch {
    var dist: map<string, real>
    var prev: map<string, string>
    const pq: Heap.MinHeap

    constructor (src: string)
      ensures fresh(pq) && Holds(Start(src))
    {
      dist, prev := map[src := 0.0], map[];
      pq := new Heap.MinHeap();
      new;
      pq.Push(Heap.Item(src, 0.0));
    }

    ghost predicate Holds(s: State)
      reads this, pq
    {
      dist == s.dist && prev == FromsOf(s.link) && pq.a == s.pq
    }

    method RelaxEdge(cur: Heap.Item, e: OutEdge, ghost s: State)
      requires Holds(s)
      modifies this, pq
      ensures Holds(Relax(s, cur, e))
    {
      var nd := cur.d + e.weight;
      if e.to !in dist || nd < dist[e.to] {
        dist := dist[e.to := nd];
        prev := prev[e.to := cur.node];
        pq.Push(Heap.Item(e.to, nd));
      }
    }

    /** The inner loop: relax the edges that are not removed. */
    method RelaxKept(cur: Heap.Item, es: seq<OutEdge>, removedNodes: set<string>, removedEdges: set<(string, string)>, ghost s: State)
      requires Holds(s)
      modifies this, pq
      ensures Holds(RelaxAll(s, cur, Keep(cur.node, es, removedNodes, removedEdges)))
    {
      ghost var t, goal := s, RelaxAll(s, cur, Keep(cur.node, es, removedNodes, removedEdges));
      assert es[0..] == es;
      for k := 0 to |es|
        invariant Holds(t)
        invariant RelaxAll(t, cur, Keep(cur.node, es[k..], removedNodes, removedEdges)) == goal
      {
        var e := es[k];
        KeepHead(cur.node, es, k, removedNodes, removedEdges);
        if e.to in removedNodes || (cur.node, e.to) in removedEdges {
          continue;
        }
        RelaxAllHead(t, cur, e, Keep(cur.node, es[k + 1..], removedNodes, removedEdges));
        RelaxEdge(cur, e, t);
        t := Relax(t, cur, e);
      }
    }

    /** One turn of the loop over the graph less what is removed. */
    method TakeTurn(g: WGraph, removedNodes: set<string>, removedEdges: set<(string, string)>, ghost s: State)
      requires WellFormed(g) && Holds(s) && s.pq != []
      modifies this, pq
      ensures Holds(Turn(s, Restricted(g, removedNodes, removedEdges)))
    {
      var cur := pq.Pop();
      if cur.d > DistOf(dist, cur.node) {
        return;
      }
      var es := Neighbors(g, cur.node);
      RestrictedOut(g, removedNodes, removedEdges, cur.node);
      RelaxKept(cur, es, removedNodes, removedEdges, Rest(s));
    }
  }

  lemma {:induction false} KeepHead(u: string, es: seq<OutEdge>, k: nat, nodes: set<string>, edges: set<(string, string)>)
    requires k < |es|
    ensures Keep(u, es[k..], nodes, edges) ==
      if es[k].to in nodes || (u, es[k].to) in edges then Keep(u, es[k + 1..], nodes, edges)
      else [es[k]] + Keep(u, es[k + 1..], nodes, edges)
  {
    assert es[k..][1..] == es[k + 1..];
  }

  lemma {:induction false} RelaxAllHead(t: State, cur: Heap.Item, e: OutEdge, es: seq<OutEdge>)
    ensures RelaxAll(t, cur, [e] + es) == RelaxAll(Relax(t, cur, e), cur, es)
  {
    assert ([e] + es)[1..] == es;
  }

  lemma {:induction false} RestrictedOut(g: WGraph, nodes: set<string>, edges: set<(string, string)>, u: string)
    ensures Out(Restricted(g, nodes, edges), u) == Keep(u, NeighborList(g, u), nodes, edges)
  {
    if u !in g {
      var ids := Enumerate(OutMap(g, u).Keys);
      assert |multiset(ids)| == |ids|;
    }
  }

  ghost predicate BestAllowed(g: WGraph, src: string, dst: string, nodes: set<string>, edges: set<(string, string)>, p: seq<string>, c: real) {
    && Allowed(g, src, dst, nodes, edges, p) && Distinct(p) && c == PathCost(g, p)
    && forall q :: Allowed(g, src, dst, nodes, edges, q) ==> c <= PathCost(g, q)
  }

  /** `shortest`: a cheapest path avoiding what is removed, or nothing when there is none. */
  method Shortest(g: WGraph, src: string, dst: string, removedNodes: set<string>, removedEdges: set<(string, string)>) returns (r: Option<(seq<string>, real)>)
    requires WellFormed(g)
    ensures r.None? ==> forall p :: !Allowed(g, src, dst, removedNodes, removedEdges, p)
    ensures r.Some? ==> BestAllowed(g, src, dst, removedNodes, removedEdges, r.value.0, r.value.1)
  {
    if src in removedNodes || dst in removedNodes {
      return None;
    }
    ghost var adj := Restricted(g, removedNodes, removedEdges);
    RestrictedNonNegative(g, removedNodes, removedEdges);
    var sp := new SpurSearch(src);
    ghost var s, n: nat, rank: map<string, nat>, x := Start(src), 0, map[], src;
    StartInv(src, adj);
    while sp.pq.a != []
      invariant fresh(sp) && fresh(sp.pq)
      invariant s == Turns(Start(src), adj, n) && sp.Holds(s)
      invariant Inv(s, src, adj, rank, x, |Out(adj, x)|)
      decreases Universe(src, adj) - rank.Keys, |sp.pq.a|
    {
      ghost var t := Turn(s, adj);
      ghost var rank', x' := TurnKeeps(s, src, adj, rank, x, t);
      RankInUniverse(t.dist, t.link, src, adj, rank');
      sp.TakeTurn(g, removedNodes, removedEdges, s);
      s, n, rank, x := t, n + 1, rank', x';
    }
    assert s == State(s.dist, s.link, []);
    rank := RunFinishes(src, adj, s.dist, s.link);
    if dst !in sp.dist {
      NothingAllowed(g, src, dst, removedNodes, removedEdges, s.dist, s.link, rank);
      return None;
    }
    RouteIsBest(g, src, dst, removedNodes, removedEdges, s.dist, s.link, rank);
    var seq' := NodesBack(src, dst, sp.prev, s.dist, s.link, adj, rank);
    var p := Reverse(seq');
    return Some((p, sp.dist[dst]));
  }

  lemma NothingAllowed(g: WGraph, src: string, dst: string, nodes: set<string>, edges: set<(string, string)>, dist: map<string, real>, link: map<string, Link>, rank: map<string, nat>)
    requires WellFormed(g) && Finished(dist, link, src, Restricted(g, nodes, edges), rank) && dst !in dist
    ensures forall p :: !Allowed(g, src, dst, nodes, edges, p)
  {
    forall p | Allowed(g, src, dst, nodes, edges, p) ensures false {
      var es := PathIsWalk(g, nodes, edges, p);
      FinishedIsShortest(dist, link, src, Restricted(g, nodes, edges), rank, dst);
    }
  }

  lemma {:induction false} RouteIsBest(g: WGraph, src: string, dst: string, nodes: set<string>, edges: set<(string, string)>, dist: map<string, real>, link: map<string, Link>, rank: map<string, nat>)
    requires WellFormed(g) && Finished(dist, link, src, Restricted(g, nodes, edges), rank) && dst in dist && src !in nodes
    ensures var es := Route(dist, link, src, Restricted(g, nodes, edges), rank, dst);
      BestAllowed(g, src, dst, nodes, edges, NodesOf(src, es), dist[dst])
  {
    var adj := Restricted(g, nodes, edges);
    var es := Route(dist, link, src, adj, rank, dst);
    FinishedIsShortest(dist, link, src, adj, rank, dst);
    WalkIsPath(g, nodes, edges, src, es);
    forall q | Allowed(g, src, dst, nodes, edges, q) ensures dist[dst] <= PathCost(g, q) {
      var other := PathIsWalk(g, nodes, edges, q);
    }
  }

  lemma {:induction false} StartBack(src: string, dist: map<string, real>, link: map<string, Link>, adj: Adjacency, rank: map<string, nat>, dst: string)
    requires Finished(dist, link, src, adj, rank) && dst in dist
    ensures var front := Route(dist, link, src, adj, rank, dst);
      NodesOf(src, front)[..|front|] + Reversed([dst]) == NodesOf(src, front)
  {
    RouteIsReal(dist, link, src, adj, rank, dst);
    LastBack(NodesOf(src, Route(dist, link, src, adj, rank, dst)), dst);
  }

  lemma LastBack(ns: seq<string>, last: string)
    requires ns != [] && ns[|ns| - 1] == last
    ensures ns[..|ns| - 1] + Reversed([last]) == ns
  {
    assert Reversed([last]) == [last];
  }

  lemma {:induction false} StepBack(src: string, dist: map<string, real>, link: map<string, Link>, adj: Adjacency, rank: map<string, nat>, at: string, r: seq<string>)
    requires Finished(dist, link, src, adj, rank) && at in dist && at != src
    ensures at in link && link[at].from in rank && link[at].from in dist && (at in rank ==> rank[link[at].from] < rank[at])
    ensures var p := link[at].from;
      var front, shorter := Route(dist, link, src, adj, rank, at), Route(dist, link, src, adj, rank, p);
      NodesOf(src, front)[..|front|] + Reversed(r) == NodesOf(src, shorter)[..|shorter|] + Reversed(r + [p])
  {
    assert Linked(dist, link, adj, rank, at);
    var p := link[at].from;
    var shorter := Route(dist, link, src, adj, rank, p);
    RouteIsReal(dist, link, src, adj, rank, p);
    NodesSnoc(src, shorter, link[at].edge);
    MoveBack(NodesOf(src, shorter + [link[at].edge]), NodesOf(src, shorter), link[at].edge.to, |shorter|, p, r);
  }

  /** The last node met, moved from the front part to the reversed one. */
  lemma MoveBack(ns: seq<string>, shorter: seq<string>, last: string, n: nat, p: string, r: seq<string>)
    requires ns == shorter + [last] && |shorter| == n + 1 && shorter[n] == p
    ensures ns[..n + 1] + Reversed(r) == shorter[..n] + Reversed(r + [p])
  {
    ReversedSnoc(r, p);
    assert ns[..n + 1] == shorter[..n] + [p];
    SeqAssoc(shorter[..n], [p], Reversed(r));
  }

  /** The nodes of the recorded route, met from its end. */
  method NodesBack(src: string, dst: string, prev: map<string, string>, ghost dist: map<string, real>, ghost link: map<string, Link>, ghost adj: Adjacency, ghost rank: map<string, nat>) returns (r: seq<string>)
    requires Finished(dist, link, src, adj, rank) && prev == FromsOf(link) && dst in dist
    ensures Reversed(r) == NodesOf(src, Route(dist, link, src, adj, rank, dst))
  {
    ghost var goal := NodesOf(src, Route(dist, link, src, adj, rank, dst));
    r := [dst];
    var at := dst;
    ghost var front := Route(dist, link, src, adj, rank, dst);
    StartBack(src, dist, link, adj, rank, dst);
    while at != src
      invariant at in dist && front == Route(dist, link, src, adj, rank, at)
      invariant NodesOf(src, front)[..|front|] + Reversed(r) == goal
      decreases if at in rank then rank[at] else 0
    {
      var p := prev[at];
      StepBack(src, dist, link, adj, rank, at, r);
      front := Route(dist, link, src, adj, rank, p);
      r := r + [p];
      at := p;
    }
    assert NodesOf(src, [])[..0] + Reversed(r) == Reversed(r);
  }

  // ── kShortest ──────────────────────────────────────────────────────

  ghost predicate NamesDiffer(s: seq<Cand>) {
    forall i, j :: 0 <= i < j < |s| ==> PathKey(s[i].nodes) != PathKey(s[j].nodes)
  }

  method ContainsPath(s: seq<Cand>, nodes: seq<string>) returns (found: bool)
    ensures found <==> exists i :: 0 <= i < |s| && PathKey(s[i].nodes) == PathKey(nodes)
  {
    var key := PathKey(nodes);
    found := false;
    for i := 0 to |s|
      invariant !found && forall j :: 0 <= j < i ==> PathKey(s[j].nodes) != key
    {
      if PathKey(s[i].nodes) == key {
        return true;
      }
    }
  }

  method RemovedEdges(g: WGraph, src: string, dst: string, a: seq<Cand>, prev: seq<string>, i: nat) returns (removed: set<(string, string)>)
    requires Good(g, src, dst, a) && Simple(g, src, dst, prev) && i < |prev| - 1
    ensures removed == SpurEdges(a, prev[..i + 1])
  {
    var root := prev[..i + 1];
    removed := {};
    for k := 0 to |a|
      invariant removed == SpurEdges(a[..k], root)
    {
      SpurEdgesSnoc(a, k, root);
      var p := a[k].nodes;
      if |p| > i && p[..|root|] == root {
        if p != prev {
          EndsApart(g, src, dst, p, prev, i + 1);
        }
        // The next node is there: a loopless path to `dst` does not end at the spur.
        removed := removed + {(p[i], p[i + 1])};
      }
    }
    assert a[..|a|] == a;
  }

  lemma SpurEdgesSnoc(a: seq<Cand>, k: nat, root: seq<string>)
    requires k < |a| && root != []
    ensures SpurEdges(a[..k + 1], root) ==
      SpurEdges(a[..k], root) + if Extends(root, a[k].nodes) then {(root[|root| - 1], a[k].nodes[|root|])} else {}
  {
    assert a[..k + 1] == a[..k] + [a[k]];
    forall e | e in SpurEdges(a[..k], root) ensures e in SpurEdges(a[..k + 1], root) {
      var j :| 0 <= j < k && Extends(root, a[..k][j].nodes) && e == (root[|root| - 1], a[..k][j].nodes[|root|]);
      assert a[..k + 1][j] == a[j];
    }
    if Extends(root, a[k].nodes) {
      assert a[..k + 1][k] == a[k];
    }
  }

  method PathCostOf(g: WGraph, p: seq<string>) returns (cost: real, ok: bool)
    ensures ok <==> forall i :: 0 <= i < |p| - 1 ==> HasEdge(g, p[i], p[i + 1])
    ensures ok ==> cost == PathCost(g, p)
  {
    cost := 0.0;
    var i := 0;
    if p == [] {
      return 0.0, true;
    }
    while i + 1 < |p|
      invariant i < |p| && cost == PathCost(g, p[..i + 1])
      invariant forall j :: 0 <= j < i ==> HasEdge(g, p[j], p[j + 1])
    {
      if !HasEdge(g, p[i], p[i + 1]) {
        return 0.0, false;
      }
      CostSplits(g, p[..i + 2], i);
      assert p[..i + 2][..i + 1] == p[..i + 1] && p[..i + 2][i..] == [p[i], p[i + 1]];
      assert [p[i], p[i + 1]][1..] == [p[i + 1]];
      cost := cost + g[p[i]][p[i + 1]].weight;
      i := i + 1;
    }
    assert p[..|p|] == p;
    ok := true;
  }

  /** What the candidates become after one spur of the last accepted path. */
  ghost predicate SpurDone(g: WGraph, src: string, dst: string, a: seq<Cand>, b: seq<Cand>, b': seq<Cand>, root: seq<string>) {
    && Good(g, src, dst, b') && NamesDiffer(a + b')
    && (b' == b || exists c :: b' == b + [c])
    && (KeysTell(g, src, dst) ==> Covered(g, src, dst, root, a, b'))
  }

  lemma SpurFoundNothing(g: WGraph, src: string, dst: string, a: seq<Cand>, b: seq<Cand>, root: seq<string>, spur: string)
    requires root != [] && spur == root[|root| - 1]
    requires forall p :: !Allowed(g, spur, dst, Before(root), SpurEdges(a, root), p)
    ensures Covered(g, src, dst, root, a, b)
  {
    forall q | Simple(g, src, dst, q) && Extends(root, q) ensures Taken(a, q, |root| + 1) {
      if !Taken(a, q, |root| + 1) {
        SpurIsAllowed(g, src, dst, a, root, q);
      }
    }
  }

  /** A candidate built from the cheapest spur covers the root, wherever it stands. */
  lemma {:induction false} SpurFound(g: WGraph, src: string, dst: string, a: seq<Cand>, b: seq<Cand>, root: seq<string>, s: seq<string>, total: seq<string>, j: nat)
    requires root != [] && Extends(root, total) && j < |b|
    requires BestAllowed(g, root[|root| - 1], dst, Before(root), SpurEdges(a, root), s, PathCost(g, s))
    requires PathCost(g, total) == PathCost(g, root) + PathCost(g, s)
    requires b[j].nodes == total && b[j].cost == PathCost(g, total)
    ensures Covered(g, src, dst, root, a, b)
  {
    forall q | Simple(g, src, dst, q) && Extends(root, q) && !Taken(a, q, |root| + 1)
      ensures Beaten(b, root, PathCost(g, q))
    {
      SpurIsAllowed(g, src, dst, a, root, q);
      BestIsCheapest(g, root[|root| - 1], dst, Before(root), SpurEdges(a, root), s, q[|root| - 1..]);
      BeatenBy(b, root, j, PathCost(g, q));
    }
  }

  lemma {:induction false} BestIsCheapest(g: WGraph, src: string, dst: string, nodes: set<string>, edges: set<(string, string)>, p: seq<string>, q: seq<string>)
    requires BestAllowed(g, src, dst, nodes, edges, p, PathCost(g, p)) && Allowed(g, src, dst, nodes, edges, q)
    ensures PathCost(g, p) <= PathCost(g, q)
  {
  }

  lemma BeatenBy(b: seq<Cand>, root: seq<string>, j: nat, cost: real)
    requires j < |b| && Extends(root, b[j].nodes) && b[j].cost <= cost
    ensures Beaten(b, root, cost)
  {
  }

  /** A completed spur never shares its nodes with an accepted path. */
  lemma SpurIsNew(a: seq<Cand>, total: seq<string>, n: nat, i: nat)
    requires n <= |total| && !Taken(a, total, n) && i < |a|
    ensures a[i].nodes != total
  {
  }

  lemma NamesDifferSnoc(s: seq<Cand>, c: Cand)
    requires NamesDiffer(s) && forall i :: 0 <= i < |s| ==> PathKey(s[i].nodes) != PathKey(c.nodes)
    ensures NamesDiffer(s + [c])
  {
  }

  lemma {:induction false} SpurAdds(g: WGraph, src: string, dst: string, a: seq<Cand>, b: seq<Cand>, root: seq<string>, s: seq<string>, total: seq<string>)
    requires root != [] && Extends(root, total)
    requires Good(g, src, dst, b) && NamesDiffer(a + b) && Simple(g, src, dst, total)
    requires BestAllowed(g, root[|root| - 1], dst, Before(root), SpurEdges(a, root), s, PathCost(g, s))
    requires PathCost(g, total) == PathCost(g, root) + PathCost(g, s)
    requires forall i :: 0 <= i < |a| ==> PathKey(a[i].nodes) != PathKey(total)
    requires forall i :: 0 <= i < |b| ==> PathKey(b[i].nodes) != PathKey(total)
    ensures SpurDone(g, src, dst, a, b, b + [Cand(total, PathCost(g, total))], root)
  {
    var c := Cand(total, PathCost(g, total));
    SpurFound(g, src, dst, a, b + [c], root, s, total, |b|);
    NewKeyDiffers(a, b, c);
    SpurStaysGood(g, src, dst, b, c);
  }

  lemma NewKeyDiffers(a: seq<Cand>, b: seq<Cand>, c: Cand)
    requires NamesDiffer(a + b)
    requires forall i :: 0 <= i < |a| ==> PathKey(a[i].nodes) != PathKey(c.nodes)
    requires forall i :: 0 <= i < |b| ==> PathKey(b[i].nodes) != PathKey(c.nodes)
    ensures NamesDiffer(a + (b + [c]))
  {
    assert a + (b + [c]) == a + b + [c];
    NamesDifferSnoc(a + b, c);
  }

  lemma {:induction false} SpurStaysGood(g: WGraph, src: string, dst: string, b: seq<Cand>, c: Cand)
    requires Good(g, src, dst, b) && Simple(g, src, dst, c.nodes) && c.cost == PathCost(g, c.nodes)
    ensures Good(g, src, dst, b + [c])
  {
  }

  lemma {:induction false} SpurKnown(g: WGraph, src: string, dst: string, a: seq<Cand>, b: seq<Cand>, root: seq<string>, s: seq<string>, total: seq<string>)
    requires root != [] && Extends(root, total) && !Taken(a, total, |root| + 1)
    requires Good(g, src, dst, a) && Good(g, src, dst, b) && NamesDiffer(a + b) && Simple(g, src, dst, total)
    requires BestAllowed(g, root[|root| - 1], dst, Before(root), SpurEdges(a, root), s, PathCost(g, s))
    requires PathCost(g, total) == PathCost(g, root) + PathCost(g, s)
    requires (exists i :: 0 <= i < |a| && PathKey(a[i].nodes) == PathKey(total))
          || (exists i :: 0 <= i < |b| && PathKey(b[i].nodes) == PathKey(total))
    ensures SpurDone(g, src, dst, a, b, b, root)
  {
    if KeysTell(g, src, dst) {
      if i :| 0 <= i < |a| && PathKey(a[i].nodes) == PathKey(total) {
        SpurIsNew(a, total, |root| + 1, i);
        assert false;
      }
      var i :| 0 <= i < |b| && PathKey(b[i].nodes) == PathKey(total);
      SpurFound(g, src, dst, a, b, root, s, total, i);
    }
  }

  /** One spur node: the cheapest way on from it, if it is a path not seen before. */
  method Spur(g: WGraph, src: string, dst: string, a: seq<Cand>, b: seq<Cand>, prev: seq<string>, i: nat) returns (b': seq<Cand>)
    requires WellFormed(g) && Good(g, src, dst, a) && Good(g, src, dst, b) && NamesDiffer(a + b)
    requires Simple(g, src, dst, prev) && i < |prev| - 1
    ensures SpurDone(g, src, dst, a, b, b', prev[..i + 1])
  {
    var root := prev[..i + 1];
    var removedEdges := RemovedEdges(g, src, dst, a, prev, i);
    var removedNodes := set j | 0 <= j < |root| - 1 :: root[j];
    var r := Shortest(g, prev[i], dst, removedNodes, removedEdges);
    if r.None? {
      SpurFoundNothing(g, src, dst, a, b, root, root[|root| - 1]);
      return b;
    }
    var s := r.value.0;
    var total := root[..|root| - 1] + s;
    SpurCompletes(g, src, dst, a, root, prev, s);
    var cost, ok := PathCostOf(g, total);
    assert ok;
    var inA := ContainsPath(a, total);
    var inB := ContainsPath(b, total);
    if !inA && !inB {
      SpurAdds(g, src, dst, a, b, root, s, total);
      b' := b + [Cand(total, cost)];
    } else {
      SpurKnown(g, src, dst, a, b, root, s, total);
      b' := b;
    }
  }

  lemma CoveredButStep(g: WGraph, src: string, dst: string, a: seq<Cand>, b: seq<Cand>, b': seq<Cand>, m: nat)
    requires a != [] && 0 < m < |a[|a| - 1].nodes|
    requires CoveredBut(g, src, dst, a, b, m) && (b' == b || exists c :: b' == b + [c])
    requires Covered(g, src, dst, a[|a| - 1].nodes[..m], a, b')
    ensures CoveredBut(g, src, dst, a, b', m + 1)
  {
    var last := a[|a| - 1].nodes;
    forall k, n | 0 <= k < |a| && 0 < n < |a[k].nodes| && (n < m + 1 || !Extends(a[k].nodes[..n], last))
      ensures Covered(g, src, dst, a[k].nodes[..n], a, b')
    {
      var r := a[k].nodes[..n];
      if n == m && Extends(r, last) {
        assert r == last[..m];
      } else {
        assert Covered(g, src, dst, r, a, b);
        if b' != b {
          var c :| b' == b + [c];
          CoveredGrows(g, src, dst, r, a, b, c);
        }
      }
    }
  }

  lemma CoveredButAll(g: WGraph, src: string, dst: string, a: seq<Cand>, b: seq<Cand>)
    requires a != [] && CoveredBut(g, src, dst, a, b, |a[|a| - 1].nodes|)
    ensures AllCovered(g, src, dst, a, b)
  {
    var last := a[|a| - 1].nodes;
    forall k, n | 0 <= k < |a| && 0 < n < |a[k].nodes| ensures Covered(g, src, dst, a[k].nodes[..n], a, b) {
      assert n < |last| || !Extends(a[k].nodes[..n], last);
    }
  }

  /** All spur nodes of the last accepted path. */
  method Spurs(g: WGraph, src: string, dst: string, a: seq<Cand>, b: seq<Cand>) returns (b': seq<Cand>)
    requires WellFormed(g) && Good(g, src, dst, a) && Good(g, src, dst, b) && NamesDiffer(a + b) && a != []
    requires KeysTell(g, src, dst) ==> CoveredBut(g, src, dst, a, b, 0)
    ensures Good(g, src, dst, b') && NamesDiffer(a + b') && b <= b'
    ensures KeysTell(g, src, dst) ==> AllCovered(g, src, dst, a, b')
  {
    var prev := a[|a| - 1].nodes;
    b' := b;
    for i := 0 to |prev| - 1
      invariant Good(g, src, dst, b') && NamesDiffer(a + b') && b <= b'
      invariant KeysTell(g, src, dst) ==> CoveredBut(g, src, dst, a, b', i + 1)
    {
      ghost var before := b';
      b' := Spur(g, src, dst, a, b', prev, i);
      if KeysTell(g, src, dst) {
        CoveredButStep(g, src, dst, a, before, b', i + 1);
      }
    }
    if KeysTell(g, src, dst) {
      CoveredButAll(g, src, dst, a, b');
    }
  }

  predicate CandBefore(x: Cand, y: Cand) {
    WeightThenName(x.cost, PathKey(x.nodes), y.cost, PathKey(y.nodes))
  }

  lemma CandBeforeIsStrictWeak()
    ensures StrictWeak(CandBefore)
  {
    forall x, y, z: Cand
      ensures !CandBefore(x, x)
      ensures CandBefore(x, y) ==> !CandBefore(y, x)
      ensures !CandBefore(y, x) && !CandBefore(z, y) ==> !CandBefore(z, x)
    {
      WeightThenNameTotal(x.cost, PathKey(x.nodes), x.cost, PathKey(x.nodes));
      WeightThenNameTotal(x.cost, PathKey(x.nodes), y.cost, PathKey(y.nodes));
      if !CandBefore(y, x) && !CandBefore(z, y) {
        WeightThenNameChains(x.cost, PathKey(x.nodes), y.cost, PathKey(y.nodes), z.cost, PathKey(z.nodes));
      }
    }
  }

  /** `c` waits among `b`, is at least as cheap as any of them, and of those as cheap has the
      least name. */
  ghost predicate TakenFirst(c: Cand, b: seq<Cand>) {
    c in b && forall k :: 0 <= k < |b| ==> NoWorse(c, b[k])
  }

  predicate NoWorse(c: Cand, d: Cand) {
    c.cost < d.cost || (c.cost == d.cost && (PathKey(c.nodes) == PathKey(d.nodes) || StrLess(PathKey(c.nodes), PathKey(d.nodes))))
  }

  /** One round's choice: the candidates sorted, the first taken. */
  method Choose(b: seq<Cand>) returns (s: seq<Cand>)
    requires b != []
    ensures s != [] && multiset(s) == multiset(b) && Sorted(CandBefore, s) && TakenFirst(s[0], b)
  {
    CandBeforeIsStrictWeak();
    SortKeeps(CandBefore, b);
    s := SortBy(CandBefore, b);
    SortedTakesFirst(s, b);
  }

  lemma SortedTakesFirst(s: seq<Cand>, b: seq<Cand>)
    requires s != [] && multiset(s) == multiset(b) && Sorted(CandBefore, s)
    ensures TakenFirst(s[0], b)
  {
    assert s[0] in multiset(b);
    forall k | 0 <= k < |b| ensures NoWorse(s[0], b[k]) {
      assert b[k] in multiset(s);
      var i :| 0 <= i < |s| && s[i] == b[k];
      assert i > 0 ==> !CandBefore(s[i], s[0]);
      StrTotal(PathKey(s[0].nodes), PathKey(s[i].nodes));
    }
  }

  /** What waited goes on waiting, but for the candidate taken. */
  predicate Carried(b: seq<Cand>, taken: Cand, b': seq<Cand>) {
    forall k :: 0 <= k < |b| ==> b[k] == taken || b[k] in b'
  }

  /** `waiting` is who waited when each path after the first was accepted; each time the first of
      them was taken and the others went on waiting. */
  ghost predicate Rounds(a: seq<Cand>, waiting: seq<seq<Cand>>) {
    && |waiting| + 1 == |a|
    && (forall i :: 0 <= i < |waiting| ==> TakenFirst(a[i + 1], waiting[i]))
    && (forall i :: 0 <= i < |waiting| - 1 ==> Carried(waiting[i], a[i + 1], waiting[i + 1]))
  }

  /** And who waited covers every way to leave the paths accepted before. */
  ghost predicate RoundsCover(g: WGraph, src: string, dst: string, a: seq<Cand>, waiting: seq<seq<Cand>>) {
    |waiting| < |a| && forall i :: 0 <= i < |waiting| ==> AllCovered(g, src, dst, a[..i + 1], waiting[i])
  }

  /** Those left over since the last round. */
  ghost predicate LeftOver(a: seq<Cand>, waiting: seq<seq<Cand>>, b: seq<Cand>) {
    waiting != [] && a != [] ==> Carried(waiting[|waiting| - 1], a[|a| - 1], b)
  }

  lemma RoundAdds(a: seq<Cand>, waiting: seq<seq<Cand>>, b: seq<Cand>, s: seq<Cand>)
    requires Rounds(a, waiting) && LeftOver(a, waiting, b)
    requires s != [] && multiset(s) == multiset(b) && TakenFirst(s[0], b)
    ensures Rounds(a + [s[0]], waiting + [b]) && LeftOver(a + [s[0]], waiting + [b], s[1..])
  {
    forall k | 0 <= k < |b| ensures b[k] == s[0] || b[k] in s[1..] {
      assert b[k] in multiset(s);
    }
  }

  lemma RoundCovers(g: WGraph, src: string, dst: string, a: seq<Cand>, waiting: seq<seq<Cand>>, b: seq<Cand>, c: Cand)
    requires Rounds(a, waiting) && RoundsCover(g, src, dst, a, waiting) && AllCovered(g, src, dst, a, b)
    ensures RoundsCover(g, src, dst, a + [c], waiting + [b])
  {
    forall i | 0 <= i < |waiting| + 1 ensures AllCovered(g, src, dst, (a + [c])[..i + 1], (waiting + [b])[i]) {
      assert (a + [c])[..i + 1] == a[..i + 1];
      assert a[..|a|] == a;
    }
  }

  predicate Lists(a: seq<Cand>, q: seq<string>) {
    exists i :: 0 <= i < |a| && a[i].nodes == q
  }

  /** The list is in order of cost, and no loopless path left out is cheaper than one listed. */
  ghost predicate Ranked(g: WGraph, src: string, dst: string, a: seq<Cand>) {
    && (forall i, j :: 0 <= i < j < |a| ==> a[i].cost <= a[j].cost)
    && (forall q, i :: Simple(g, src, dst, q) && !Lists(a, q) && 0 <= i < |a| ==> a[i].cost <= PathCost(g, q))
  }

  ghost predicate Exhaustive(g: WGraph, src: string, dst: string, a: seq<Cand>) {
    forall q :: Simple(g, src, dst, q) ==> Lists(a, q)
  }

  lemma AcceptKeepsRanked(g: WGraph, src: string, dst: string, a: seq<Cand>, b: seq<Cand>, s: seq<Cand>)
    requires Good(g, src, dst, a) && Good(g, src, dst, b) && NamesDiffer(a + b) && a != []
    requires AllCovered(g, src, dst, a, b) && Ranked(g, src, dst, a)
    requires Sorted(CandBefore, s) && multiset(s) == multiset(b) && s != []
    ensures Ranked(g, src, dst, a + [s[0]])
  {
    assert s[0] in multiset(b);
    var k :| 0 <= k < |b| && b[k] == s[0];
    forall i | 0 <= i < |a| ensures a[i].nodes != s[0].nodes {
      assert (a + b)[i] == a[i] && (a + b)[|a| + k] == b[k];
    }
    assert !Lists(a, s[0].nodes);
    forall q | Simple(g, src, dst, q) && !Lists(a + [s[0]], q)
      ensures s[0].cost <= PathCost(g, q) && !Lists(a, q)
    {
      NotListed(a, s[0], q);
      var j := SomeCandidateBeats(g, src, dst, a, b, q);
      FirstIsCheapest(s, b, j);
    }
  }

  lemma NotListed(a: seq<Cand>, c: Cand, q: seq<string>)
    requires !Lists(a + [c], q)
    ensures !Lists(a, q)
  {
    forall i | 0 <= i < |a| ensures a[i].nodes != q {
      assert (a + [c])[i] == a[i];
    }
  }

  lemma FirstIsCheapest(s: seq<Cand>, b: seq<Cand>, j: nat)
    requires Sorted(CandBefore, s) && multiset(s) == multiset(b) && s != [] && j < |b|
    ensures s[0].cost <= b[j].cost
  {
    assert b[j] in multiset(s);
    var i :| 0 <= i < |s| && s[i] == b[j];
    assert i > 0 ==> !CandBefore(s[i], s[0]);
  }

  /** Taking the first candidate over into the accepted paths changes no key and no path. */
  lemma AcceptKeepsGood(g: WGraph, src: string, dst: string, a: seq<Cand>, b: seq<Cand>, s: seq<Cand>)
    requires Good(g, src, dst, a) && Good(g, src, dst, b) && NamesDiffer(a + b)
    requires multiset(s) == multiset(b) && s != []
    ensures Good(g, src, dst, a + [s[0]]) && Good(g, src, dst, s[1..]) && NamesDiffer(a + [s[0]] + s[1..])
  {
    forall i | 0 <= i < |s| ensures Simple(g, src, dst, s[i].nodes) && s[i].cost == PathCost(g, s[i].nodes) {
      assert s[i] in multiset(b);
    }
    DistinctKeysPermute(a + b, a + s, (c: Cand) => PathKey(c.nodes));
    assert a + [s[0]] + s[1..] == a + s;
  }

  /** With every root covered and no candidate left, every loopless path is listed. */
  lemma NothingLeft(g: WGraph, src: string, dst: string, a: seq<Cand>)
    requires Good(g, src, dst, a) && a != [] && AllCovered(g, src, dst, a, [])
    ensures Exhaustive(g, src, dst, a)
  {
    forall q | Simple(g, src, dst, q) ensures Lists(a, q) {
      if !Lists(a, q) {
        var j := SomeCandidateBeats(g, src, dst, a, [], q);
        assert false;
      }
    }
  }

  lemma AllowedByAll(g: WGraph, src: string, dst: string, p: seq<string>)
    requires Simple(g, src, dst, p)
    ensures Allowed(g, src, dst, {}, {}, p)
  {
  }

  /** Two accepted paths never share a key; so where two loopless paths do, one is missing
      however many are asked for. */
  lemma ClashLosesOne(g: WGraph, src: string, dst: string, a: seq<Cand>)
    requires NamesDiffer(a) && !KeysTell(g, src, dst)
    ensures !Exhaustive(g, src, dst, a)
  {
    var p, q :| Simple(g, src, dst, p) && Simple(g, src, dst, q) && PathKey(p) == PathKey(q) && p != q;
    OneOfTwoKeys(a, p, q);
    assert !Lists(a, p) || !Lists(a, q);
  }

  lemma {:induction false} OneOfTwoKeys(a: seq<Cand>, p: seq<string>, q: seq<string>)
    requires NamesDiffer(a) && PathKey(p) == PathKey(q) && p != q
    ensures Lists(a, p) ==> !Lists(a, q)
  {
    if i :| 0 <= i < |a| && a[i].nodes == p {
      forall j | 0 <= j < |a| ensures a[j].nodes != q {
        assert i != j ==> PathKey(a[i].nodes) != PathKey(a[j].nodes);
      }
    }
  }

  /** `kShortest`: loopless paths, no two of one name. Where names tell paths apart - and only
      there can it ever list them all - they are the cheapest ones, in order, as many as asked
      for or all there are. In every round the path taken is the first, by cost and then by name, of
      those found and not yet taken. */
  method KShortest(g: WGraph, src: string, dst: string, k: int) returns (a: seq<Cand>, ghost waiting: seq<seq<Cand>>)
    requires WellFormed(g)
    ensures a != [] ==> Rounds(a, waiting) && (KeysTell(g, src, dst) ==> RoundsCover(g, src, dst, a, waiting))
    ensures Good(g, src, dst, a) && NamesDiffer(a)
    ensures |a| <= if k <= 0 then 1 else k
    ensures KeysTell(g, src, dst) ==> Ranked(g, src, dst, a)
    ensures KeysTell(g, src, dst) ==> |a| == (if k <= 0 then 1 else k) || Exhaustive(g, src, dst, a)
    ensures !KeysTell(g, src, dst) ==> !Exhaustive(g, src, dst, a)
  {
    var limit := if k <= 0 then 1 else k;
    var first := Shortest(g, src, dst, {}, {});
    if first.None? {
      NoPathNoClash(g, src, dst);
      return [], [];
    }
    a, waiting := [Cand(first.value.0, first.value.1)], [];
    var b: seq<Cand> := [];
    FirstIsRanked(g, src, dst, a[0]);
    while |a| < limit
      invariant 0 < |a| <= limit
      invariant Good(g, src, dst, a) && Good(g, src, dst, b) && NamesDiffer(a + b)
      invariant KeysTell(g, src, dst) ==> CoveredBut(g, src, dst, a, b, 0) && Ranked(g, src, dst, a)
      invariant Rounds(a, waiting) && LeftOver(a, waiting, b)
      invariant KeysTell(g, src, dst) ==> RoundsCover(g, src, dst, a, waiting)
    {
      b := Spurs(g, src, dst, a, b);
      if b == [] {
        if KeysTell(g, src, dst) {
          NothingLeft(g, src, dst, a);
        }
        break;
      }
      var s := Choose(b);
      AcceptKeepsGood(g, src, dst, a, b, s);
      RoundAdds(a, waiting, b, s);
      if KeysTell(g, src, dst) {
        RoundCovers(g, src, dst, a, waiting, b, s[0]);
        AcceptKeepsRanked(g, src, dst, a, b, s);
        AcceptKeepsCovered(g, src, dst, a, b, s);
      }
      a, waiting := a + [s[0]], waiting + [b];
      b := s[1..];
    }
    PrefixNamesDiffer(a, b);
    if !KeysTell(g, src, dst) {
      ClashLosesOne(g, src, dst, a);
    }
  }

  lemma PrefixNamesDiffer(a: seq<Cand>, b: seq<Cand>)
    requires NamesDiffer(a + b)
    ensures NamesDiffer(a)
  {
    forall i, j | 0 <= i < j < |a| ensures PathKey(a[i].nodes) != PathKey(a[j].nodes) {
      assert (a + b)[i] == a[i] && (a + b)[j] == a[j];
    }
  }

  lemma NoPathNoClash(g: WGraph, src: string, dst: string)
    requires forall p :: !Allowed(g, src, dst, {}, {}, p)
    ensures forall p :: !Simple(g, src, dst, p)
  {
    forall p ensures !Simple(g, src, dst, p) {
      if Simple(g, src, dst, p) {
        AllowedByAll(g, src, dst, p);
      }
    }
  }

  lemma FirstIsRanked(g: WGraph, src: string, dst: string, c: Cand)
    requires BestAllowed(g, src, dst, {}, {}, c.nodes, c.cost)
    ensures Good(g, src, dst, [c]) && NamesDiffer([c] + []) && Ranked(g, src, dst, [c])
    ensures CoveredBut(g, src, dst, [c], [], 0)
  {
    forall q | Simple(g, src, dst, q) ensures c.cost <= PathCost(g, q) {
      AllowedByAll(g, src, dst, q);
    }
    forall k, n | 0 <= k < |[c]| && 0 < n < |[c][k].nodes| ensures Extends([c][k].nodes[..n], c.nodes) {
      assert [c][k].nodes[..n] == c.nodes[..n];
    }
  }
}
