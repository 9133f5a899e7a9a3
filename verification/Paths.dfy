/** The simple-graph view of path enumeration: one edge per ordered pair of nodes, so that a
    sequence of nodes names one path. */
module Paths {
  import opened Sequences
  import opened Graph
  import opened Sorting

  type WGraph = map<string, map<string, OutEdge>>

  predicate HasEdge(g: WGraph, u: string, v: string) {
    u in g && v in g[u]
  }

  function Weight(g: WGraph, u: string, v: string): real {
    if HasEdge(g, u, v) then g[u][v].weight else 0.0
  }

  ghost predicate WellFormed(g: WGraph) {
    forall u, v :: HasEdge(g, u, v) ==> g[u][v].to == v && g[u][v].weight >= 0.0
  }

  // ── Paths as node sequences ────────────────────────────────────────

  ghost predicate IsPath(g: WGraph, p: seq<string>) {
    p != [] && forall i :: 0 <= i < |p| - 1 ==> HasEdge(g, p[i], p[i + 1])
  }

  ghost predicate Links(g: WGraph, src: string, dst: string, p: seq<string>) {
    IsPath(g, p) && p[0] == src && p[|p| - 1] == dst
  }

  /** A loopless path from `src` to `dst`. */
  ghost predicate Simple(g: WGraph, src: string, dst: string, p: seq<string>) {
    Links(g, src, dst, p) && Distinct(p)
  }

  function PathCost(g: WGraph, p: seq<string>): real {
    if |p| <= 1 then 0.0 else Weight(g, p[0], p[1]) + PathCost(g, p[1..])
  }

  /** A path splits into a root and a spur at any of its nodes, and its cost with it. */
  lemma {:induction false} CostSplits(g: WGraph, p: seq<string>, i: nat)
    requires i < |p|
    ensures PathCost(g, p) == PathCost(g, p[..i + 1]) + PathCost(g, p[i..])
    decreases i
  {
    if i == 0 {
      assert p[0..] == p;
    } else {
      CostSplits(g, p[1..], i - 1);
      assert p[1..][..i] == p[..i + 1][1..];
      assert p[1..][i - 1..] == p[i..];
    }
  }

  /** The nodes and edges a spur search must not use. */
  ghost predicate Avoids(p: seq<string>, nodes: set<string>, edges: set<(string, string)>) {
    && (forall i :: 0 <= i < |p| ==> p[i] !in nodes)
    && (forall i :: 0 <= i < |p| - 1 ==> (p[i], p[i + 1]) !in edges)
  }

  ghost predicate Allowed(g: WGraph, src: string, dst: string, nodes: set<string>, edges: set<(string, string)>, p: seq<string>) {
    Links(g, src, dst, p) && Avoids(p, nodes, edges)
  }

  // ── Neighbours, in a reproducible order ────────────────────────────

  predicate EdgeBefore(a: OutEdge, b: OutEdge) {
    WeightThenName(a.weight, a.to, b.weight, b.to)
  }

  lemma EdgeBeforeIsStrictWeak()
    ensures StrictWeak(EdgeBefore)
  {
    forall x, y, z: OutEdge
      ensures !EdgeBefore(x, x)
      ensures EdgeBefore(x, y) ==> !EdgeBefore(y, x)
      ensures !EdgeBefore(y, x) && !EdgeBefore(z, y) ==> !EdgeBefore(z, x)
    {
      WeightThenNameTotal(x.weight, x.to, y.weight, y.to);
      WeightThenNameTotal(x.weight, x.to, x.weight, x.to);
      if !EdgeBefore(y, x) && !EdgeBefore(z, y) {
        WeightThenNameChains(x.weight, x.to, y.weight, y.to, z.weight, z.to);
      }
    }
  }

  ghost function Enumerate(s: set<string>): (r: seq<string>)
    ensures multiset(r) == multiset(s)
  {
    if s == {} then [] else
      var x :| x in s;
      [x] + Enumerate(s - {x})
  }

  function EdgesTo(m: map<string, OutEdge>, ids: seq<string>): seq<OutEdge>
    requires forall id :: id in ids ==> id in m
  {
    seq(|ids|, i requires 0 <= i < |ids| => m[ids[i]])
  }

  function OutMap(g: WGraph, u: string): map<string, OutEdge> {
    if u in g then g[u] else map[]
  }

  ghost function NeighborList(g: WGraph, u: string): seq<OutEdge> {
    var m := OutMap(g, u);
    var ids := Enumerate(m.Keys);
    assert forall id :: id in ids ==> id in multiset(ids);
    SortBy(EdgeBefore, EdgesTo(m, ids))
  }

  lemma {:induction false} EdgesToPermute(m: map<string, OutEdge>, a: seq<string>, b: seq<string>)
    requires multiset(a) == multiset(b)
    requires (forall id :: id in a ==> id in m) && (forall id :: id in b ==> id in m)
    ensures multiset(EdgesTo(m, a)) == multiset(EdgesTo(m, b))
    decreases |a|
  {
    SameSize(a, b);
    if a != [] {
      var i := TakeOut(a, b);
      var x, init, rest := b[i], a[..|a| - 1], b[..i] + b[i + 1..];
      EdgesToPermute(m, init, rest);
      EdgesToInsert(m, init, x, []);
      EdgesToInsert(m, b[..i], x, b[i + 1..]);
      assert a == init + [x] + [] && init + [] == init;
    }
  }

  lemma EdgesToInsert(m: map<string, OutEdge>, a: seq<string>, x: string, b: seq<string>)
    requires x in m && (forall id :: id in a ==> id in m) && (forall id :: id in b ==> id in m)
    ensures multiset(EdgesTo(m, a + [x] + b)) == multiset(EdgesTo(m, a + b)) + multiset{m[x]}
  {
    assert EdgesTo(m, a + [x] + b) == EdgesTo(m, a) + [m[x]] + EdgesTo(m, b);
    assert EdgesTo(m, a + b) == EdgesTo(m, a) + EdgesTo(m, b);
  }

  /** Whatever order the out-edges are met in, sorting them gives the one neighbour list. */
  lemma NeighborsAreReproducible(g: WGraph, u: string, ids: seq<string>)
    requires WellFormed(g) && multiset(ids) == multiset(OutMap(g, u).Keys)
    requires forall id :: id in ids ==> id in OutMap(g, u)
    ensures SortBy(EdgeBefore, EdgesTo(OutMap(g, u), ids)) == NeighborList(g, u)
  {
    var m := OutMap(g, u);
    var std := Enumerate(m.Keys);
    assert forall id :: id in std ==> id in multiset(std);
    var a, b := EdgesTo(m, ids), EdgesTo(m, std);
    EdgesToPermute(m, ids, std);
    EdgeBeforeIsStrictWeak();
    SortKeeps(EdgeBefore, a);
    SortKeeps(EdgeBefore, b);
    NeighborsDiffer(g, u, ids, SortBy(EdgeBefore, a));
    SortedIsUnique(EdgeBefore, SortBy(EdgeBefore, a), SortBy(EdgeBefore, b));
  }

  /** The order tells two neighbours apart: they have different names. */
  lemma NeighborsDiffer(g: WGraph, u: string, ids: seq<string>, s: seq<OutEdge>)
    requires WellFormed(g) && forall id :: id in ids ==> id in OutMap(g, u)
    requires multiset(s) == multiset(EdgesTo(OutMap(g, u), ids))
    ensures forall x, y :: x in s && y in s && !EdgeBefore(x, y) && !EdgeBefore(y, x) ==> x == y
  {
    forall x, y | x in s && y in s && !EdgeBefore(x, y) && !EdgeBefore(y, x) ensures x == y {
      WeightThenNameTotal(x.weight, x.to, y.weight, y.to);
      NeighborIs(g, u, ids, s, x);
      NeighborIs(g, u, ids, s, y);
    }
  }

  lemma NeighborIs(g: WGraph, u: string, ids: seq<string>, s: seq<OutEdge>, e: OutEdge)
    requires WellFormed(g) && forall id :: id in ids ==> id in OutMap(g, u)
    requires multiset(s) == multiset(EdgesTo(OutMap(g, u), ids)) && e in s
    ensures HasEdge(g, u, e.to) && g[u][e.to] == e && e.to in ids
  {
    var es := EdgesTo(OutMap(g, u), ids);
    assert e in multiset(s);
    assert e in multiset(es);
    var i :| 0 <= i < |es| && es[i] == e;
    assert HasEdge(g, u, ids[i]);
  }

  method Neighbors(g: WGraph, cur: string) returns (out: seq<OutEdge>)
    requires WellFormed(g)
    ensures out == NeighborList(g, cur)
  {
    var m := OutMap(g, cur);
    var ids: seq<string> := [];
    var rest := m.Keys;
    while rest != {}
      invariant rest <= m.Keys && multiset(ids) + multiset(rest) == multiset(m.Keys)
      invariant forall id :: id in ids ==> id in m
      decreases |rest|
    {
      var id :| id in rest;
      ids := ids + [id];
      rest := rest - {id};
    }
    NeighborsAreReproducible(g, cur, ids);
    out := SortBy(EdgeBefore, EdgesTo(m, ids));
  }

  /** The list is the neighbours, once each: the cheaper edge first and, of equal ones, the one to
      the lesser id. */
  lemma NeighborListIs(g: WGraph, u: string)
    requires WellFormed(g)
    ensures var out := NeighborList(g, u);
      && (forall e :: e in out <==> HasEdge(g, u, e.to) && g[u][e.to] == e)
      && forall i, j :: 0 <= i < j < |out| ==>
           out[i].weight < out[j].weight || (out[i].weight == out[j].weight && StrLess(out[i].to, out[j].to))
  {
    var ids := Enumerate(OutMap(g, u).Keys);
    assert forall id :: id in ids ==> id in multiset(ids);
    NeighborsInOrder(g, u, ids, NeighborList(g, u));
    forall e ensures e in NeighborList(g, u) <==> HasEdge(g, u, e.to) && g[u][e.to] == e {
      NeighborListHolds(g, u, e);
    }
  }

  lemma NeighborsInOrder(g: WGraph, u: string, ids: seq<string>, out: seq<OutEdge>)
    requires WellFormed(g) && multiset(ids) == multiset(OutMap(g, u).Keys)
    requires forall id :: id in ids ==> id in OutMap(g, u)
    requires out == SortBy(EdgeBefore, EdgesTo(OutMap(g, u), ids))
    ensures forall i, j :: 0 <= i < j < |out| ==>
      out[i].weight < out[j].weight || (out[i].weight == out[j].weight && StrLess(out[i].to, out[j].to))
  {
    EdgeBeforeIsStrictWeak();
    SortKeeps(EdgeBefore, EdgesTo(OutMap(g, u), ids));
    forall i, j | 0 <= i < j < |out|
      ensures out[i].weight < out[j].weight || (out[i].weight == out[j].weight && StrLess(out[i].to, out[j].to))
    {
      StrTotal(out[i].to, out[j].to);
      OneNeighborEach(g, u, ids, out, i, j);
    }
  }

  /** No two neighbours have one name. */
  lemma OneNeighborEach(g: WGraph, u: string, ids: seq<string>, out: seq<OutEdge>, i: nat, j: nat)
    requires WellFormed(g) && multiset(ids) == multiset(OutMap(g, u).Keys)
    requires forall id :: id in ids ==> id in OutMap(g, u)
    requires multiset(out) == multiset(EdgesTo(OutMap(g, u), ids)) && i < j < |out|
    ensures out[i].to != out[j].to
  {
    var es := EdgesTo(OutMap(g, u), ids);
    forall a, b | 0 <= a < b < |es| ensures es[a].to != es[b].to {
      OnceInSet(OutMap(g, u).Keys, ids, a, b);
      assert ids[a] in OutMap(g, u) && ids[b] in OutMap(g, u);
      assert HasEdge(g, u, ids[a]) && HasEdge(g, u, ids[b]);
    }
    DistinctKeysPermute(es, out, (e: OutEdge) => e.to);
  }

  lemma OnceInSet(s: set<string>, ids: seq<string>, a: nat, b: nat)
    requires multiset(ids) == multiset(s) && a < b < |ids|
    ensures ids[a] != ids[b]
  {
    if ids[a] == ids[b] {
      CountedTwice(ids, a, b);
    }
  }

  lemma CountedTwice(ids: seq<string>, a: nat, b: nat)
    requires a < b < |ids| && ids[a] == ids[b]
    ensures multiset(ids)[ids[a]] >= 2
  {
    assert ids == ids[..a] + [ids[a]] + ids[a + 1..b] + [ids[b]] + ids[b + 1..];
  }

  lemma NeighborListHolds(g: WGraph, u: string, e: OutEdge)
    requires WellFormed(g)
    ensures e in NeighborList(g, u) <==> HasEdge(g, u, e.to) && g[u][e.to] == e
  {
    var m := OutMap(g, u);
    var ids := Enumerate(m.Keys);
    assert forall id :: id in ids ==> id in multiset(ids);
    EdgeBeforeIsStrictWeak();
    SortKeeps(EdgeBefore, EdgesTo(m, ids));
    if e in NeighborList(g, u) {
      NeighborIs(g, u, ids, NeighborList(g, u), e);
    } else if HasEdge(g, u, e.to) && g[u][e.to] == e {
      assert e.to in multiset(m.Keys);
      NeighborListed(m, ids, NeighborList(g, u), e.to);
    }
  }

  lemma NeighborListed(m: map<string, OutEdge>, ids: seq<string>, s: seq<OutEdge>, id: string)
    requires (forall id :: id in ids ==> id in m) && id in multiset(ids)
    requires multiset(s) == multiset(EdgesTo(m, ids))
    ensures m[id] in s
  {
    var i :| 0 <= i < |ids| && ids[i] == id;
    assert EdgesTo(m, ids)[i] == m[id];
    assert m[id] in multiset(EdgesTo(m, ids));
    assert m[id] in multiset(s);
  }

  // ── The graph a spur search sees ───────────────────────────────────

  /** The neighbours left when some nodes and edges are removed. */
  function Keep(u: string, es: seq<OutEdge>, nodes: set<string>, edges: set<(string, string)>): seq<OutEdge>
    decreases |es|
  {
    if es == [] then []
    else (if es[0].to in nodes || (u, es[0].to) in edges then [] else [es[0]]) + Keep(u, es[1..], nodes, edges)
  }

  lemma {:induction false} KeepHolds(u: string, es: seq<OutEdge>, nodes: set<string>, edges: set<(string, string)>, e: OutEdge)
    ensures e in Keep(u, es, nodes, edges) <==> e in es && e.to !in nodes && (u, e.to) !in edges
    decreases |es|
  {
    if es != [] {
      assert es == [es[0]] + es[1..];
      KeepHolds(u, es[1..], nodes, edges, e);
    }
  }

  ghost function Restricted(g: WGraph, nodes: set<string>, edges: set<(string, string)>): Adjacency {
    map u | u in g :: Keep(u, NeighborList(g, u), nodes, edges)
  }

  lemma RestrictedHolds(g: WGraph, nodes: set<string>, edges: set<(string, string)>, u: string, e: OutEdge)
    requires WellFormed(g)
    ensures e in Out(Restricted(g, nodes, edges), u) <==>
      HasEdge(g, u, e.to) && g[u][e.to] == e && e.to !in nodes && (u, e.to) !in edges
  {
    NeighborListHolds(g, u, e);
    KeepHolds(u, NeighborList(g, u), nodes, edges, e);
  }

  lemma RestrictedNonNegative(g: WGraph, nodes: set<string>, edges: set<(string, string)>)
    requires WellFormed(g)
    ensures NonNegative(Restricted(g, nodes, edges))
  {
    var adj: Adjacency := Restricted(g, nodes, edges);
    forall u, i | u in adj && 0 <= i < |adj[u]| ensures adj[u][i].weight >= 0.0 {
      assert adj[u][i] in Out(adj, u);
      RestrictedHolds(g, nodes, edges, u, adj[u][i]);
    }
  }

  /** A walk of the restricted graph is an allowed path, at the same cost. */
  lemma {:induction false} WalkIsPath(g: WGraph, nodes: set<string>, edges: set<(string, string)>, u: string, es: seq<OutEdge>)
    requires WellFormed(g) && IsWalk(Restricted(g, nodes, edges), u, es) && u !in nodes
    ensures var p := NodesOf(u, es);
      Allowed(g, u, EndOf(u, es), nodes, edges, p) && PathCost(g, p) == Cost(es)
    decreases |es|
  {
    if es != [] {
      RestrictedHolds(g, nodes, edges, u, es[0]);
      WalkIsPath(g, nodes, edges, es[0].to, es[1..]);
      NodesCons(u, es);
      AllowedCons(g, es[0].to, EndOf(u, es), nodes, edges, NodesOf(es[0].to, es[1..]), u);
    }
  }

  lemma {:induction false} AllowedCons(g: WGraph, src: string, dst: string, nodes: set<string>, edges: set<(string, string)>, p: seq<string>, u: string)
    requires Allowed(g, src, dst, nodes, edges, p) && HasEdge(g, u, src)
    requires u !in nodes && (u, src) !in edges
    ensures Allowed(g, u, dst, nodes, edges, [u] + p)
    ensures PathCost(g, [u] + p) == Weight(g, u, src) + PathCost(g, p)
  {
    var q := [u] + p;
    assert q[1..] == p;
    forall i | 0 <= i < |q| - 1 ensures HasEdge(g, q[i], q[i + 1]) && (q[i], q[i + 1]) !in edges {
      assert i > 0 ==> HasEdge(g, p[i - 1], p[i]) && (p[i - 1], p[i]) !in edges;
    }
  }

  /** An allowed path is a walk of the restricted graph, at the same cost. */
  lemma {:induction false} PathIsWalk(g: WGraph, nodes: set<string>, edges: set<(string, string)>, p: seq<string>) returns (es: seq<OutEdge>)
    requires WellFormed(g) && IsPath(g, p) && Avoids(p, nodes, edges)
    ensures IsWalk(Restricted(g, nodes, edges), p[0], es) && EndOf(p[0], es) == p[|p| - 1]
    ensures PathCost(g, p) == Cost(es)
    decreases |p|
  {
    if |p| == 1 {
      es := [];
    } else {
      assert HasEdge(g, p[0], p[1]);
      var e := g[p[0]][p[1]];
      RestrictedHolds(g, nodes, edges, p[0], e);
      AvoidsTail(p, nodes, edges);
      var rest := PathIsWalk(g, nodes, edges, p[1..]);
      es := [e] + rest;
      assert es[1..] == rest;
    }
  }

  lemma AvoidsTail(p: seq<string>, nodes: set<string>, edges: set<(string, string)>)
    requires |p| > 1 && Avoids(p, nodes, edges)
    ensures Avoids(p[1..], nodes, edges)
  {
  }
}
