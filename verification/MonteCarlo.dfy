/** The compiled graph and the trials run over it: a depth-first walk whose marks carry a
    generation instead of being cleared. */
module MonteCarlo {
  import opened Sequences
  import opened Graph
  import opened Compromise

  /** A snapshot compiled to indices: nodes by the order of first mention, edges by their
      position in the snapshot. */
  datatype Compiled = Compiled(
    ids: seq<string>,
    index: map<string, nat>,
    seeds: seq<nat>,
    jewels: seq<nat>,
    byEdgeOnly: seq<bool>,
    adj: seq<seq<nat>>,
    to: seq<nat>,
    name: seq<Name>,
    p: seq<real>,
    basis: seq<string>)

  /** `ids` and `index` are inverse. */
  ghost predicate Indexed(ids: seq<string>, index: map<string, nat>) {
    && (forall i :: 0 <= i < |ids| ==> ids[i] in index && index[ids[i]] == i)
    && (forall id :: id in index ==> index[id] < |ids| && ids[index[id]] == id)
  }

  /** The edges are compiled in order: target, draw name and probability by position, and
      each edge listed under its source. */
  ghost predicate EdgesCompiled(g: Compiled, edges: seq<Edge>, nodes: map<string, Node>) {
    && |g.to| == |g.name| == |g.p| == |g.basis| == |edges|
    && |g.adj| == |g.ids|
    && (forall k :: 0 <= k < |edges| ==> edges[k].from in g.index && edges[k].to in g.index)
    && (forall k :: 0 <= k < |edges| ==>
          && g.to[k] == g.index[edges[k].to]
          && g.name[k] == DrawName(edges[k], nodes)
          && g.p[k] == ClampProb(edges[k].probability)
          && g.basis[k] == BasisIn(edges[k], nodes))
    && (forall u, k :: FiledUnder(g.adj, g.index, edges, u, k))
  }

  /** Edge `k` is listed at node `u` exactly when it starts there. */
  ghost predicate FiledUnder(adj: seq<seq<nat>>, index: map<string, nat>, edges: seq<Edge>, u: nat, k: nat) {
    u < |adj| ==> (k in adj[u] <==> k < |edges| && edges[k].from in index && index[edges[k].from] == u)
  }

  function BasisIn(e: Edge, nodes: map<string, Node>): string {
    WeightBasisOf(e, Lookup(nodes, e.from), Lookup(nodes, e.to))
  }

  ghost predicate RolesOf(ids: seq<string>, nodes: map<string, Node>, seeds: seq<nat>, jewels: seq<nat>, byEdgeOnly: seq<bool>) {
    && Distinct(seeds) && Distinct(jewels) && |byEdgeOnly| == |ids|
    && (forall i :: i in seeds <==> 0 <= i < |ids| && IsSeedId(nodes, ids[i]))
    && (forall i :: i in jewels <==> 0 <= i < |ids| && IsJewelId(nodes, ids[i]))
    && (forall i :: 0 <= i < |ids| ==> (byEdgeOnly[i] <==> ByEdgeOnly(nodes, ids[i])))
  }

  ghost predicate CompiledFrom(g: Compiled, snap: Snapshot) {
    var nodes := NodeById(snap.nodes);
    && Indexed(g.ids, g.index)
    && (forall id :: id in nodes ==> id in g.index)
    && EdgesCompiled(g, snap.edges, nodes)
    && RolesOf(g.ids, nodes, g.seeds, g.jewels, g.byEdgeOnly)
  }

  /** The index of `id`, appended when it is new. */
  function WithId(g: Compiled, id: string): (r: Compiled)
    ensures id in r.index
  {
    if id in g.index then g
    else g.(ids := g.ids + [id], index := g.index[id := |g.ids|], adj := g.adj + [[]])
  }

  lemma WithIdKeeps(g: Compiled, id: string, edges: seq<Edge>, nodes: map<string, Node>)
    requires Indexed(g.ids, g.index) && EdgesCompiled(g, edges, nodes)
    ensures var r := WithId(g, id);
      && Indexed(r.ids, r.index) && EdgesCompiled(r, edges, nodes)
      && g.index.Keys <= r.index.Keys
  {
    var r := WithId(g, id);
    forall u, k ensures FiledUnder(r.adj, r.index, edges, u, k) {
      assert FiledUnder(g.adj, g.index, edges, u, k);
    }
  }

  function WithEdge(g: Compiled, e: Edge, nodes: map<string, Node>): Compiled
    requires e.from in g.index && e.to in g.index && g.index[e.from] < |g.adj|
  {
    var u := g.index[e.from];
    g.(adj := g.adj[u := g.adj[u] + [|g.to|]],
       to := g.to + [g.index[e.to]],
       name := g.name + [DrawName(e, nodes)],
       p := g.p + [ClampProb(e.probability)],
       basis := g.basis + [BasisIn(e, nodes)])
  }

  lemma WithEdgeKeeps(g: Compiled, e: Edge, edges: seq<Edge>, nodes: map<string, Node>)
    requires Indexed(g.ids, g.index) && EdgesCompiled(g, edges, nodes)
    requires e.from in g.index && e.to in g.index
    ensures EdgesCompiled(WithEdge(g, e, nodes), edges + [e], nodes)
  {
    var r, all := WithEdge(g, e, nodes), edges + [e];
    forall u, k ensures FiledUnder(r.adj, r.index, all, u, k) {
      assert FiledUnder(g.adj, g.index, edges, u, k);
    }
  }

  /** One edge of the snapshot compiled: its end points get their indices, then the edge. */
  method CompileEdge(g: Compiled, edges: seq<Edge>, k: nat, nodes: map<string, Node>) returns (r: Compiled)
    requires k < |edges| && Indexed(g.ids, g.index) && EdgesCompiled(g, edges[..k], nodes)
    ensures Indexed(r.ids, r.index) && EdgesCompiled(r, edges[..k + 1], nodes)
    ensures r.seeds == g.seeds && r.jewels == g.jewels && r.byEdgeOnly == g.byEdgeOnly
    ensures g.index.Keys <= r.index.Keys
  {
    var e := edges[k];
    r := WithEnds(g, e, edges[..k], nodes);
    WithEdgeKeeps(r, e, edges[..k], nodes);
    assert edges[..k + 1] == edges[..k] + [e];
    r := WithEdge(r, e, nodes);
  }

  method WithEnds(g: Compiled, e: Edge, ghost edges: seq<Edge>, ghost nodes: map<string, Node>) returns (r: Compiled)
    requires Indexed(g.ids, g.index) && EdgesCompiled(g, edges, nodes)
    ensures Indexed(r.ids, r.index) && EdgesCompiled(r, edges, nodes) && e.from in r.index && e.to in r.index
    ensures r.seeds == g.seeds && r.jewels == g.jewels && r.byEdgeOnly == g.byEdgeOnly
    ensures g.index.Keys <= r.index.Keys
  {
    WithIdKeeps(g, e.from, edges, nodes);
    r := WithId(g, e.from);
    WithIdKeeps(r, e.to, edges, nodes);
    r := WithId(r, e.to);
  }

  method CompileGraph(snap: Snapshot) returns (g: Compiled)
    ensures CompiledFrom(g, snap)
  {
    var nodes := NodeById(snap.nodes);
    g := CompileNodes(snap.nodes);
    for k := 0 to |snap.edges|
      invariant Indexed(g.ids, g.index) && EdgesCompiled(g, snap.edges[..k], nodes)
      invariant g.seeds == [] && g.jewels == [] && g.byEdgeOnly == []
      invariant Mentioned(snap.nodes, g.index)
    {
      g := CompileEdge(g, snap.edges, k, nodes);
    }
    assert snap.edges[..|snap.edges|] == snap.edges;
    var seeds, jewels, byEdgeOnly := AssignRoles(g.ids, g.index, snap.nodes, nodes);
    g := g.(seeds := seeds, jewels := jewels, byEdgeOnly := byEdgeOnly);
  }

  method CompileNodes(nodes: seq<Node>) returns (g: Compiled)
    ensures Indexed(g.ids, g.index) && EdgesCompiled(g, [], NodeById(nodes))
    ensures g.seeds == [] && g.jewels == [] && g.byEdgeOnly == []
    ensures Mentioned(nodes, g.index)
  {
    g := Compiled([], map[], [], [], [], [], [], [], [], []);
    for i := 0 to |nodes|
      invariant Indexed(g.ids, g.index) && EdgesCompiled(g, [], NodeById(nodes))
      invariant g.seeds == [] && g.jewels == [] && g.byEdgeOnly == []
      invariant Mentioned(nodes[..i], g.index)
    {
      var id := nodes[i].id;
      WithIdKeeps(g, id, [], NodeById(nodes));
      MentionedGrows(nodes, i, g.index, WithId(g, id).index);
      g := WithId(g, id);
    }
    assert nodes[..|nodes|] == nodes;
  }

  ghost predicate Mentioned(nodes: seq<Node>, index: map<string, nat>) {
    forall i :: 0 <= i < |nodes| ==> nodes[i].id in index
  }

  lemma {:induction false} MentionedGrows(nodes: seq<Node>, i: nat, index: map<string, nat>, larger: map<string, nat>)
    requires i < |nodes| && Mentioned(nodes[..i], index)
    requires forall id :: id in index ==> id in larger
    requires nodes[i].id in larger
    ensures Mentioned(nodes[..i + 1], larger)
  {
    forall k | 0 <= k < i + 1 ensures nodes[k].id in larger {
      if k < i {
        assert nodes[..i][k].id in index;
      }
    }
  }

  /** `chosen` lists, once each, the counted indices whose id is wanted. */
  ghost predicate Chosen(ids: seq<string>, counted: set<nat>, wanted: string -> bool, chosen: seq<nat>) {
    && Distinct(chosen)
    && (forall i :: i in counted ==> i < |ids|)
    && (forall i :: i in chosen <==> i in counted && wanted(ids[i]))
  }

  function ChosenWith(chosen: seq<nat>, i: nat, wanted: bool): seq<nat> {
    if wanted then chosen + [i] else chosen
  }

  lemma ChosenKeeps(ids: seq<string>, counted: set<nat>, wanted: string -> bool, chosen: seq<nat>, i: nat)
    requires Chosen(ids, counted, wanted, chosen) && i < |ids| && i !in counted
    ensures Chosen(ids, counted + {i}, wanted, ChosenWith(chosen, i, wanted(ids[i])))
  {
    if wanted(ids[i]) {
      assert i !in chosen;
      DistinctSnoc(chosen, i);
      forall k ensures k in chosen + [i] <==> k in counted + {i} && wanted(ids[k]) {
        assert k in chosen + [i] <==> k in chosen || k == i;
      }
    }
  }

  ghost predicate Flagged(ids: seq<string>, counted: set<nat>, wanted: string -> bool, flags: seq<bool>) {
    && |flags| == |ids|
    && forall i :: 0 <= i < |ids| ==> (flags[i] <==> i in counted && wanted(ids[i]))
  }

  function FlaggedWith(flags: seq<bool>, i: nat, wanted: bool): seq<bool>
    requires i < |flags|
  {
    if wanted then flags[i := true] else flags
  }

  lemma FlaggedKeeps(ids: seq<string>, counted: set<nat>, wanted: string -> bool, flags: seq<bool>, i: nat)
    requires Flagged(ids, counted, wanted, flags) && i < |ids| && i !in counted
    ensures Flagged(ids, counted + {i}, wanted, FlaggedWith(flags, i, wanted(ids[i])))
  {
  }

  ghost predicate AllIn(listed: seq<Node>, index: map<string, nat>, counted: set<nat>) {
    forall j :: 0 <= j < |listed| ==> listed[j].id in index && index[listed[j].id] in counted
  }

  lemma {:induction false} AllInGrows(listed: seq<Node>, k: nat, index: map<string, nat>, counted: set<nat>, larger: set<nat>)
    requires k < |listed| && AllIn(listed[..k], index, counted) && counted <= larger
    requires listed[k].id in index && index[listed[k].id] in larger
    ensures AllIn(listed[..k + 1], index, larger)
  {
    forall j | 0 <= j < k + 1 ensures listed[j].id in index && index[listed[j].id] in larger {
      if j < k {
        assert listed[..k][j].id in index;
      }
    }
  }

  /** The roles given so far, to the counted indices. */
  ghost predicate RolesSoFar(ids: seq<string>, nodes: map<string, Node>, counted: set<nat>, seeds: seq<nat>, jewels: seq<nat>, byEdgeOnly: seq<bool>) {
    && Chosen(ids, counted, id => IsSeedId(nodes, id), seeds)
    && Chosen(ids, counted, id => IsJewelId(nodes, id), jewels)
    && Flagged(ids, counted, id => ByEdgeOnly(nodes, id), byEdgeOnly)
  }

  lemma RolesSoFarKeeps(ids: seq<string>, nodes: map<string, Node>, counted: set<nat>, seeds: seq<nat>, jewels: seq<nat>, byEdgeOnly: seq<bool>, i: nat)
    requires RolesSoFar(ids, nodes, counted, seeds, jewels, byEdgeOnly) && i < |ids| && i !in counted
    ensures RolesSoFar(ids, nodes, counted + {i},
                       ChosenWith(seeds, i, IsSeedId(nodes, ids[i])),
                       ChosenWith(jewels, i, IsJewelId(nodes, ids[i])),
                       FlaggedWith(byEdgeOnly, i, ByEdgeOnly(nodes, ids[i])))
  {
    ChosenKeeps(ids, counted, id => IsSeedId(nodes, id), seeds, i);
    ChosenKeeps(ids, counted, id => IsJewelId(nodes, id), jewels, i);
    FlaggedKeeps(ids, counted, id => ByEdgeOnly(nodes, id), byEdgeOnly, i);
  }

  /** Each node is a seed or a jewel once, however many times the snapshot lists it. */
  method AssignRoles(ids: seq<string>, index: map<string, nat>, listed: seq<Node>, nodes: map<string, Node>) returns (seeds: seq<nat>, jewels: seq<nat>, byEdgeOnly: seq<bool>)
    requires Indexed(ids, index) && nodes == NodeById(listed) && Mentioned(listed, index)
    ensures RolesOf(ids, nodes, seeds, jewels, byEdgeOnly)
  {
    seeds, jewels := [], [];
    byEdgeOnly := seq(|ids|, i => false);
    var counted: set<nat> := {};
    for k := 0 to |listed|
      invariant AllIn(listed[..k], index, counted)
      invariant RolesSoFar(ids, nodes, counted, seeds, jewels, byEdgeOnly)
    {
      counted, seeds, jewels, byEdgeOnly := AssignNext(ids, index, listed, nodes, k, counted, seeds, jewels, byEdgeOnly);
    }
    assert listed[..|listed|] == listed;
    AllCounted(ids, index, listed, nodes, counted);
  }

  method AssignNext(ids: seq<string>, index: map<string, nat>, listed: seq<Node>, nodes: map<string, Node>, k: nat,
                    counted: set<nat>, seeds: seq<nat>, jewels: seq<nat>, byEdgeOnly: seq<bool>)
    returns (counted': set<nat>, seeds': seq<nat>, jewels': seq<nat>, byEdgeOnly': seq<bool>)
    requires Indexed(ids, index) && nodes == NodeById(listed) && Mentioned(listed, index) && k < |listed|
    requires AllIn(listed[..k], index, counted) && RolesSoFar(ids, nodes, counted, seeds, jewels, byEdgeOnly)
    ensures AllIn(listed[..k + 1], index, counted') && RolesSoFar(ids, nodes, counted', seeds', jewels', byEdgeOnly')
  {
    var i := index[listed[k].id];
    AllInGrows(listed, k, index, counted, counted + {i});
    if i in counted {
      assert counted + {i} == counted;
      return counted, seeds, jewels, byEdgeOnly;
    }
    RolesSoFarKeeps(ids, nodes, counted, seeds, jewels, byEdgeOnly, i);
    counted' := counted + {i};
    seeds', jewels', byEdgeOnly' := AssignRole(nodes, ids[i], i, seeds, jewels, byEdgeOnly);
  }

  method AssignRole(nodes: map<string, Node>, id: string, i: nat, seeds: seq<nat>, jewels: seq<nat>, byEdgeOnly: seq<bool>) returns (seeds': seq<nat>, jewels': seq<nat>, byEdgeOnly': seq<bool>)
    requires id in nodes && i < |byEdgeOnly| && !byEdgeOnly[i]
    ensures seeds' == ChosenWith(seeds, i, IsSeedId(nodes, id))
    ensures jewels' == ChosenWith(jewels, i, IsJewelId(nodes, id))
    ensures byEdgeOnly' == FlaggedWith(byEdgeOnly, i, ByEdgeOnly(nodes, id))
  {
    seeds', jewels', byEdgeOnly' := seeds, jewels, byEdgeOnly;
    var node := nodes[id];
    var seed := node.IsSeed();
    if seed {
      seeds' := seeds + [i];
    }
    if node.crownJewel {
      jewels' := jewels + [i];
      byEdgeOnly' := byEdgeOnly[i := seed && !node.HeldByAttacker()];
    }
  }

  lemma {:induction false} AllCounted(ids: seq<string>, index: map<string, nat>, listed: seq<Node>, nodes: map<string, Node>, counted: set<nat>)
    requires Indexed(ids, index) && nodes == NodeById(listed) && AllIn(listed, index, counted)
    ensures forall i :: 0 <= i < |ids| && ids[i] in nodes ==> i in counted
  {
    forall i | 0 <= i < |ids| && ids[i] in nodes ensures i in counted {
      var n := nodes[ids[i]];
      assert n in listed && n.id == ids[i];
      var j :| 0 <= j < |listed| && listed[j] == n;
      assert index[listed[j].id] in counted;
    }
  }
}
