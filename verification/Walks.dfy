/** One trial's walk as a state machine over marks: what crossing an edge does, what every
    step keeps, and that an emptied stack means the marks are exactly what is reachable. */
module Walks {
  import opened Graph
  import opened Compromise
  import opened MonteCarlo

  /** `visited` and `hit` are the nodes marked in this trial; `stack` is still to expand. */
  datatype Walk = Walk(visited: set<nat>, hit: set<nat>, stack: seq<nat>)

  /** Edge `k` opens in the trial. */
  type Live = nat -> bool

  predicate AreEdges(g: Compiled, ks: seq<nat>) {
    forall i :: 0 <= i < |ks| ==> ks[i] < |g.to|
  }

  predicate Shaped(g: Compiled) {
    && |g.adj| == |g.ids| == |g.byEdgeOnly| && |g.name| == |g.to|
    && (forall u :: 0 <= u < |g.adj| ==> AreEdges(g, g.adj[u]))
    && (forall k :: 0 <= k < |g.to| ==> g.to[k] < |g.ids|)
    && (forall i :: 0 <= i < |g.seeds| ==> g.seeds[i] < |g.ids|)
    && (forall i :: 0 <= i < |g.jewels| ==> g.jewels[i] < |g.ids|)
  }

  lemma CompiledIsShaped(g: Compiled, snap: Snapshot)
    requires CompiledFrom(g, snap)
    ensures Shaped(g)
  {
    forall u, i | 0 <= u < |g.adj| && 0 <= i < |g.adj[u]| ensures g.adj[u][i] < |g.to| {
      assert FiledUnder(g.adj, g.index, snap.edges, u, g.adj[u][i]);
    }
    forall i | 0 <= i < |g.seeds| ensures g.seeds[i] < |g.ids| {
      assert g.seeds[i] in g.seeds;
    }
    forall i | 0 <= i < |g.jewels| ensures g.jewels[i] < |g.ids| {
      assert g.jewels[i] in g.jewels;
    }
  }

  /** Crossing edge `k` from `cur`: an open edge to another node marks it, a jewel only an
      edge compromises is hit, and a node marked for the first time is to be expanded. */
  function Cross(g: Compiled, live: Live, cur: nat, w: Walk, k: nat): Walk
    requires Shaped(g) && k < |g.to|
  {
    var to := g.to[k];
    if to == cur || !live(k) then w
    else Walk(w.visited + {to},
              if g.byEdgeOnly[to] then w.hit + {to} else w.hit,
              if to in w.visited then w.stack else w.stack + [to])
  }

  function CrossAll(g: Compiled, live: Live, cur: nat, w: Walk, ks: seq<nat>): Walk
    requires Shaped(g) && AreEdges(g, ks)
  {
    if ks == [] then w
    else Cross(g, live, cur, CrossAll(g, live, cur, w, ks[..|ks| - 1]), ks[|ks| - 1])
  }

  /** Expanding the top of the stack. */
  function Expand(g: Compiled, live: Live, w: Walk): Walk
    requires Shaped(g) && w.stack != [] && w.stack[|w.stack| - 1] < |g.adj|
  {
    var cur := w.stack[|w.stack| - 1];
    CrossAll(g, live, cur, w.(stack := w.stack[..|w.stack| - 1]), g.adj[cur])
  }

  /** Every mark is justified by a route in the snapshot. */
  ghost predicate Justified(snap: Snapshot, open: Edge -> bool, g: Compiled, w: Walk) {
    && |g.byEdgeOnly| == |g.ids|
    && (forall i :: i in w.visited ==> i < |g.ids| && Reached(snap, open, g.ids[i]))
    && (forall i :: i in w.hit ==> i < |g.ids| && g.byEdgeOnly[i] && Entered(snap, open, g.ids[i]))
  }

  /** Edge `k` has been crossed if it can be. */
  predicate Crossed(g: Compiled, live: Live, cur: nat, w: Walk, k: nat) {
    k < |g.to| && live(k) && g.to[k] != cur ==>
      && g.to[k] in w.visited
      && (g.to[k] < |g.byEdgeOnly| && g.byEdgeOnly[g.to[k]] ==> g.to[k] in w.hit)
  }

  ghost predicate Expanded(g: Compiled, live: Live, w: Walk, i: nat) {
    i < |g.adj| ==> forall k :: k in g.adj[i] ==> Crossed(g, live, i, w, k)
  }

  /** Every marked node other than `cur` waits on the stack or is expanded. */
  ghost predicate Progressed(g: Compiled, live: Live, w: Walk, except: set<nat>) {
    && (forall i :: i in w.stack ==> i in w.visited)
    && (forall i :: i in w.visited && i !in except && i !in w.stack ==> Expanded(g, live, w, i))
  }

  /** Marks only grow. */
  ghost predicate Grows(w: Walk, w': Walk) {
    w.visited <= w'.visited && w.hit <= w'.hit
  }

  lemma ExpandedSurvives(g: Compiled, live: Live, w: Walk, w': Walk, i: nat)
    requires Expanded(g, live, w, i) && Grows(w, w')
    ensures Expanded(g, live, w', i)
  {
    if i < |g.adj| {
      forall k | k in g.adj[i] ensures Crossed(g, live, i, w', k) {
        assert Crossed(g, live, i, w, k);
      }
    }
  }

  lemma CrossProgresses(g: Compiled, live: Live, cur: nat, w: Walk, k: nat, except: set<nat>)
    requires Shaped(g) && k < |g.to| && Progressed(g, live, w, except)
    ensures var w' := Cross(g, live, cur, w, k);
      Progressed(g, live, w', except) && Grows(w, w') && Crossed(g, live, cur, w', k)
  {
    var w' := Cross(g, live, cur, w, k);
    forall i | i in w'.visited && i !in except && i !in w'.stack ensures Expanded(g, live, w', i) {
      assert i in w.visited && i !in w.stack;
      ExpandedSurvives(g, live, w, w', i);
    }
  }

  lemma {:induction false} CrossAllProgresses(g: Compiled, live: Live, cur: nat, w: Walk, ks: seq<nat>, except: set<nat>)
    requires Shaped(g) && AreEdges(g, ks) && Progressed(g, live, w, except)
    ensures var w' := CrossAll(g, live, cur, w, ks);
      Progressed(g, live, w', except) && Grows(w, w') && forall k :: k in ks ==> Crossed(g, live, cur, w', k)
  {
    if ks != [] {
      var n := |ks| - 1;
      var before, w' := CrossAll(g, live, cur, w, ks[..n]), CrossAll(g, live, cur, w, ks);
      CrossAllProgresses(g, live, cur, w, ks[..n], except);
      CrossProgresses(g, live, cur, before, ks[n], except);
      forall k | k in ks ensures Crossed(g, live, cur, w', k) {
        assert ks == ks[..n] + [ks[n]];
        assert k in ks[..n] ==> Crossed(g, live, cur, before, k);
      }
    }
  }

  /** Popping a node and crossing its edges leaves it expanded. */
  lemma ExpandProgresses(g: Compiled, live: Live, w: Walk)
    requires Shaped(g) && Progressed(g, live, w, {}) && w.stack != [] && w.stack[|w.stack| - 1] < |g.adj|
    ensures Progressed(g, live, Expand(g, live, w), {}) && Grows(w, Expand(g, live, w))
  {
    var n := |w.stack| - 1;
    var cur, popped, w' := w.stack[n], w.(stack := w.stack[..n]), Expand(g, live, w);
    assert Progressed(g, live, popped, {cur}) by {
      forall i | i in popped.visited && i !in {cur} && i !in popped.stack ensures Expanded(g, live, popped, i) {
        assert w.stack == w.stack[..n] + [cur];
        ExpandedSurvives(g, live, w, popped, i);
      }
    }
    CrossAllProgresses(g, live, cur, popped, g.adj[cur], {cur});
    assert Expanded(g, live, w', cur);
  }

  /** `open` says of the snapshot's edges what `live` says of their positions. */
  ghost predicate Opens(edges: seq<Edge>, live: Live, open: Edge -> bool) {
    forall k :: 0 <= k < |edges| ==> (live(k) <==> open(edges[k]))
  }

  /** Where a compiled edge starts and ends in the snapshot. */
  lemma EdgeEnds(snap: Snapshot, g: Compiled, cur: nat, k: nat)
    requires CompiledFrom(g, snap) && cur < |g.adj| && k in g.adj[cur]
    ensures k < |snap.edges| == |g.to| && cur < |g.ids| && g.to[k] < |g.ids|
    ensures snap.edges[k].from == g.ids[cur] && snap.edges[k].to == g.ids[g.to[k]]
    ensures g.to[k] != cur ==> snap.edges[k].from != snap.edges[k].to
  {
    assert FiledUnder(g.adj, g.index, snap.edges, cur, k);
  }

  lemma CrossJustified(snap: Snapshot, open: Edge -> bool, g: Compiled, live: Live, cur: nat, w: Walk, k: nat)
    requires Shaped(g) && k < |snap.edges| == |g.to| && (live(k) <==> open(snap.edges[k]))
    requires cur < |g.ids| && snap.edges[k].from == g.ids[cur] && snap.edges[k].to == g.ids[g.to[k]]
    requires g.to[k] != cur ==> snap.edges[k].from != snap.edges[k].to
    requires Justified(snap, open, g, w) && cur in w.visited
    ensures Justified(snap, open, g, Cross(g, live, cur, w, k))
  {
    var e := snap.edges[k];
    if g.to[k] != cur && live(k) {
      OpenEdgeReaches(snap, open, e);
      assert Entered(snap, open, e.to);
    }
  }

  lemma {:induction false} CrossAllJustified(snap: Snapshot, open: Edge -> bool, g: Compiled, live: Live, cur: nat, w: Walk, ks: seq<nat>)
    requires CompiledFrom(g, snap) && Shaped(g) && Opens(snap.edges, live, open)
    requires Justified(snap, open, g, w) && cur in w.visited && AreEdges(g, ks) && forall k :: k in ks ==> k in g.adj[cur]
    ensures var w' := CrossAll(g, live, cur, w, ks);
      Justified(snap, open, g, w') && cur in w'.visited
  {
    if ks != [] {
      var n := |ks| - 1;
      CrossAllJustified(snap, open, g, live, cur, w, ks[..n]);
      EdgeEnds(snap, g, cur, ks[n]);
      CrossJustified(snap, open, g, live, cur, CrossAll(g, live, cur, w, ks[..n]), ks[n]);
    }
  }

  ghost predicate WalkInv(snap: Snapshot, open: Edge -> bool, g: Compiled, live: Live, w: Walk) {
    && Justified(snap, open, g, w)
    && Progressed(g, live, w, {})
    && (forall s :: s in g.seeds ==> s in w.visited)
  }

  /** Every step of the walk keeps the invariant. */
  lemma ExpandKeeps(snap: Snapshot, open: Edge -> bool, g: Compiled, live: Live, w: Walk)
    requires CompiledFrom(g, snap) && Shaped(g) && Opens(snap.edges, live, open)
    requires WalkInv(snap, open, g, live, w) && w.stack != []
    ensures w.stack[|w.stack| - 1] < |g.adj| && WalkInv(snap, open, g, live, Expand(g, live, w))
  {
    var n := |w.stack| - 1;
    var cur := w.stack[n];
    assert cur in w.visited;
    ExpandProgresses(g, live, w);
    CrossAllJustified(snap, open, g, live, cur, w.(stack := w.stack[..n]), g.adj[cur]);
  }

  /** The marks a finished walk leaves. */
  ghost predicate MarksReached(snap: Snapshot, open: Edge -> bool, g: Compiled, w: Walk) {
    && |g.byEdgeOnly| == |g.ids|
    && (forall i: nat :: i < |g.ids| ==> (i in w.visited <==> Reached(snap, open, g.ids[i])))
    && (forall i: nat :: i < |g.ids| && g.byEdgeOnly[i] ==> (i in w.hit <==> Entered(snap, open, g.ids[i])))
  }

  /** Where the compiled graph files an edge of the snapshot. */
  lemma Filed(snap: Snapshot, g: Compiled, e: Edge) returns (k: nat)
    requires CompiledFrom(g, snap) && e in snap.edges
    ensures e.from in g.index && e.to in g.index && g.index[e.from] < |g.adj|
    ensures k < |g.to| == |snap.edges| && snap.edges[k] == e
    ensures k in g.adj[g.index[e.from]] && g.to[k] == g.index[e.to]
    ensures e.from != e.to ==> g.index[e.from] != g.index[e.to]
  {
    k :| 0 <= k < |snap.edges| && snap.edges[k] == e;
    assert FiledUnder(g.adj, g.index, snap.edges, g.index[e.from], k);
  }

  lemma EmptiedIsClosed(snap: Snapshot, open: Edge -> bool, g: Compiled, live: Live, w: Walk, e: Edge)
    requires CompiledFrom(g, snap) && |g.byEdgeOnly| == |g.ids| && Opens(snap.edges, live, open)
    requires Progressed(g, live, w, {}) && w.stack == []
    requires e in snap.edges && open(e) && e.from in g.index && g.index[e.from] in w.visited
    ensures e.to in g.index && g.index[e.to] in w.visited
    ensures e.from != e.to && g.byEdgeOnly[g.index[e.to]] ==> g.index[e.to] in w.hit
  {
    var k := Filed(snap, g, e);
    var u := g.index[e.from];
    assert Expanded(g, live, w, u);
    assert Crossed(g, live, u, w, k);
  }

  lemma EmptiedHoldsReached(snap: Snapshot, open: Edge -> bool, g: Compiled, live: Live, w: Walk, v: string)
    requires CompiledFrom(g, snap) && Shaped(g) && Opens(snap.edges, live, open)
    requires WalkInv(snap, open, g, live, w) && w.stack == [] && Reached(snap, open, v)
    ensures v in g.index && g.index[v] in w.visited
  {
    var u, es :| CrossesFromSeed(snap, open, u, es) && Arrives(u, es) == v;
    var closed := set id | id in g.index && g.index[id] in w.visited;
    assert g.index[u] in g.seeds;
    forall e | e in snap.edges && open(e) && e.from in closed ensures e.to in closed {
      EmptiedIsClosed(snap, open, g, live, w, e);
    }
    ClosedHoldsReached(snap, open, closed, u, es);
  }

  /** When nothing is left to expand, exactly what is reachable is marked. */
  lemma EmptiedMarksReached(snap: Snapshot, open: Edge -> bool, g: Compiled, live: Live, w: Walk)
    requires CompiledFrom(g, snap) && Shaped(g) && Opens(snap.edges, live, open)
    requires WalkInv(snap, open, g, live, w) && w.stack == []
    ensures MarksReached(snap, open, g, w)
  {
    forall i: nat | i < |g.ids| && Reached(snap, open, g.ids[i]) ensures i in w.visited {
      EmptiedHoldsReached(snap, open, g, live, w, g.ids[i]);
    }
    forall i: nat | i < |g.ids| && g.byEdgeOnly[i] && Entered(snap, open, g.ids[i]) ensures i in w.hit {
      var e :| e in snap.edges && open(e) && e.to == g.ids[i] && e.from != g.ids[i] && Reached(snap, open, e.from);
      EmptiedHoldsReached(snap, open, g, live, w, e.from);
      EmptiedIsClosed(snap, open, g, live, w, e);
    }
  }

  /** What a walk ends with does not depend on what it started from but the seeds' marks. */
  lemma SeedsStart(snap: Snapshot, open: Edge -> bool, g: Compiled, live: Live, w: Walk)
    requires CompiledFrom(g, snap) && w.hit == {}
    requires w.visited == (set s | s in g.seeds) && w.visited == (set s | s in w.stack)
    ensures WalkInv(snap, open, g, live, w)
  {
    forall i | i in w.visited ensures i < |g.ids| && Reached(snap, open, g.ids[i]) {
      SeedIsReached(snap, open, g.ids[i]);
    }
  }
}
