/** The path list and the simulation look at one graph: what a listed path promises of a
    trial, and which compromised jewels the list shows. */
module Agreement {
  import opened Graph
  import opened Compromise
  import opened Risk
  import opened Search
  import opened AttackPath
  import opened CriticalPaths
  import WhatIf

  /** A reported hop succeeds in a trial: its name's draw falls under its probability. */
  predicate StepOpen(draw: Draws, it: nat, st: Step) {
    draw(it, if st.cause != "" then CauseName(st.cause) else EdgeName(st.from, st.to, st.edgeType)) < st.probability
  }

  predicate AllOpen(draw: Draws, it: nat, steps: seq<Step>) {
    forall st :: st in steps ==> StepOpen(draw, it, st)
  }

  lemma EdgeBehind(snap: Snapshot, negLog: real -> real, draw: Draws, it: nat, u: string, oe: OutEdge) returns (e: Edge)
    requires oe in Out(AdjacencyOf(snap.edges, NodeById(snap.nodes), negLog), u)
    ensures e in snap.edges && e.from == u && e.to == oe.to
    ensures OpenIn(NodeById(snap.nodes), draw, it)(e) <==> StepOpen(draw, it, StepOf(Link(u, oe)))
  {
    var index := NodeById(snap.nodes);
    AdjacencyHoldsEdges(snap.edges, index, negLog, u, oe);
    e :| e in snap.edges && e.from == u && ToOutEdge(e, index, negLog) == oe;
    OpenAlike(index, negLog, draw, it, e);
  }

  lemma OpenAlike(index: map<string, Node>, negLog: real -> real, draw: Draws, it: nat, e: Edge)
    ensures OpenIn(index, draw, it)(e) <==> StepOpen(draw, it, StepOf(Link(e.from, ToOutEdge(e, index, negLog))))
  {
    var st := StepOf(Link(e.from, ToOutEdge(e, index, negLog)));
    assert DrawName(e, index) == if st.cause != "" then CauseName(st.cause) else EdgeName(st.from, st.to, st.edgeType);
    assert OpenIn(index, draw, it)(e) <==> draw(it, DrawName(e, index)) < ClampProb(e.probability);
  }

  /** `ds` goes hop by hop where `es` goes. */
  ghost predicate Follows(u: string, es: seq<OutEdge>, ds: seq<Edge>) {
    |ds| == |es| && forall i :: 0 <= i < |es| ==> ds[i].from == NodesOf(u, es)[i] && ds[i].to == es[i].to
  }

  lemma {:induction false} SameStops(u: string, es: seq<OutEdge>, e: Edge, more: seq<Edge>, ds: seq<Edge>)
    requires es != [] && e.from == u && e.to == es[0].to && Follows(es[0].to, es[1..], more) && ds == [e] + more
    ensures Follows(u, es, ds)
  {
    NodesCons(u, es);
    forall i | 1 <= i < |es| ensures ds[i].from == NodesOf(u, es)[i] && ds[i].to == es[i].to {
      assert ds[i] == more[i - 1] && es[1..][i - 1] == es[i];
    }
  }

  /** A walk of the search whose hops are all open is crossed in the trial. */
  lemma {:induction false} OpenWalkIsCrossed(snap: Snapshot, negLog: real -> real, draw: Draws, it: nat, u: string, es: seq<OutEdge>) returns (ds: seq<Edge>)
    requires IsWalk(AdjacencyOf(snap.edges, NodeById(snap.nodes), negLog), u, es)
    requires AllOpen(draw, it, StepsAlong(u, es))
    ensures Crosses(snap.edges, OpenIn(NodeById(snap.nodes), draw, it), u, ds)
    ensures Follows(u, es, ds)
    decreases |es|
  {
    if es == [] {
      ds := [];
    } else {
      var e := EdgeBehind(snap, negLog, draw, it, u, es[0]);
      assert StepsAlong(u, es)[0] in StepsAlong(u, es);
      OpenTail(draw, it, u, es);
      var more := OpenWalkIsCrossed(snap, negLog, draw, it, es[0].to, es[1..]);
      ds := [e] + more;
      SameStops(u, es, e, more, ds);
      assert ds[1..] == more;
    }
  }

  lemma StepTail(u: string, es: seq<OutEdge>, i: nat)
    requires i + 1 < |es|
    ensures StepsAlong(u, es)[i + 1] == StepsAlong(es[0].to, es[1..])[i]
  {
    assert NodesOf(u, es)[i + 1] == NodesOf(es[0].to, es[1..])[i];
  }

  lemma OpenTail(draw: Draws, it: nat, u: string, es: seq<OutEdge>)
    requires es != [] && AllOpen(draw, it, StepsAlong(u, es))
    ensures AllOpen(draw, it, StepsAlong(es[0].to, es[1..]))
  {
    var tail := StepsAlong(es[0].to, es[1..]);
    forall st | st in tail ensures StepOpen(draw, it, st) {
      var i :| 0 <= i < |tail| && tail[i] == st;
      StepTail(u, es, i);
      assert StepsAlong(u, es)[i + 1] in StepsAlong(u, es);
    }
  }

  /** The jewel a listed path ends at. */
  function JewelOf(p: AttackPath): string {
    Key(p).2
  }

  lemma {:induction false} CrossedToJewel(snap: Snapshot, open: Edge -> bool, s: string, ds: seq<Edge>, j: string)
    requires IsSeedId(NodeById(snap.nodes), s) && IsJewelId(NodeById(snap.nodes), j) && ds != []
    requires Crosses(snap.edges, open, s, ds) && Arrives(s, ds) == j && ds[|ds| - 1].from != j
    ensures Compromised(snap, open, j)
  {
    var n := |ds| - 1;
    var last := ds[n];
    assert ds == ds[..n] + [last];
    WhatIf.CrossesSplit(snap.edges, open, s, ds[..n], last);
    CrossedChain(snap.edges, open, s, ds[..n], last);
    ReachedByCrossing(snap, open, s, ds[..n], last.from);
    ReachedByCrossing(snap, open, s, ds, j);
    EnteredBy(snap, open, last, j);
  }

  lemma {:induction false} ReachedByCrossing(snap: Snapshot, open: Edge -> bool, s: string, es: seq<Edge>, v: string)
    requires IsSeedId(NodeById(snap.nodes), s) && Crosses(snap.edges, open, s, es) && Arrives(s, es) == v
    ensures Reached(snap, open, v)
  {
    assert CrossesFromSeed(snap, open, s, es);
  }

  lemma EnteredBy(snap: Snapshot, open: Edge -> bool, e: Edge, j: string)
    requires IsJewelId(NodeById(snap.nodes), j) && Reached(snap, open, j)
    requires e in snap.edges && open(e) && e.to == j && e.from != j && Reached(snap, open, e.from)
    ensures Compromised(snap, open, j)
  {
    assert Entered(snap, open, j);
  }

  lemma {:induction false} CrossedChain(edges: seq<Edge>, open: Edge -> bool, u: string, es: seq<Edge>, e: Edge)
    requires Crosses(edges, open, u, es + [e])
    ensures e in edges && open(e) && e.from == Arrives(u, es)
    decreases |es|
  {
    if es == [] {
      assert es + [e] == [e];
    } else {
      assert (es + [e])[1..] == es[1..] + [e];
      CrossedChain(edges, open, es[0].to, es[1..], e);
    }
  }

  lemma OpenRouteCompromises(snap: Snapshot, negLog: real -> real, draw: Draws, it: nat, p: AttackPath, s: string, j: string)
    requires var index := NodeById(snap.nodes);
      IsSeedId(index, s) && IsJewelId(index, j) && s != j && BestRoute(p, index, AdjacencyOf(snap.edges, index, negLog), s, j)
    requires AllOpen(draw, it, p.steps)
    ensures Compromised(snap, OpenIn(NodeById(snap.nodes), draw, it), j)
  {
    var index := NodeById(snap.nodes);
    var es :| Shortest(AdjacencyOf(snap.edges, index, negLog), s, j, es) && Reports(p, index, s, es);
    var ds := OpenWalkIsCrossed(snap, negLog, draw, it, s, es);
    var n := |es| - 1;
    assert NodesOf(s, es)[n] != NodesOf(s, es)[n + 1];
    CrossedToJewel(snap, OpenIn(index, draw, it), s, ds, j);
  }

  /** A listed path all of whose hops succeed in a trial - for a held jewel there are none -
      has its jewel compromised in that trial. */
  lemma ListedPathCompromises(snap: Snapshot, negLog: real -> real, draw: Draws, it: nat, paths: seq<AttackPath>, p: AttackPath)
    requires var index := NodeById(snap.nodes); Complete(paths, index, AdjacencyOf(snap.edges, index, negLog))
    requires p in paths && AllOpen(draw, it, p.steps)
    ensures JewelOf(p) in Trials(snap, draw)(it)
  {
    var index := NodeById(snap.nodes);
    var (direct, s, j) := Key(p);
    assert Belongs(p, index, AdjacencyOf(snap.edges, index, negLog));
    if direct {
      WhatIf.HeldInEveryTrial(snap, draw, s);
    } else {
      OpenRouteCompromises(snap, negLog, draw, it, p, s, j);
    }
  }

  /** A jewel has a path on the list. */
  ghost predicate Listed(paths: seq<AttackPath>, j: string) {
    exists p :: p in paths && JewelOf(p) == j
  }

  /** What the graph must offer for a jewel to be listed: it is held, or another seed has a
      route to it. */
  ghost predicate Listable(index: map<string, Node>, adj: Adjacency, j: string) {
    IsHeldJewelId(index, j) || exists s :: IsRoutePair(index, adj, s, j)
  }

  lemma ListedExactly(snap: Snapshot, negLog: real -> real, paths: seq<AttackPath>, j: string)
    requires var index := NodeById(snap.nodes); Complete(paths, index, AdjacencyOf(snap.edges, index, negLog))
    ensures var index := NodeById(snap.nodes);
      Listed(paths, j) <==> Listable(index, AdjacencyOf(snap.edges, index, negLog), j)
  {
    var index := NodeById(snap.nodes);
    var adj := AdjacencyOf(snap.edges, index, negLog);
    if p :| p in paths && JewelOf(p) == j {
      assert Belongs(p, index, adj);
    }
    if IsHeldJewelId(index, j) {
      assert Lists(paths, (true, j, j));
    } else if s :| IsRoutePair(index, adj, s, j) {
      assert Lists(paths, (false, s, j));
    }
  }

  lemma {:induction false} CrossedIsWalk(snap: Snapshot, negLog: real -> real, open: Edge -> bool, u: string, ds: seq<Edge>) returns (es: seq<OutEdge>)
    requires Crosses(snap.edges, open, u, ds)
    ensures IsWalk(AdjacencyOf(snap.edges, NodeById(snap.nodes), negLog), u, es) && EndOf(u, es) == Arrives(u, ds)
    decreases |ds|
  {
    if ds == [] {
      es := [];
    } else {
      var index := NodeById(snap.nodes);
      var oe := ToOutEdge(ds[0], index, negLog);
      AdjacencyHoldsEdges(snap.edges, index, negLog, u, oe);
      var rest := CrossedIsWalk(snap, negLog, open, ds[0].to, ds[1..]);
      es := [oe] + rest;
      WalkCons(AdjacencyOf(snap.edges, index, negLog), u, oe, rest);
    }
  }

  lemma {:induction false} WalkCons(adj: Adjacency, u: string, oe: OutEdge, rest: seq<OutEdge>)
    requires oe in Out(adj, u) && IsWalk(adj, oe.to, rest)
    ensures IsWalk(adj, u, [oe] + rest) && EndOf(u, [oe] + rest) == EndOf(oe.to, rest)
  {
    assert ([oe] + rest)[1..] == rest;
  }

  lemma CompromisedIsReached(snap: Snapshot, open: Edge -> bool, j: string)
    requires Compromised(snap, open, j)
    ensures Reached(snap, open, j)
  {
    if ByEdgeOnly(NodeById(snap.nodes), j) {
      var e :| e in snap.edges && open(e) && e.to == j && e.from != j && Reached(snap, open, e.from);
      OpenEdgeReaches(snap, open, e);
    }
  }

  /** A jewel compromised in any trial is on the list, unless the only seed that reaches it is
      the jewel itself, not held: an attack that leaves it and comes back over a cycle. */
  lemma CompromisedIsListed(snap: Snapshot, negLog: real -> real, draw: Draws, it: nat, paths: seq<AttackPath>, j: string)
    requires var index := NodeById(snap.nodes); Complete(paths, index, AdjacencyOf(snap.edges, index, negLog))
    requires j in Trials(snap, draw)(it)
    ensures Listed(paths, j) || ByEdgeOnly(NodeById(snap.nodes), j)
  {
    var index, open := NodeById(snap.nodes), OpenIn(NodeById(snap.nodes), draw, it);
    var adj := AdjacencyOf(snap.edges, index, negLog);
    CompromisedIsReached(snap, open, j);
    var u, ds :| CrossesFromSeed(snap, open, u, ds) && Arrives(u, ds) == j;
    var es := CrossedIsWalk(snap, negLog, open, u, ds);
    assert Reaches(adj, u, j);
    ListedExactly(snap, negLog, paths, j);
    if u != j {
      assert IsRoutePair(index, adj, u, j);
    } else if !ByEdgeOnly(index, j) {
      assert IsHeldJewelId(index, j);
    }
  }

  // ── The case the list leaves out ───────────────────────────────────

  const LOOPING := Node("j", "", "", true, false, false, true, false, false)
  const NEIGHBOUR := Node("a", "", "", false, false, false, false, false, false)

  /** An exposed jewel on a cycle. */
  function SelfCycle(): Snapshot {
    Snapshot([LOOPING, NEIGHBOUR], [Edge("T", "j", "a", 1.0, "", ""), Edge("T", "a", "j", 1.0, "", "")])
  }

  lemma SelfCycleNodes()
    ensures NodeById(SelfCycle().nodes) == map["j" := LOOPING, "a" := NEIGHBOUR]
  {
    var ns := SelfCycle().nodes;
    assert ns[..1] == [LOOPING] && ns[..1][..0] == [];
    assert NodeById([LOOPING]) == map["j" := LOOPING];
  }

  lemma SelfCycleCompromises(open: Edge -> bool)
    requires forall e :: e in SelfCycle().edges ==> open(e)
    ensures Compromised(SelfCycle(), open, "j")
  {
    var snap := SelfCycle();
    SelfCycleNodes();
    SeedIsReached(snap, open, "j");
    assert snap.edges[0] in snap.edges && snap.edges[1] in snap.edges;
    OpenEdgeReaches(snap, open, snap.edges[0]);
    assert Entered(snap, open, "j");
  }

  lemma SelfCycleNotListable(negLog: real -> real)
    ensures var index := NodeById(SelfCycle().nodes); !Listable(index, AdjacencyOf(SelfCycle().edges, index, negLog), "j")
  {
    SelfCycleNodes();
  }

  /** It is compromised in every trial whose draws are below 1, and no complete list shows it. */
  lemma SelfCycleIsUnlisted(negLog: real -> real, draw: Draws, it: nat, paths: seq<AttackPath>)
    requires forall name :: draw(it, name) < 1.0
    requires var index := NodeById(SelfCycle().nodes); Complete(paths, index, AdjacencyOf(SelfCycle().edges, index, negLog))
    ensures "j" in Trials(SelfCycle(), draw)(it) && !Listed(paths, "j")
  {
    var index := NodeById(SelfCycle().nodes);
    SelfCycleNodes();
    var open := OpenIn(index, draw, it);
    forall e | e in SelfCycle().edges ensures open(e) {
      assert draw(it, DrawName(e, index)) < 1.0;
    }
    SelfCycleCompromises(open);
    SelfCycleNotListable(negLog);
    ListedExactly(SelfCycle(), negLog, paths, "j");
  }
}
