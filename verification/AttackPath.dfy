/** The critical paths: for every seed the shortest route to every reachable crown jewel,
    with the jewels already held, ranked. */
module AttackPath {
  import opened Sequences
  import opened Graph
  import opened Search
  import Heap
  import Chain

  /** One hop, as a path reports it. */
  datatype Step = Step(edgeType: string, from: string, to: string, probability: real, basis: string, cause: string)

  datatype AttackPath = AttackPath(
    nodes: seq<Node>,
    steps: seq<Step>,
    score: real,
    upperBound: real,
    runtimeConfirmed: bool,
    direct: bool)

  function StepOf(l: Link): Step {
    Step(l.edge.typ, l.from, l.edge.to, l.edge.prob, l.edge.basis, l.edge.cause)
  }

  function StepsOf(link: map<string, Link>): (prev: map<string, Step>)
    ensures prev.Keys == link.Keys && forall v :: v in link ==> prev[v] == StepOf(link[v])
  {
    map v | v in link :: StepOf(link[v])
  }

  function HopsOf(steps: seq<Step>): (hs: seq<Chain.Hop>)
    ensures |hs| == |steps|
  {
    seq(|steps|, i requires 0 <= i < |steps| => Chain.Hop(steps[i].cause, steps[i].probability))
  }

  function WeakestHop(steps: seq<Step>): real {
    if steps == [] then 1.0 else Chain.Min(WeakestHop(steps[..|steps| - 1]), steps[|steps| - 1].probability)
  }

  predicate Alerted(nodes: seq<Node>) {
    exists n :: n in nodes && n.runtimeAlert
  }

  /** The one place a scored path is built. */
  method AssembleAttackPath(nodes: seq<Node>, steps: seq<Step>) returns (ap: AttackPath)
    requires nodes != []
    ensures ap == AttackPath(nodes, steps, Chain.Score(HopsOf(steps)), WeakestHop(steps), Alerted(nodes), false)
  {
    var minP := 1.0;
    var causes, probs := [], [];
    for i := 0 to |steps|
      invariant minP == WeakestHop(steps[..i])
      invariant |causes| == i && |probs| == i
      invariant forall k :: 0 <= k < i ==> causes[k] == steps[k].cause && probs[k] == steps[k].probability
    {
      assert steps[..i + 1][..i] == steps[..i];
      causes, probs := causes + [steps[i].cause], probs + [steps[i].probability];
      if steps[i].probability < minP {
        minP := steps[i].probability;
      }
    }
    assert steps[..|steps|] == steps;
    var score := Chain.ChainProbability(causes, probs);
    assert Chain.Hops(causes, probs) == HopsOf(steps);
    var runtime := false;
    for i := 0 to |nodes|
      invariant !runtime && forall k :: 0 <= k < i ==> !nodes[k].runtimeAlert
    {
      if nodes[i].runtimeAlert {
        runtime := true;
        break;
      }
    }
    ap := AttackPath(nodes, steps, score, minP, runtime, false);
  }

  /** The band a path reports: the plain product is at most the score, the score at most the
      upper bound, and the upper bound is the weakest hop - 1 where there is none. */
  lemma {:induction false} ScoreInBand(steps: seq<Step>)
    requires forall i :: 0 <= i < |steps| ==> 0.0 < steps[i].probability <= 1.0
    ensures var hs := HopsOf(steps);
      0.0 <= Chain.Mul(Chain.Ps(hs)) <= Chain.Score(hs) <= WeakestHop(steps) <= 1.0
    ensures forall i :: 0 <= i < |steps| ==> WeakestHop(steps) <= steps[i].probability
    ensures if steps == [] then WeakestHop(steps) == 1.0 else exists i :: 0 <= i < |steps| && WeakestHop(steps) == steps[i].probability
  {
    var hs := HopsOf(steps);
    Chain.ProductAtMostScore(hs);
    var i := WeakestIsAHop(steps);
    if steps == [] {
      assert Chain.Factors(hs) == [];
    } else {
      Chain.ScoreAtMostHop(hs, i);
    }
  }

  lemma {:induction false} WeakestIsAHop(steps: seq<Step>) returns (i: nat)
    requires forall k :: 0 <= k < |steps| ==> steps[k].probability <= 1.0
    ensures forall k :: 0 <= k < |steps| ==> WeakestHop(steps) <= steps[k].probability
    ensures if steps == [] then WeakestHop(steps) == 1.0 else i < |steps| && WeakestHop(steps) == steps[i].probability
  {
    i := 0;
    if steps != [] {
      var n := |steps| - 1;
      assert forall k :: 0 <= k < n ==> steps[..n][k] == steps[k];
      var k := WeakestIsAHop(steps[..n]);
      i := if n == 0 || WeakestHop(steps[..n]) > steps[n].probability then n else k;
    }
  }

  // ── The search ─────────────────────────────────────────────────────

  /** The working set of one search, reused from seed to seed. */
  class Scratch {
    var dist: map<string, real>
    var prev: map<string, Step>
    const pq: Heap.MinHeap

    constructor ()
      ensures fresh(pq)
    {
      dist, prev := map[], map[];
      pq := new Heap.MinHeap();
    }

    /** The fields hold the state `s`. */
    ghost predicate Holds(s: State)
      reads this, pq
    {
      dist == s.dist && prev == StepsOf(s.link) && pq.a == s.pq
    }

    method Reset()
      modifies this, pq
      ensures dist == map[] && prev == map[] && pq.a == []
    {
      dist, prev := map[], map[];
      pq.Clear();
    }
  }

  /** `dist` and `prev` are what a run from `src` leaves, whatever the scratch held before. */
  ghost predicate SearchResult(src: string, adj: Adjacency, dist: map<string, real>, prev: map<string, Step>) {
    exists link :: RunResult(src, adj, dist, link) && prev == StepsOf(link)
  }

  method Dijkstra(src: string, adj: Adjacency, sc: Scratch) returns (dist: map<string, real>, prev: map<string, Step>)
    requires NonNegative(adj)
    modifies sc, sc.pq
    ensures SearchResult(src, adj, dist, prev)
  {
    sc.Reset();
    sc.dist := sc.dist[src := 0.0];
    sc.pq.Push(Heap.Item(src, 0.0));
    ghost var s, n: nat, rank: map<string, nat>, x := Start(src), 0, map[], src;
    StartInv(src, adj);
    while sc.pq.a != []
      invariant s == Turns(Start(src), adj, n) && sc.Holds(s)
      invariant Inv(s, src, adj, rank, x, |Out(adj, x)|)
      decreases Universe(src, adj) - rank.Keys, |sc.pq.a|
    {
      ghost var t := Turn(s, adj);
      ghost var rank', x' := TurnKeeps(s, src, adj, rank, x, t);
      RankInUniverse(t.dist, t.link, src, adj, rank');
      TakeTurn(sc, adj, s);
      s, n, rank, x := t, n + 1, rank', x';
    }
    dist, prev := sc.dist, sc.prev;
    assert s == State(dist, s.link, []);
  }

  /** One turn of the loop, in place. */
  method TakeTurn(sc: Scratch, adj: Adjacency, ghost s: State)
    requires sc.Holds(s) && s.pq != []
    modifies sc, sc.pq
    ensures sc.Holds(Turn(s, adj))
  {
    var cur := sc.pq.Pop();
    if cur.d > DistOf(sc.dist, cur.node) {
      return;
    }
    var es := Out(adj, cur.node);
    ghost var t := Rest(s);
    for k := 0 to |es|
      invariant sc.Holds(t)
      invariant RelaxAll(t, cur, es[k..]) == Turn(s, adj)
    {
      assert es[k..][0] == es[k] && es[k..][1..] == es[k + 1..];
      RelaxEdge(sc, cur, es[k], t);
      t := Relax(t, cur, es[k]);
    }
  }

  method RelaxEdge(sc: Scratch, cur: Heap.Item, e: OutEdge, ghost s: State)
    requires sc.Holds(s)
    modifies sc, sc.pq
    ensures sc.Holds(Relax(s, cur, e))
  {
    var nd := cur.d + e.weight;
    if e.to !in sc.dist || nd < sc.dist[e.to] {
      sc.dist := sc.dist[e.to := nd];
      sc.prev := sc.prev[e.to := Step(e.typ, cur.node, e.to, e.prob, e.basis, e.cause)];
      sc.pq.Push(Heap.Item(e.to, nd));
    }
  }

  /** The same source and adjacency always give the same distances and the same links. */
  lemma SearchIsRepeatable(src: string, adj: Adjacency, dist: map<string, real>, prev: map<string, Step>, dist': map<string, real>, prev': map<string, Step>)
    requires SearchResult(src, adj, dist, prev) && SearchResult(src, adj, dist', prev')
    ensures dist == dist' && prev == prev'
  {
    var link :| RunResult(src, adj, dist, link) && prev == StepsOf(link);
    var link' :| RunResult(src, adj, dist', link') && prev' == StepsOf(link');
    RunIsUnique(src, adj, dist, link, dist', link');
  }

  // ── The routes ─────────────────────────────────────────────────────

  /** The steps of a walk, as a path reports them. */
  function StepsAlong(u: string, es: seq<OutEdge>): (steps: seq<Step>)
    ensures |steps| == |es|
  {
    seq(|es|, i requires 0 <= i < |es| => StepOf(Link(NodesOf(u, es)[i], es[i])))
  }

  function NodesAlong(index: map<string, Node>, u: string, es: seq<OutEdge>): (ns: seq<Node>)
    ensures |ns| == |es| + 1
  {
    seq(|es| + 1, i requires 0 <= i <= |es| => Lookup(index, NodesOf(u, es)[i]))
  }

  /** `es` is a walk from `u` to `v` without a repeated node, and no walk is cheaper. */
  ghost predicate Shortest(adj: Adjacency, u: string, v: string, es: seq<OutEdge>) {
    && IsWalk(adj, u, es) && EndOf(u, es) == v && Distinct(NodesOf(u, es))
    && forall other :: IsWalk(adj, u, other) && EndOf(u, other) == v ==> Cost(es) <= Cost(other)
  }

  /** `ap` reports the walk `es` from `u`. */
  ghost predicate Reports(ap: AttackPath, index: map<string, Node>, u: string, es: seq<OutEdge>) {
    var nodes, steps := NodesAlong(index, u, es), StepsAlong(u, es);
    ap == AttackPath(nodes, steps, Chain.Score(HopsOf(steps)), WeakestHop(steps), Alerted(nodes), false)
  }

  ghost predicate BestRoute(ap: AttackPath, index: map<string, Node>, adj: Adjacency, u: string, v: string) {
    exists es :: Shortest(adj, u, v, es) && Reports(ap, index, u, es)
  }

  ghost predicate Reaches(adj: Adjacency, u: string, v: string) {
    exists es :: IsWalk(adj, u, es) && EndOf(u, es) == v
  }

  /** The cheapest route is the likeliest by the product of its hops. */
  lemma {:induction false} ShortestIsLikeliest(adj: Adjacency, negLog: real -> real, u: string, v: string, es: seq<OutEdge>, other: seq<OutEdge>)
    requires IsNegLog(negLog) && Weighted(adj, negLog)
    requires Shortest(adj, u, v, es) && IsWalk(adj, u, other) && EndOf(u, other) == v
    ensures Product(other) <= Product(es)
  {
    CostStandsForProduct(adj, u, es, negLog);
    CostStandsForProduct(adj, u, other, negLog);
    NegLogReverses(negLog, Product(es), Product(other));
  }

  lemma {:induction false} StepsSnoc(u: string, es: seq<OutEdge>, e: OutEdge)
    ensures StepsAlong(u, es + [e]) == StepsAlong(u, es) + [StepOf(Link(EndOf(u, es), e))]
  {
    NodesSnoc(u, es, e);
  }

  /** Following the links back from a node spells its route backwards; each link leads to a
      node settled earlier, so it ends at the seed even across hops that cost nothing. */
  method TraceBack(seed: string, jewel: string, prev: map<string, Step>, ghost dist: map<string, real>, ghost link: map<string, Link>, ghost adj: Adjacency, ghost rank: map<string, nat>) returns (steps: seq<Step>)
    requires Finished(dist, link, seed, adj, rank) && prev == StepsOf(link) && jewel in dist
    ensures Reversed(steps) == StepsAlong(seed, Route(dist, link, seed, adj, rank, jewel))
  {
    steps := [];
    var at := jewel;
    ghost var goal := StepsAlong(seed, Route(dist, link, seed, adj, rank, jewel));
    while at != seed
      invariant at in dist
      invariant StepsAlong(seed, Route(dist, link, seed, adj, rank, at)) + Reversed(steps) == goal
      decreases if at in rank then rank[at] else 0
    {
      assert Linked(dist, link, adj, rank, at);
      var st := prev[at];
      ghost var front := Route(dist, link, seed, adj, rank, st.from);
      RouteIsReal(dist, link, seed, adj, rank, st.from);
      StepsSnoc(seed, front, link[at].edge);
      ReversedSnoc(steps, st);
      SeqAssoc(StepsAlong(seed, front), [st], Reversed(steps));
      steps := steps + [st];
      at := st.from;
    }
    assert StepsAlong(seed, []) + Reversed(steps) == Reversed(steps);
  }

  lemma NodesAlongSnoc(index: map<string, Node>, u: string, es: seq<OutEdge>, i: nat)
    requires i < |es|
    ensures NodesAlong(index, u, es[..i + 1]) == NodesAlong(index, u, es[..i]) + [Lookup(index, es[i].to)]
  {
    assert es[..i + 1] == es[..i] + [es[i]];
    NodesSnoc(u, es[..i], es[i]);
  }

  method PathNodes(seed: string, steps: seq<Step>, index: map<string, Node>, ghost es: seq<OutEdge>) returns (nodes: seq<Node>)
    requires steps == StepsAlong(seed, es)
    ensures nodes == NodesAlong(index, seed, es)
  {
    nodes := [Lookup(index, seed)];
    for i := 0 to |steps|
      invariant nodes == NodesAlong(index, seed, es[..i])
    {
      assert steps[i].to == es[i].to;
      NodesAlongSnoc(index, seed, es, i);
      nodes := nodes + [Lookup(index, steps[i].to)];
    }
    assert es[..|es|] == es;
  }

  lemma RouteIsShortest(seed: string, jewel: string, adj: Adjacency, dist: map<string, real>, link: map<string, Link>) returns (rank: map<string, nat>)
    requires NonNegative(adj) && RunResult(seed, adj, dist, link) && jewel in dist
    ensures Finished(dist, link, seed, adj, rank)
    ensures Shortest(adj, seed, jewel, Route(dist, link, seed, adj, rank, jewel))
  {
    rank := RunFinishes(seed, adj, dist, link);
    FinishedIsShortest(dist, link, seed, adj, rank, jewel);
  }

  method Reconstruct(seed: string, jewel: string, prev: map<string, Step>, index: map<string, Node>, ghost dist: map<string, real>, ghost adj: Adjacency) returns (ap: AttackPath)
    requires NonNegative(adj) && SearchResult(seed, adj, dist, prev) && jewel in dist
    ensures BestRoute(ap, index, adj, seed, jewel)
  {
    ghost var link :| RunResult(seed, adj, dist, link) && prev == StepsOf(link);
    ghost var rank := RouteIsShortest(seed, jewel, adj, dist, link);
    ghost var es := Route(dist, link, seed, adj, rank, jewel);
    var back := TraceBack(seed, jewel, prev, dist, link, adj, rank);
    var steps := Reverse(back);
    var nodes := PathNodes(seed, steps, index, es);
    ap := AssembleAttackPath(nodes, steps);
    Reported(ap, index, adj, seed, jewel, es);
  }

  lemma Reported(ap: AttackPath, index: map<string, Node>, adj: Adjacency, u: string, v: string, es: seq<OutEdge>)
    requires Shortest(adj, u, v, es) && Reports(ap, index, u, es)
    ensures BestRoute(ap, index, adj, u, v)
  {
  }
}
