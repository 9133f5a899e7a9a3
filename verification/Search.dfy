/** Dijkstra with lazy deletion, as a function from state to state. Both searches of the
    analyzer - the one that keeps a step per node and the one Yen's algorithm calls - run it
    in place; everything proved about their results is proved here, about the states. */
module Search {
  import opened Sequences
  import opened Heap
  import opened Graph

  /** How a node was last reached. */
  datatype Link = Link(from: string, edge: OutEdge)

  datatype State = State(dist: map<string, real>, link: map<string, Link>, pq: seq<Item>)

  function Start(src: string): State {
    State(map[src := 0.0], map[], Pushed([], Item(src, 0.0)))
  }

  function DistOf(dist: map<string, real>, n: string): real {
    if n in dist then dist[n] else 0.0
  }

  function Relax(s: State, cur: Item, e: OutEdge): State {
    var nd := cur.d + e.weight;
    if e.to !in s.dist || nd < s.dist[e.to] then
      State(s.dist[e.to := nd], s.link[e.to := Link(cur.node, e)], Pushed(s.pq, Item(e.to, nd)))
    else s
  }

  function RelaxAll(s: State, cur: Item, es: seq<OutEdge>): State
    decreases |es|
  {
    if es == [] then s else RelaxAll(Relax(s, cur, es[0]), cur, es[1..])
  }

  function Rest(s: State): State
    requires s.pq != []
  {
    s.(pq := Popped(s.pq)[..|s.pq| - 1])
  }

  function Top(s: State): Item
    requires s.pq != []
  {
    Popped(s.pq)[|s.pq| - 1]
  }

  /** One turn of the loop: pop, skip a stale entry, else relax every edge out of the node.
      A state with an empty queue is the end and stays as it is. */
  function Turn(s: State, adj: Adjacency): State {
    if s.pq == [] then s
    else if Top(s).d > DistOf(s.dist, Top(s).node) then Rest(s)
    else RelaxAll(Rest(s), Top(s), Out(adj, Top(s).node))
  }

  function Turns(s: State, adj: Adjacency, n: nat): State
    decreases n
  {
    if n == 0 then s else Turn(Turns(s, adj, n - 1), adj)
  }

  /** What a run leaves behind is settled by the source and the adjacency alone: two runs
      that both emptied the queue agree, however many turns each is said to have taken. */
  lemma {:induction false} RunsAgree(s: State, adj: Adjacency, n: nat, m: nat)
    requires Turns(s, adj, n).pq == [] && Turns(s, adj, m).pq == []
    ensures Turns(s, adj, n) == Turns(s, adj, m)
    decreases n + m
  {
    if n < m {
      StaysEmpty(s, adj, n, m);
    } else {
      StaysEmpty(s, adj, m, n);
    }
  }

  lemma {:induction false} StaysEmpty(s: State, adj: Adjacency, n: nat, m: nat)
    requires n <= m && Turns(s, adj, n).pq == []
    ensures Turns(s, adj, m) == Turns(s, adj, n)
    decreases m - n
  {
    if n < m {
      StaysEmpty(s, adj, n, m - 1);
    }
  }

  // ── What every turn keeps ──────────────────────────────────────────

  /** The first `k` edges out of `u` offer nothing better than what is recorded. */
  ghost predicate Closed(dist: map<string, real>, adj: Adjacency, u: string, k: nat) {
    u in dist && forall i :: 0 <= i < k && i < |Out(adj, u)| ==>
      Out(adj, u)[i].to in dist && dist[Out(adj, u)[i].to] <= dist[u] + Out(adj, u)[i].weight
  }

  /** `v`'s link comes from a settled node, over one of its edges, at the recorded cost. */
  ghost predicate Linked(dist: map<string, real>, link: map<string, Link>, adj: Adjacency, rank: map<string, nat>, v: string)
    requires v in link
  {
    var u, e := link[v].from, link[v].edge;
    && u in rank && u in dist && v in dist
    && e in Out(adj, u) && e.to == v
    && dist[v] == dist[u] + e.weight
    && (v in rank ==> rank[u] < rank[v])
  }

  /** The links form a tree rooted at `src`, settled parents before their children: `rank`
      numbers the settled nodes in the order they were settled. */
  ghost predicate Tree(dist: map<string, real>, link: map<string, Link>, src: string, adj: Adjacency, rank: map<string, nat>) {
    && src in dist && dist[src] == 0.0 && src !in link
    && (forall v :: v in dist <==> v == src || v in link)
    && (forall v :: v in rank ==> v in dist)
    && (forall v :: v in dist ==> dist[v] >= 0.0)
    && (forall v {:trigger Linked(dist, link, adj, rank, v)} :: v in link ==> Linked(dist, link, adj, rank, v))
  }

  /** The queue holds each unsettled node once at its recorded distance; its other entries
      are stale. */
  ghost predicate Queue(dist: map<string, real>, pq: multiset<Item>, rank: map<string, nat>) {
    && (forall it :: it in pq ==> it.node in dist && dist[it.node] <= it.d && (it.node in rank ==> dist[it.node] < it.d))
    && (forall v :: v in dist && v !in rank ==> pq[Item(v, dist[v])] == 1)
  }

  /** `x` is the last node settled: no settled node is farther, and nothing queued nearer. */
  ghost predicate Frontier(dist: map<string, real>, pq: multiset<Item>, rank: map<string, nat>, x: string) {
    && x in dist
    && (forall u :: u in rank ==> u in dist && dist[u] <= dist[x])
    && (forall it :: it in pq ==> dist[x] <= it.d)
  }

  /** Every settled node is closed, `x` only for its first `k` edges. */
  ghost predicate Settled(dist: map<string, real>, adj: Adjacency, rank: map<string, nat>, x: string, k: nat) {
    forall u :: u in rank ==> Closed(dist, adj, u, if u == x then k else |Out(adj, u)|)
  }

  /** The invariant, while the first `k` edges out of `x`, the last node settled, are relaxed.
      Before the first node is settled `x` is the source. */
  ghost predicate Inv(s: State, src: string, adj: Adjacency, rank: map<string, nat>, x: string, k: nat) {
    && IsHeap(s.pq, |s.pq|)
    && Tree(s.dist, s.link, src, adj, rank)
    && Queue(s.dist, multiset(s.pq), rank)
    && Frontier(s.dist, multiset(s.pq), rank, x)
    && Settled(s.dist, adj, rank, x, k)
  }

  lemma StartInv(src: string, adj: Adjacency)
    ensures Inv(Start(src), src, adj, map[], src, |Out(adj, src)|)
  {
    PushHeaps([], Item(src, 0.0));
  }

  /** `t` records `nd` for `e.to`, over `e` out of `x`, and is otherwise `s`. */
  ghost predicate Improves(s: State, t: State, x: string, e: OutEdge) {
    && x in s.dist
    && var nd := s.dist[x] + e.weight;
    && (e.to in s.dist ==> nd < s.dist[e.to])
    && t.dist == s.dist[e.to := nd]
    && t.link == s.link[e.to := Link(x, e)]
    && multiset(t.pq) == multiset(s.pq) + multiset{Item(e.to, nd)}
  }

  lemma RelaxImproves(s: State, x: string, e: OutEdge)
    requires IsHeap(s.pq, |s.pq|) && x in s.dist
    requires e.to in s.dist ==> s.dist[x] + e.weight < s.dist[e.to]
    ensures var t := Relax(s, Item(x, s.dist[x]), e);
      Improves(s, t, x, e) && IsHeap(t.pq, |t.pq|)
  {
    PushHeaps(s.pq, Item(e.to, s.dist[x] + e.weight));
  }

  lemma TreeImproved(s: State, t: State, src: string, adj: Adjacency, rank: map<string, nat>, x: string, e: OutEdge)
    requires Improves(s, t, x, e) && e.weight >= 0.0 && e.to !in rank
    requires Tree(s.dist, s.link, src, adj, rank) && x in rank && e in Out(adj, x)
    ensures Tree(t.dist, t.link, src, adj, rank)
  {
    forall v | v in t.link ensures Linked(t.dist, t.link, adj, rank, v) {
      assert v != e.to ==> Linked(s.dist, s.link, adj, rank, v);
    }
  }

  lemma QueueImproved(s: State, t: State, rank: map<string, nat>, x: string, e: OutEdge)
    requires Improves(s, t, x, e) && e.to !in rank
    requires Queue(s.dist, multiset(s.pq), rank)
    ensures Queue(t.dist, multiset(t.pq), rank)
  {
    var it := Item(e.to, t.dist[e.to]);
    assert it !in multiset(s.pq);
    forall v | v in t.dist && v !in rank ensures multiset(t.pq)[Item(v, t.dist[v])] == 1 {
      if v != e.to {
        assert multiset(s.pq)[Item(v, s.dist[v])] == 1;
      }
    }
  }

  lemma FrontierImproved(s: State, t: State, rank: map<string, nat>, x: string, e: OutEdge)
    requires Improves(s, t, x, e) && e.weight >= 0.0 && e.to !in rank && x in rank
    requires Frontier(s.dist, multiset(s.pq), rank, x)
    ensures Frontier(t.dist, multiset(t.pq), rank, x)
  {
  }

  lemma SettledImproved(s: State, t: State, adj: Adjacency, rank: map<string, nat>, x: string, k: nat)
    requires x in rank && k < |Out(adj, x)|
    requires Improves(s, t, x, Out(adj, x)[k]) && Out(adj, x)[k].to !in rank
    requires Settled(s.dist, adj, rank, x, k)
    ensures Settled(t.dist, adj, rank, x, k + 1)
  {
    forall u | u in rank ensures Closed(t.dist, adj, u, if u == x then k + 1 else |Out(adj, u)|) {
      assert Closed(s.dist, adj, u, if u == x then k else |Out(adj, u)|);
    }
  }

  lemma SettledKept(dist: map<string, real>, adj: Adjacency, rank: map<string, nat>, x: string, k: nat)
    requires Settled(dist, adj, rank, x, k) && x in dist && k < |Out(adj, x)|
    requires Out(adj, x)[k].to in dist && dist[Out(adj, x)[k].to] <= dist[x] + Out(adj, x)[k].weight
    ensures Settled(dist, adj, rank, x, k + 1)
  {
    forall u | u in rank ensures Closed(dist, adj, u, if u == x then k + 1 else |Out(adj, u)|) {
      assert Closed(dist, adj, u, if u == x then k else |Out(adj, u)|);
    }
  }

  /** An improved node is not a settled one: none is farther than the last one settled. */
  lemma ImprovedIsUnsettled(dist: map<string, real>, pq: multiset<Item>, rank: map<string, nat>, x: string, e: OutEdge)
    requires Frontier(dist, pq, rank, x) && e.weight >= 0.0
    requires e.to in dist ==> dist[x] + e.weight < dist[e.to]
    ensures e.to !in rank
  {
  }

  lemma ImprovedInv(s: State, t: State, src: string, adj: Adjacency, rank: map<string, nat>, x: string, k: nat)
    requires Inv(s, src, adj, rank, x, k) && x in rank && k < |Out(adj, x)| && Out(adj, x)[k].weight >= 0.0
    requires Improves(s, t, x, Out(adj, x)[k]) && IsHeap(t.pq, |t.pq|)
    ensures Inv(t, src, adj, rank, x, k + 1)
  {
    var e := Out(adj, x)[k];
    ImprovedIsUnsettled(s.dist, multiset(s.pq), rank, x, e);
    TreeImproved(s, t, src, adj, rank, x, e);
    QueueImproved(s, t, rank, x, e);
    FrontierImproved(s, t, rank, x, e);
    SettledImproved(s, t, adj, rank, x, k);
  }

  /** Relaxing the next edge out of the node being settled keeps the invariant. */
  lemma RelaxKeeps(s: State, src: string, adj: Adjacency, rank: map<string, nat>, x: string, k: nat)
    requires NonNegative(adj) && Inv(s, src, adj, rank, x, k) && x in rank && k < |Out(adj, x)|
    ensures var t := Relax(s, Item(x, s.dist[x]), Out(adj, x)[k]);
      Inv(t, src, adj, rank, x, k + 1) && x in t.dist && t.dist[x] == s.dist[x]
  {
    var e, t := Out(adj, x)[k], Relax(s, Item(x, s.dist[x]), Out(adj, x)[k]);
    assert e.weight >= 0.0;
    if e.to !in s.dist || s.dist[x] + e.weight < s.dist[e.to] {
      RelaxImproves(s, x, e);
      ImprovedInv(s, t, src, adj, rank, x, k);
      ImprovedIsUnsettled(s.dist, multiset(s.pq), rank, x, e);
    } else {
      SettledKept(s.dist, adj, rank, x, k);
    }
  }

  lemma TreeSettled(dist: map<string, real>, link: map<string, Link>, src: string, adj: Adjacency, rank: map<string, nat>, y: string, c: nat)
    requires Tree(dist, link, src, adj, rank) && y in dist && y !in rank
    requires forall u :: u in rank ==> rank[u] < c
    ensures Tree(dist, link, src, adj, rank[y := c])
  {
    forall v | v in link ensures Linked(dist, link, adj, rank[y := c], v) {
      assert Linked(dist, link, adj, rank, v);
    }
  }

  lemma QueueSettled(dist: map<string, real>, all: multiset<Item>, pq: multiset<Item>, rank: map<string, nat>, top: Item, rank': map<string, nat>)
    requires all == pq + multiset{top} && Queue(dist, all, rank)
    requires top.d <= DistOf(dist, top.node)
    requires rank'.Keys == rank.Keys + {top.node}
    ensures top.node in dist && top.node !in rank && top.d == dist[top.node]
    ensures Queue(dist, pq, rank')
  {
    assert top in all;
    assert all[Item(top.node, dist[top.node])] == 1;
    assert top !in pq;
    forall it | it in pq ensures it in all && it != top {
    }
    forall v | v in dist && v !in rank' ensures pq[Item(v, dist[v])] == 1 {
      assert all[Item(v, dist[v])] == 1;
    }
  }

  lemma FrontierSettled(dist: map<string, real>, pq: seq<Item>, pq': seq<Item>, rank: map<string, nat>, x: string, top: Item, rank': map<string, nat>)
    requires multiset(pq) == multiset(pq') + multiset{top} && Frontier(dist, multiset(pq), rank, x)
    requires forall it :: it in pq ==> top.d <= it.d
    requires top.node in dist && top.d == dist[top.node]
    requires rank'.Keys == rank.Keys + {top.node}
    ensures Frontier(dist, multiset(pq'), rank', top.node)
  {
    assert top in multiset(pq);
    forall it | it in multiset(pq') ensures top.d <= it.d {
      assert it in multiset(pq);
    }
  }

  lemma SettledMore(dist: map<string, real>, adj: Adjacency, rank: map<string, nat>, x: string, rank': map<string, nat>, y: string)
    requires Settled(dist, adj, rank, x, |Out(adj, x)|) && y in dist
    requires rank'.Keys == rank.Keys + {y}
    ensures Settled(dist, adj, rank', y, 0)
  {
    forall u | u in rank' ensures Closed(dist, adj, u, if u == y then 0 else |Out(adj, u)|) {
      assert u != y ==> Closed(dist, adj, u, if u == x then |Out(adj, x)| else |Out(adj, u)|);
    }
  }

  lemma SettledInv(s: State, t: State, src: string, adj: Adjacency, rank: map<string, nat>, x: string, top: Item, c: nat)
    requires Inv(s, src, adj, rank, x, |Out(adj, x)|)
    requires t.dist == s.dist && t.link == s.link && IsHeap(t.pq, |t.pq|)
    requires multiset(s.pq) == multiset(t.pq) + multiset{top}
    requires forall it :: it in s.pq ==> top.d <= it.d
    requires forall u :: u in rank ==> rank[u] < c
    requires top.d <= DistOf(s.dist, top.node)
    ensures top.node in s.dist && top.node !in rank && top.d == s.dist[top.node]
    ensures Inv(t, src, adj, rank[top.node := c], top.node, 0)
  {
    var rank' := rank[top.node := c];
    QueueSettled(s.dist, multiset(s.pq), multiset(t.pq), rank, top, rank');
    TreeSettled(s.dist, s.link, src, adj, rank, top.node, c);
    SettledMore(s.dist, adj, rank, x, rank', top.node);
    FrontierSettled(s.dist, s.pq, t.pq, rank, x, top, rank');
  }

  /** Popping the next node to settle: it joins the settled ones, none of its edges relaxed. */
  lemma SettleKeeps(s: State, src: string, adj: Adjacency, rank: map<string, nat>, x: string, c: nat)
    requires Inv(s, src, adj, rank, x, |Out(adj, x)|) && s.pq != []
    requires forall u :: u in rank ==> rank[u] < c
    requires Top(s).d <= DistOf(s.dist, Top(s).node)
    ensures var y := Top(s).node;
      && y !in rank && y in s.dist && Top(s).d == s.dist[y]
      && Inv(Rest(s), src, adj, rank[y := c], y, 0)
  {
    PopHeaps(s.pq);
    SettledInv(s, Rest(s), src, adj, rank, x, Top(s), c);
  }

  lemma QueueSkipped(dist: map<string, real>, all: multiset<Item>, pq: multiset<Item>, rank: map<string, nat>, top: Item)
    requires all == pq + multiset{top} && Queue(dist, all, rank)
    requires top.d > DistOf(dist, top.node)
    ensures Queue(dist, pq, rank)
  {
    assert top in all;
    forall it | it in pq ensures it in all {
    }
    forall v | v in dist && v !in rank ensures pq[Item(v, dist[v])] == 1 {
      assert all[Item(v, dist[v])] == 1;
    }
  }

  lemma FrontierSkipped(dist: map<string, real>, all: multiset<Item>, pq: multiset<Item>, rank: map<string, nat>, x: string, top: Item)
    requires all == pq + multiset{top} && Frontier(dist, all, rank, x)
    ensures Frontier(dist, pq, rank, x)
  {
    forall it | it in pq ensures it in all {
    }
  }

  /** Skipping a stale entry changes nothing that matters. */
  lemma SkipKeeps(s: State, src: string, adj: Adjacency, rank: map<string, nat>, x: string, k: nat)
    requires Inv(s, src, adj, rank, x, k) && s.pq != []
    requires Top(s).d > DistOf(s.dist, Top(s).node)
    ensures Inv(Rest(s), src, adj, rank, x, k)
  {
    PopHeaps(s.pq);
    var t := Rest(s);
    QueueSkipped(s.dist, multiset(s.pq), multiset(t.pq), rank, Top(s));
    FrontierSkipped(s.dist, multiset(s.pq), multiset(t.pq), rank, x, Top(s));
  }

  lemma {:induction false} RelaxAllKeeps(s: State, src: string, adj: Adjacency, rank: map<string, nat>, x: string, k: nat)
    requires NonNegative(adj) && Inv(s, src, adj, rank, x, k) && x in rank && k <= |Out(adj, x)|
    ensures Inv(RelaxAll(s, Item(x, s.dist[x]), Out(adj, x)[k..]), src, adj, rank, x, |Out(adj, x)|)
    decreases |Out(adj, x)| - k
  {
    if k < |Out(adj, x)| {
      RelaxKeeps(s, src, adj, rank, x, k);
      var t := Relax(s, Item(x, s.dist[x]), Out(adj, x)[k]);
      assert Out(adj, x)[k..][1..] == Out(adj, x)[k + 1..];
      RelaxAllKeeps(t, src, adj, rank, x, k + 1);
    }
  }

  /** Every node a search from `src` can record. */
  ghost function Universe(src: string, adj: Adjacency): set<string> {
    {src} + set u, i | u in adj && 0 <= i < |adj[u]| :: adj[u][i].to
  }

  lemma RankInUniverse(dist: map<string, real>, link: map<string, Link>, src: string, adj: Adjacency, rank: map<string, nat>)
    requires Tree(dist, link, src, adj, rank)
    ensures rank.Keys <= Universe(src, adj)
  {
    forall v | v in rank ensures v in Universe(src, adj) {
      if v != src {
        assert Linked(dist, link, adj, rank, v);
        var u := link[v].from;
        var i :| 0 <= i < |Out(adj, u)| && Out(adj, u)[i] == link[v].edge;
        assert adj[u][i].to == v;
      }
    }
  }

  /** A turn that pops a fresh entry settles its node and relaxes every edge out of it. */
  lemma SettlingTurn(s: State, src: string, adj: Adjacency, rank: map<string, nat>, x: string, t: State) returns (rank': map<string, nat>)
    requires NonNegative(adj) && Inv(s, src, adj, rank, x, |Out(adj, x)|) && s.pq != []
    requires Top(s).d <= DistOf(s.dist, Top(s).node)
    requires t == RelaxAll(Rest(s), Top(s), Out(adj, Top(s).node))
    ensures var y := Top(s).node;
      && y !in rank && rank'.Keys == rank.Keys + {y} && Inv(t, src, adj, rank', y, |Out(adj, y)|)
  {
    var y := Top(s).node;
    var c := RankBound(rank);
    SettleKeeps(s, src, adj, rank, x, c);
    rank' := rank[y := c];
    assert Out(adj, y)[0..] == Out(adj, y);
    RelaxAllKeeps(Rest(s), src, adj, rank', y, 0);
    assert Top(s) == Item(y, s.dist[y]);
  }

  /** One turn keeps the invariant; it drops a stale entry or settles one more node. */
  lemma TurnKeeps(s: State, src: string, adj: Adjacency, rank: map<string, nat>, x: string, t: State) returns (rank': map<string, nat>, x': string)
    requires NonNegative(adj) && Inv(s, src, adj, rank, x, |Out(adj, x)|) && s.pq != [] && t == Turn(s, adj)
    ensures Inv(t, src, adj, rank', x', |Out(adj, x')|)
    ensures rank.Keys < rank'.Keys || (rank' == rank && |t.pq| < |s.pq|)
  {
    if Top(s).d > DistOf(s.dist, Top(s).node) {
      rank', x' := rank, x;
      SkipKeeps(s, src, adj, rank, x, |Out(adj, x)|);
    } else {
      rank' := SettlingTurn(s, src, adj, rank, x, t);
      x' := Top(s).node;
      assert x' in rank'.Keys;
    }
  }

  lemma {:induction false} RankBound(rank: map<string, nat>) returns (c: nat)
    ensures forall u :: u in rank ==> rank[u] < c
    decreases |rank|
  {
    if rank == map[] {
      c := 0;
    } else {
      var u :| u in rank;
      var rest := rank - {u};
      assert |rest.Keys| == |rank.Keys| - 1 by {
        assert rest.Keys == rank.Keys - {u};
      }
      c := RankBound(rest);
      c := if rank[u] < c then c else rank[u] + 1;
      forall v | v in rank ensures rank[v] < c {
        assert v != u ==> v in rest;
      }
    }
  }

  /** The invariant holds between turns, for some settling order. */
  ghost predicate Sound(s: State, src: string, adj: Adjacency) {
    exists rank, x :: Inv(s, src, adj, rank, x, |Out(adj, x)|)
  }

  lemma StartSound(src: string, adj: Adjacency)
    ensures Sound(Start(src), src, adj)
  {
    StartInv(src, adj);
  }

  lemma TurnSound(s: State, src: string, adj: Adjacency)
    requires NonNegative(adj) && Sound(s, src, adj)
    ensures Sound(Turn(s, adj), src, adj)
  {
    if s.pq != [] {
      var rank, x :| Inv(s, src, adj, rank, x, |Out(adj, x)|);
      var rank', x' := TurnKeeps(s, src, adj, rank, x, Turn(s, adj));
    }
  }

  /** After any number of turns the invariant stands. */
  lemma {:induction false} RunSound(src: string, adj: Adjacency, n: nat)
    requires NonNegative(adj)
    ensures Sound(Turns(Start(src), adj, n), src, adj)
    decreases n
  {
    if n == 0 {
      StartSound(src, adj);
    } else {
      RunSound(src, adj, n - 1);
      TurnSound(Turns(Start(src), adj, n - 1), src, adj);
      assert Turns(Start(src), adj, n) == Turn(Turns(Start(src), adj, n - 1), adj);
    }
  }

  /** `dist` and `link` are what a run that emptied its queue left behind. */
  ghost predicate RunResult(src: string, adj: Adjacency, dist: map<string, real>, link: map<string, Link>) {
    exists n: nat :: Turns(Start(src), adj, n) == State(dist, link, [])
  }

  lemma RunFinishes(src: string, adj: Adjacency, dist: map<string, real>, link: map<string, Link>) returns (rank: map<string, nat>)
    requires NonNegative(adj) && RunResult(src, adj, dist, link)
    ensures Finished(dist, link, src, adj, rank)
  {
    var n: nat :| Turns(Start(src), adj, n) == State(dist, link, []);
    RunSound(src, adj, n);
    var x;
    rank, x :| Inv(State(dist, link, []), src, adj, rank, x, |Out(adj, x)|);
    EmptyQueueFinishes(State(dist, link, []), src, adj, rank, x);
  }

  /** The source and the adjacency alone settle the result. */
  lemma RunIsUnique(src: string, adj: Adjacency, dist: map<string, real>, link: map<string, Link>, dist': map<string, real>, link': map<string, Link>)
    requires RunResult(src, adj, dist, link) && RunResult(src, adj, dist', link')
    ensures dist == dist' && link == link'
  {
    var n: nat :| Turns(Start(src), adj, n) == State(dist, link, []);
    var m: nat :| Turns(Start(src), adj, m) == State(dist', link', []);
    RunsAgree(Start(src), adj, n, m);
  }

  // ── What the end of a run means ────────────────────────────────────

  /** A finished search: the queue is empty and every recorded node is settled. */
  ghost predicate Finished(dist: map<string, real>, link: map<string, Link>, src: string, adj: Adjacency, rank: map<string, nat>) {
    && Tree(dist, link, src, adj, rank)
    && rank.Keys == dist.Keys
    && (forall u :: u in rank ==> Closed(dist, adj, u, |Out(adj, u)|))
  }

  lemma EmptyQueueFinishes(s: State, src: string, adj: Adjacency, rank: map<string, nat>, x: string)
    requires Inv(s, src, adj, rank, x, |Out(adj, x)|) && s.pq == []
    ensures Finished(s.dist, s.link, src, adj, rank)
  {
    forall v | v in s.dist ensures v in rank {
      assert Item(v, s.dist[v]) !in multiset(s.pq);
    }
  }

  /** No edge out of a recorded node leads anywhere cheaper than recorded. */
  ghost predicate NoShortcut(dist: map<string, real>, adj: Adjacency) {
    forall u, e :: u in dist && e in Out(adj, u) ==> e.to in dist && dist[e.to] <= dist[u] + e.weight
  }

  lemma FinishedIsSettled(dist: map<string, real>, link: map<string, Link>, src: string, adj: Adjacency, rank: map<string, nat>)
    requires Finished(dist, link, src, adj, rank)
    ensures NoShortcut(dist, adj)
  {
    forall u, e | u in dist && e in Out(adj, u) ensures e.to in dist && dist[e.to] <= dist[u] + e.weight {
      assert Closed(dist, adj, u, |Out(adj, u)|);
    }
  }

  /** No walk from a recorded node does better than the record. */
  lemma {:induction false} NoWalkIsCheaper(dist: map<string, real>, adj: Adjacency, u: string, es: seq<OutEdge>)
    requires NoShortcut(dist, adj) && u in dist && IsWalk(adj, u, es)
    ensures EndOf(u, es) in dist && dist[EndOf(u, es)] <= dist[u] + Cost(es)
    decreases |es|
  {
    if es != [] {
      NoWalkIsCheaper(dist, adj, es[0].to, es[1..]);
    }
  }

  /** The route the links record, from the source to `v`. */
  ghost function Route(dist: map<string, real>, link: map<string, Link>, src: string, adj: Adjacency, rank: map<string, nat>, v: string): seq<OutEdge>
    requires Finished(dist, link, src, adj, rank) && v in dist
    decreases rank[v]
  {
    if v == src then [] else
      assert Linked(dist, link, adj, rank, v);
      Route(dist, link, src, adj, rank, link[v].from) + [link[v].edge]
  }

  /** The nodes come in the order they were settled. */
  ghost predicate Ascending(rank: map<string, nat>, ns: seq<string>) {
    && (forall i :: 0 <= i < |ns| ==> ns[i] in rank)
    && (forall i, j :: 0 <= i < j < |ns| ==> rank[ns[i]] < rank[ns[j]])
  }

  lemma AscendingSnoc(rank: map<string, nat>, ns: seq<string>, v: string)
    requires Ascending(rank, ns) && ns != [] && v in rank && rank[ns[|ns| - 1]] < rank[v]
    ensures Ascending(rank, ns + [v])
  {
    forall i, j | 0 <= i < j < |ns| + 1
      ensures rank[(ns + [v])[i]] < rank[(ns + [v])[j]]
    {
      assert i < |ns| - 1 ==> rank[ns[i]] < rank[ns[|ns| - 1]];
    }
  }

  /** The recorded route is a walk to `v` at the recorded cost, its nodes settled in order -
      so no node twice. */
  lemma {:induction false} RouteIsReal(dist: map<string, real>, link: map<string, Link>, src: string, adj: Adjacency, rank: map<string, nat>, v: string)
    requires Finished(dist, link, src, adj, rank) && v in dist
    ensures var es := Route(dist, link, src, adj, rank, v);
      && IsWalk(adj, src, es) && EndOf(src, es) == v && Cost(es) == dist[v]
      && Ascending(rank, NodesOf(src, es))
    decreases rank[v]
  {
    if v != src {
      assert Linked(dist, link, adj, rank, v);
      var u := link[v].from;
      RouteIsReal(dist, link, src, adj, rank, u);
      var es := Route(dist, link, src, adj, rank, u);
      WalkSnoc(adj, src, es, link[v].edge);
      NodesSnoc(src, es, link[v].edge);
      AscendingSnoc(rank, NodesOf(src, es), v);
    }
  }

  /** The theorem about a finished search: a node is recorded exactly when a walk reaches it,
      and its recorded route is a walk without a repeated node, at the recorded cost, which
      no walk undercuts. */
  lemma {:induction false} FinishedIsShortest(dist: map<string, real>, link: map<string, Link>, src: string, adj: Adjacency, rank: map<string, nat>, v: string)
    requires Finished(dist, link, src, adj, rank)
    ensures v in dist <==> exists es :: IsWalk(adj, src, es) && EndOf(src, es) == v
    ensures v in dist ==>
      var es := Route(dist, link, src, adj, rank, v);
      && IsWalk(adj, src, es) && EndOf(src, es) == v && Cost(es) == dist[v]
      && Distinct(NodesOf(src, es))
      && forall other :: IsWalk(adj, src, other) && EndOf(src, other) == v ==> Cost(es) <= Cost(other)
  {
    FinishedIsSettled(dist, link, src, adj, rank);
    forall other | IsWalk(adj, src, other) && EndOf(src, other) == v
      ensures v in dist && dist[v] <= Cost(other)
    {
      NoWalkIsCheaper(dist, adj, src, other);
    }
    if v in dist {
      RouteIsReal(dist, link, src, adj, rank, v);
    }
  }
}
