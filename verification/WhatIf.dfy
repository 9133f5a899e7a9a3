/** The what-if: the risk and the critical paths with some edges cut, against the same trials
    without the cut. */
module WhatIf {
  import opened Graph
  import opened Compromise
  import opened Risk
  import AP = AttackPath
  import CriticalPaths

  /** An empty type cuts every edge between its end points. */
  datatype EdgeCut = EdgeCut(from: string, to: string, typ: string)

  predicate Cuts(cuts: seq<EdgeCut>, e: Edge) {
    exists i :: 0 <= i < |cuts| && cuts[i].from == e.from && cuts[i].to == e.to && (cuts[i].typ == "" || cuts[i].typ == e.typ)
  }

  datatype Result = Result(
    removedEdges: int,
    before: seq<AP.AttackPath>,
    after: seq<AP.AttackPath>,
    beforeRisk: RiskSimulation,
    afterRisk: RiskSimulation)
  {
    function RiskReduction(): real {
      beforeRisk.any - afterRisk.any
    }

    function ExpectedReduction(): real {
      beforeRisk.expected - afterRisk.expected
    }
  }

  /** The edges no cut names, in order. */
  function Uncut(edges: seq<Edge>, cuts: seq<EdgeCut>): seq<Edge> {
    if edges == [] then []
    else Uncut(edges[..|edges| - 1], cuts) + if Cuts(cuts, edges[|edges| - 1]) then [] else [edges[|edges| - 1]]
  }

  lemma {:induction false} UncutHolds(edges: seq<Edge>, cuts: seq<EdgeCut>, e: Edge)
    ensures e in Uncut(edges, cuts) <==> e in edges && !Cuts(cuts, e)
    ensures |Uncut(edges, cuts)| <= |edges|
  {
    if edges != [] {
      assert edges == edges[..|edges| - 1] + [edges[|edges| - 1]];
      UncutHolds(edges[..|edges| - 1], cuts, e);
    }
  }

  function Reduced(snap: Snapshot, cuts: seq<EdgeCut>): Snapshot {
    Snapshot(snap.nodes, Uncut(snap.edges, cuts))
  }

  method Matches(cuts: seq<EdgeCut>, e: Edge) returns (m: bool)
    ensures m <==> Cuts(cuts, e)
  {
    for i := 0 to |cuts|
      invariant forall k :: 0 <= k < i ==> !(cuts[k].from == e.from && cuts[k].to == e.to && (cuts[k].typ == "" || cuts[k].typ == e.typ))
    {
      if cuts[i].from == e.from && cuts[i].to == e.to && (cuts[i].typ == "" || cuts[i].typ == e.typ) {
        return true;
      }
    }
    return false;
  }

  method CutEdges(snap: Snapshot, cuts: seq<EdgeCut>) returns (r: Snapshot)
    ensures r == Reduced(snap, cuts)
  {
    var edges: seq<Edge> := [];
    for i := 0 to |snap.edges|
      invariant edges == Uncut(snap.edges[..i], cuts)
    {
      assert snap.edges[..i + 1][..i] == snap.edges[..i];
      var m := Matches(cuts, snap.edges[i]);
      if !m {
        edges := edges + [snap.edges[i]];
      }
    }
    assert snap.edges[..|snap.edges|] == snap.edges;
    r := Snapshot(snap.nodes, edges);
  }

  // ── One trial, before and after ────────────────────────────────────

  /** An edge keeps its fate when others are cut, so a trial never compromises more. */
  lemma CutCompromisesLess(snap: Snapshot, cuts: seq<EdgeCut>, draw: Draws, it: nat)
    ensures Trials(Reduced(snap, cuts), draw)(it) <= Trials(snap, draw)(it)
  {
    var open := OpenIn(NodeById(snap.nodes), draw, it);
    forall e | e in Reduced(snap, cuts).edges && open(e) ensures e in snap.edges {
      UncutHolds(snap.edges, cuts, e);
    }
    MoreOpenMoreCompromised(Reduced(snap, cuts), open, snap, open);
  }

  /** `e` lies on a route from a seed to a jewel, over edges open or not. */
  ghost predicate OnJewelRoute(snap: Snapshot, e: Edge) {
    exists u, es :: JewelRoute(snap, u, es) && e in es
  }

  ghost predicate JewelRoute(snap: Snapshot, u: string, es: seq<Edge>) {
    CrossesFromSeed(snap, _ => true, u, es) && IsJewelId(NodeById(snap.nodes), Arrives(u, es))
  }

  /** No cut edge lies on any route from a seed to a jewel. */
  ghost predicate Irrelevant(snap: Snapshot, cuts: seq<EdgeCut>) {
    forall e :: e in snap.edges && Cuts(cuts, e) ==> !OnJewelRoute(snap, e)
  }

  lemma {:induction false} CrossesAnyway(edges: seq<Edge>, open: Edge -> bool, u: string, es: seq<Edge>)
    requires Crosses(edges, open, u, es)
    ensures Crosses(edges, _ => true, u, es)
    decreases |es|
  {
    if es != [] {
      CrossesAnyway(edges, open, es[0].to, es[1..]);
    }
  }

  lemma {:induction false} CrossesUncut(snap: Snapshot, cuts: seq<EdgeCut>, open: Edge -> bool, u: string, es: seq<Edge>)
    requires Crosses(snap.edges, open, u, es) && forall e :: e in es ==> !Cuts(cuts, e)
    ensures Crosses(Reduced(snap, cuts).edges, open, u, es)
    decreases |es|
  {
    if es != [] {
      UncutHolds(snap.edges, cuts, es[0]);
      CrossesUncut(snap, cuts, open, es[0].to, es[1..]);
    }
  }

  lemma {:induction false} CrossedAreEdges(edges: seq<Edge>, open: Edge -> bool, u: string, es: seq<Edge>, e: Edge)
    requires Crosses(edges, open, u, es) && e in es
    ensures e in edges
    decreases |es|
  {
    if e != es[0] {
      CrossedAreEdges(edges, open, es[0].to, es[1..], e);
    }
  }

  /** A route to a jewel survives a cut that no route to a jewel crosses. */
  lemma JewelRouteSurvives(snap: Snapshot, cuts: seq<EdgeCut>, open: Edge -> bool, u: string, es: seq<Edge>)
    requires Irrelevant(snap, cuts) && CrossesFromSeed(snap, open, u, es)
    requires IsJewelId(NodeById(snap.nodes), Arrives(u, es))
    ensures CrossesFromSeed(Reduced(snap, cuts), open, u, es)
  {
    CrossesAnyway(snap.edges, open, u, es);
    assert JewelRoute(snap, u, es);
    forall e | e in es ensures !Cuts(cuts, e) {
      CrossedAreEdges(snap.edges, open, u, es, e);
      assert OnJewelRoute(snap, e);
    }
    CrossesUncut(snap, cuts, open, u, es);
  }

  lemma JewelStaysReached(snap: Snapshot, cuts: seq<EdgeCut>, open: Edge -> bool, j: string)
    requires Irrelevant(snap, cuts) && IsJewelId(NodeById(snap.nodes), j) && Reached(snap, open, j)
    ensures Reached(Reduced(snap, cuts), open, j)
  {
    var u, es :| CrossesFromSeed(snap, open, u, es) && Arrives(u, es) == j;
    JewelRouteSurvives(snap, cuts, open, u, es);
  }

  lemma JewelStaysEntered(snap: Snapshot, cuts: seq<EdgeCut>, open: Edge -> bool, j: string)
    requires Irrelevant(snap, cuts) && IsJewelId(NodeById(snap.nodes), j) && Entered(snap, open, j)
    ensures Entered(Reduced(snap, cuts), open, j)
  {
    var e :| e in snap.edges && open(e) && e.to == j && e.from != j && Reached(snap, open, e.from);
    var u, es :| CrossesFromSeed(snap, open, u, es) && Arrives(u, es) == e.from;
    CrossesSnoc(snap.edges, open, u, es, e);
    JewelRouteSurvives(snap, cuts, open, u, es + [e]);
    CrossesSplit(Reduced(snap, cuts).edges, open, u, es, e);
    assert CrossesFromSeed(Reduced(snap, cuts), open, u, es);
  }

  lemma {:induction false} CrossesSplit(edges: seq<Edge>, open: Edge -> bool, u: string, es: seq<Edge>, e: Edge)
    requires Crosses(edges, open, u, es + [e])
    ensures Crosses(edges, open, u, es) && e in edges
    decreases |es|
  {
    if es != [] {
      assert (es + [e])[1..] == es[1..] + [e];
      CrossesSplit(edges, open, es[0].to, es[1..], e);
    }
  }

  lemma IrrelevantCutChangesNothing(snap: Snapshot, cuts: seq<EdgeCut>, draw: Draws, it: nat)
    requires Irrelevant(snap, cuts)
    ensures Trials(Reduced(snap, cuts), draw)(it) == Trials(snap, draw)(it)
  {
    var open := OpenIn(NodeById(snap.nodes), draw, it);
    forall j | j in Trials(snap, draw)(it) ensures j in Trials(Reduced(snap, cuts), draw)(it) {
      if ByEdgeOnly(NodeById(snap.nodes), j) {
        JewelStaysEntered(snap, cuts, open, j);
      } else {
        JewelStaysReached(snap, cuts, open, j);
      }
    }
    CutCompromisesLess(snap, cuts, draw, it);
  }

  // ── The reductions ─────────────────────────────────────────────────

  lemma SubsetSize(a: set<string>, b: set<string>)
    requires a <= b
    ensures |a| <= |b| && (a != {} ==> b != {})
  {
    assert b == a + (b - a);
  }

  /** Trials among the first `n` in which the cut saves the last jewel. */
  ghost function SavedTrials(before: nat -> set<string>, after: nat -> set<string>, n: nat): nat {
    if n == 0 then 0 else SavedTrials(before, after, n - 1) + if before(n - 1) != {} && after(n - 1) == {} then 1 else 0
  }

  /** Jewels the cut saves over the first `n` trials, added up. */
  ghost function SavedJewels(before: nat -> set<string>, after: nat -> set<string>, n: nat): nat {
    if n == 0 then 0 else SavedJewels(before, after, n - 1) + |before(n - 1) - after(n - 1)|
  }

  lemma {:induction false} CountsDiffer(after: nat -> set<string>, before: nat -> set<string>, n: nat)
    requires forall it :: after(it) <= before(it)
    ensures AnyHits(before, n) == AnyHits(after, n) + SavedTrials(before, after, n)
    ensures TotalHits(before, n) == TotalHits(after, n) + SavedJewels(before, after, n)
  {
    if n > 0 {
      CountsDiffer(after, before, n - 1);
      SubsetSize(after(n - 1), before(n - 1));
      assert before(n - 1) == after(n - 1) + (before(n - 1) - after(n - 1));
    }
  }

  /** Of two shares of `n`, one larger by `saved`. */
  lemma ShareGap(before: real, after: real, all: nat, left: nat, saved: nat, n: nat)
    requires n > 0 && all == left + saved && before == all as real / n as real && after == left as real / n as real
    ensures before - after == saved as real / n as real >= 0.0 && (saved == 0 ==> before - after == 0.0)
  {
    SharesAdd(left as real, saved as real, n as real);
  }

  lemma SharesAdd(a: real, b: real, n: real)
    requires n > 0.0
    ensures (a + b) / n == a / n + b / n
    ensures b >= 0.0 ==> b / n >= 0.0
  {
  }

  lemma {:induction false} SavedAre(snap: Snapshot, cuts: seq<EdgeCut>, draw: Draws, n: nat)
    ensures var before, after := Trials(snap, draw), Trials(Reduced(snap, cuts), draw);
      && AnyHits(before, n) == AnyHits(after, n) + SavedTrials(before, after, n)
      && TotalHits(before, n) == TotalHits(after, n) + SavedJewels(before, after, n)
      && (Irrelevant(snap, cuts) ==> SavedTrials(before, after, n) == SavedJewels(before, after, n) == 0)
  {
    var after, before := Trials(Reduced(snap, cuts), draw), Trials(snap, draw);
    forall it ensures after(it) <= before(it) {
      CutCompromisesLess(snap, cuts, draw, it);
    }
    CountsDiffer(after, before, n);
    if Irrelevant(snap, cuts) {
      forall it ensures after(it) == before(it) {
        IrrelevantCutChangesNothing(snap, cuts, draw, it);
      }
      SameTrialsSameCounts(after, before, n, "");
    }
  }

  /** The reductions are the cut's own: the share of the trials in which it saves the last jewel,
      and the jewels it saves, by trial. So neither is ever negative, and both are exactly zero for
      a cut no route from a seed to a jewel crosses. */
  lemma {:induction false} ReductionsAreTheCutsOwn(snap: Snapshot, cuts: seq<EdgeCut>, draw: Draws, n: nat, r: Result)
    requires n > 0 && IsSimulation(r.beforeRisk, snap, draw, n) && IsSimulation(r.afterRisk, Reduced(snap, cuts), draw, n)
    ensures var before, after := Trials(snap, draw), Trials(Reduced(snap, cuts), draw);
      && r.RiskReduction() == SavedTrials(before, after, n) as real / n as real
      && r.ExpectedReduction() == SavedJewels(before, after, n) as real / n as real
    ensures r.RiskReduction() >= 0.0 && r.ExpectedReduction() >= 0.0
    ensures Irrelevant(snap, cuts) ==> r.RiskReduction() == 0.0 && r.ExpectedReduction() == 0.0
  {
    var before, after := Trials(snap, draw), Trials(Reduced(snap, cuts), draw);
    SavedAre(snap, cuts, draw, n);
    ShareGap(r.beforeRisk.any, r.afterRisk.any, AnyHits(before, n), AnyHits(after, n), SavedTrials(before, after, n), n);
    ShareGap(r.beforeRisk.expected, r.afterRisk.expected, TotalHits(before, n), TotalHits(after, n), SavedJewels(before, after, n), n);
  }

  ghost predicate InEvery(trials: nat -> set<string>, j: string) {
    forall it :: j in trials(it)
  }

  lemma {:induction false} AlwaysHit(trials: nat -> set<string>, n: nat, j: string)
    requires InEvery(trials, j)
    ensures AnyHits(trials, n) == n == Hits(trials, n, j)
  {
    if n > 0 {
      AlwaysHit(trials, n - 1, j);
      assert j in trials(n - 1);
    }
  }

  /** A jewel held from the start is compromised in every trial. */
  lemma HeldInEveryTrial(snap: Snapshot, draw: Draws, j: string)
    requires IsHeldJewelId(NodeById(snap.nodes), j)
    ensures InEvery(Trials(snap, draw), j)
  {
    forall it ensures j in Trials(snap, draw)(it) {
      SeedIsReached(snap, OpenIn(NodeById(snap.nodes), draw, it), j);
    }
  }

  lemma {:induction false} HeldAlwaysHit(snap: Snapshot, draw: Draws, n: nat, j: string)
    requires IsHeldJewelId(NodeById(snap.nodes), j)
    ensures AnyHits(Trials(snap, draw), n) == n
  {
    HeldInEveryTrial(snap, draw, j);
    AlwaysHit(Trials(snap, draw), n, j);
  }

  lemma WholeShare(a: nat, n: nat)
    requires a == n > 0
    ensures a as real / n as real == 1.0
  {
  }

  /** It saturates the chance of any compromise: that is 1 in every simulation with the jewel,
      before and after any cut. */
  lemma {:induction false} HeldJewelSaturates(snap: Snapshot, draw: Draws, n: nat, j: string, sim: RiskSimulation)
    requires n > 0 && IsHeldJewelId(NodeById(snap.nodes), j)
    requires sim.any == AnyHits(Trials(snap, draw), n) as real / n as real
    ensures sim.any == 1.0
  {
    HeldAlwaysHit(snap, draw, n, j);
    WholeShare(AnyHits(Trials(snap, draw), n), n);
  }

  /** What is reduced is the share of the trials, and the jewels by trial, that the cut saves. */
  ghost predicate ReductionsAre(r: Result, snap: Snapshot, cuts: seq<EdgeCut>, draw: Draws, n: nat)
    requires n > 0
  {
    var before, after := Trials(snap, draw), Trials(Reduced(snap, cuts), draw);
    && r.RiskReduction() == SavedTrials(before, after, n) as real / n as real
    && r.ExpectedReduction() == SavedJewels(before, after, n) as real / n as real
  }

  datatype Outcome = Answered(result: Result) | Cancelled

  /** Two simulations over the same trials, and the critical paths of both snapshots. */
  method WhatIf(snap: Snapshot, cuts: seq<EdgeCut>, iterations: int, draw: Draws, done: nat -> bool, doneAfter: nat -> bool, negLog: real -> real) returns (r: Outcome)
    requires IsNegLog(negLog)
    ensures r.Answered? ==>
      var n: nat, index := if iterations <= 0 then 2000 else iterations, NodeById(snap.nodes);
      && IsSimulation(r.result.beforeRisk, snap, draw, n)
      && IsSimulation(r.result.afterRisk, Reduced(snap, cuts), draw, n)
      && r.result.removedEdges == |snap.edges| - |Uncut(snap.edges, cuts)|
      && CriticalPaths.Complete(r.result.before, index, AdjacencyOf(snap.edges, index, negLog))
      && CriticalPaths.Complete(r.result.after, index, AdjacencyOf(Uncut(snap.edges, cuts), index, negLog))
      && CriticalPaths.Ranked(snap.nodes, r.result.before) && CriticalPaths.Ranked(snap.nodes, r.result.after)
    ensures r.Answered? ==> ReductionsAre(r.result, snap, cuts, draw, if iterations <= 0 then 2000 else iterations)
    ensures r == Outcome.Cancelled <==>
      var n: nat := if iterations <= 0 then 2000 else iterations;
      || (HasSeedAndJewel(snap) && StoppedWithin(done, n))
      || (HasSeedAndJewel(Reduced(snap, cuts)) && StoppedWithin(doneAfter, n))
  {
    var before := SimulateRisk(snap, iterations, draw, done);
    if before.Cancelled? {
      return Outcome.Cancelled;
    }
    var reduced := CutEdges(snap, cuts);
    var after := SimulateRisk(reduced, iterations, draw, doneAfter);
    if after.Cancelled? {
      return Outcome.Cancelled;
    }
    var pathsBefore := CriticalPaths.FindCriticalPaths(snap, negLog);
    var pathsAfter := CriticalPaths.FindCriticalPaths(reduced, negLog);
    r := Answered(Result(|snap.edges| - |reduced.edges|, pathsBefore, pathsAfter, before.sim, after.sim));
    ReductionsAreTheCutsOwn(snap, cuts, draw, Iterations(iterations), r.result);
  }
}
