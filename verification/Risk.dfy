/** The risk simulation: how often the crown jewels are compromised over a run of trials. */
module Risk {
  import opened Sequences
  import opened Sorting
  import opened Graph
  import opened Compromise
  import opened MonteCarlo
  import opened Walks
  import T = Trials

  const DEFAULT_ITERATIONS: nat := 2000
  const CANCEL_STRIDE: nat := 256

  /** Every draw is a function of the trial and of what names the edge. */
  type Draws = (nat, Name) -> real

  datatype JewelRisk = JewelRisk(id: string, probability: real)

  datatype RiskSimulation = RiskSimulation(iterations: nat, any: real, expected: real, jewels: seq<JewelRisk>)

  datatype Outcome = Done(sim: RiskSimulation) | Cancelled

  /** The edges one trial opens. */
  function OpenIn(nodes: map<string, Node>, draw: Draws, it: nat): Edge -> bool {
    (e: Edge) => draw(it, DrawName(e, nodes)) < ClampProb(e.probability)
  }

  /** The jewels each trial compromises. */
  ghost function Trials(snap: Snapshot, draw: Draws): nat -> set<string> {
    (it: nat) => CompromisedSet(snap, OpenIn(NodeById(snap.nodes), draw, it))
  }

  /** Trials among the first `n` that compromise any jewel. */
  ghost function AnyHits(trials: nat -> set<string>, n: nat): nat {
    if n == 0 then 0 else AnyHits(trials, n - 1) + if trials(n - 1) != {} then 1 else 0
  }

  /** Jewels compromised over the first `n` trials, added up. */
  ghost function TotalHits(trials: nat -> set<string>, n: nat): nat {
    if n == 0 then 0 else TotalHits(trials, n - 1) + |trials(n - 1)|
  }

  /** Trials among the first `n` that compromise `id`. */
  ghost function Hits(trials: nat -> set<string>, n: nat, id: string): (h: nat)
    ensures h <= n
  {
    if n == 0 then 0 else Hits(trials, n - 1, id) + if id in trials(n - 1) then 1 else 0
  }

  ghost predicate HasSeedAndJewel(snap: Snapshot) {
    var nodes := NodeById(snap.nodes);
    (exists s :: IsSeedId(nodes, s)) && (exists j :: IsJewelId(nodes, j))
  }

  /** The likeliest jewel first, then by id. */
  predicate RisksBefore(a: JewelRisk, b: JewelRisk) {
    if a.probability != b.probability then a.probability > b.probability else StrLess(a.id, b.id)
  }

  ghost predicate LikeliestFirst(jewels: seq<JewelRisk>) {
    forall i, j :: 0 <= i < j < |jewels| ==>
      jewels[i].probability > jewels[j].probability || (jewels[i].probability == jewels[j].probability && StrLess(jewels[i].id, jewels[j].id))
  }

  /** Every jewel is listed once with its own share of the trials, the likeliest first. */
  ghost predicate ListsJewels(jewels: seq<JewelRisk>, snap: Snapshot, draw: Draws, n: nat)
    requires n > 0
  {
    && Distinct(jewels) && LikeliestFirst(jewels)
    && forall r: JewelRisk :: r in jewels <==>
         IsJewelId(NodeById(snap.nodes), r.id) && r.probability == Hits(Trials(snap, draw), n, r.id) as real / n as real
  }

  ghost predicate IsSimulation(sim: RiskSimulation, snap: Snapshot, draw: Draws, n: nat)
    requires n > 0
  {
    && sim.iterations == n
    && sim.any == AnyHits(Trials(snap, draw), n) as real / n as real
    && sim.expected == TotalHits(Trials(snap, draw), n) as real / n as real
    && if HasSeedAndJewel(snap) then ListsJewels(sim.jewels, snap, draw, n) else sim.jewels == []
  }

  function Iterations(iterations: int): (n: nat)
    ensures n > 0
  {
    if iterations <= 0 then DEFAULT_ITERATIONS else iterations
  }

  /** The context is found done at one of the trials where it is looked at. */
  predicate Stopped(done: nat -> bool, n: nat) {
    exists it: nat :: it < n && it % CANCEL_STRIDE == 0 && done(it)
  }

  /** The context is looked at every 256 trials. */
  ghost predicate StoppedWithin(done: nat -> bool, n: nat) {
    exists k: nat :: LookedAt(done, k, n)
  }

  predicate LookedAt(done: nat -> bool, k: nat, n: nat) {
    256 * k < n && done(256 * k)
  }

  lemma StrideIs(done: nat -> bool, n: nat)
    ensures Stopped(done, n) <==> StoppedWithin(done, n)
  {
    if it: nat :| it < n && it % CANCEL_STRIDE == 0 && done(it) {
      assert LookedAt(done, it / 256, n);
    }
    if k: nat :| LookedAt(done, k, n) {
      assert (256 * k) % CANCEL_STRIDE == 0;
    }
  }

  /** What a trial that reached the nodes `reached` adds to the count of node `i`, over the
      jewels `js`. */
  function Adds(js: seq<nat>, reached: set<nat>, i: nat): nat {
    if i in js && i in reached then 1 else 0
  }

  lemma AddsSnoc(js: seq<nat>, reached: set<nat>, n: nat, i: nat)
    requires Distinct(js) && n < |js|
    ensures Adds(js[..n + 1], reached, i) == Adds(js[..n], reached, i) + if i == js[n] && js[n] in reached then 1 else 0
  {
    assert js[..n + 1] == js[..n] + [js[n]];
  }

  /** The compromised jewels among `js`. */
  ghost function ReachedAmong(ids: seq<string>, js: seq<nat>, reached: set<nat>): set<string>
    requires forall i :: 0 <= i < |js| ==> js[i] < |ids|
  {
    if js == [] then {}
    else
      var j := js[|js| - 1];
      ReachedAmong(ids, js[..|js| - 1], reached) + if j in reached then {ids[j]} else {}
  }

  lemma {:induction false} ReachedAmongAre(ids: seq<string>, js: seq<nat>, reached: set<nat>, id: string)
    requires forall i :: 0 <= i < |js| ==> js[i] < |ids|
    ensures id in ReachedAmong(ids, js, reached) <==> exists i :: 0 <= i < |js| && js[i] in reached && ids[js[i]] == id
  {
    if js != [] {
      var n := |js| - 1;
      ReachedAmongAre(ids, js[..n], reached, id);
      assert forall i :: 0 <= i < n ==> js[..n][i] == js[i];
    }
  }

  lemma {:induction false} ReachedSnoc(ids: seq<string>, js: seq<nat>, reached: set<nat>, n: nat)
    requires Distinct(js) && Distinct(ids) && n < |js|
    requires forall i :: 0 <= i < |js| ==> js[i] < |ids|
    ensures |ReachedAmong(ids, js[..n + 1], reached)| == |ReachedAmong(ids, js[..n], reached)| + if js[n] in reached then 1 else 0
  {
    ReachedAmongAre(ids, js[..n], reached, ids[js[n]]);
    assert js[..n + 1][..n] == js[..n];
  }

  /** `after` counts what `before` counted and this trial's jewels among `js`. */
  ghost predicate Counted(before: seq<nat>, after: seq<nat>, js: seq<nat>, reached: set<nat>) {
    && |before| == |after|
    && forall i: nat :: i < |before| ==> after[i] == before[i] + Adds(js, reached, i)
  }

  lemma CountedSnoc(before: seq<nat>, after: seq<nat>, js: seq<nat>, reached: set<nat>, n: nat)
    requires Distinct(js) && n < |js| && js[n] < |after| && Counted(before, after, js[..n], reached)
    ensures Counted(before, if js[n] in reached then after[js[n] := after[js[n]] + 1] else after, js[..n + 1], reached)
  {
    forall i: nat | i < |before|
      ensures Adds(js[..n + 1], reached, i) == Adds(js[..n], reached, i) + if i == js[n] && js[n] in reached then 1 else 0
    {
      AddsSnoc(js, reached, n, i);
    }
  }

  /** Counts one trial's compromised jewels. */
  method CountTrial(t: T.Trials, hits: array<nat>, ghost reached: set<nat>) returns (compromised: nat)
    requires t.Valid() && hits.Length == |t.g.ids| && hits != t.visited && hits != t.hit
    requires Distinct(t.g.jewels) && Distinct(t.g.ids) && reached == t.ReachedNodes()
    modifies hits
    ensures compromised == |ReachedAmong(t.g.ids, t.g.jewels, reached)|
    ensures Counted(old(hits[..]), hits[..], t.g.jewels, reached)
  {
    compromised := 0;
    ghost var ids, js := t.g.ids, t.g.jewels;
    for n := 0 to |t.g.jewels|
      invariant compromised == |ReachedAmong(ids, js[..n], reached)|
      invariant Counted(old(hits[..]), hits[..], js[..n], reached)
    {
      ReachedSnoc(ids, js, reached, n);
      var one := CountJewel(t, hits, n, old(hits[..]), reached);
      compromised := compromised + one;
    }
    assert js[..|js|] == js;
  }

  method CountJewel(t: T.Trials, hits: array<nat>, n: nat, ghost before: seq<nat>, ghost reached: set<nat>) returns (one: nat)
    requires t.Valid() && hits.Length == |t.g.ids| && hits != t.visited && hits != t.hit
    requires Distinct(t.g.jewels) && reached == t.ReachedNodes() && n < |t.g.jewels|
    requires Counted(before, hits[..], t.g.jewels[..n], reached)
    modifies hits
    ensures one == if t.g.jewels[n] in reached then 1 else 0
    ensures Counted(before, hits[..], t.g.jewels[..n + 1], reached)
  {
    var j := t.g.jewels[n];
    CountedSnoc(before, hits[..], t.g.jewels, reached, n);
    one := 0;
    if t.Reached(j) {
      hits[j] := hits[j] + 1;
      one := 1;
    }
  }

  /** The nodes reached tell which jewels a trial compromises. */
  ghost predicate Tells(g: Compiled, reached: set<nat>, trial: set<string>) {
    && (forall i :: 0 <= i < |g.jewels| ==> g.jewels[i] < |g.ids|)
    && ReachedAmong(g.ids, g.jewels, reached) == trial
    && (forall j :: j in g.jewels ==> j < |g.ids| && (j in reached <==> g.ids[j] in trial))
  }

  lemma ReachedAreCompromised(t: T.Trials, snap: Snapshot, open: Edge -> bool)
    requires t.Valid() && CompiledFrom(t.g, snap) && MarksReached(snap, open, t.g, t.Marks())
    ensures Tells(t.g, t.ReachedNodes(), CompromisedSet(snap, open))
  {
    var g, reached, all := t.g, t.ReachedNodes(), CompromisedSet(snap, open);
    forall j | j in g.jewels ensures j in reached <==> g.ids[j] in all {
      T.ReachedIsCompromised(t, snap, open, j);
    }
    forall id ensures id in ReachedAmong(g.ids, g.jewels, reached) <==> id in all {
      ReachedAmongAre(g.ids, g.jewels, reached, id);
      if id in all {
        assert g.index[id] in g.jewels;
      }
    }
  }

  method RunTrial(t: T.Trials, draw: Draws, it: nat, ghost snap: Snapshot)
    requires t.Valid() && CompiledFrom(t.g, snap)
    modifies t, t.visited, t.hit
    ensures t.Valid() && Tells(t.g, t.ReachedNodes(), Trials(snap, draw)(it))
  {
    ghost var open := OpenIn(NodeById(snap.nodes), draw, it);
    t.Run(name => draw(it, name), t.g.p, snap, open);
    ReachedAreCompromised(t, snap, open);
  }

  /** The counts after `n` trials. */
  ghost predicate CountsAre(g: Compiled, trials: nat -> set<string>, n: nat, hits: seq<nat>) {
    |hits| == |g.ids| && forall j :: j in g.jewels ==> j < |g.ids| && hits[j] == Hits(trials, n, g.ids[j])
  }

  lemma CountsStep(g: Compiled, trials: nat -> set<string>, n: nat, hits: seq<nat>, hits': seq<nat>, reached: set<nat>)
    requires CountsAre(g, trials, n, hits) && Counted(hits, hits', g.jewels, reached)
    requires Tells(g, reached, trials(n))
    ensures CountsAre(g, trials, n + 1, hits')
  {
  }

  /** One trial, run and counted. */
  method CountedTrial(t: T.Trials, hits: array<nat>, draw: Draws, it: nat, anyBefore: nat, totalBefore: nat, ghost snap: Snapshot) returns (anyHits: nat, total: nat)
    requires t.Valid() && CompiledFrom(t.g, snap) && hits != t.visited && hits != t.hit
    requires CountsAre(t.g, Trials(snap, draw), it, hits[..])
    requires TotalsAre(Trials(snap, draw), it, anyBefore, totalBefore)
    modifies t, t.visited, t.hit, hits
    ensures t.Valid() && CountsAre(t.g, Trials(snap, draw), it + 1, hits[..])
    ensures TotalsAre(Trials(snap, draw), it + 1, anyHits, total)
  {
    ghost var trials := Trials(snap, draw);
    RunTrial(t, draw, it, snap);
    var compromised := CountInto(t, hits, trials, it);
    anyHits := if compromised > 0 then anyBefore + 1 else anyBefore;
    total := totalBefore + compromised;
    TotalsStep(trials, it, anyBefore, totalBefore, compromised);
  }

  /** A finished trial's jewels, added to the counts. */
  method CountInto(t: T.Trials, hits: array<nat>, ghost trials: nat -> set<string>, ghost it: nat) returns (compromised: nat)
    requires t.Valid() && Distinct(t.g.jewels) && Distinct(t.g.ids) && hits != t.visited && hits != t.hit
    requires CountsAre(t.g, trials, it, hits[..]) && Tells(t.g, t.ReachedNodes(), trials(it))
    modifies hits
    ensures CountsAre(t.g, trials, it + 1, hits[..]) && compromised == |trials(it)|
  {
    ghost var before, reached := hits[..], t.ReachedNodes();
    compromised := CountTrial(t, hits, reached);
    CountsStep(t.g, trials, it, before, hits[..], reached);
  }

  ghost predicate TotalsAre(trials: nat -> set<string>, n: nat, anyHits: nat, total: nat) {
    anyHits == AnyHits(trials, n) && total == TotalHits(trials, n)
  }

  lemma TotalsStep(trials: nat -> set<string>, it: nat, anyHits: nat, total: nat, compromised: nat)
    requires TotalsAre(trials, it, anyHits, total) && compromised == |trials(it)|
    ensures TotalsAre(trials, it + 1, if compromised > 0 then anyHits + 1 else anyHits, total + compromised)
  {
  }

  /** The trials of one simulation, stopping when the context is found done. */
  method RunTrials(t: T.Trials, hits: array<nat>, n: nat, draw: Draws, done: nat -> bool, ghost snap: Snapshot) returns (stopped: bool, anyHits: nat, total: nat)
    requires t.Valid() && CompiledFrom(t.g, snap) && hits != t.visited && hits != t.hit
    requires CountsAre(t.g, Trials(snap, draw), 0, hits[..])
    modifies t, t.visited, t.hit, hits
    ensures stopped <==> Stopped(done, n)
    ensures !stopped ==> CountsAre(t.g, Trials(snap, draw), n, hits[..])
    ensures !stopped ==> TotalsAre(Trials(snap, draw), n, anyHits, total)
  {
    stopped, anyHits, total := false, 0, 0;
    for it := 0 to n
      invariant t.Valid() && CountsAre(t.g, Trials(snap, draw), it, hits[..])
      invariant TotalsAre(Trials(snap, draw), it, anyHits, total)
      invariant !stopped && !Stopped(done, it)
    {
      stopped := it % CANCEL_STRIDE == 0 && done(it);
      StoppedStep(done, it, n);
      if stopped {
        return;
      }
      anyHits, total := CountedTrial(t, hits, draw, it, anyHits, total, snap);
    }
  }

  lemma StoppedStep(done: nat -> bool, it: nat, n: nat)
    requires it < n
    ensures Stopped(done, it + 1) <==> Stopped(done, it) || (it % CANCEL_STRIDE == 0 && done(it))
    ensures Stopped(done, it + 1) ==> Stopped(done, n)
  {
    if i: nat :| i < it + 1 && i % CANCEL_STRIDE == 0 && done(i) {
      assert Stopped(done, n);
    }
  }

  /** The simulation, unless its context is done when it is looked at. */
  method SimulateRisk(snap: Snapshot, iterations: int, draw: Draws, done: nat -> bool) returns (r: Outcome)
    ensures var n: nat := if iterations <= 0 then 2000 else iterations;
      if HasSeedAndJewel(snap) && StoppedWithin(done, n) then r == Cancelled
      else r.Done? && IsSimulation(r.sim, snap, draw, n)
  {
    var n := Iterations(iterations);
    StrideIs(done, n);
    var g := CompileGraph(snap);
    SeedsAndJewelsListed(g, snap);
    if |g.seeds| == 0 || |g.jewels| == 0 {
      NothingSimulated(snap, draw, n);
      return Done(RiskSimulation(n, 0.0, 0.0, []));
    }
    var stopped, sim := SimulateCompiled(g, n, draw, done, snap);
    r := if stopped then Cancelled else Done(sim);
  }

  /** The simulation of a graph with something to reach and something to reach it from. */
  method SimulateCompiled(g: Compiled, n: nat, draw: Draws, done: nat -> bool, ghost snap: Snapshot) returns (stopped: bool, sim: RiskSimulation)
    requires n > 0 && CompiledFrom(g, snap) && HasSeedAndJewel(snap)
    ensures stopped <==> Stopped(done, n)
    ensures !stopped ==> IsSimulation(sim, snap, draw, n)
  {
    CompiledIsShaped(g, snap);
    var t := new T.Trials(g);
    var hits := new nat[|g.ids|](i => 0);
    NothingCounted(g, snap, draw, hits[..]);
    sim := RiskSimulation(n, 0.0, 0.0, []);
    var anyHits, total;
    stopped, anyHits, total := RunTrials(t, hits, n, draw, done, snap);
    if !stopped {
      var jewels := JewelRisks(g, hits[..], snap, draw, n);
      sim := RiskSimulation(n, anyHits as real / n as real, total as real / n as real, jewels);
      Simulated(sim, snap, draw, n);
    }
  }

  lemma {:induction false} Simulated(sim: RiskSimulation, snap: Snapshot, draw: Draws, n: nat)
    requires n > 0 && HasSeedAndJewel(snap) && ListsJewels(sim.jewels, snap, draw, n) && sim.iterations == n
    requires sim.any == AnyHits(Trials(snap, draw), n) as real / n as real
    requires sim.expected == TotalHits(Trials(snap, draw), n) as real / n as real
    ensures IsSimulation(sim, snap, draw, n)
  {
  }

  lemma NothingCounted(g: Compiled, snap: Snapshot, draw: Draws, hits: seq<nat>)
    requires CompiledFrom(g, snap) && |hits| == |g.ids| && forall i :: 0 <= i < |hits| ==> hits[i] == 0
    ensures CountsAre(g, Trials(snap, draw), 0, hits)
  {
  }

  lemma SeedsAndJewelsListed(g: Compiled, snap: Snapshot)
    requires CompiledFrom(g, snap)
    ensures HasSeedAndJewel(snap) <==> g.seeds != [] && g.jewels != []
  {
    var nodes := NodeById(snap.nodes);
    if s :| IsSeedId(nodes, s) {
      assert g.index[s] in g.seeds;
    }
    if j :| IsJewelId(nodes, j) {
      assert g.index[j] in g.jewels;
    }
    if g.seeds != [] {
      assert g.seeds[0] in g.seeds;
    }
    if g.jewels != [] {
      assert g.jewels[0] in g.jewels;
    }
  }

  /** Nothing to reach, or nothing to reach it from: no trial compromises anything. */
  lemma {:induction false} NothingToReach(snap: Snapshot, draw: Draws, n: nat)
    ensures HasSeedAndJewel(snap) || (AnyHits(Trials(snap, draw), n) == 0 && TotalHits(Trials(snap, draw), n) == 0)
  {
    if !HasSeedAndJewel(snap) && n > 0 {
      NothingToReach(snap, draw, n - 1);
      assert Trials(snap, draw)(n - 1) == {};
    }
  }

  lemma NothingSimulated(snap: Snapshot, draw: Draws, n: nat)
    requires n > 0 && !HasSeedAndJewel(snap)
    ensures IsSimulation(RiskSimulation(n, 0.0, 0.0, []), snap, draw, n)
  {
    NothingToReach(snap, draw, n);
  }

  /** The jewels' shares, sorted. */
  method JewelRisks(g: Compiled, hits: seq<nat>, ghost snap: Snapshot, ghost draw: Draws, n: nat) returns (jewels: seq<JewelRisk>)
    requires n > 0 && CompiledFrom(g, snap) && CountsAre(g, Trials(snap, draw), n, hits)
    ensures ListsJewels(jewels, snap, draw, n)
  {
    var listed := ListRisks(g, hits, n);
    jewels := SortBy(RisksBefore, listed);
    AllListed(g, hits, snap, draw, n, listed);
    SortedLists(listed, snap, draw, n);
  }

  method ListRisks(g: Compiled, hits: seq<nat>, n: nat) returns (listed: seq<JewelRisk>)
    requires n > 0 && |hits| == |g.ids| && forall j :: j in g.jewels ==> j < |g.ids|
    ensures |listed| == |g.jewels| && forall k :: 0 <= k < |listed| ==> IsJewelRisk(g, hits, n, k, listed[k])
  {
    listed := [];
    for i := 0 to |g.jewels|
      invariant |listed| == i && forall k :: 0 <= k < i ==> IsJewelRisk(g, hits, n, k, listed[k])
    {
      assert g.jewels[i] in g.jewels;
      var r := RiskOfJewel(g, hits, n, i);
      listed := listed + [r];
    }
  }

  predicate IsJewelRisk(g: Compiled, hits: seq<nat>, n: nat, k: nat, r: JewelRisk)
    requires n > 0
  {
    && k < |g.jewels| && g.jewels[k] in g.jewels && g.jewels[k] < |g.ids| && g.jewels[k] < |hits|
    && r == JewelRisk(g.ids[g.jewels[k]], hits[g.jewels[k]] as real / n as real)
  }

  method RiskOfJewel(g: Compiled, hits: seq<nat>, n: nat, k: nat) returns (r: JewelRisk)
    requires n > 0 && k < |g.jewels| && g.jewels[k] < |g.ids| == |hits|
    ensures IsJewelRisk(g, hits, n, k, r)
  {
    var j := g.jewels[k];
    r := JewelRisk(g.ids[j], hits[j] as real / n as real);
  }

  lemma {:induction false} SortedLists(listed: seq<JewelRisk>, snap: Snapshot, draw: Draws, n: nat)
    requires n > 0 && Distinct(listed)
    requires forall r: JewelRisk :: r in listed <==>
      IsJewelId(NodeById(snap.nodes), r.id) && r.probability == Hits(Trials(snap, draw), n, r.id) as real / n as real
    ensures ListsJewels(SortBy(RisksBefore, listed), snap, draw, n)
  {
    var jewels := SortBy(RisksBefore, listed);
    RisksAreStrictWeak();
    SortKeeps(RisksBefore, listed);
    DistinctPermutes(listed, jewels);
    SortedIsLikeliestFirst(jewels);
    forall r: JewelRisk ensures r in jewels <==> r in listed {
      assert r in multiset(jewels) <==> r in multiset(listed);
    }
  }

  lemma SortedIsLikeliestFirst(jewels: seq<JewelRisk>)
    requires Sorted(RisksBefore, jewels) && Distinct(jewels)
    ensures LikeliestFirst(jewels)
  {
    forall i, j | 0 <= i < j < |jewels|
      ensures jewels[i].probability > jewels[j].probability || (jewels[i].probability == jewels[j].probability && StrLess(jewels[i].id, jewels[j].id))
    {
      assert !RisksBefore(jewels[j], jewels[i]) && jewels[i] != jewels[j];
      StrTotal(jewels[i].id, jewels[j].id);
    }
  }

  lemma LikeliestFirstIsSorted(jewels: seq<JewelRisk>)
    requires LikeliestFirst(jewels)
    ensures Sorted(RisksBefore, jewels)
  {
    forall i, j | 0 <= i < j < |jewels| ensures !RisksBefore(jewels[j], jewels[i]) {
      StrTotal(jewels[i].id, jewels[j].id);
    }
  }

  lemma {:induction false} AllListed(g: Compiled, hits: seq<nat>, snap: Snapshot, draw: Draws, n: nat, listed: seq<JewelRisk>)
    requires n > 0 && CompiledFrom(g, snap) && CountsAre(g, Trials(snap, draw), n, hits) && |listed| == |g.jewels|
    requires forall k :: 0 <= k < |listed| ==> IsJewelRisk(g, hits, n, k, listed[k])
    ensures Distinct(listed)
    ensures forall r: JewelRisk :: r in listed <==>
      IsJewelId(NodeById(snap.nodes), r.id) && r.probability == Hits(Trials(snap, draw), n, r.id) as real / n as real
  {
    forall r: JewelRisk | IsJewelId(NodeById(snap.nodes), r.id) && r.probability == Hits(Trials(snap, draw), n, r.id) as real / n as real
      ensures r in listed
    {
      assert g.index[r.id] in g.jewels;
      var k :| 0 <= k < |g.jewels| && g.jewels[k] == g.index[r.id];
      assert listed[k] == r;
    }
  }

  lemma RisksAreStrictWeak()
    ensures StrictWeak(RisksBefore)
  {
    forall a, b ensures RisksBefore(a, b) ==> !RisksBefore(b, a) {
      StrTotal(a.id, b.id);
    }
    forall a, b, c | !RisksBefore(b, a) && !RisksBefore(c, b) ensures !RisksBefore(c, a) {
      WeightThenNameChains(-a.probability, a.id, -b.probability, b.id, -c.probability, c.id);
    }
    forall a ensures !RisksBefore(a, a) {
      StrTotal(a.id, a.id);
    }
  }

  // ── What the numbers mean ──────────────────────────────────────────

  lemma TrialsIgnoreEdgeOrder(snap: Snapshot, other: Snapshot, draw: Draws, it: nat)
    requires snap.nodes == other.nodes && multiset(snap.edges) == multiset(other.edges)
    ensures Trials(snap, draw)(it) == Trials(other, draw)(it)
  {
    EdgeOrderIsIrrelevant(snap, other, OpenIn(NodeById(snap.nodes), draw, it));
  }

  lemma {:induction false} SameTrialsSameCounts(a: nat -> set<string>, b: nat -> set<string>, n: nat, id: string)
    requires forall it :: a(it) == b(it)
    ensures AnyHits(a, n) == AnyHits(b, n) && TotalHits(a, n) == TotalHits(b, n) && Hits(a, n, id) == Hits(b, n, id)
  {
    if n > 0 {
      SameTrialsSameCounts(a, b, n - 1, id);
    }
  }

  lemma SameJewels(a: seq<JewelRisk>, b: seq<JewelRisk>)
    requires Distinct(a) && Distinct(b) && LikeliestFirst(a) && LikeliestFirst(b)
    requires forall r: JewelRisk :: r in a <==> r in b
    ensures a == b
  {
    LikeliestFirstIsSorted(a);
    LikeliestFirstIsSorted(b);
    SameElementsPermute(a, b);
    RisksAreStrictWeak();
    forall x, y | !RisksBefore(x, y) && !RisksBefore(y, x) ensures x == y {
      StrTotal(x.id, y.id);
    }
    SortedIsUnique(RisksBefore, a, b);
  }

  /** The simulation is a function of what the snapshot holds: neither the order of its edges
      nor anything else moves it. */
  lemma SimulationIgnoresEdgeOrder(a: RiskSimulation, b: RiskSimulation, snap: Snapshot, other: Snapshot, draw: Draws, n: nat)
    requires n > 0 && IsSimulation(a, snap, draw, n) && IsSimulation(b, other, draw, n)
    requires snap.nodes == other.nodes && multiset(snap.edges) == multiset(other.edges)
    ensures a == b
  {
    forall it ensures Trials(snap, draw)(it) == Trials(other, draw)(it) {
      TrialsIgnoreEdgeOrder(snap, other, draw, it);
    }
    forall id ensures Hits(Trials(snap, draw), n, id) == Hits(Trials(other, draw), n, id) {
      SameTrialsSameCounts(Trials(snap, draw), Trials(other, draw), n, id);
    }
    SameTrialsSameCounts(Trials(snap, draw), Trials(other, draw), n, "");
    if HasSeedAndJewel(snap) {
      SameJewels(a.jewels, b.jewels);
    }
  }

  ghost function SumHits(trials: nat -> set<string>, n: nat, ids: seq<string>): nat {
    if ids == [] then 0 else SumHits(trials, n, ids[..|ids| - 1]) + Hits(trials, n, ids[|ids| - 1])
  }

  ghost function CountIn(ids: seq<string>, s: set<string>): nat {
    if ids == [] then 0 else CountIn(ids[..|ids| - 1], s) + if ids[|ids| - 1] in s then 1 else 0
  }

  lemma {:induction false} CountInIsSize(ids: seq<string>, s: set<string>)
    requires Distinct(ids) && forall id :: id in s ==> id in ids
    ensures CountIn(ids, s) == |s|
    decreases |ids|
  {
    if ids == [] {
      assert s == {};
    } else {
      var init, last := ids[..|ids| - 1], ids[|ids| - 1];
      assert ids == init + [last] && last !in init;
      var rest := s - {last};
      CountInIsSize(init, rest);
      CountInSame(init, s, rest);
    }
  }

  lemma {:induction false} CountInSame(ids: seq<string>, s: set<string>, s': set<string>)
    requires forall id :: id in ids ==> (id in s <==> id in s')
    ensures CountIn(ids, s) == CountIn(ids, s')
  {
    if ids != [] {
      CountInSame(ids[..|ids| - 1], s, s');
    }
  }

  lemma {:induction false} SumHitsStep(trials: nat -> set<string>, n: nat, ids: seq<string>)
    ensures SumHits(trials, n + 1, ids) == SumHits(trials, n, ids) + CountIn(ids, trials(n))
  {
    if ids != [] {
      SumHitsStep(trials, n, ids[..|ids| - 1]);
    }
  }

  lemma {:induction false} NoTrialsNoHits(trials: nat -> set<string>, ids: seq<string>)
    ensures SumHits(trials, 0, ids) == 0
  {
    if ids != [] {
      NoTrialsNoHits(trials, ids[..|ids| - 1]);
    }
  }

  lemma {:induction false} TotalIsSum(trials: nat -> set<string>, n: nat, ids: seq<string>)
    requires Distinct(ids) && forall it: nat, id :: id in trials(it) ==> id in ids
    ensures TotalHits(trials, n) == SumHits(trials, n, ids)
  {
    if n == 0 {
      NoTrialsNoHits(trials, ids);
    } else {
      TotalIsSum(trials, n - 1, ids);
      SumHitsStep(trials, n - 1, ids);
      CountInIsSize(ids, trials(n - 1));
    }
  }

  /** Counted trial by trial or jewel by jewel, the total is the same: the expected number of
      compromised jewels is the jewels' own probabilities added up. */
  lemma {:induction false} TotalIsSumOfJewels(snap: Snapshot, draw: Draws, n: nat, ids: seq<string>)
    requires Distinct(ids) && forall id :: id in ids <==> IsJewelId(NodeById(snap.nodes), id)
    ensures TotalHits(Trials(snap, draw), n) == SumHits(Trials(snap, draw), n, ids)
  {
    TotalIsSum(Trials(snap, draw), n, ids);
  }

  lemma SizeOrders(s: set<string>, id: string)
    ensures (id in s ==> s != {}) && (s != {} ==> |s| >= 1)
  {
  }

  /** The shares are probabilities, and the chance of any compromise is at most the expected
      number of compromised jewels. */
  lemma {:induction false} CountsAreOrdered(trials: nat -> set<string>, n: nat, id: string)
    ensures Hits(trials, n, id) <= AnyHits(trials, n) <= n
    ensures AnyHits(trials, n) <= TotalHits(trials, n)
  {
    if n > 0 {
      CountsAreOrdered(trials, n - 1, id);
      SizeOrders(trials(n - 1), id);
    }
  }
}
