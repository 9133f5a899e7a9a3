/** The risk against each attacker profile: the same trials, every edge at the profile's own
    probability. */
module ProfileRisk {
  import opened Graph
  import opened Compromise
  import opened MonteCarlo
  import opened Walks
  import opened Risk
  import opened Anchor
  import opened Newton
  import opened Solver
  import opened Mixture
  import opened Profiles
  import T = Trials

  /** What the profiles' probabilities are computed with. */
  datatype Model = Model(profs: seq<Profile>, exp: real -> real, mid: (real, real) -> real) {
    ghost predicate Valid() {
      profs != [] && IsPrior(PriorsOf(profs)) && IsExp(exp) && IsMiddle(mid)
    }
  }

  /** Where the search for an edge stops. */
  ghost function StopOf(m: Model, p: real, basis: string): real {
    if exists x :: StoppedAt(p, basis, m.profs, m.exp, m.mid, x) then
      var x :| StoppedAt(p, basis, m.profs, m.exp, m.mid, x); x
    else 1.0
  }

  /** An edge's probability against profile `c`. */
  ghost function CondProb(m: Model, e: Edge, nodes: map<string, Node>, c: nat): real
    requires c < |m.profs|
  {
    var basis := BasisIn(e, nodes);
    var w, x := WeightAt(m.exp, Sensitivity(basis), m.profs[c]), StopOf(m, ClampProb(e.probability), basis);
    if w > 0.0 && x > 0.0 then ProbAt(w, x) else 0.0
  }

  lemma StopIsOne(m: Model, p: real, basis: string, x: real)
    requires StoppedAt(p, basis, m.profs, m.exp, m.mid, x)
    ensures StopOf(m, p, basis) == x
  {
    StopsOnce(p, basis, m.profs, m.exp, m.mid, StopOf(m, p, basis), x);
  }

  /** A more skilled profile crosses every edge at least as easily. */
  lemma CondRises(m: Model, e: Edge, nodes: map<string, Node>, c: nat, d: nat)
    requires m.Valid() && c < |m.profs| && d < |m.profs| && m.profs[c].skill <= m.profs[d].skill
    ensures CondProb(m, e, nodes, c) <= CondProb(m, e, nodes, d)
  {
    var basis := BasisIn(e, nodes);
    var x := StopOf(m, ClampProb(e.probability), basis);
    WeightFalls(m.exp, Sensitivity(basis), m.profs[c], m.profs[d]);
    if x > 0.0 {
      ProbFalls(WeightAt(m.exp, Sensitivity(basis), m.profs[d]), x, WeightAt(m.exp, Sensitivity(basis), m.profs[c]), x);
    }
  }

  /** The edges one trial opens to profile `c`. */
  ghost function OpenTo(m: Model, nodes: map<string, Node>, c: nat, draw: Draws, it: nat): Edge -> bool
    requires c < |m.profs|
  {
    (e: Edge) => draw(it, DrawName(e, nodes)) < CondProb(m, e, nodes, c)
  }

  ghost function TrialsOf(m: Model, snap: Snapshot, c: nat, draw: Draws): nat -> set<string>
    requires c < |m.profs|
  {
    (it: nat) => CompromisedSet(snap, OpenTo(m, NodeById(snap.nodes), c, draw, it))
  }

  lemma StrongerReachesMore(m: Model, snap: Snapshot, c: nat, d: nat, draw: Draws, it: nat)
    requires m.Valid() && c < |m.profs| && d < |m.profs| && m.profs[c].skill <= m.profs[d].skill
    ensures TrialsOf(m, snap, c, draw)(it) <= TrialsOf(m, snap, d, draw)(it)
  {
    var nodes := NodeById(snap.nodes);
    forall e | e in snap.edges && OpenTo(m, nodes, c, draw, it)(e) ensures OpenTo(m, nodes, d, draw, it)(e) {
      CondRises(m, e, nodes, c, d);
    }
    MoreOpenMoreCompromised(snap, OpenTo(m, nodes, c, draw, it), snap, OpenTo(m, nodes, d, draw, it));
  }

  lemma {:induction false} AnyHitsMonotone(less: nat -> set<string>, more: nat -> set<string>, n: nat)
    requires forall it :: less(it) <= more(it)
    ensures AnyHits(less, n) <= AnyHits(more, n)
  {
    if n > 0 {
      AnyHitsMonotone(less, more, n - 1);
    }
  }

  /** The chance that a jewel is compromised never falls with skill. */
  lemma {:induction false} RateRises(m: Model, snap: Snapshot, c: nat, d: nat, draw: Draws, n: nat)
    requires m.Valid() && c < |m.profs| && d < |m.profs| && m.profs[c].skill <= m.profs[d].skill
    ensures AnyHits(TrialsOf(m, snap, c, draw), n) <= AnyHits(TrialsOf(m, snap, d, draw), n)
  {
    forall it ensures TrialsOf(m, snap, c, draw)(it) <= TrialsOf(m, snap, d, draw)(it) {
      StrongerReachesMore(m, snap, c, d, draw, it);
    }
    AnyHitsMonotone(TrialsOf(m, snap, c, draw), TrialsOf(m, snap, d, draw), n);
  }

  // ── The run ────────────────────────────────────────────────────────

  datatype ProfileCompromise = ProfileCompromise(profile: string, prior: real, probability: real)

  /** The compiled edges' probabilities against profile `c`. */
  ghost predicate CondOf(m: Model, g: Compiled, snap: Snapshot, c: nat, cond: seq<real>)
    requires c < |m.profs|
  {
    |cond| == |g.to| == |snap.edges| && forall k :: 0 <= k < |cond| ==> cond[k] == CondProb(m, snap.edges[k], NodeById(snap.nodes), c)
  }

  lemma CondOpens(m: Model, g: Compiled, snap: Snapshot, c: nat, cond: seq<real>, draw: Draws, it: nat)
    requires CompiledFrom(g, snap) && c < |m.profs| && CondOf(m, g, snap, c, cond)
    ensures Opens(snap.edges, T.LiveIn(g, name => draw(it, name), cond), OpenTo(m, NodeById(snap.nodes), c, draw, it))
  {
  }

  lemma AnyTells(g: Compiled, reached: set<nat>, trial: set<string>)
    requires Tells(g, reached, trial)
    ensures (exists j :: j in g.jewels && j in reached) <==> trial != {}
  {
    if j :| j in g.jewels && j in reached {
      assert g.ids[j] in trial;
    }
    if id :| id in trial {
      ReachedAmongAre(g.ids, g.jewels, reached, id);
      var i :| 0 <= i < |g.jewels| && g.jewels[i] in reached && g.ids[g.jewels[i]] == id;
      assert g.jewels[i] in g.jewels;
    }
  }

  /** One trial against one profile. */
  method ProfileTrial(t: T.Trials, cond: seq<real>, draw: Draws, it: nat, ghost m: Model, ghost snap: Snapshot, ghost c: nat, ghost trials: nat -> set<string>) returns (any: bool)
    requires t.Valid() && CompiledFrom(t.g, snap) && c < |m.profs| && CondOf(m, t.g, snap, c, cond)
    requires trials == TrialsOf(m, snap, c, draw)
    modifies t, t.visited, t.hit
    ensures t.Valid() && (any <==> trials(it) != {})
  {
    ghost var open := OpenTo(m, NodeById(snap.nodes), c, draw, it);
    CondOpens(m, t.g, snap, c, cond, draw, it);
    t.Run(name => draw(it, name), cond, snap, open);
    ReachedAreCompromised(t, snap, open);
    any := t.AnyJewel();
    AnyTells(t.g, t.ReachedNodes(), CompromisedSet(snap, open));
  }

  lemma AnyStep(trials: nat -> set<string>, it: nat, any: bool)
    requires any <==> trials(it) != {}
    ensures AnyHits(trials, it + 1) == AnyHits(trials, it) + if any then 1 else 0
  {
  }

  method ProfileRate(t: T.Trials, cond: seq<real>, n: nat, draw: Draws, done: nat -> bool, ghost m: Model, ghost snap: Snapshot, ghost c: nat, ghost trials: nat -> set<string>) returns (stopped: bool, anyHits: nat)
    requires t.Valid() && CompiledFrom(t.g, snap) && c < |m.profs| && CondOf(m, t.g, snap, c, cond)
    requires trials == TrialsOf(m, snap, c, draw)
    modifies t, t.visited, t.hit
    ensures t.Valid() && (stopped <==> Stopped(done, n))
    ensures !stopped ==> anyHits == AnyHits(trials, n)
  {
    stopped, anyHits := false, 0;
    for it := 0 to n
      invariant t.Valid() && !stopped && !Stopped(done, it)
      invariant anyHits == AnyHits(trials, it)
    {
      stopped := it % CANCEL_STRIDE == 0 && done(it);
      StoppedStep(done, it, n);
      if stopped {
        return;
      }
      anyHits := CountedProfileTrial(t, cond, draw, it, anyHits, m, snap, c, trials);
    }
  }

  method CountedProfileTrial(t: T.Trials, cond: seq<real>, draw: Draws, it: nat, before: nat, ghost m: Model, ghost snap: Snapshot, ghost c: nat, ghost trials: nat -> set<string>) returns (anyHits: nat)
    requires t.Valid() && CompiledFrom(t.g, snap) && c < |m.profs| && CondOf(m, t.g, snap, c, cond)
    requires trials == TrialsOf(m, snap, c, draw) && before == AnyHits(trials, it)
    modifies t, t.visited, t.hit
    ensures t.Valid() && anyHits == AnyHits(trials, it + 1)
  {
    var any := ProfileTrial(t, cond, draw, it, m, snap, c, trials);
    AnyStep(trials, it, any);
    anyHits := if any then before + 1 else before;
  }

  method ConditionedEdge(m: Model, g: Compiled, k: nat, ghost snap: Snapshot) returns (col: seq<real>)
    requires m.Valid() && CompiledFrom(g, snap) && k < |g.p|
    ensures ColumnOf(m, snap, k, col)
  {
    ghost var x, evals;
    col, x, evals := ProfileProbs(g.p[k], g.basis[k], m.profs, m.exp, m.mid);
    SpreadIsColumn(m, g, snap, k, col, x);
  }

  /** Every edge's column over the profiles, turned to one row per profile. */
  method Conditioned(m: Model, g: Compiled, ghost snap: Snapshot) returns (byProfile: seq<seq<real>>)
    requires m.Valid() && CompiledFrom(g, snap)
    ensures |byProfile| == |m.profs| && forall c :: 0 <= c < |byProfile| ==> CondOf(m, g, snap, c, byProfile[c])
  {
    var cols: seq<seq<real>> := [];
    for k := 0 to |g.p|
      invariant |cols| == k && forall i :: 0 <= i < k ==> ColumnOf(m, snap, i, cols[i])
    {
      var col := ConditionedEdge(m, g, k, snap);
      cols := cols + [col];
    }
    byProfile := Transposed(cols, |m.profs|);
    forall c | 0 <= c < |m.profs| ensures CondOf(m, g, snap, c, byProfile[c]) {
      RowIsCond(m, g, snap, cols, c);
    }
  }

  ghost predicate ColumnOf(m: Model, snap: Snapshot, k: nat, col: seq<real>) {
    && k < |snap.edges| && |col| == |m.profs|
    && forall c :: 0 <= c < |col| ==> col[c] == CondProb(m, snap.edges[k], NodeById(snap.nodes), c)
  }

  lemma SpreadIsColumn(m: Model, g: Compiled, snap: Snapshot, k: nat, col: seq<real>, x: real)
    requires CompiledFrom(g, snap) && k < |g.p|
    requires SpreadAt(col, g.basis[k], m.profs, m.exp, x) && StoppedAt(g.p[k], g.basis[k], m.profs, m.exp, m.mid, x)
    ensures ColumnOf(m, snap, k, col)
  {
    StopIsOne(m, g.p[k], g.basis[k], x);
  }

  lemma RowIsCond(m: Model, g: Compiled, snap: Snapshot, cols: seq<seq<real>>, c: nat)
    requires c < |m.profs| && |cols| == |g.to| == |snap.edges| && forall i :: 0 <= i < |cols| ==> |cols[i]| == |m.profs| && ColumnOf(m, snap, i, cols[i])
    ensures CondOf(m, g, snap, c, RowOf(cols, c))
  {
    forall k | 0 <= k < |cols| ensures cols[k][c] == CondProb(m, snap.edges[k], NodeById(snap.nodes), c) {
      assert ColumnOf(m, snap, k, cols[k]);
    }
  }

  function Share(hits: nat, n: nat): real
    requires n > 0
  {
    hits as real / n as real
  }

  /** Each profile's own chance of any compromise. */
  ghost function Rates(m: Model, snap: Snapshot, draw: Draws, n: nat): (s: seq<real>)
    requires n > 0
    ensures |s| == |m.profs| && forall c :: 0 <= c < |s| ==> s[c] == Share(AnyHits(TrialsOf(m, snap, c, draw), n), n)
  {
    seq(|m.profs|, c requires 0 <= c < |m.profs| => Share(AnyHits(TrialsOf(m, snap, c, draw), n), n))
  }

  ghost predicate Rated(out: seq<ProfileCompromise>, profs: seq<Profile>, rates: seq<real>) {
    && |out| == |profs| == |rates|
    && forall c :: 0 <= c < |profs| ==> out[c] == ProfileCompromise(profs[c].name, profs[c].prior, rates[c])
  }

  lemma {:induction false} RatedSnoc(out: seq<ProfileCompromise>, profs: seq<Profile>, rates: seq<real>, c: nat)
    requires c < |profs| == |rates| && Rated(out, profs[..c], rates[..c])
    ensures Rated(out + [ProfileCompromise(profs[c].name, profs[c].prior, rates[c])], profs[..c + 1], rates[..c + 1])
  {
    forall d | 0 <= d < c ensures out[d] == ProfileCompromise(profs[d].name, profs[d].prior, rates[d]) {
      assert profs[..c][d] == profs[d] && rates[..c][d] == rates[d];
    }
  }

  lemma RateTerm(profs: seq<Profile>, rates: seq<real>, c: nat, share: real)
    requires c < |profs| == |rates| && share == profs[c].prior * rates[c]
    ensures Sum(Terms(PriorsOf(profs), rates)[..c + 1]) == Sum(Terms(PriorsOf(profs), rates)[..c]) + share
  {
    SumSnoc(Terms(PriorsOf(profs), rates), c, share);
  }

  lemma {:induction false} RateIs(m: Model, snap: Snapshot, draw: Draws, n: nat, c: nat, rates: seq<real>, anyHits: nat)
    requires n > 0 && c < |m.profs| && rates == Rates(m, snap, draw, n) && anyHits == AnyHits(TrialsOf(m, snap, c, draw), n)
    ensures |rates| == |m.profs| && rates[c] == Share(anyHits, n)
  {
  }

  /** The context is found done while profile `c` runs. */
  predicate StoppedIn(done: (nat, nat) -> bool, c: nat, n: nat) {
    Stopped((it: nat) => done(c, it), n)
  }

  ghost predicate StoppedBefore(done: (nat, nat) -> bool, profiles: nat, n: nat) {
    exists c: nat :: c < profiles && StoppedIn(done, c, n)
  }

  lemma StoppedBeforeStep(done: (nat, nat) -> bool, c: nat, profiles: nat, n: nat)
    requires c < profiles
    ensures StoppedBefore(done, c + 1, n) <==> StoppedBefore(done, c, n) || StoppedIn(done, c, n)
    ensures StoppedBefore(done, c + 1, n) ==> StoppedBefore(done, profiles, n)
  {
    if d: nat :| d < c + 1 && StoppedIn(done, d, n) {
      assert StoppedBefore(done, profiles, n);
    }
  }

  /** What the profiles before `c` contributed. */
  ghost predicate MixedTo(m: Model, rates: seq<real>, c: nat, mixture: real, out: seq<ProfileCompromise>)
    requires c <= |m.profs| == |rates|
  {
    mixture == Sum(Terms(PriorsOf(m.profs), rates)[..c]) && Rated(out, m.profs[..c], rates[..c])
  }

  lemma {:induction false} MixedStep(m: Model, rates: seq<real>, c: nat, mixture: real, out: seq<ProfileCompromise>, share: real)
    requires c < |m.profs| == |rates| && MixedTo(m, rates, c, mixture, out) && share == m.profs[c].prior * rates[c]
    ensures MixedTo(m, rates, c + 1, mixture + share, out + [ProfileCompromise(m.profs[c].name, m.profs[c].prior, rates[c])])
  {
    RatedSnoc(out, m.profs, rates, c);
    RateTerm(m.profs, rates, c, share);
  }

  lemma MixedWhole(m: Model, rates: seq<real>, mixture: real, out: seq<ProfileCompromise>)
    requires |m.profs| == |rates| && MixedTo(m, rates, |m.profs|, mixture, out)
    ensures mixture == Mean(PriorsOf(m.profs), rates) && Rated(out, m.profs, rates)
  {
    SumWhole(Terms(PriorsOf(m.profs), rates));
    assert m.profs[..|m.profs|] == m.profs && rates[..|m.profs|] == rates;
  }

  method RateProfiles(t: T.Trials, byProfile: seq<seq<real>>, n: nat, draw: Draws, done: (nat, nat) -> bool, m: Model, ghost snap: Snapshot, ghost rates: seq<real>) returns (stopped: bool, mixture: real, out: seq<ProfileCompromise>)
    requires n > 0 && t.Valid() && CompiledFrom(t.g, snap)
    requires |byProfile| == |m.profs| && forall c :: 0 <= c < |byProfile| ==> CondOf(m, t.g, snap, c, byProfile[c])
    requires rates == Rates(m, snap, draw, n)
    modifies t, t.visited, t.hit
    ensures stopped <==> StoppedBefore(done, |m.profs|, n)
    ensures !stopped ==> MixedTo(m, rates, |m.profs|, mixture, out)
  {
    stopped, mixture, out := false, 0.0, [];
    for c := 0 to |m.profs|
      invariant t.Valid() && !stopped && !StoppedBefore(done, c, n)
      invariant MixedTo(m, rates, c, mixture, out)
    {
      StoppedBeforeStep(done, c, |m.profs|, n);
      ghost var trials := TrialsOf(m, snap, c, draw);
      var anyHits;
      stopped, anyHits := ProfileRate(t, byProfile[c], n, draw, (it: nat) => done(c, it), m, snap, c, trials);
      if stopped {
        return;
      }
      RateIs(m, snap, draw, n, c, rates, anyHits);
      mixture, out := AddRate(m, n, c, anyHits, mixture, out, rates);
    }
  }

  /** One profile's rate added to what the profiles before it contributed. */
  method AddRate(m: Model, n: nat, c: nat, anyHits: nat, mixture: real, out: seq<ProfileCompromise>, ghost rates: seq<real>) returns (mixture': real, out': seq<ProfileCompromise>)
    requires n > 0 && c < |m.profs| == |rates| && rates[c] == Share(anyHits, n) && MixedTo(m, rates, c, mixture, out)
    ensures MixedTo(m, rates, c + 1, mixture', out')
  {
    var rate := anyHits as real / n as real;
    var share := m.profs[c].prior * rate;
    out' := out + [ProfileCompromise(m.profs[c].name, m.profs[c].prior, rate)];
    mixture' := mixture + share;
    MixedStep(m, rates, c, mixture, out, share);
  }

  /** `mixtureCompromise`: every profile's rate over the headline's trials, and their mean.
      `done` says of each profile's trials when the context is found done. */
  method MixtureCompromise(m: Model, g: Compiled, n: nat, draw: Draws, done: (nat, nat) -> bool, ghost snap: Snapshot) returns (stopped: bool, mixture: real, out: seq<ProfileCompromise>)
    requires (m.profs != [] ==> m.Valid()) && CompiledFrom(g, snap)
    ensures n == 0 || !HasSeedAndJewel(snap) || m.profs == [] ==> !stopped && mixture == 0.0 && out == []
    ensures n > 0 && HasSeedAndJewel(snap) && m.profs != [] ==> (stopped <==> StoppedBefore(done, |m.profs|, n))
    ensures n > 0 && HasSeedAndJewel(snap) && m.profs != [] && !stopped ==>
      mixture == Mean(PriorsOf(m.profs), Rates(m, snap, draw, n)) && Rated(out, m.profs, Rates(m, snap, draw, n))
  {
    SeedsAndJewelsListed(g, snap);
    if n == 0 || |g.seeds| == 0 || |g.jewels| == 0 || |m.profs| == 0 {
      return false, 0.0, [];
    }
    var byProfile := Conditioned(m, g, snap);
    CompiledIsShaped(g, snap);
    var t := new T.Trials(g);
    stopped, mixture, out := RateProfiles(t, byProfile, n, draw, done, m, snap, Rates(m, snap, draw, n));
    if !stopped {
      MixedWhole(m, Rates(m, snap, draw, n), mixture, out);
    }
  }

  /** In what it reports, a more skilled profile never fares worse. */
  lemma ReportedRatesRise(m: Model, snap: Snapshot, draw: Draws, n: nat, out: seq<ProfileCompromise>, c: nat, d: nat)
    requires m.Valid() && n > 0 && Rated(out, m.profs, Rates(m, snap, draw, n))
    requires c < |m.profs| && d < |m.profs| && m.profs[c].skill <= m.profs[d].skill
    ensures out[c].probability <= out[d].probability
  {
    RateRises(m, snap, c, d, draw, n);
    RateOrder(AnyHits(TrialsOf(m, snap, c, draw), n), AnyHits(TrialsOf(m, snap, d, draw), n), n);
  }

  lemma RateOrder(a: nat, b: nat, n: nat)
    requires a <= b && n > 0
    ensures a as real / n as real <= b as real / n as real
  {
  }
}
