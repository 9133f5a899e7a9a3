/** The attacker profiles and a route's mixture score over them. */
module Profiles {
  import opened AttackPath
  import Chain
  import opened Positions
  import opened Anchor
  import opened Newton
  import opened Solver
  import opened Mixture
  import opened Tolerance

  const DEFAULTS: seq<Profile> := [Profile("commodity", 0.50, -1.6), Profile("criminal", 0.35, 0.0), Profile("apt", 0.15, 1.6)]

  function Overridden(p: Profile, overrides: map<string, real>): Profile {
    if p.name in overrides then p.(prior := overrides[p.name]) else p
  }

  /** The profiles with their overridden priors, before they are made to add up to 1. */
  function Given(overrides: map<string, real>): (s: seq<Profile>)
    ensures |s| == |DEFAULTS| && forall i :: 0 <= i < |s| ==> s[i] == Overridden(DEFAULTS[i], overrides)
  {
    seq(|DEFAULTS|, i requires 0 <= i < |DEFAULTS| => Overridden(DEFAULTS[i], overrides))
  }

  lemma DefaultsArePrior()
    ensures IsPrior(PriorsOf(DEFAULTS))
  {
    var s := PriorsOf(DEFAULTS);
    assert s == [0.50, 0.35, 0.15];
    SumSnoc(s, 0, 0.50);
    SumSnoc(s, 1, 0.35);
    SumSnoc(s, 2, 0.15);
    SumWhole(s);
  }

  /** Without configuration: half of the attempts are opportunistic, a third or so organised, the rest
      advanced, with skills level about the middle one. */
  lemma DefaultsAre(profs: seq<Profile>)
    requires |profs| == |DEFAULTS| && forall i :: 0 <= i < |profs| ==> profs[i] == Given(map[])[i]
    ensures profs == [Profile("commodity", 0.50, -1.6), Profile("criminal", 0.35, 0.0), Profile("apt", 0.15, 1.6)]
  {
  }

  /** Whatever is configured, the priors in force are a distribution in the proportions given,
      over the default names and skills. */
  method SetPriors(overrides: map<string, real>) returns (profs: seq<Profile>)
    requires forall name :: name in overrides ==> overrides[name] >= 0.0
    ensures IsPrior(PriorsOf(profs))
    ensures |profs| == |DEFAULTS| && forall i :: 0 <= i < |profs| ==> profs[i].name == DEFAULTS[i].name && profs[i].skill == DEFAULTS[i].skill
    ensures var given := PriorsOf(Given(overrides));
      if Sum(given) > 0.0 then AreShares(given, PriorsOf(profs), Sum(given)) else profs == DEFAULTS
  {
    var base := Given(overrides);
    var sum := TotalPrior(base);
    DefaultsArePrior();
    if sum <= 0.0 {
      return DEFAULTS;
    }
    profs := [];
    for i := 0 to |base|
      invariant |profs| == i && forall k :: 0 <= k < i ==> profs[k] == base[k].(prior := profs[k].prior)
      invariant AreShares(PriorsOf(base)[..i], PriorsOf(profs), sum)
    {
      var share := base[i].prior / sum;
      ShareOf(base[i].prior, sum, share);
      AreSharesSnoc(PriorsOf(base)[..i], PriorsOf(profs), sum, base[i].prior, share);
      assert PriorsOf(base)[..i + 1] == PriorsOf(base)[..i] + [base[i].prior];
      profs := profs + [base[i].(prior := share)];
      assert PriorsOf(profs) == PriorsOf(profs[..i]) + [share] && profs[..i] + [profs[i]] == profs;
    }
    forall i | 0 <= i < |base| ensures PriorsOf(base)[i] >= 0.0 {
      assert PriorsOf(DEFAULTS)[i] >= 0.0;
    }
    SharesArePrior(PriorsOf(base), PriorsOf(profs), sum);
  }

  // ── The mixture of a route ─────────────────────────────────────────

  datatype ProfileScore = ProfileScore(profile: string, prior: real, score: real)

  function CausesIn(steps: seq<Step>): (s: seq<string>)
    ensures |s| == |steps| && forall i :: 0 <= i < |steps| ==> s[i] == steps[i].cause
  {
    seq(|steps|, i requires 0 <= i < |steps| => steps[i].cause)
  }

  /** The anchor for one basis. */
  function AnchorFor(basis: string, profs: seq<Profile>, exp: real -> real): Anchor
    requires profs != []
  {
    var w := seq(|profs|, c requires 0 <= c < |profs| => WeightAt(exp, Sensitivity(basis), profs[c]));
    Anchor(PriorsOf(profs), w, LeastInverse(w), MostInverse(w))
  }

  /** `x` is where the search for an edge of probability `p` on this basis stopped. */
  ghost predicate StoppedAt(p: real, basis: string, profs: seq<Profile>, exp: real -> real, mid: (real, real) -> real, x: real) {
    profs != [] && Solves(AnchorFor(basis, profs, exp), Clamped(p), Odds(Clamped(p)), 0.0, mid, x)
  }

  /** Every hop's probability for every profile, hop `i` at the iterate `xs[i]`. */
  ghost predicate Spread(rows: seq<seq<real>>, xs: seq<real>, steps: seq<Step>, profs: seq<Profile>, exp: real -> real) {
    && |rows| == |profs| && |xs| == |steps|
    && (forall c :: 0 <= c < |rows| ==> |rows[c]| == |steps|)
    && forall i :: 0 <= i < |steps| ==> SpreadAt(Column(rows, i), steps[i].basis, profs, exp, xs[i])
  }

  method AnchorOn(basis: string, profs: seq<Profile>, exp: real -> real) returns (a: Anchor)
    requires profs != [] && IsPrior(PriorsOf(profs)) && IsExp(exp)
    ensures a == AnchorFor(basis, profs, exp) && Sound(a) && WeighedAt(a.w, Sensitivity(basis), profs, exp)
  {
    a := NewAnchor(Sensitivity(basis), profs, exp);
    SharesOfOne(PriorsOf(profs), a.prior);
    assert a.w == AnchorFor(basis, profs, exp).w;
  }

  lemma SpreadFrom(col: seq<real>, basis: string, profs: seq<Profile>, exp: real -> real, w: seq<real>, x: real)
    requires Positive(w) && x > 0.0 && WeighedAt(w, Sensitivity(basis), profs, exp) && col == Probs(w, x)
    ensures SpreadAt(col, basis, profs, exp, x)
  {
  }

  /** `evals` is how often the search for the edge evaluates its equation. */
  ghost predicate EvaluatedAt(p: real, basis: string, profs: seq<Profile>, exp: real -> real, mid: (real, real) -> real, evals: nat) {
    profs != [] && Takes(AnchorFor(basis, profs, exp), Clamped(p), Odds(Clamped(p)), 0.0, mid, evals)
  }

  /** After `evals` evaluations, 61 at most: ended any sooner, the search has the profiles average
      back to the clamped probability. */
  ghost predicate AveragesBack(col: seq<real>, p: real, profs: seq<Profile>, evals: nat) {
    |col| == |profs| && evals <= 61 && (evals < 61 ==> AveragesNear(PriorsOf(profs), col, Clamped(p)))
  }

  /** `profileProbs`: one edge's probabilities over the profiles. */
  method ProfileProbs(p: real, basis: string, profs: seq<Profile>, exp: real -> real, mid: (real, real) -> real) returns (col: seq<real>, ghost x: real, ghost evals: nat)
    requires profs != [] && IsPrior(PriorsOf(profs)) && IsExp(exp) && IsMiddle(mid)
    ensures SpreadAt(col, basis, profs, exp, x) && StoppedAt(p, basis, profs, exp, mid, x)
    ensures EvaluatedAt(p, basis, profs, exp, mid, evals) && AveragesBack(col, p, profs, evals)
  {
    var a := AnchorOn(basis, profs, exp);
    var out := new real[|a.w|](i => 0.0);
    var y;
    y, x, evals := AnchoredProbs(a, p, 0.0, mid, out);
    col := out[..];
    SpreadFrom(col, basis, profs, exp, a.w, x);
  }

  /** The search for one edge stops at one place: equal edges spread equally. */
  lemma StopsOnce(p: real, basis: string, profs: seq<Profile>, exp: real -> real, mid: (real, real) -> real, x: real, x': real)
    requires StoppedAt(p, basis, profs, exp, mid, x) && StoppedAt(p, basis, profs, exp, mid, x')
    ensures x == x'
  {
  }

  lemma {:induction false} SharesOfOne(prior: seq<real>, shares: seq<real>)
    requires Sum(prior) == 1.0 && AreShares(prior, shares, 1.0)
    ensures shares == prior
  {
    forall i | 0 <= i < |prior| ensures shares[i] == prior[i] {
      assert IsShare(prior[i], 1.0, shares[i]);
    }
  }

  /** The columns set side by side, row by row. */
  function RowOf(cols: seq<seq<real>>, c: nat): (row: seq<real>)
    requires forall i :: 0 <= i < |cols| ==> c < |cols[i]|
    ensures |row| == |cols| && forall i :: 0 <= i < |cols| ==> row[i] == cols[i][c]
  {
    seq(|cols|, i requires 0 <= i < |cols| => cols[i][c])
  }

  /** The hops' columns over the profiles. */
  ghost predicate SpreadColumns(cols: seq<seq<real>>, xs: seq<real>, steps: seq<Step>, profs: seq<Profile>, exp: real -> real) {
    && |cols| == |xs| == |steps|
    && forall i :: 0 <= i < |steps| ==> SpreadAt(cols[i], steps[i].basis, profs, exp, xs[i])
  }

  function Transposed(cols: seq<seq<real>>, n: nat): (rows: seq<seq<real>>)
    requires forall i :: 0 <= i < |cols| ==> |cols[i]| == n
    ensures |rows| == n && forall c :: 0 <= c < n ==> rows[c] == RowOf(cols, c)
  {
    seq(n, c requires 0 <= c < n => RowOf(cols, c))
  }

  lemma TransposedSpread(cols: seq<seq<real>>, xs: seq<real>, steps: seq<Step>, profs: seq<Profile>, exp: real -> real)
    requires SpreadColumns(cols, xs, steps, profs, exp)
    ensures Spread(Transposed(cols, |profs|), xs, steps, profs, exp)
  {
    var rows := Transposed(cols, |profs|);
    forall i | 0 <= i < |steps| ensures Column(rows, i) == cols[i] {
    }
  }

  /** Every hop's column, and where its search stopped. */
  ghost predicate SpreadStopped(cols: seq<seq<real>>, xs: seq<real>, evals: seq<nat>, steps: seq<Step>, profs: seq<Profile>, exp: real -> real, mid: (real, real) -> real) {
    && |cols| == |xs| == |evals| == |steps|
    && forall i :: 0 <= i < |steps| ==> SpreadStep(cols[i], xs[i], evals[i], steps[i], profs, exp, mid)
  }

  ghost predicate SpreadStep(col: seq<real>, x: real, evals: nat, st: Step, profs: seq<Profile>, exp: real -> real, mid: (real, real) -> real) {
    && SpreadAt(col, st.basis, profs, exp, x) && StoppedAt(st.probability, st.basis, profs, exp, mid, x)
    && EvaluatedAt(st.probability, st.basis, profs, exp, mid, evals) && AveragesBack(col, st.probability, profs, evals)
  }

  lemma {:induction false} SpreadSnoc(cols: seq<seq<real>>, xs: seq<real>, evals: seq<nat>, steps: seq<Step>, i: nat, profs: seq<Profile>, exp: real -> real, mid: (real, real) -> real, col: seq<real>, x: real, n: nat)
    requires i < |steps| && SpreadStopped(cols, xs, evals, steps[..i], profs, exp, mid) && SpreadStep(col, x, n, steps[i], profs, exp, mid)
    ensures SpreadStopped(cols + [col], xs + [x], evals + [n], steps[..i + 1], profs, exp, mid)
  {
    forall k | 0 <= k < i + 1 ensures SpreadStep((cols + [col])[k], (xs + [x])[k], (evals + [n])[k], steps[..i + 1][k], profs, exp, mid) {
      if k < i {
        assert SpreadStep(cols[k], xs[k], evals[k], steps[..i][k], profs, exp, mid);
      }
    }
  }

  method SpreadSteps(steps: seq<Step>, profs: seq<Profile>, exp: real -> real, mid: (real, real) -> real) returns (cols: seq<seq<real>>, ghost xs: seq<real>, ghost evals: seq<nat>)
    requires profs != [] && IsPrior(PriorsOf(profs)) && IsExp(exp) && IsMiddle(mid)
    ensures SpreadStopped(cols, xs, evals, steps, profs, exp, mid)
  {
    cols, xs, evals := [], [], [];
    for i := 0 to |steps|
      invariant SpreadStopped(cols, xs, evals, steps[..i], profs, exp, mid)
    {
      var col;
      ghost var x, n;
      col, x, n := ProfileProbs(steps[i].probability, steps[i].basis, profs, exp, mid);
      SpreadSnoc(cols, xs, evals, steps, i, profs, exp, mid, col, x, n);
      cols, xs, evals := cols + [col], xs + [x], evals + [n];
    }
    assert steps[..|steps|] == steps;
  }

  lemma {:induction false} StoppedSpread(cols: seq<seq<real>>, xs: seq<real>, evals: seq<nat>, steps: seq<Step>, profs: seq<Profile>, exp: real -> real, mid: (real, real) -> real)
    requires SpreadStopped(cols, xs, evals, steps, profs, exp, mid)
    ensures SpreadColumns(cols, xs, steps, profs, exp)
    ensures forall i :: 0 <= i < |steps| ==> StoppedAt(steps[i].probability, steps[i].basis, profs, exp, mid, xs[i])
    ensures forall i :: 0 <= i < |steps| ==> EvaluatedAt(steps[i].probability, steps[i].basis, profs, exp, mid, evals[i])
    ensures forall i :: 0 <= i < |steps| ==> AveragesBack(cols[i], steps[i].probability, profs, evals[i])
  {
    forall i | 0 <= i < |steps|
      ensures SpreadAt(cols[i], steps[i].basis, profs, exp, xs[i]) && StoppedAt(steps[i].probability, steps[i].basis, profs, exp, mid, xs[i])
      ensures EvaluatedAt(steps[i].probability, steps[i].basis, profs, exp, mid, evals[i])
      ensures AveragesBack(cols[i], steps[i].probability, profs, evals[i])
    {
      assert SpreadStep(cols[i], xs[i], evals[i], steps[i], profs, exp, mid);
    }
  }

  /** Every hop's search, by the columns of the table. */
  ghost predicate AllAverageBack(rows: seq<seq<real>>, steps: seq<Step>, profs: seq<Profile>, evals: seq<nat>) {
    && |rows| == |profs| && |evals| == |steps| && (forall c :: 0 <= c < |rows| ==> |rows[c]| == |steps|)
    && forall i :: 0 <= i < |steps| ==> AveragesBack(Column(rows, i), steps[i].probability, profs, evals[i])
  }

  lemma {:induction false} TransposedAverages(cols: seq<seq<real>>, steps: seq<Step>, profs: seq<Profile>, evals: seq<nat>)
    requires |cols| == |steps| == |evals| && forall i :: 0 <= i < |cols| ==> |cols[i]| == |profs|
    requires forall i :: 0 <= i < |steps| ==> AveragesBack(cols[i], steps[i].probability, profs, evals[i])
    ensures AllAverageBack(Transposed(cols, |profs|), steps, profs, evals)
  {
    forall i | 0 <= i < |steps| ensures AveragesBack(Column(Transposed(cols, |profs|), i), steps[i].probability, profs, evals[i]) {
      assert Column(Transposed(cols, |profs|), i) == cols[i];
    }
  }

  method ScoreProfiles(causes: seq<string>, profs: seq<Profile>, rows: seq<seq<real>>) returns (mixture: real, perProfile: seq<ProfileScore>)
    requires |rows| == |profs| && forall c :: 0 <= c < |rows| ==> |rows[c]| == |causes|
    ensures mixture == Mean(PriorsOf(profs), Scores(causes, rows))
    ensures Scored(perProfile, profs, Scores(causes, rows))
  {
    mixture, perProfile := 0.0, [];
    ghost var scores, shares := Scores(causes, rows), Shares(profs, causes, rows);
    for c := 0 to |profs|
      invariant mixture == Sum(shares[..c])
      invariant Scored(perProfile, profs[..c], scores[..c])
    {
      var score, share := ScoreProfile(causes, profs, rows, c, scores, shares);
      ScoredSnoc(perProfile, profs, scores, c);
      perProfile := perProfile + [ProfileScore(profs[c].name, profs[c].prior, score)];
      mixture := mixture + share;
    }
    SumWhole(shares);
    assert profs[..|profs|] == profs && scores[..|profs|] == scores;
  }

  ghost predicate Scored(perProfile: seq<ProfileScore>, profs: seq<Profile>, scores: seq<real>) {
    && |perProfile| == |profs| == |scores|
    && forall c :: 0 <= c < |profs| ==> perProfile[c] == ProfileScore(profs[c].name, profs[c].prior, scores[c])
  }

  lemma {:induction false} ScoredSnoc(perProfile: seq<ProfileScore>, profs: seq<Profile>, scores: seq<real>, c: nat)
    requires c < |profs| == |scores| && Scored(perProfile, profs[..c], scores[..c])
    ensures Scored(perProfile + [ProfileScore(profs[c].name, profs[c].prior, scores[c])], profs[..c + 1], scores[..c + 1])
  {
    forall d | 0 <= d < c ensures perProfile[d] == ProfileScore(profs[d].name, profs[d].prior, scores[d]) {
      assert profs[..c][d] == profs[d] && scores[..c][d] == scores[d];
    }
  }

  method ScoreProfile(causes: seq<string>, profs: seq<Profile>, rows: seq<seq<real>>, c: nat, ghost scores: seq<real>, ghost shares: seq<real>) returns (score: real, share: real)
    requires |rows| == |profs| && (forall d :: 0 <= d < |rows| ==> |rows[d]| == |causes|) && c < |profs|
    requires scores == Scores(causes, rows) && shares == Shares(profs, causes, rows)
    ensures score == scores[c] && Sum(shares[..c + 1]) == Sum(shares[..c]) + share
  {
    score := Chain.ChainProbability(causes, rows[c]);
    share := profs[c].prior * score;
    SharesStep(profs, causes, rows, c, score, share);
  }

  /** Each profile's share of the mixture. */
  ghost function Shares(profs: seq<Profile>, causes: seq<string>, rows: seq<seq<real>>): (s: seq<real>)
    requires |rows| == |profs| && forall c :: 0 <= c < |rows| ==> |rows[c]| == |causes|
    ensures |s| == |profs| && Sum(s) == Mean(PriorsOf(profs), Scores(causes, rows))
  {
    Terms(PriorsOf(profs), Scores(causes, rows))
  }

  lemma SharesStep(profs: seq<Profile>, causes: seq<string>, rows: seq<seq<real>>, c: nat, score: real, share: real)
    requires |rows| == |profs| && forall c :: 0 <= c < |rows| ==> |rows[c]| == |causes|
    requires c < |profs| && score == Chain.Score(Chain.Hops(causes, rows[c])) && share == profs[c].prior * score
    ensures Sum(Shares(profs, causes, rows)[..c + 1]) == Sum(Shares(profs, causes, rows)[..c]) + share
  {
    var priors, scores := PriorsOf(profs), Scores(causes, rows);
    TermIs(priors, scores, c, profs[c].prior, score, share);
    SumSnoc(Terms(priors, scores), c, share);
  }

  lemma TermIs(priors: seq<real>, scores: seq<real>, c: nat, prior: real, score: real, share: real)
    requires c < |priors| == |scores| && priors[c] == prior && scores[c] == score && share == prior * score
    ensures Terms(priors, scores)[c] == share
  {
  }

  // ── Where the mixture lies ─────────────────────────────────────────

  /** Hops resting on one shared cause carry one basis. */
  ghost predicate CausesShareBasis(steps: seq<Step>) {
    forall i, k :: 0 <= i < |steps| && 0 <= k < |steps| && steps[i].cause == steps[k].cause && steps[i].cause != "" ==>
      steps[i].basis == steps[k].basis
  }

  /** The profiles average back to the hop's own probability. */
  ghost predicate Anchored(rows: seq<seq<real>>, steps: seq<Step>, profs: seq<Profile>)
    requires |rows| == |profs| && forall c :: 0 <= c < |rows| ==> |rows[c]| == |steps|
  {
    forall i :: 0 <= i < |steps| ==> Mean(PriorsOf(profs), Column(rows, i)) == steps[i].probability
  }

  lemma SpreadIsTable(rows: seq<seq<real>>, xs: seq<real>, steps: seq<Step>, profs: seq<Profile>, exp: real -> real)
    requires IsExp(exp) && Spread(rows, xs, steps, profs, exp)
    ensures IsTable(rows, |steps|)
    ensures forall i :: 0 <= i < |steps| ==> Rises(SkillsOf(profs), Column(rows, i))
  {
    forall i | 0 <= i < |steps| ensures Rises(SkillsOf(profs), Column(rows, i)) && InUnit(Column(rows, i)) {
      SpreadRises(Column(rows, i), steps[i].basis, profs, exp, xs[i]);
    }
    forall c, i | 0 <= c < |rows| && 0 <= i < |steps| ensures 0.0 <= rows[c][i] <= 1.0 {
      assert Column(rows, i)[c] == rows[c][i];
    }
  }

  /** What each hop averages to over the profiles, wherever its search stopped. */
  function AveragesOf(rows: seq<seq<real>>, n: nat, profs: seq<Profile>): (avg: seq<real>)
    requires |rows| == |profs| && forall c :: 0 <= c < |rows| ==> |rows[c]| == n
    ensures |avg| == n && forall i :: 0 <= i < n ==> avg[i] == Mean(PriorsOf(profs), Column(rows, i))
  {
    seq(n, i requires 0 <= i < n => Mean(PriorsOf(profs), Column(rows, i)))
  }

  /** Where one basis serves each shared cause, the hop weakest on average is weakest for every
      profile. */
  lemma WeakestForAll(rows: seq<seq<real>>, xs: seq<real>, steps: seq<Step>, profs: seq<Profile>, exp: real -> real, avg: seq<real>, i: nat, c: nat)
    requires IsPrior(PriorsOf(profs)) && Spread(rows, xs, steps, profs, exp) && avg == AveragesOf(rows, |steps|, profs)
    requires CausesShareBasis(steps) && c < |rows| && i < |steps| && steps[i].cause != ""
    requires WeakestAt(CausesIn(steps), avg, i)
    ensures WeakestAt(CausesIn(steps), rows[c], i)
  {
    forall k | 0 <= k < |steps| && steps[k].cause == steps[i].cause ensures rows[c][i] <= rows[c][k] {
      assert avg[i] <= avg[k];
      SameBasisOrders(PriorsOf(profs), Column(rows, i), Column(rows, k), steps[i].basis, profs, exp, xs[i], xs[k]);
      assert Column(rows, i)[c] <= Column(rows, k)[c];
    }
  }

  lemma PicksForAll(rows: seq<seq<real>>, xs: seq<real>, steps: seq<Step>, profs: seq<Profile>, exp: real -> real, avg: seq<real>, weakest: seq<nat>, c: nat)
    requires IsPrior(PriorsOf(profs)) && Spread(rows, xs, steps, profs, exp) && avg == AveragesOf(rows, |steps|, profs)
    requires CausesShareBasis(steps) && c < |rows|
    requires PicksWeakest(CausesIn(steps), avg, weakest)
    ensures PicksWeakest(CausesIn(steps), rows[c], weakest)
  {
    var causes := CausesIn(steps);
    CausesByName(causes, avg, rows[c]);
    var hs := Chain.Hops(causes, avg);
    var cs := Chain.CausesOf(hs);
    forall t | 0 <= t < |cs| ensures WeakestAt(causes, rows[c], weakest[t]) {
      assert cs[t] in cs;
      Chain.CausesHold(hs, cs[t]);
      WeakestForAll(rows, xs, steps, profs, exp, avg, weakest[t], c);
    }
  }

  lemma AllPickAlike(rows: seq<seq<real>>, xs: seq<real>, steps: seq<Step>, profs: seq<Profile>, exp: real -> real, avg: seq<real>, weakest: seq<nat>)
    requires IsPrior(PriorsOf(profs)) && Spread(rows, xs, steps, profs, exp) && avg == AveragesOf(rows, |steps|, profs)
    requires CausesShareBasis(steps) && PicksWeakest(CausesIn(steps), avg, weakest)
    ensures forall c :: 0 <= c < |rows| ==> PicksWeakest(CausesIn(steps), rows[c], weakest)
  {
    forall c | 0 <= c < |rows| ensures PicksWeakest(CausesIn(steps), rows[c], weakest) {
      PicksForAll(rows, xs, steps, profs, exp, avg, weakest, c);
    }
  }

  lemma AllAverage(rows: seq<seq<real>>, xs: seq<real>, steps: seq<Step>, profs: seq<Profile>, exp: real -> real, avg: seq<real>)
    requires IsExp(exp) && Spread(rows, xs, steps, profs, exp) && avg == AveragesOf(rows, |steps|, profs)
    ensures IsTable(rows, |steps|)
    ensures forall i :: 0 <= i < |avg| ==> Averages(PriorsOf(profs), SkillsOf(profs), rows, |avg|, avg, i)
  {
    SpreadIsTable(rows, xs, steps, profs, exp);
  }

  /** Wherever the searches stopped, the mixture is at most what any hop averages to; and with
      one basis to a cause it is at least the score of those averages: hops that rise and fall
      together with the attacker are positively associated. */
  lemma MixtureInBand(rows: seq<seq<real>>, xs: seq<real>, steps: seq<Step>, profs: seq<Profile>, exp: real -> real)
    requires IsExp(exp) && IsPrior(PriorsOf(profs)) && Spread(rows, xs, steps, profs, exp)
    ensures var mixture, avg := Mean(PriorsOf(profs), Scores(CausesIn(steps), rows)), AveragesOf(rows, |steps|, profs);
      && (forall i :: 0 <= i < |steps| ==> mixture <= avg[i])
      && (CausesShareBasis(steps) ==> mixture >= Chain.Score(Chain.Hops(CausesIn(steps), avg)))
  {
    var causes, avg := CausesIn(steps), AveragesOf(rows, |steps|, profs);
    AllAverage(rows, xs, steps, profs, exp, avg);
    forall i | 0 <= i < |steps| ensures Mean(PriorsOf(profs), Scores(causes, rows)) <= avg[i] {
      MixtureAtMostAverage(PriorsOf(profs), causes, rows, i);
    }
    if CausesShareBasis(steps) {
      var weakest := PickWeakest(causes, avg);
      AllPickAlike(rows, xs, steps, profs, exp, avg, weakest);
      MixtureAtLeastAverages(PriorsOf(profs), SkillsOf(profs), causes, rows, avg, weakest);
    }
  }

  /** With the equations solved, the mixture is at most every hop's own probability, for any hops
      on any causes, and with one basis to a cause at least the route's own score. */
  lemma MixtureBetween(rows: seq<seq<real>>, xs: seq<real>, steps: seq<Step>, profs: seq<Profile>, exp: real -> real)
    requires IsExp(exp) && IsPrior(PriorsOf(profs)) && Spread(rows, xs, steps, profs, exp) && Anchored(rows, steps, profs)
    ensures var mixture := Mean(PriorsOf(profs), Scores(CausesIn(steps), rows));
      && (forall i :: 0 <= i < |steps| ==> mixture <= steps[i].probability)
      && (CausesShareBasis(steps) ==> mixture >= Chain.Score(HopsOf(steps)))
  {
    var causes, avg := CausesIn(steps), AveragesOf(rows, |steps|, profs);
    MixtureInBand(rows, xs, steps, profs, exp);
    assert Chain.Hops(causes, avg) == HopsOf(steps);
  }

  // ── Where the band needs its conditions ────────────────────────────

  lemma SingleScore(st: Step, causes: seq<string>, v: seq<real>)
    requires causes == [st.cause] && |v| == 1
    ensures Chain.Score(Chain.Hops(causes, v)) == v[0]
  {
    var hs := Chain.Hops(causes, v);
    assert hs == [Chain.Hop(st.cause, v[0])] && hs[..0] == [];
    Chain.GroupHolds(hs, "", v[0]);
    if st.cause == "" {
      assert Chain.Group(hs, "") == [v[0]] && Chain.CausesOf(hs) == [];
      assert Chain.Factors(hs) == [v[0]];
    } else {
      assert Chain.Group(hs, "") == [] && Chain.CausesOf(hs) == [st.cause];
      Chain.LeastIs(hs, st.cause, v[0]);
      assert Chain.Factors(hs) == [v[0]];
    }
    Chain.MulOne(v[0]);
  }

  /** One hop on its own, its equation solved, reads its probability kept off 0 and 1: below the
      clamp it reads more than the hop, above it less than the score - and only there. */
  lemma SingleHopIsClamped(rows: seq<seq<real>>, xs: seq<real>, st: Step, profs: seq<Profile>, exp: real -> real)
    requires IsPrior(PriorsOf(profs)) && Spread(rows, xs, [st], profs, exp)
    requires Mean(PriorsOf(profs), Column(rows, 0)) == Clamped(st.probability)
    ensures var mixture := Mean(PriorsOf(profs), Scores(CausesIn([st]), rows));
      && (Chain.Score(HopsOf([st])) <= mixture <==> st.probability <= 1.0 - PROB_CLAMP)
      && (mixture <= st.probability <==> st.probability >= PROB_CLAMP)
  {
    var causes := CausesIn([st]);
    assert causes == [st.cause];
    forall c | 0 <= c < |rows| ensures Scores(causes, rows)[c] == Column(rows, 0)[c] {
      SingleScore(st, causes, rows[c]);
    }
    assert Scores(causes, rows) == Column(rows, 0);
    SingleScore(st, causes, [st.probability]);
    assert Chain.Hops(causes, [st.probability]) == HopsOf([st]);
  }

  /** A jewel already held has no hops, and is certain against every profile. */
  lemma NoHopsAreCertain(rows: seq<seq<real>>, profs: seq<Profile>)
    requires IsPrior(PriorsOf(profs)) && |rows| == |profs| && forall c :: 0 <= c < |rows| ==> rows[c] == []
    ensures Mean(PriorsOf(profs), Scores([], rows)) == 1.0
  {
    forall c | 0 <= c < |rows| ensures Scores([], rows)[c] == 1.0 {
      assert Chain.Factors(Chain.Hops([], rows[c])) == [];
    }
    MeanOfConstant(PriorsOf(profs), Scores([], rows), 1.0);
  }

  // ── The band of what is reported ───────────────────────────────────

  /** Every search ended before its last evaluation. */
  ghost predicate AllEndedEarly(evals: seq<nat>) {
    forall i :: 0 <= i < |evals| ==> evals[i] < 61
  }

  function Inside(p: real): real {
    if p < 0.000001 then 0.000001 else if p > 0.999999 then 0.999999 else p
  }

  /** The route's hops, each kept one millionth off 0 and 1. */
  function ClampedHops(steps: seq<Step>): (hs: seq<Chain.Hop>)
    ensures |hs| == |steps| && forall i :: 0 <= i < |hs| ==> hs[i] == Chain.Hop(steps[i].cause, Inside(steps[i].probability))
  {
    seq(|steps|, i requires 0 <= i < |steps| => Chain.Hop(steps[i].cause, Inside(steps[i].probability)))
  }

  lemma {:induction false} AveragesAreClose(rows: seq<seq<real>>, xs: seq<real>, steps: seq<Step>, profs: seq<Profile>, exp: real -> real, evals: seq<nat>)
    requires IsExp(exp) && IsPrior(PriorsOf(profs)) && Spread(rows, xs, steps, profs, exp)
    requires AllAverageBack(rows, steps, profs, evals) && AllEndedEarly(evals)
    ensures var hs := Chain.Hops(CausesIn(steps), AveragesOf(rows, |steps|, profs));
      && CloseHops(hs, ClampedHops(steps), 0.0000000000001) && Chain.UnitHops(hs) && Chain.UnitHops(ClampedHops(steps))
      && forall i :: 0 <= i < |steps| ==> hs[i].p <= ClampedHops(steps)[i].p + 0.0000000000001
  {
    var avg := AveragesOf(rows, |steps|, profs);
    SpreadIsTable(rows, xs, steps, profs, exp);
    forall i | 0 <= i < |steps|
      ensures ClampedHops(steps)[i].p - 0.0000000000001 <= avg[i] <= ClampedHops(steps)[i].p + 0.0000000000001 && 0.0 <= avg[i] <= 1.0
    {
      ClampIs(steps[i].probability);
      assert AveragesBack(Column(rows, i), steps[i].probability, profs, evals[i]);
      forall c | 0 <= c < |rows| ensures 0.0 <= Column(rows, i)[c] <= 1.0 {
        assert Column(rows, i)[c] == rows[c][i];
      }
      MeanAtLeast(PriorsOf(profs), Column(rows, i), 0.0);
      MeanAtMost(PriorsOf(profs), Column(rows, i), 1.0);
    }
  }

  /** At most every clamped hop and, with one basis to a cause, at least the score of the clamped
      hops, to within a ten-million-millionth a hop. */
  ghost predicate NearBand(mixture: real, steps: seq<Step>) {
    && (forall i :: 0 <= i < |steps| ==> mixture <= Inside(steps[i].probability) + 0.0000000000001)
    && (CausesShareBasis(steps) ==> mixture >= Chain.Score(ClampedHops(steps)) - Total(|steps|, 0.0000000000001))
  }

  lemma {:induction false} MixtureNearBand(rows: seq<seq<real>>, xs: seq<real>, steps: seq<Step>, profs: seq<Profile>, exp: real -> real, evals: seq<nat>)
    requires IsExp(exp) && IsPrior(PriorsOf(profs)) && Spread(rows, xs, steps, profs, exp)
    requires AllAverageBack(rows, steps, profs, evals) && AllEndedEarly(evals)
    ensures NearBand(Mean(PriorsOf(profs), Scores(CausesIn(steps), rows)), steps)
  {
    var avg := AveragesOf(rows, |steps|, profs);
    AveragesAreClose(rows, xs, steps, profs, exp, evals);
    MixtureInBand(rows, xs, steps, profs, exp);
    ScoreMoves(Chain.Hops(CausesIn(steps), avg), ClampedHops(steps), 0.0000000000001);
  }

  /** The search for the hop takes fewer than 61 evaluations. */
  ghost predicate EndsEarly(st: Step, profs: seq<Profile>, exp: real -> real, mid: (real, real) -> real) {
    exists n: nat :: n < 61 && EvaluatedAt(st.probability, st.basis, profs, exp, mid, n)
  }

  lemma EvaluatedOnce(p: real, basis: string, profs: seq<Profile>, exp: real -> real, mid: (real, real) -> real, m: nat, n: nat)
    requires EvaluatedAt(p, basis, profs, exp, mid, m) && EvaluatedAt(p, basis, profs, exp, mid, n)
    ensures m == n
  {
    TakesOnce(AnchorFor(basis, profs, exp), Clamped(p), Odds(Clamped(p)), 0.0, mid, m, n);
  }

  lemma EarlyByCount(evals: seq<nat>, steps: seq<Step>, profs: seq<Profile>, exp: real -> real, mid: (real, real) -> real)
    requires |evals| == |steps| && forall i :: 0 <= i < |steps| ==> EvaluatedAt(steps[i].probability, steps[i].basis, profs, exp, mid, evals[i])
    ensures (forall i :: 0 <= i < |steps| ==> EndsEarly(steps[i], profs, exp, mid)) ==> AllEndedEarly(evals)
  {
    if forall i :: 0 <= i < |steps| ==> EndsEarly(steps[i], profs, exp, mid) {
      forall i | 0 <= i < |evals| ensures evals[i] < 61 {
        var n: nat :| n < 61 && EvaluatedAt(steps[i].probability, steps[i].basis, profs, exp, mid, n);
        EvaluatedOnce(steps[i].probability, steps[i].basis, profs, exp, mid, n, evals[i]);
      }
    }
  }

  /** The scores reported. */
  function ScoresOf(perProfile: seq<ProfileScore>): (s: seq<real>)
    ensures |s| == |perProfile| && forall c :: 0 <= c < |s| ==> s[c] == perProfile[c].score
  {
    seq(|perProfile|, c requires 0 <= c < |perProfile| => perProfile[c].score)
  }

  /** One score for each profile, none smaller against a more skilled one, and the mixture is their
      average. */
  ghost predicate IsReport(mixture: real, perProfile: seq<ProfileScore>, profs: seq<Profile>) {
    && |perProfile| == |profs|
    && (forall c :: 0 <= c < |profs| ==> perProfile[c].profile == profs[c].name && perProfile[c].prior == profs[c].prior)
    && Rises(SkillsOf(profs), ScoresOf(perProfile))
    && mixture == Mean(PriorsOf(profs), ScoresOf(perProfile))
  }

  lemma ScoresRise(rows: seq<seq<real>>, xs: seq<real>, steps: seq<Step>, profs: seq<Profile>, exp: real -> real)
    requires IsExp(exp) && Spread(rows, xs, steps, profs, exp)
    ensures |rows| == |profs| && (forall c :: 0 <= c < |rows| ==> |rows[c]| == |steps|)
    ensures Rises(SkillsOf(profs), Scores(CausesIn(steps), rows))
  {
    SpreadIsTable(rows, xs, steps, profs, exp);
    forall c, d | 0 <= c < |profs| && 0 <= d < |profs| && SkillsOf(profs)[c] <= SkillsOf(profs)[d]
      ensures Scores(CausesIn(steps), rows)[c] <= Scores(CausesIn(steps), rows)[d]
    {
      forall i | 0 <= i < |steps| ensures rows[c][i] <= rows[d][i] {
        assert Column(rows, i)[c] <= Column(rows, i)[d];
      }
      Chain.ScoreMonotone(Chain.Hops(CausesIn(steps), rows[c]), Chain.Hops(CausesIn(steps), rows[d]));
    }
  }

  lemma ReportIs(mixture: real, perProfile: seq<ProfileScore>, profs: seq<Profile>, scores: seq<real>)
    requires Scored(perProfile, profs, scores) && Rises(SkillsOf(profs), scores) && mixture == Mean(PriorsOf(profs), scores)
    ensures IsReport(mixture, perProfile, profs)
  {
    assert ScoresOf(perProfile) == scores;
  }

  /** `attackerMixture`: every hop spread over the profiles, every profile scored on its own
      row, and the scores averaged. */
  method AttackerMixture(steps: seq<Step>, profs: seq<Profile>, exp: real -> real, mid: (real, real) -> real) returns (mixture: real, perProfile: seq<ProfileScore>, ghost rows: seq<seq<real>>, ghost xs: seq<real>, ghost evals: seq<nat>)
    requires profs != [] && IsPrior(PriorsOf(profs)) && IsExp(exp) && IsMiddle(mid)
    ensures Spread(rows, xs, steps, profs, exp) && AllAverageBack(rows, steps, profs, evals)
    ensures forall i :: 0 <= i < |steps| ==> StoppedAt(steps[i].probability, steps[i].basis, profs, exp, mid, xs[i])
    ensures |evals| == |steps| && forall i :: 0 <= i < |steps| ==> EvaluatedAt(steps[i].probability, steps[i].basis, profs, exp, mid, evals[i])
    ensures mixture == Mean(PriorsOf(profs), Scores(CausesIn(steps), rows))
    ensures Scored(perProfile, profs, Scores(CausesIn(steps), rows))
    ensures IsReport(mixture, perProfile, profs)
    ensures (forall i :: 0 <= i < |steps| ==> EndsEarly(steps[i], profs, exp, mid)) ==> NearBand(mixture, steps)
  {
    var cols;
    cols, xs, evals := SpreadSteps(steps, profs, exp, mid);
    StoppedSpread(cols, xs, evals, steps, profs, exp, mid);
    TransposedSpread(cols, xs, steps, profs, exp);
    TransposedAverages(cols, steps, profs, evals);
    rows := Transposed(cols, |profs|);
    mixture, perProfile := ScoreProfiles(CausesIn(steps), profs, Transposed(cols, |profs|));
    ScoresRise(rows, xs, steps, profs, exp);
    ReportIs(mixture, perProfile, profs, Scores(CausesIn(steps), rows));
    EarlyByCount(evals, steps, profs, exp, mid);
    if AllEndedEarly(evals) {
      MixtureNearBand(rows, xs, steps, profs, exp, evals);
    }
  }
}
