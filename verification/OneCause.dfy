/** Routes that rest on one cause: exactly when their mixture reaches their score, and a route,
    under priors an operator can set, whose mixture does not. */
module OneCause {
  import opened AttackPath
  import Chain
  import opened Anchor
  import opened Association
  import opened Newton
  import opened Solver
  import opened Mixture
  import opened Profiles

  // ── When a mean reaches a larger one ───────────────────────────────

  lemma {:induction false} MeanStrictAt(prior: seq<real>, f: seq<real>, g: seq<real>, c: nat)
    requires NonNegative(prior) && |prior| == |f| == |g| && c < |prior| && prior[c] > 0.0
    requires f[c] < g[c] && forall i :: 0 <= i < |f| ==> f[i] <= g[i]
    ensures Mean(prior, f) < Mean(prior, g)
    decreases |prior|
  {
    var n := |prior| - 1;
    var pf, pg := LastTerms(prior, f, g);
    if c == n {
      MeanMonotone(prior[..n], f[..n], g[..n]);
    } else {
      MeanStrictAt(prior[..n], f[..n], g[..n], c);
    }
  }

  /** What the last profile adds to either mean. */
  lemma LastTerms(prior: seq<real>, f: seq<real>, g: seq<real>) returns (pf: real, pg: real)
    requires NonNegative(prior) && |prior| == |f| == |g| > 0 && f[|f| - 1] <= g[|g| - 1]
    ensures Mean(prior, f) == Mean(prior[..|prior| - 1], f[..|f| - 1]) + pf
    ensures Mean(prior, g) == Mean(prior[..|prior| - 1], g[..|g| - 1]) + pg
    ensures pf <= pg && (prior[|prior| - 1] > 0.0 && f[|f| - 1] < g[|g| - 1] ==> pf < pg)
  {
    var p, x, y := prior[|prior| - 1], f[|f| - 1], g[|g| - 1];
    pf, pg := p * x, p * y;
    MeanInit(prior, f, pf);
    MeanInit(prior, g, pg);
    TimesAtMost(p, x, y);
    if p > 0.0 && x < y {
      TimesLess(p, x, y);
    }
  }

  /** The profiles of positive prior agree. */
  ghost predicate AgreeWhereLikely(prior: seq<real>, f: seq<real>, g: seq<real>)
    requires |prior| == |f| == |g|
  {
    forall c :: 0 <= c < |prior| && prior[c] > 0.0 ==> f[c] == g[c]
  }

  lemma MeanTight(prior: seq<real>, f: seq<real>, g: seq<real>)
    requires NonNegative(prior) && |prior| == |f| == |g| && forall i :: 0 <= i < |f| ==> f[i] <= g[i]
    ensures Mean(prior, f) >= Mean(prior, g) <==> AgreeWhereLikely(prior, f, g)
  {
    if c :| 0 <= c < |prior| && prior[c] > 0.0 && f[c] != g[c] {
      MeanStrictAt(prior, f, g, c);
    } else {
      forall c | 0 <= c < |prior| ensures Terms(prior, f)[c] == Terms(prior, g)[c] {
        SameTerm(prior[c], f[c], g[c]);
      }
      assert Terms(prior, f) == Terms(prior, g);
    }
  }

  lemma SameTerm(p: real, x: real, y: real)
    requires p == 0.0 || x == y
    ensures p * x == p * y
  {
  }

  // ── The exact condition ────────────────────────────────────────────

  /** A route on one cause scores as its weakest hop. */
  lemma {:induction false} OneCauseScore(causes: seq<string>, cause: string, v: seq<real>)
    requires cause != "" && causes != [] && |v| == |causes| && forall i :: 0 <= i < |causes| ==> causes[i] == cause
    ensures Chain.Score(Chain.Hops(causes, v)) == Chain.MinOf(v)
  {
    var hs := Chain.Hops(causes, v);
    OneFactor(hs, cause, Chain.MinOf(v), v);
    Chain.MulOne(Chain.MinOf(v));
  }

  lemma OneFactor(hs: seq<Chain.Hop>, cause: string, m: real, v: seq<real>)
    requires cause != "" && hs != [] && |v| == |hs| && forall i :: 0 <= i < |hs| ==> hs[i] == Chain.Hop(cause, v[i])
    requires m in v && forall x :: x in v ==> m <= x
    ensures Chain.Factors(hs) == [m]
  {
    OnlyCause(hs, cause);
    NoneUncaused(hs);
    var k :| 0 <= k < |v| && v[k] == m;
    assert hs[k] == Chain.Hop(cause, m);
    assert forall i :: 0 <= i < |hs| ==> v[i] in v;
    Chain.LeastIs(hs, cause, m);
  }

  lemma {:induction false} OnlyCause(hs: seq<Chain.Hop>, cause: string)
    requires cause != "" && hs != [] && forall i :: 0 <= i < |hs| ==> hs[i].cause == cause
    ensures Chain.CausesOf(hs) == [cause]
  {
    var cs := Chain.CausesOf(hs);
    assert hs[0].cause == cause;
    Chain.CausesHold(hs, cause);
    Chain.CausesOnce(hs);
    assert |cs| > 1 ==> cs[0] != cs[1];
    forall i | 0 <= i < |cs| ensures cs[i] == cause {
      assert cs[i] in cs;
      Chain.CausesHold(hs, cs[i]);
    }
  }

  lemma {:induction false} NoneUncaused(hs: seq<Chain.Hop>)
    requires forall i :: 0 <= i < |hs| ==> hs[i].cause != ""
    ensures Chain.Group(hs, "") == []
  {
    if hs != [] {
      NoneUncaused(hs[..|hs| - 1]);
    }
  }

  /** Hop `i` is weakest for every profile of positive prior. */
  ghost predicate WeakestWhereLikely(prior: seq<real>, rows: seq<seq<real>>, n: nat, i: nat)
    requires |prior| == |rows| && forall c :: 0 <= c < |rows| ==> |rows[c]| == n
  {
    i < n && forall c, k :: 0 <= c < |rows| && prior[c] > 0.0 && 0 <= k < n ==> rows[c][i] <= rows[c][k]
  }

  /** A route on one cause mixes to at least the score of its averages if and only if some hop is
      weakest for every profile of positive prior: a mean of minima never exceeds the minimum of
      the means, and reaches it only where one hop is the minimum throughout. */
  lemma OneCauseExactly(prior: seq<real>, cause: string, causes: seq<string>, rows: seq<seq<real>>, avg: seq<real>)
    requires IsPrior(prior) && |prior| == |rows| && cause != "" && causes != [] && |avg| == |causes|
    requires forall i :: 0 <= i < |causes| ==> causes[i] == cause
    requires forall c :: 0 <= c < |rows| ==> |rows[c]| == |causes|
    requires forall i :: 0 <= i < |avg| ==> avg[i] == Mean(prior, Column(rows, i))
    ensures Mean(prior, Scores(causes, rows)) <= Chain.Score(Chain.Hops(causes, avg))
    ensures Mean(prior, Scores(causes, rows)) >= Chain.Score(Chain.Hops(causes, avg)) <==>
      exists i: nat :: WeakestWhereLikely(prior, rows, |causes|, i)
  {
    var mins, n := Scores(causes, rows), |causes|;
    forall c | 0 <= c < |rows| ensures mins[c] == Chain.MinOf(rows[c]) {
      OneCauseScore(causes, cause, rows[c]);
    }
    OneCauseScore(causes, cause, avg);
    var j: nat :| j < n && avg[j] == Chain.MinOf(avg);
    forall i: nat | i < n
      ensures Mean(prior, mins) <= avg[i] && (Mean(prior, mins) >= avg[i] <==> WeakestWhereLikely(prior, rows, n, i))
    {
      MinimaAgainst(prior, rows, n, mins, i);
    }
    if i: nat :| WeakestWhereLikely(prior, rows, n, i) {
      assert avg[i] in avg;
    }
  }

  lemma MinimaAgainst(prior: seq<real>, rows: seq<seq<real>>, n: nat, mins: seq<real>, i: nat)
    requires IsPrior(prior) && |prior| == |rows| == |mins| && i < n && forall c :: 0 <= c < |rows| ==> |rows[c]| == n
    requires forall c :: 0 <= c < |rows| ==> mins[c] == Chain.MinOf(rows[c])
    ensures Mean(prior, mins) <= Mean(prior, Column(rows, i))
    ensures Mean(prior, mins) >= Mean(prior, Column(rows, i)) <==> WeakestWhereLikely(prior, rows, n, i)
  {
    forall c | 0 <= c < |rows|
      ensures mins[c] <= Column(rows, i)[c]
      ensures mins[c] == Column(rows, i)[c] <==> forall k :: 0 <= k < n ==> rows[c][i] <= rows[c][k]
    {
      MinAgainst(rows[c], i);
    }
    MeanMonotone(prior, mins, Column(rows, i));
    MeanTight(prior, mins, Column(rows, i));
  }

  lemma {:induction false} MinAgainst(row: seq<real>, i: nat)
    requires i < |row|
    ensures Chain.MinOf(row) <= row[i]
    ensures Chain.MinOf(row) == row[i] <==> forall k :: 0 <= k < |row| ==> row[i] <= row[k]
  {
    assert row[i] in row;
    forall k | 0 <= k < |row| ensures Chain.MinOf(row) <= row[k] {
      assert row[k] in row;
    }
    var k :| 0 <= k < |row| && row[k] == Chain.MinOf(row);
  }

  /** The same of a reported route: its equations solved, its mixture reaches its score if and only
      if one hop is weakest for every profile of positive prior. */
  lemma OneCauseMixture(rows: seq<seq<real>>, xs: seq<real>, steps: seq<Step>, profs: seq<Profile>, exp: real -> real, cause: string)
    requires IsPrior(PriorsOf(profs)) && Spread(rows, xs, steps, profs, exp) && Anchored(rows, steps, profs)
    requires cause != "" && steps != [] && forall i :: 0 <= i < |steps| ==> steps[i].cause == cause
    ensures Mean(PriorsOf(profs), Scores(CausesIn(steps), rows)) >= Chain.Score(HopsOf(steps)) <==>
      exists i: nat :: WeakestWhereLikely(PriorsOf(profs), rows, |steps|, i)
  {
    var causes, avg := CausesIn(steps), AveragesOf(rows, |steps|, profs);
    OneCauseExactly(PriorsOf(profs), cause, causes, rows, avg);
    assert Chain.Hops(causes, avg) == HopsOf(steps);
  }

  // ── A route that falls short ───────────────────────────────────────

  ghost predicate InverseAt(exp: real -> real, x: real, y: real) {
    y == -x ==> exp(x) * exp(y) == 1.0
  }

  /** What the exponential is beyond its sign and order: strictly rising, and inverted by the
      opposite exponent. */
  ghost predicate IsExponential(exp: real -> real) {
    && IsExp(exp) && (forall x, y :: x < y ==> exp(x) < exp(y))
    && forall x, y :: InverseAt(exp, x, y)
  }

  /** No organised crime: all attempts are opportunistic or advanced, in equal parts. */
  const POLAR_PRIORS: map<string, real> := map["commodity" := 0.5, "criminal" := 0.0, "apt" := 0.5]

  const POLAR: seq<Profile> := [Profile("commodity", 0.5, -1.6), Profile("criminal", 0.0, 0.0), Profile("apt", 0.5, 1.6)]

  lemma MeanOfPolar(a: real, b: real, c: real)
    ensures PriorsOf(POLAR) == [0.5, 0.0, 0.5] && IsPrior(PriorsOf(POLAR))
    ensures Mean(PriorsOf(POLAR), [a, b, c]) == 0.5 * a + 0.5 * c
  {
    assert PriorsOf(POLAR) == [0.5, 0.0, 0.5];
    SumOfThree([0.5, 0.0, 0.5]);
    SumOfThree(Terms([0.5, 0.0, 0.5], [a, b, c]));
  }

  lemma {:induction false} SumOfThree(s: seq<real>)
    requires |s| == 3
    ensures Sum(s) == s[0] + s[1] + s[2]
  {
    SumSnoc(s, 0, s[0]);
    SumSnoc(s, 1, s[1]);
    SumSnoc(s, 2, s[2]);
    SumWhole(s);
  }

  /** These profiles are what the configured priors make of the default ones. */
  lemma PolarIsConfigurable(profs: seq<Profile>)
    requires |profs| == |DEFAULTS| && forall i :: 0 <= i < |profs| ==> profs[i].name == DEFAULTS[i].name && profs[i].skill == DEFAULTS[i].skill
    requires var given := PriorsOf(Given(POLAR_PRIORS)); AreShares(given, PriorsOf(profs), Sum(given))
    ensures Sum(PriorsOf(Given(POLAR_PRIORS))) == 1.0 && profs == POLAR
  {
    assert Given(POLAR_PRIORS) == POLAR;
    MeanOfPolar(0.0, 0.0, 0.0);
    SharesOfOne(PriorsOf(POLAR), PriorsOf(profs));
    forall i | 0 <= i < |profs| ensures profs[i] == POLAR[i] {
      assert PriorsOf(profs)[i] == PriorsOf(POLAR)[i];
    }
  }

  /** An edge at 1/2 against these profiles: `u` is the weight of the weaker one. */
  function PolarColumn(exp: real -> real, k: real): (col: seq<real>)
    requires IsExp(exp)
    ensures |col| == 3
  {
    [ProbAt(exp(1.6 * k), 1.0), ProbAt(exp(0.0), 1.0), ProbAt(exp(-1.6 * k), 1.0)]
  }

  /** At 1 the two likely profiles average back to 1/2. */
  lemma PolarAverages(exp: real -> real, k: real)
    requires IsExponential(exp)
    ensures Mean(PriorsOf(POLAR), PolarColumn(exp, k)) == 0.5
  {
    var u, v := exp(1.6 * k), exp(-1.6 * k);
    assert InverseAt(exp, 1.6 * k, -1.6 * k);
    var a, b := ProbAt(u, 1.0), ProbAt(v, 1.0);
    ProbAtIs(u, 1.0, u, a);
    ProbAtIs(v, 1.0, v, b);
    OddsMeet(u, v, a, b);
    MeanOfPolar(a, ProbAt(exp(0.0), 1.0), b);
  }

  lemma OddsMeet(u: real, v: real, a: real, b: real)
    requires u > 0.0 && v > 0.0 && u * v == 1.0 && a * (1.0 + u) == 1.0 && b * (1.0 + v) == 1.0
    ensures a + b == 1.0
  {
    assert b * u + b * (u * v) == u * (b * (1.0 + v)) == u;
    assert (a + b) * (1.0 + u) == 1.0 + u;
    SameFactor(a + b, 1.0, 1.0 + u);
  }

  lemma SameFactor(x: real, y: real, z: real)
    requires z > 0.0 && x * z == y * z
    ensures x == y
  {
    assert (x - y) * z == 0.0;
  }

  lemma PolarSpread(exp: real -> real, basis: string, k: real)
    requires IsExponential(exp) && k == Sensitivity(basis)
    ensures SpreadAt(PolarColumn(exp, k), basis, POLAR, exp, 1.0)
  {
    assert WeightAt(exp, k, POLAR[0]) == exp(1.6 * k);
    assert WeightAt(exp, k, POLAR[1]) == exp(0.0);
    assert WeightAt(exp, k, POLAR[2]) == exp(-1.6 * k);
  }

  /** Two hops at 1/2 resting on one cause, one almost indifferent to skill and one driven by it. */
  function MixedBases(): seq<Step> {
    [Step("T", "a", "b", 0.5, "kev", "C"), Step("T", "b", "c", 0.5, "heuristic", "C")]
  }

  function MixedRows(exp: real -> real): (rows: seq<seq<real>>)
    requires IsExp(exp)
    ensures |rows| == 3 && forall c :: 0 <= c < 3 ==> rows[c] == [PolarColumn(exp, 0.15)[c], PolarColumn(exp, 1.0)[c]]
  {
    seq(3, c requires 0 <= c < 3 => [PolarColumn(exp, 0.15)[c], PolarColumn(exp, 1.0)[c]])
  }

  lemma MixedColumns(exp: real -> real)
    requires IsExp(exp)
    ensures Column(MixedRows(exp), 0) == PolarColumn(exp, 0.15) && Column(MixedRows(exp), 1) == PolarColumn(exp, 1.0)
  {
  }

  /** The hop that depends on skill is the weaker one for the weak attacker, and the stronger one
      for the strong. */
  lemma MixedDisagree(exp: real -> real)
    requires IsExponential(exp)
    ensures PolarColumn(exp, 1.0)[0] < PolarColumn(exp, 0.15)[0] && PolarColumn(exp, 0.15)[2] < PolarColumn(exp, 1.0)[2]
  {
    assert 1.6 * 0.15 < 1.6 * 1.0 && -1.6 * 1.0 < -1.6 * 0.15;
    LighterProb(exp(1.6 * 0.15), exp(1.6 * 1.0));
    LighterProb(exp(-1.6 * 1.0), exp(-1.6 * 0.15));
  }

  lemma LighterProb(w: real, w': real)
    requires 0.0 < w < w'
    ensures ProbAt(w', 1.0) < ProbAt(w, 1.0)
  {
    var q, q' := ProbAt(w, 1.0), ProbAt(w', 1.0);
    ProbAtIs(w, 1.0, w, q);
    ProbAtIs(w', 1.0, w', q');
    LargerFraction(1.0 + w, 1.0 + w', q, q');
  }

  /** When one cause carries two bases, the profiles can disagree on its weakest hop, and then the
      mixture falls below the score: under priors an operator can set, and whatever the
      exponential, this route does. Its equations are solved, at 1. */
  lemma BasesMustAgree(exp: real -> real)
    requires IsExponential(exp)
    ensures IsPrior(PriorsOf(POLAR)) && !CausesShareBasis(MixedBases())
    ensures Spread(MixedRows(exp), [1.0, 1.0], MixedBases(), POLAR, exp) && Anchored(MixedRows(exp), MixedBases(), POLAR)
    ensures Mean(PriorsOf(POLAR), Scores(CausesIn(MixedBases()), MixedRows(exp))) < Chain.Score(HopsOf(MixedBases()))
  {
    MeanOfPolar(0.0, 0.0, 0.0);
    assert MixedBases()[0].cause == MixedBases()[1].cause && MixedBases()[0].basis != MixedBases()[1].basis;
    MixedAnchors(exp);
    MixedFallsShort(exp, MixedRows(exp), MixedBases());
  }

  lemma MixedFallsShort(exp: real -> real, rows: seq<seq<real>>, steps: seq<Step>)
    requires IsExponential(exp) && rows == MixedRows(exp) && |steps| == 2 && steps[0].cause == steps[1].cause == "C"
    requires IsPrior(PriorsOf(POLAR)) && Spread(rows, [1.0, 1.0], steps, POLAR, exp) && Anchored(rows, steps, POLAR)
    ensures Mean(PriorsOf(POLAR), Scores(CausesIn(steps), rows)) < Chain.Score(HopsOf(steps))
  {
    MixedDisagree(exp);
    OneCauseMixture(rows, [1.0, 1.0], steps, POLAR, exp, "C");
    forall i: nat ensures !WeakestWhereLikely(PriorsOf(POLAR), rows, 2, i) {
      NoWeakest(PriorsOf(POLAR), rows, i);
    }
  }

  /** Neither hop is weakest for both likely profiles. */
  lemma NoWeakest(prior: seq<real>, rows: seq<seq<real>>, i: nat)
    requires |prior| == |rows| == 3 && (forall c :: 0 <= c < 3 ==> |rows[c]| == 2) && prior[0] > 0.0 && prior[2] > 0.0
    requires rows[0][1] < rows[0][0] && rows[2][0] < rows[2][1]
    ensures !WeakestWhereLikely(prior, rows, 2, i)
  {
  }

  lemma MixedAnchors(exp: real -> real)
    requires IsExponential(exp)
    ensures Spread(MixedRows(exp), [1.0, 1.0], MixedBases(), POLAR, exp) && Anchored(MixedRows(exp), MixedBases(), POLAR)
  {
    MixedColumns(exp);
    PolarSpread(exp, "kev", 0.15);
    PolarSpread(exp, "heuristic", 1.0);
    PolarAverages(exp, 0.15);
    PolarAverages(exp, 1.0);
  }

  // ── Where the search stops on it ───────────────────────────────────

  ghost predicate IsGeometricAt(mid: (real, real) -> real, lo: real, hi: real) {
    0.0 < lo <= hi ==> mid(lo, hi) > 0.0 && mid(lo, hi) * mid(lo, hi) == lo * hi
  }

  ghost predicate IsGeometric(mid: (real, real) -> real) {
    forall lo, hi :: IsGeometricAt(mid, lo, hi)
  }

  lemma RootOfOne(x: real)
    requires x > 0.0 && x * x == 1.0
    ensures x == 1.0
  {
    if x < 1.0 {
      TimesLess(x, x, 1.0);
    } else if x > 1.0 {
      TimesLess(x, 1.0, x);
    }
  }

  lemma InverseIs(u: real, v: real)
    requires u > 0.0 && u * v == 1.0
    ensures Inverse(u) == v
  {
    var q := 1.0 / u;
    SameFactor(q, v, u);
  }

  lemma ProperInverse(u: real, v: real)
    requires u > 1.0 && v > 0.0 && u * v == 1.0
    ensures v < 1.0
  {
    if v >= 1.0 {
      TimesAtMost(u, 1.0, v);
    }
  }

  /** The bracket of three weights, from their inverses. */
  lemma ThreeInverses(a: real, b: real, c: real, x: real, y: real, z: real)
    requires x == Inverse(a) && y == Inverse(b) && z == Inverse(c) && x <= y <= z
    ensures LeastInverse([a, b, c]) == x && MostInverse([a, b, c]) == z
  {
    InversesGrow([], a, x);
    InversesGrow([a], b, y);
    InversesGrow([a, b], c, z);
    assert [] + [a] == [a] && [a] + [b] == [a, b] && [a, b] + [c] == [a, b, c];
  }

  /** The bracket of the three weights runs from the one likely weight to the other. */
  lemma PolarInverses(u: real, one: real, v: real)
    requires u > 1.0 && one == 1.0 && v > 0.0 && u * v == 1.0
    ensures v < 1.0 && LeastInverse([u, one, v]) == v && MostInverse([u, one, v]) == u
  {
    ProperInverse(u, v);
    InverseIs(u, v);
    InverseIs(v, u);
    InverseIs(one, one);
    ThreeInverses(u, one, v, v, one, u);
  }

  /** With the geometric middle, and an exponential above `1 + x`, the search for either hop
      begins at 1 and stops there. */
  lemma PolarStops(exp: real -> real, mid: (real, real) -> real, basis: string)
    requires basis == "kev" || basis == "heuristic"
    requires IsExponential(exp) && IsGeometric(mid) && exp(0.24) >= 1.24
    ensures StoppedAt(0.5, basis, POLAR, exp, mid, 1.0)
  {
    var k := Sensitivity(basis);
    PolarWeights(exp, basis, k);
    PolarProbs(exp, k, AnchorFor(basis, POLAR, exp).w);
    PolarBracket(exp, k);
    PolarAverages(exp, k);
    MiddleIsOne(mid, exp(-1.6 * k), exp(1.6 * k));
    StopsAtOne(AnchorFor(basis, POLAR, exp), mid, exp(1.6 * k), exp(-1.6 * k));
    HalfIsEven();
  }

  lemma HalfIsEven()
    ensures Clamped(0.5) == 0.5 && Odds(0.5) == 1.0
  {
  }

  lemma MiddleIsOne(mid: (real, real) -> real, v: real, u: real)
    requires IsGeometric(mid) && 0.0 < v <= u && u * v == 1.0
    ensures mid(v, u) == 1.0
  {
    assert IsGeometricAt(mid, v, u);
    assert v * u == u * v;
    RootOfOne(mid(v, u));
  }

  lemma PolarBracket(exp: real -> real, k: real)
    requires IsExponential(exp) && exp(0.24) >= 1.24 && k >= 0.15
    ensures var u, one, v := exp(1.6 * k), exp(0.0), exp(-1.6 * k);
      u >= 1.24 && 0.0 < v < 1.0 && u * v == 1.0 && LeastInverse([u, one, v]) == v && MostInverse([u, one, v]) == u
  {
    assert InverseAt(exp, 1.6 * k, -1.6 * k) && InverseAt(exp, 0.0, -0.0);
    RootOfOne(exp(0.0));
    assert 0.24 <= 1.6 * k;
    PolarInverses(exp(1.6 * k), exp(0.0), exp(-1.6 * k));
  }

  lemma PolarWeights(exp: real -> real, basis: string, k: real)
    requires IsExponential(exp) && k == Sensitivity(basis)
    ensures AnchorFor(basis, POLAR, exp).w == [exp(1.6 * k), exp(0.0), exp(-1.6 * k)] && AnchorFor(basis, POLAR, exp).prior == PriorsOf(POLAR)
  {
    assert WeightAt(exp, k, POLAR[0]) == exp(1.6 * k);
    assert WeightAt(exp, k, POLAR[1]) == exp(0.0);
    assert WeightAt(exp, k, POLAR[2]) == exp(-1.6 * k);
  }

  lemma PolarProbs(exp: real -> real, k: real, w: seq<real>)
    requires IsExp(exp) && w == [exp(1.6 * k), exp(0.0), exp(-1.6 * k)]
    ensures Positive(w) && Probs(w, 1.0) == PolarColumn(exp, k)
  {
    assert w[0] == exp(1.6 * k) && w[1] == exp(0.0) && w[2] == exp(-1.6 * k);
  }

  lemma StopsAtOne(a: Anchor, mid: (real, real) -> real, u: real, v: real)
    requires |a.prior| == |a.w| && Positive(a.w) && a.yLo == v && a.yHi == u && 0.0 < v < 1.0 && u >= 1.24
    requires mid(v, u) == 1.0 && Mean(a.prior, Probs(a.w, 1.0)) == 0.5
    ensures Solves(a, 0.5, 1.0, 0.0, mid, 1.0)
  {
    var begun := BeginIn(1.0 * v, 1.0 * u, 1.0 * 0.0, mid);
    assert begun == Iterate(v, u, 1.0);
    assert EquationOf(a, 0.5).excess(1.0) == 0.0;
  }
}
