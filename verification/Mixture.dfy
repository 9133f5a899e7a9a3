/** The score of one route averaged over the attacker profiles, and where it lies: between the
    route's own score and its weakest hop. */
module Mixture {
  import Chain
  import opened Positions
  import opened Anchor
  import opened Solver
  import opened Association

  // ── The profiles' table ────────────────────────────────────────────

  /** `rows[c][i]` is hop `i`'s probability against profile `c`. */
  ghost predicate IsTable(rows: seq<seq<real>>, n: nat) {
    forall c :: 0 <= c < |rows| ==> |rows[c]| == n && forall i :: 0 <= i < n ==> 0.0 <= rows[c][i] <= 1.0
  }

  function Column(rows: seq<seq<real>>, i: nat): (s: seq<real>)
    requires forall c :: 0 <= c < |rows| ==> i < |rows[c]|
    ensures |s| == |rows| && forall c :: 0 <= c < |rows| ==> s[c] == rows[c][i]
  {
    seq(|rows|, c requires 0 <= c < |rows| => rows[c][i])
  }

  /** Every column rises with the profiles' skill. */
  ghost predicate Rises(skill: seq<real>, f: seq<real>) {
    |f| == |skill| && forall c, d :: 0 <= c < |f| && 0 <= d < |f| && skill[c] <= skill[d] ==> f[c] <= f[d]
  }

  lemma RiseTogether(skill: seq<real>, f: seq<real>, g: seq<real>)
    requires Rises(skill, f) && Rises(skill, g)
    ensures Together(f, g)
  {
  }

  ghost predicate InUnit(f: seq<real>) {
    forall c :: 0 <= c < |f| ==> 0.0 <= f[c] <= 1.0
  }

  lemma PairwiseRises(skill: seq<real>, f: seq<real>, g: seq<real>)
    requires Rises(skill, f) && Rises(skill, g) && InUnit(f) && InUnit(g)
    ensures Rises(skill, Pairwise(f, g)) && InUnit(Pairwise(f, g))
  {
    var p := Pairwise(f, g);
    forall c | 0 <= c < |p| ensures 0.0 <= p[c] <= 1.0 {
      Chain.TimesMonotone(f[c], g[c], 1.0, 1.0);
    }
    forall c, d | 0 <= c < |p| && 0 <= d < |p| && skill[c] <= skill[d] ensures p[c] <= p[d] {
      Chain.TimesMonotone(f[c], g[c], f[d], g[d]);
    }
  }

  /** Each profile's product over the picked hops. */
  function Products(rows: seq<seq<real>>, pick: seq<nat>): (s: seq<real>)
    requires forall c, t :: 0 <= c < |rows| && 0 <= t < |pick| ==> pick[t] < |rows[c]|
    ensures |s| == |rows| && forall c :: 0 <= c < |rows| ==> s[c] == Chain.Mul(Take(rows[c], pick))
  {
    seq(|rows|, c requires 0 <= c < |rows| => Chain.Mul(Take(rows[c], pick)))
  }

  lemma ProductsSnoc(rows: seq<seq<real>>, pick: seq<nat>, i: nat)
    requires forall c, t :: 0 <= c < |rows| && 0 <= t < |pick + [i]| ==> (pick + [i])[t] < |rows[c]|
    ensures (forall c, t :: 0 <= c < |rows| && 0 <= t < |pick| ==> pick[t] < |rows[c]|) && forall c :: 0 <= c < |rows| ==> i < |rows[c]|
    ensures Products(rows, pick + [i]) == Pairwise(Products(rows, pick), Column(rows, i))
  {
    assert (pick + [i])[|pick|] == i;
    assert forall t :: 0 <= t < |pick| ==> (pick + [i])[t] == pick[t];
    forall c | 0 <= c < |rows|
      ensures Products(rows, pick + [i])[c] == Pairwise(Products(rows, pick), Column(rows, i))[c]
    {
      assert Take(rows[c], pick + [i]) == Take(rows[c], pick) + [rows[c][i]];
      Chain.MulSnoc(Take(rows[c], pick), rows[c][i]);
    }
  }

  /** The picked positions lie inside every row. */
  ghost predicate Picks(pick: seq<nat>, n: nat) {
    forall t :: 0 <= t < |pick| ==> pick[t] < n
  }

  lemma PickedSnoc(pick: seq<nat>, n: nat)
    requires Picks(pick, n) && pick != []
    ensures Picks(pick[..|pick| - 1], n) && pick[|pick| - 1] < n
  {
  }

  lemma StepUp(e: real, m: real, avg: real, mean: real, product: real)
    requires 0.0 <= avg && e <= m && mean >= m * avg && product == e * avg
    ensures mean >= product
  {
    TimesAtMost(avg, e, m);
  }

  /** Hop `i` rises with skill, and averages `avg[i]`. */
  ghost predicate Averages(prior: seq<real>, skill: seq<real>, rows: seq<seq<real>>, n: nat, avg: seq<real>, i: nat)
    requires IsTable(rows, n) && |prior| == |rows| && |avg| == n && i < n
  {
    Rises(skill, Column(rows, i)) && avg[i] == Mean(prior, Column(rows, i))
  }

  /** The products rise with skill, and average at least the product of the averages. */
  ghost predicate Associates(prior: seq<real>, skill: seq<real>, rows: seq<seq<real>>, avg: seq<real>, pick: seq<nat>)
    requires |prior| == |rows| && IsTable(rows, |avg|) && Picks(pick, |avg|)
  {
    && Rises(skill, Products(rows, pick)) && InUnit(Products(rows, pick))
    && Mean(prior, Products(rows, pick)) >= Chain.Mul(Take(avg, pick))
  }

  lemma {:induction false} ProductsAssociate(prior: seq<real>, skill: seq<real>, rows: seq<seq<real>>, avg: seq<real>, pick: seq<nat>)
    requires IsPrior(prior) && |prior| == |rows| == |skill| && IsTable(rows, |avg|) && Picks(pick, |avg|)
    requires forall i :: 0 <= i < |avg| ==> Averages(prior, skill, rows, |avg|, avg, i)
    ensures Associates(prior, skill, rows, avg, pick)
    decreases |pick|
  {
    if pick == [] {
      MeanAtLeast(prior, Products(rows, pick), 1.0);
    } else {
      PickedSnoc(pick, |avg|);
      var init, i := pick[..|pick| - 1], pick[|pick| - 1];
      ProductsAssociate(prior, skill, rows, avg, init);
      AssociateSnoc(prior, skill, rows, avg, init, i);
      assert pick == init + [i];
    }
  }

  lemma AssociateSnoc(prior: seq<real>, skill: seq<real>, rows: seq<seq<real>>, avg: seq<real>, init: seq<nat>, i: nat)
    requires IsPrior(prior) && |prior| == |rows| == |skill| && IsTable(rows, |avg|) && Picks(init, |avg|) && i < |avg|
    requires Averages(prior, skill, rows, |avg|, avg, i) && Associates(prior, skill, rows, avg, init)
    ensures Picks(init + [i], |avg|) && Associates(prior, skill, rows, avg, init + [i])
  {
    TakeSnoc(avg, init, i);
    ColumnInUnit(rows, |avg|, i);
    AssociateStep(prior, skill, Products(rows, init), Column(rows, i), Chain.Mul(Take(avg, init)), Chain.Mul(Take(avg, init + [i])));
    ProductsSnoc(rows, init, i);
  }

  lemma ColumnInUnit(rows: seq<seq<real>>, n: nat, i: nat)
    requires IsTable(rows, n) && i < n
    ensures InUnit(Column(rows, i))
  {
  }

  lemma AssociateStep(prior: seq<real>, skill: seq<real>, f: seq<real>, g: seq<real>, e: real, product: real)
    requires IsPrior(prior) && |prior| == |skill|
    requires Rises(skill, f) && Rises(skill, g) && InUnit(f) && InUnit(g)
    requires Mean(prior, f) >= e && product == e * Mean(prior, g)
    ensures Rises(skill, Pairwise(f, g)) && InUnit(Pairwise(f, g))
    ensures Mean(prior, Pairwise(f, g)) >= product
  {
    PairwiseRises(skill, f, g);
    RiseTogether(skill, f, g);
    Associated(prior, f, g);
    MeanAtLeast(prior, g, 0.0);
    StepUp(e, Mean(prior, f), Mean(prior, g), Mean(prior, Pairwise(f, g)), product);
  }

  lemma TakeSnoc(v: seq<real>, pick: seq<nat>, i: nat)
    requires Picks(pick, |v|) && i < |v|
    ensures Picks(pick + [i], |v|) && Chain.Mul(Take(v, pick + [i])) == Chain.Mul(Take(v, pick)) * v[i]
  {
    assert Take(v, pick + [i]) == Take(v, pick) + [v[i]];
    Chain.MulSnoc(Take(v, pick), v[i]);
  }

  // ── One route against every profile ────────────────────────────────

  /** Each profile's score of the route. */
  ghost function Scores(causes: seq<string>, rows: seq<seq<real>>): (s: seq<real>)
    requires forall c :: 0 <= c < |rows| ==> |rows[c]| == |causes|
    ensures |s| == |rows| && forall c :: 0 <= c < |rows| ==> s[c] == Chain.Score(Chain.Hops(causes, rows[c]))
  {
    seq(|rows|, c requires 0 <= c < |rows| => Chain.Score(Chain.Hops(causes, rows[c])))
  }

  /** The mixture is at most any hop's average over the profiles. */
  lemma MixtureAtMostAverage(prior: seq<real>, causes: seq<string>, rows: seq<seq<real>>, i: nat)
    requires IsPrior(prior) && |prior| == |rows| && IsTable(rows, |causes|) && i < |causes|
    ensures Mean(prior, Scores(causes, rows)) <= Mean(prior, Column(rows, i))
  {
    forall c | 0 <= c < |rows| ensures Scores(causes, rows)[c] <= Column(rows, i)[c] {
      Chain.ScoreAtMostHop(Chain.Hops(causes, rows[c]), i);
    }
    MeanMonotone(prior, Scores(causes, rows), Column(rows, i));
  }

  /** The mixture is at least the score of the averages, where every profile agrees on which
      hop is the weakest of each shared cause. */
  lemma MixtureAtLeastAverages(prior: seq<real>, skill: seq<real>, causes: seq<string>, rows: seq<seq<real>>, avg: seq<real>, weakest: seq<nat>)
    requires IsPrior(prior) && |prior| == |rows| == |skill| && IsTable(rows, |causes|) && |avg| == |causes|
    requires forall i :: 0 <= i < |avg| ==> Averages(prior, skill, rows, |avg|, avg, i)
    requires PicksWeakest(causes, avg, weakest)
    requires forall c :: 0 <= c < |rows| ==> PicksWeakest(causes, rows[c], weakest)
    ensures Mean(prior, Scores(causes, rows)) >= Chain.Score(Chain.Hops(causes, avg))
  {
    var pick := PlacesOf(causes, "") + weakest;
    FactorsByPosition(causes, avg, weakest);
    forall c | 0 <= c < |rows| ensures Scores(causes, rows)[c] == Chain.Mul(Take(rows[c], pick)) {
      FactorsByPosition(causes, rows[c], weakest);
    }
    assert Picks(pick, |avg|);
    ProductsAssociate(prior, skill, rows, avg, pick);
    assert Scores(causes, rows) == Products(rows, pick);
  }

  // ── Anchored profiles ──────────────────────────────────────────────

  /** How much an edge's success depends on skill, by where its probability came from. */
  function Sensitivity(basis: string): (k: real)
    ensures 0.0 < k <= 1.0
  {
    if basis == "kev" then 0.15
    else if basis == "runtime" then 0.25
    else if basis == "epss" then 0.45
    else if basis == "cvss" then 0.70
    else if basis == "severity" then 0.90
    else 1.0
  }

  /** The better the evidence for an edge, the less it depends on skill; a guess depends on it
      wholly. */
  lemma SensitivityIs(basis: string)
    ensures Sensitivity("kev") == 0.15 && Sensitivity("runtime") == 0.25 && Sensitivity("epss") == 0.45
    ensures Sensitivity("cvss") == 0.7 && Sensitivity("severity") == 0.9
    ensures basis !in ["kev", "runtime", "epss", "cvss", "severity"] ==> Sensitivity(basis) == 1.0
  {
  }

  function SkillsOf(profs: seq<Profile>): (s: seq<real>)
    ensures |s| == |profs| && forall c :: 0 <= c < |profs| ==> s[c] == profs[c].skill
  {
    seq(|profs|, c requires 0 <= c < |profs| => profs[c].skill)
  }

  /** `col` is an edge's probability for every profile, at some iterate `x` of its search. */
  ghost predicate SpreadAt(col: seq<real>, basis: string, profs: seq<Profile>, exp: real -> real, x: real) {
    && x > 0.0 && |col| == |profs|
    && forall c :: 0 <= c < |profs| ==>
         var w := WeightAt(exp, Sensitivity(basis), profs[c]);
         w > 0.0 && col[c] == ProbAt(w, x)
  }

  lemma OddsByWeight(w: real, w': real, x: real, factor: real)
    requires w > 0.0 && w' > 0.0 && x > 0.0 && w' == w * factor
    ensures ProbAt(w, x) * (1.0 - ProbAt(w', x)) == ProbAt(w', x) * (1.0 - ProbAt(w, x)) * factor
  {
    var q, q', xw, xw' := ProbAt(w, x), ProbAt(w', x), x * w, x * w';
    ProbAtIs(w, x, xw, q);
    ProbAtIs(w', x, xw', q');
    OddsRatio(q, q', xw, xw', factor);
  }

  lemma OddsRatio(q: real, q': real, xw: real, xw': real, factor: real)
    requires q * (1.0 + xw) == 1.0 && q' * (1.0 + xw') == 1.0 && xw' == xw * factor
    ensures q * (1.0 - q') == q' * (1.0 - q) * factor
  {
    assert 1.0 - q == q * xw && 1.0 - q' == q' * xw';
    assert q * (q' * (xw * factor)) == q' * (q * xw) * factor;
  }

  /** Skill moves an edge's odds, wherever its search stopped: against profile `p` they are what they
      are against profile `q` times the exponential of sensitivity times the skill between them. */
  lemma OddsBySkill(col: seq<real>, basis: string, profs: seq<Profile>, exp: real -> real, x: real, c: nat, d: nat, factor: real)
    requires SpreadAt(col, basis, profs, exp, x) && c < |profs| && d < |profs|
    requires exp(-profs[d].skill * Sensitivity(basis)) == exp(-profs[c].skill * Sensitivity(basis)) * factor
    ensures col[c] * (1.0 - col[d]) == col[d] * (1.0 - col[c]) * factor
  {
    OddsByWeight(WeightAt(exp, Sensitivity(basis), profs[c]), WeightAt(exp, Sensitivity(basis), profs[d]), x, factor);
  }

  lemma WeightFalls(exp: real -> real, k: real, p: Profile, q: Profile)
    requires IsExp(exp) && k > 0.0 && p.skill <= q.skill
    ensures 0.0 < WeightAt(exp, k, q) <= WeightAt(exp, k, p)
  {
    TimesAtMost(k, p.skill, q.skill);
    var x, y := -q.skill * k, -p.skill * k;
    assert x <= y;
    assert exp(x) <= exp(y);
  }

  /** Whatever iterate the search stopped at, a more skilled profile never stands lower. */
  lemma SpreadRises(col: seq<real>, basis: string, profs: seq<Profile>, exp: real -> real, x: real)
    requires IsExp(exp) && SpreadAt(col, basis, profs, exp, x)
    ensures Rises(SkillsOf(profs), col) && InUnit(col)
  {
    var k := Sensitivity(basis);
    forall c, d | 0 <= c < |col| && 0 <= d < |col| && profs[c].skill <= profs[d].skill ensures col[c] <= col[d] {
      WeightFalls(exp, k, profs[c], profs[d]);
      ProbFalls(WeightAt(exp, k, profs[d]), x, WeightAt(exp, k, profs[c]), x);
    }
    forall c | 0 <= c < |col| ensures 0.0 <= col[c] <= 1.0 {
      var w := WeightAt(exp, k, profs[c]);
      ProbAtIs(w, x, x * w, col[c]);
    }
  }

  /** On one basis the likelier edge is the likelier one against every profile. */
  lemma SameBasisOrders(prior: seq<real>, col: seq<real>, col': seq<real>, basis: string, profs: seq<Profile>, exp: real -> real, x: real, x': real)
    requires IsPrior(prior) && |prior| == |profs|
    requires SpreadAt(col, basis, profs, exp, x) && SpreadAt(col', basis, profs, exp, x')
    requires Mean(prior, col) <= Mean(prior, col')
    ensures forall c :: 0 <= c < |profs| ==> col[c] <= col'[c]
  {
    var k := Sensitivity(basis);
    if x < x' {
      forall c | 0 <= c < |profs| ensures col'[c] < col[c] {
        ProbFalls(WeightAt(exp, k, profs[c]), x, WeightAt(exp, k, profs[c]), x');
      }
      MeanStrict(prior, col', col);
    } else {
      forall c | 0 <= c < |profs| ensures col[c] <= col'[c] {
        ProbFalls(WeightAt(exp, k, profs[c]), x', WeightAt(exp, k, profs[c]), x);
      }
    }
  }
}
