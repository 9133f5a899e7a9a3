/** Attacker profiles, and the solver that spreads an edge's probability over them so that
    they average back to it. */
module Anchor {

  datatype Profile = Profile(name: string, prior: real, skill: real)

  function Sum(s: seq<real>): real {
    if s == [] then 0.0 else Sum(s[..|s| - 1]) + s[|s| - 1]
  }

  function Terms(prior: seq<real>, f: seq<real>): (s: seq<real>)
    requires |prior| == |f|
    ensures |s| == |f| && forall i :: 0 <= i < |f| ==> s[i] == prior[i] * f[i]
  {
    seq(|f|, i requires 0 <= i < |f| => prior[i] * f[i])
  }

  /** The value averaged over the profiles. */
  function Mean(prior: seq<real>, f: seq<real>): real
    requires |prior| == |f|
  {
    Sum(Terms(prior, f))
  }

  ghost predicate NonNegative(s: seq<real>) {
    forall i :: 0 <= i < |s| ==> s[i] >= 0.0
  }

  ghost predicate IsPrior(prior: seq<real>) {
    NonNegative(prior) && Sum(prior) == 1.0
  }

  lemma TimesAtMost(p: real, x: real, y: real)
    requires p >= 0.0 && x <= y
    ensures p * x <= p * y
  {
    assert p * y - p * x == p * (y - x);
  }

  lemma {:induction false} SumMonotone(a: seq<real>, b: seq<real>)
    requires |a| == |b| && forall i :: 0 <= i < |a| ==> a[i] <= b[i]
    ensures Sum(a) <= Sum(b)
    decreases |a|
  {
    if a != [] {
      SumMonotone(a[..|a| - 1], b[..|a| - 1]);
    }
  }

  lemma MeanMonotone(prior: seq<real>, f: seq<real>, g: seq<real>)
    requires NonNegative(prior) && |prior| == |f| == |g|
    requires forall i :: 0 <= i < |f| ==> f[i] <= g[i]
    ensures Mean(prior, f) <= Mean(prior, g)
  {
    forall i | 0 <= i < |f| ensures Terms(prior, f)[i] <= Terms(prior, g)[i] {
      TimesAtMost(prior[i], f[i], g[i]);
    }
    SumMonotone(Terms(prior, f), Terms(prior, g));
  }

  lemma Distributes(a: real, b: real, m: real, am: real, bm: real)
    requires am == a * m && bm == b * m
    ensures (a + b) * m == am + bm
  {
  }

  /** `share` is `p` in units of `total`. */
  ghost predicate IsShare(p: real, total: real, share: real) {
    share * total == p
  }

  ghost predicate AreShares(prior: seq<real>, shares: seq<real>, total: real) {
    |prior| == |shares| && forall i :: 0 <= i < |prior| ==> IsShare(prior[i], total, shares[i])
  }

  lemma {:induction false} SumScaled(s: seq<real>, t: seq<real>, m: real)
    requires AreShares(t, s, m)
    ensures Sum(t) == Sum(s) * m
    decreases |s|
  {
    if s != [] {
      var n := |s| - 1;
      SharesInit(t, s, m);
      SumScaled(s[..n], t[..n], m);
      assert IsShare(t[n], m, s[n]);
      Distributes(Sum(s[..n]), s[n], m, Sum(t[..n]), t[n]);
    }
  }

  lemma {:induction false} SharesInit(t: seq<real>, s: seq<real>, m: real)
    requires AreShares(t, s, m) && s != []
    ensures AreShares(t[..|s| - 1], s[..|s| - 1], m)
  {
    var s', t' := s[..|s| - 1], t[..|s| - 1];
    forall i | 0 <= i < |s'| ensures IsShare(t'[i], m, s'[i]) {
      assert IsShare(t[i], m, s[i]);
    }
  }

  lemma MeanOfConstant(prior: seq<real>, f: seq<real>, m: real)
    requires IsPrior(prior) && |prior| == |f| && forall i :: 0 <= i < |f| ==> f[i] == m
    ensures Mean(prior, f) == m
  {
    forall i | 0 <= i < |f| ensures IsShare(Terms(prior, f)[i], m, prior[i]) {
      TermIsShare(prior[i], f[i], m, Terms(prior, f)[i]);
    }
    SumScaled(prior, Terms(prior, f), m);
    WholeIs(Sum(prior), m, Sum(Terms(prior, f)));
  }

  lemma TermIsShare(p: real, f: real, m: real, t: real)
    requires t == p * f && f == m
    ensures IsShare(t, m, p)
  {
  }

  lemma WholeIs(s: real, m: real, t: real)
    requires s == 1.0 && t == s * m
    ensures t == m
  {
  }

  function Constant(n: nat, m: real): (s: seq<real>)
    ensures |s| == n && forall i :: 0 <= i < n ==> s[i] == m
  {
    seq(n, i => m)
  }

  /** The mean lies between any bounds of the values. */
  lemma MeanAtLeast(prior: seq<real>, f: seq<real>, lo: real)
    requires IsPrior(prior) && |prior| == |f| && forall i :: 0 <= i < |f| ==> lo <= f[i]
    ensures lo <= Mean(prior, f)
  {
    MeanOfConstant(prior, Constant(|f|, lo), lo);
    MeanMonotone(prior, Constant(|f|, lo), f);
  }

  lemma MeanAtMost(prior: seq<real>, f: seq<real>, hi: real)
    requires IsPrior(prior) && |prior| == |f| && forall i :: 0 <= i < |f| ==> f[i] <= hi
    ensures Mean(prior, f) <= hi
  {
    MeanOfConstant(prior, Constant(|f|, hi), hi);
    MeanMonotone(prior, f, Constant(|f|, hi));
  }

  lemma {:induction false} SumAdds(a: seq<real>, b: seq<real>, c: seq<real>)
    requires |a| == |b| == |c| && forall i :: 0 <= i < |a| ==> c[i] == a[i] + b[i]
    ensures Sum(c) == Sum(a) + Sum(b)
    decreases |a|
  {
    if a != [] {
      SumAdds(a[..|a| - 1], b[..|a| - 1], c[..|a| - 1]);
    }
  }

  lemma TermAdds(p: real, x: real, c: real)
    ensures p * (x + c) == p * x + p * c
  {
  }

  /** Values no more than `c` above others average to no more than `c` above them. */
  lemma MeanWithin(prior: seq<real>, f: seq<real>, g: seq<real>, c: real)
    requires IsPrior(prior) && |prior| == |f| == |g| && forall i :: 0 <= i < |f| ==> f[i] <= g[i] + c
    ensures Mean(prior, f) <= Mean(prior, g) + c
  {
    var raised := seq(|g|, i requires 0 <= i < |g| => g[i] + c);
    MeanMonotone(prior, f, raised);
    forall i | 0 <= i < |g| ensures Terms(prior, raised)[i] == Terms(prior, g)[i] + Terms(prior, Constant(|g|, c))[i] {
      TermAdds(prior[i], g[i], c);
    }
    SumAdds(Terms(prior, g), Terms(prior, Constant(|g|, c)), Terms(prior, raised));
    MeanOfConstant(prior, Constant(|g|, c), c);
  }

  // ── The anchor ─────────────────────────────────────────────────────

  /** The exponential, of which only its sign and its order are used. */
  ghost predicate IsExp(exp: real -> real) {
    (forall x :: exp(x) > 0.0) && forall x, y :: x <= y ==> exp(x) <= exp(y)
  }

  /** `w` falls with skill; `yLo` and `yHi` bracket the solution. */
  datatype Anchor = Anchor(prior: seq<real>, w: seq<real>, yLo: real, yHi: real)

  /** `lo` and `hi` lie on either side of `1 / w`. */
  ghost predicate Brackets(w: real, lo: real, hi: real) {
    w > 0.0 && lo * w <= 1.0 <= hi * w
  }

  ghost predicate AllBracketed(w: seq<real>, lo: real, hi: real) {
    forall c :: 0 <= c < |w| ==> Brackets(w[c], lo, hi)
  }

  ghost predicate Sound(a: Anchor) {
    |a.prior| == |a.w| > 0 && IsPrior(a.prior) && 0.0 < a.yLo <= a.yHi && AllBracketed(a.w, a.yLo, a.yHi)
  }

  function PriorsOf(profs: seq<Profile>): (s: seq<real>)
    ensures |s| == |profs| && forall i :: 0 <= i < |profs| ==> s[i] == profs[i].prior
  {
    seq(|profs|, i requires 0 <= i < |profs| => profs[i].prior)
  }

  lemma ShareOf(p: real, total: real, share: real)
    requires total > 0.0 && share == p / total
    ensures IsShare(p, total, share)
  {
  }

  lemma ShareSign(p: real, total: real, share: real)
    requires total > 0.0 && IsShare(p, total, share) && p >= 0.0
    ensures share >= 0.0
  {
  }

  lemma SharesSumToOne(sum: real, total: real, whole: real)
    requires total > 0.0 && whole == sum * total && whole == total
    ensures sum == 1.0
  {
    assert (sum - 1.0) * total == 0.0;
  }

  lemma AreSharesSnoc(prior: seq<real>, shares: seq<real>, total: real, p: real, share: real)
    requires AreShares(prior, shares, total) && IsShare(p, total, share)
    ensures AreShares(prior + [p], shares + [share], total)
  {
    forall i | 0 <= i < |prior| + 1 ensures IsShare((prior + [p])[i], total, (shares + [share])[i]) {
      if i < |prior| {
        assert IsShare(prior[i], total, shares[i]);
      }
    }
  }

  lemma {:induction false} SharesArePrior(prior: seq<real>, shares: seq<real>, total: real)
    requires NonNegative(prior) && total == Sum(prior) > 0.0 && AreShares(prior, shares, total)
    ensures IsPrior(shares)
  {
    forall i | 0 <= i < |shares| ensures shares[i] >= 0.0 {
      ShareSign(prior[i], total, shares[i]);
    }
    SumScaled(shares, prior, total);
    SharesSumToOne(Sum(shares), total, Sum(prior));
  }

  function WeightAt(exp: real -> real, k: real, p: Profile): real {
    exp(-p.skill * k)
  }

  /** The profiles' weights at one sensitivity. */
  ghost predicate WeighedAt(w: seq<real>, k: real, profs: seq<Profile>, exp: real -> real) {
    |w| == |profs| && forall c :: 0 <= c < |w| ==> w[c] == WeightAt(exp, k, profs[c])
  }

  lemma BracketWidens(lo: real, lo': real, hi': real, hi: real, w: real)
    requires Brackets(w, lo', hi') && lo <= lo' && hi' <= hi
    ensures Brackets(w, lo, hi)
  {
    TimesAtMost(w, lo, lo');
    TimesAtMost(w, hi', hi);
  }

  lemma InverseOf(w: real, inv: real)
    requires w > 0.0 && inv == Inverse(w)
    ensures inv > 0.0 && Brackets(w, inv, inv)
  {
  }

  /** The inverse of a profile's weight: where it alone would put the solution. */
  function Inverse(w: real): real {
    if w == 0.0 then 0.0 else 1.0 / w
  }

  function LeastInverse(w: seq<real>): real
    requires w != []
  {
    var last := Inverse(w[|w| - 1]);
    if |w| == 1 then last else if last < LeastInverse(w[..|w| - 1]) then last else LeastInverse(w[..|w| - 1])
  }

  function MostInverse(w: seq<real>): real
    requires w != []
  {
    var last := Inverse(w[|w| - 1]);
    if |w| == 1 then last else if last > MostInverse(w[..|w| - 1]) then last else MostInverse(w[..|w| - 1])
  }

  lemma {:induction false} InversesGrow(w: seq<real>, wi: real, inv: real)
    requires inv == Inverse(wi)
    ensures LeastInverse(w + [wi]) == if w == [] || inv < LeastInverse(w) then inv else LeastInverse(w)
    ensures MostInverse(w + [wi]) == if w == [] || inv > MostInverse(w) then inv else MostInverse(w)
  {
    assert (w + [wi])[..|w|] == w;
  }

  lemma AllBracketedGrows(w: seq<real>, lo: real, hi: real, wi: real, inv: real, lo': real, hi': real)
    requires AllBracketed(w, lo, hi) && Brackets(wi, inv, inv)
    requires w != [] ==> lo' <= lo && hi <= hi'
    requires lo' <= inv <= hi'
    ensures AllBracketed(w + [wi], lo', hi')
  {
    forall c | 0 <= c < |w| ensures Brackets(w[c], lo', hi') {
      BracketWidens(lo', lo, hi, hi', w[c]);
    }
    BracketWidens(lo', inv, inv, hi', wi);
  }

  method TotalPrior(profs: seq<Profile>) returns (total: real)
    ensures total == Sum(PriorsOf(profs))
  {
    total := 0.0;
    ghost var given := PriorsOf(profs);
    for i := 0 to |profs|
      invariant total == Sum(given[..i])
    {
      assert given[..i + 1][..i] == given[..i];
      total := total + profs[i].prior;
    }
    assert given[..|profs|] == given;
  }

  /** `lo` and `hi` are the least and the largest inverse weight. */
  ghost predicate BracketOf(w: seq<real>, lo: real, hi: real) {
    && AllBracketed(w, lo, hi)
    && (w != [] ==> 0.0 < lo <= hi && lo == LeastInverse(w) && hi == MostInverse(w))
  }

  method Weigh(w: seq<real>, yLo: real, yHi: real, wi: real) returns (w': seq<real>, lo: real, hi: real)
    requires BracketOf(w, yLo, yHi) && wi > 0.0
    ensures w' == w + [wi] && BracketOf(w', lo, hi)
  {
    var inv := Inverse(wi);
    InverseOf(wi, inv);
    InversesGrow(w, wi, inv);
    lo, hi := if w == [] || inv < yLo then inv else yLo, if w == [] || inv > yHi then inv else yHi;
    AllBracketedGrows(w, yLo, yHi, wi, inv, lo, hi);
    w' := w + [wi];
  }

  /** Each profile's part of the whole; without a whole, none has any. */
  ghost predicate Normalised(prior: seq<real>, shares: seq<real>, total: real) {
    if total > 0.0 then AreShares(prior, shares, total)
    else |shares| == |prior| && forall i :: 0 <= i < |shares| ==> shares[i] == 0.0
  }

  method ShareIn(total: real, ghost before: seq<real>, shares: seq<real>, p: real) returns (shares': seq<real>)
    requires Normalised(before, shares, total)
    ensures Normalised(before + [p], shares', total)
  {
    if total > 0.0 {
      var share := p / total;
      ShareOf(p, total, share);
      AreSharesSnoc(before, shares, total, p, share);
      shares' := shares + [share];
    } else {
      shares' := shares + [0.0];
    }
  }

  lemma {:induction false} NormalisedIsPrior(prior: seq<real>, shares: seq<real>)
    requires NonNegative(prior) && Sum(prior) > 0.0 && Normalised(prior, shares, Sum(prior))
    ensures IsPrior(shares)
  {
    SharesArePrior(prior, shares, Sum(prior));
  }

  /** `newAnchor`. With no profile there is no bracket. */
  method NewAnchor(k: real, profs: seq<Profile>, exp: real -> real) returns (a: Anchor)
    requires IsExp(exp) && NonNegative(PriorsOf(profs))
    ensures WeighedAt(a.w, k, profs, exp) && Normalised(PriorsOf(profs), a.prior, Sum(PriorsOf(profs)))
    ensures profs != [] ==> a.yLo == LeastInverse(a.w) && a.yHi == MostInverse(a.w)
    ensures profs != [] && Sum(PriorsOf(profs)) > 0.0 ==> Sound(a)
  {
    var total := TotalPrior(profs);
    var w, prior: seq<real> := [], [];
    var yLo, yHi := 0.0, 0.0;
    for i := 0 to |profs|
      invariant WeighedAt(w, k, profs[..i], exp) && Normalised(PriorsOf(profs)[..i], prior, total)
      invariant BracketOf(w, yLo, yHi)
    {
      w, yLo, yHi := Weigh(w, yLo, yHi, WeightAt(exp, k, profs[i]));
      assert PriorsOf(profs)[..i + 1] == PriorsOf(profs)[..i] + [profs[i].prior];
      prior := ShareIn(total, PriorsOf(profs)[..i], prior, profs[i].prior);
    }
    a := Anchor(prior, w, yLo, yHi);
    if total > 0.0 {
      NormalisedIsPrior(PriorsOf(profs), prior);
    }
  }

  lemma {:induction false} MeanStrict(prior: seq<real>, f: seq<real>, g: seq<real>)
    requires NonNegative(prior) && Sum(prior) > 0.0 && |prior| == |f| == |g|
    requires forall i :: 0 <= i < |f| ==> f[i] < g[i]
    ensures Mean(prior, f) < Mean(prior, g)
    decreases |prior|
  {
    var n := |prior| - 1;
    var p, f', g' := prior[..n], f[..n], g[..n];
    TermsInit(prior, f);
    TermsInit(prior, g);
    MeanMonotone(p, f', g');
    if prior[n] > 0.0 {
      TimesLess(prior[n], f[n], g[n]);
    } else {
      MeanStrict(p, f', g');
      TimesAtMost(prior[n], f[n], g[n]);
    }
  }

  lemma TermsInit(prior: seq<real>, f: seq<real>)
    requires |prior| == |f| && prior != []
    ensures var n := |prior| - 1; Terms(prior, f)[..n] == Terms(prior[..n], f[..n])
  {
    var n := |prior| - 1;
    forall i | 0 <= i < n ensures Terms(prior, f)[..n][i] == Terms(prior[..n], f[..n])[i] {
      assert prior[..n][i] == prior[i] && f[..n][i] == f[i];
    }
  }

  lemma TimesLess(p: real, x: real, y: real)
    requires p > 0.0 && x < y
    ensures p * x < p * y
  {
    assert p * y - p * x == p * (y - x);
  }
}
