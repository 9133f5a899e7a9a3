/** Values that rise together are positively associated: the mean of their product is at least
    the product of their means. */
module Association {
  import opened Anchor

  /** Two profiles never stand in opposite orders. */
  ghost predicate Together(f: seq<real>, g: seq<real>) {
    |f| == |g| && forall c, d :: 0 <= c < |f| && 0 <= d < |f| && f[c] < f[d] ==> g[c] <= g[d]
  }

  /** `g` is at most `t` wherever `f` is below `m`, and at least `t` elsewhere. */
  ghost predicate SplitsAt(f: seq<real>, g: seq<real>, m: real, t: real) {
    |f| == |g| && forall c :: 0 <= c < |f| ==> if f[c] < m then g[c] <= t else g[c] >= t
  }

  lemma {:induction false} Threshold(f: seq<real>, g: seq<real>, m: real) returns (t: real)
    requires Together(f, g)
    ensures SplitsAt(f, g, m, t)
    decreases |f|
  {
    if f == [] {
      t := 0.0;
    } else {
      var n := |f| - 1;
      var t' := Threshold(f[..n], g[..n], m);
      if f[n] < m {
        t := if g[n] > t' then g[n] else t';
      } else {
        t := if g[n] < t' then g[n] else t';
      }
      forall c | 0 <= c < n ensures if f[c] < m then g[c] <= t else g[c] >= t {
        assert f[..n][c] == f[c] && g[..n][c] == g[c];
      }
    }
  }

  function Pairwise(f: seq<real>, g: seq<real>): (s: seq<real>)
    requires |f| == |g|
    ensures |s| == |f| && forall c :: 0 <= c < |f| ==> s[c] == f[c] * g[c]
  {
    seq(|f|, c requires 0 <= c < |f| => f[c] * g[c])
  }

  /** One profile's share of the identity below. */
  lemma Expand(p: real, f: real, g: real, m: real, t: real, pf: real, pg: real, pfg: real)
    requires pf == p * f && pg == p * g && pfg == p * (f * g)
    requires p >= 0.0 && if f < m then g <= t else g >= t
    ensures Gap(m, t, pfg, pg, pf, p) >= 0.0
  {
    assert pfg - m * pg - t * (pf - m * p) == p * ((f - m) * (g - t));
    assert (f - m) * (g - t) >= 0.0;
  }

  /** `E[fg] - m E[g] - t (E[f] - m)`, for means over priors that add up to `s`. */
  function Gap(m: real, t: real, fg: real, g: real, f: real, s: real): real {
    fg - m * g - t * (f - m * s)
  }

  lemma GapAdds(m: real, t: real, fg: real, g: real, f: real, s: real, fg': real, g': real, f': real, s': real)
    ensures Gap(m, t, fg + fg', g + g', f + f', s + s') == Gap(m, t, fg, g, f, s) + Gap(m, t, fg', g', f', s')
  {
    assert m * (g + g') == m * g + m * g';
    assert m * (s + s') == m * s + m * s';
    assert t * ((f + f') - (m * s + m * s')) == t * (f - m * s) + t * (f' - m * s');
  }

  ghost function GapOf(prior: seq<real>, f: seq<real>, g: seq<real>, m: real, t: real): real
    requires |prior| == |f| == |g|
  {
    Gap(m, t, Mean(prior, Pairwise(f, g)), Mean(prior, g), Mean(prior, f), Sum(prior))
  }

  lemma MeanInit(prior: seq<real>, f: seq<real>, pf: real)
    requires |prior| == |f| && prior != [] && pf == prior[|prior| - 1] * f[|prior| - 1]
    ensures Mean(prior, f) == Mean(prior[..|prior| - 1], f[..|prior| - 1]) + pf
  {
    TermsInit(prior, f);
  }

  lemma PairwiseInit(f: seq<real>, g: seq<real>, n: nat)
    requires |f| == |g| && n <= |f|
    ensures Pairwise(f, g)[..n] == Pairwise(f[..n], g[..n])
  {
    forall c | 0 <= c < n ensures Pairwise(f, g)[c] == Pairwise(f[..n], g[..n])[c] {
      assert f[..n][c] == f[c] && g[..n][c] == g[c];
    }
  }

  lemma GapSnoc(prior: seq<real>, f: seq<real>, g: seq<real>, m: real, t: real, n: nat, pf: real, pg: real, pfg: real)
    requires |prior| == |f| == |g| == n + 1
    requires pf == prior[n] * f[n] && pg == prior[n] * g[n] && pfg == prior[n] * (f[n] * g[n])
    ensures GapOf(prior, f, g, m, t) == GapOf(prior[..n], f[..n], g[..n], m, t) + Gap(m, t, pfg, pg, pf, prior[n])
  {
    MeanInit(prior, f, pf);
    MeanInit(prior, g, pg);
    MeanInit(prior, Pairwise(f, g), pfg);
    PairwiseInit(f, g, n);
    GapAdds(m, t, Mean(prior[..n], Pairwise(f[..n], g[..n])), Mean(prior[..n], g[..n]), Mean(prior[..n], f[..n]), Sum(prior[..n]),
            pfg, pg, pf, prior[n]);
  }

  /** Every profile's share is non-negative, so their sum is. */
  lemma {:induction false} GapIsNonNegative(prior: seq<real>, f: seq<real>, g: seq<real>, m: real, t: real)
    requires NonNegative(prior) && |prior| == |f| && SplitsAt(f, g, m, t)
    ensures GapOf(prior, f, g, m, t) >= 0.0
    decreases |prior|
  {
    if prior != [] {
      var n := |prior| - 1;
      GapIsNonNegative(prior[..n], f[..n], g[..n], m, t);
      GapGrows(prior, f, g, m, t, n);
    }
  }

  lemma GapGrows(prior: seq<real>, f: seq<real>, g: seq<real>, m: real, t: real, n: nat)
    requires |prior| == |f| == |g| == n + 1 && prior[n] >= 0.0
    requires if f[n] < m then g[n] <= t else g[n] >= t
    requires GapOf(prior[..n], f[..n], g[..n], m, t) >= 0.0
    ensures GapOf(prior, f, g, m, t) >= 0.0
  {
    var pf, pg, pfg := OwnGap(prior[n], f[n], g[n], m, t);
    GapSnoc(prior, f, g, m, t, n, pf, pg, pfg);
  }

  lemma OwnGap(p: real, f: real, g: real, m: real, t: real) returns (pf: real, pg: real, pfg: real)
    requires p >= 0.0 && if f < m then g <= t else g >= t
    ensures pf == p * f && pg == p * g && pfg == p * (f * g) && Gap(m, t, pfg, pg, pf, p) >= 0.0
  {
    pf, pg, pfg := p * f, p * g, p * (f * g);
    Expand(p, f, g, m, t, pf, pg, pfg);
  }

  lemma GapAtMean(m: real, t: real, fg: real, g: real, f: real, s: real, mg: real)
    requires Gap(m, t, fg, g, f, s) >= 0.0 && f == m && s == 1.0 && mg == m * g
    ensures fg >= mg
  {
    var ms := m * s;
    WholeIs(s, m, s * m);
    assert ms == m;
    NoShare(t, f - ms, t * (f - ms));
    GapIs(m, t, fg, g, f, s, mg, ms, t * (f - ms));
  }

  lemma NoShare(t: real, spread: real, share: real)
    requires spread == 0.0 && share == t * spread
    ensures share == 0.0
  {
  }

  lemma GapIs(m: real, t: real, fg: real, g: real, f: real, s: real, mg: real, ms: real, share: real)
    requires mg == m * g && ms == m * s && share == t * (f - ms)
    ensures Gap(m, t, fg, g, f, s) == fg - mg - share
  {
  }

  /** Chebyshev's association inequality over the profiles. */
  lemma Associated(prior: seq<real>, f: seq<real>, g: seq<real>)
    requires IsPrior(prior) && |prior| == |f| && Together(f, g)
    ensures Mean(prior, Pairwise(f, g)) >= Mean(prior, f) * Mean(prior, g)
  {
    var m := Mean(prior, f);
    var t := Threshold(f, g, m);
    GapIsNonNegative(prior, f, g, m, t);
    GapAtMean(m, t, Mean(prior, Pairwise(f, g)), Mean(prior, g), m, Sum(prior), m * Mean(prior, g));
  }
}
