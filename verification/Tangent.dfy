/** Why the search takes Newton's steps: the excess is convex, so its tangent lies below it, and a
    step from the left of the root does not pass it. */
module Tangent {
  import opened Anchor
  import opened Newton
  import opened Solver

  lemma ProductNotNegative(a: real, b: real)
    requires a >= 0.0 && b >= 0.0
    ensures a * b >= 0.0
  {
  }

  /** One profile's probability lies above its tangent: what it adds to the slope is its own. */
  lemma ProbAboveTangent(w: real, x: real, x': real, q: real, q': real, slope: real)
    requires w > 0.0 && x > 0.0 && x' > 0.0 && q == ProbAt(w, x) && q' == ProbAt(w, x') && slope == w * q * q
    ensures q - slope * (x' - x) <= q'
  {
    var xw, xw', d, u := x * w, x' * w, x' - x, w * (x' - x);
    ProbAtIs(w, x, xw, q);
    ProbAtIs(w, x', xw', q');
    assert u == xw' - xw;
    AboveTangent(q, q', xw, xw', u);
    assert slope * d == q * q * u;
  }

  lemma AboveTangent(q: real, q': real, xw: real, xw': real, u: real)
    requires q * (1.0 + xw) == 1.0 && q' * (1.0 + xw') == 1.0 && u == xw' - xw && q > 0.0 && q' > 0.0
    ensures q - q * q * u <= q'
  {
    var qq, qu := q * q', q * u;
    assert q - q' == qq * u by {
      assert qq * (1.0 + xw) == q' * (q * (1.0 + xw)) == q';
      assert qq * (1.0 + xw') == q * (q' * (1.0 + xw')) == q;
    }
    assert q' - (q - q * q * u) == (q - q') * qu;
    assert (q - q') * qu == q' * (qu * qu);
    ProductNotNegative(q', qu * qu);
  }

  lemma ScaledTangent(p: real, q: real, q': real, slope: real, d: real)
    requires p >= 0.0 && q - slope * d <= q'
    ensures p * q - p * slope * d <= p * q'
  {
    ProductNotNegative(p, q' - (q - slope * d));
  }

  predicate Above(f: real, s: real, g: real, d: real) {
    f - s * d <= g
  }

  lemma {:induction false} SumAboveTangent(f: seq<real>, s: seq<real>, g: seq<real>, d: real)
    requires |f| == |s| == |g| && forall i :: 0 <= i < |f| ==> Above(f[i], s[i], g[i], d)
    ensures Sum(f) - Sum(s) * d <= Sum(g)
    decreases |f|
  {
    if f != [] {
      var n := |f| - 1;
      SumAboveTangent(f[..n], s[..n], g[..n], d);
      Distributes(Sum(s[..n]), s[n], d, Sum(s[..n]) * d, s[n] * d);
    }
  }

  /** The excess lies above its tangent at every point: its slope is minus the sum of the profiles'
      terms. */
  lemma ExcessAboveTangent(a: Anchor, p: real, x: real, x': real, slope: real, drop: real)
    requires |a.prior| == |a.w| && NonNegative(a.prior) && Positive(a.w) && x > 0.0 && x' > 0.0
    requires slope == Sum(SlopeTerms(a, x)) && drop == slope * (x' - x)
    ensures Excess(a, p, x) - drop <= Excess(a, p, x')
  {
    MeanAboveTangent(a, x, x', x' - x, Terms(a.prior, Probs(a.w, x)), SlopeTerms(a, x), Terms(a.prior, Probs(a.w, x')), drop);
  }

  lemma {:induction false} MeanAboveTangent(a: Anchor, x: real, x': real, d: real, f: seq<real>, s: seq<real>, g: seq<real>, drop: real)
    requires |a.prior| == |a.w| && NonNegative(a.prior) && Positive(a.w) && x > 0.0 && x' > 0.0 && d == x' - x
    requires f == Terms(a.prior, Probs(a.w, x)) && s == SlopeTerms(a, x) && g == Terms(a.prior, Probs(a.w, x'))
    requires drop == Sum(s) * d
    ensures Sum(f) - drop <= Sum(g)
  {
    forall i | 0 <= i < |f| ensures Above(f[i], s[i], g[i], d) {
      EachAboveTangent(a, x, x', d, f, s, g, i);
    }
    SumAboveTangent(f, s, g, d);
  }

  lemma EachAboveTangent(a: Anchor, x: real, x': real, d: real, f: seq<real>, s: seq<real>, g: seq<real>, i: nat)
    requires |a.prior| == |a.w| && NonNegative(a.prior) && Positive(a.w) && x > 0.0 && x' > 0.0 && d == x' - x
    requires f == Terms(a.prior, Probs(a.w, x)) && s == SlopeTerms(a, x) && g == Terms(a.prior, Probs(a.w, x'))
    requires i < |f|
    ensures Above(f[i], s[i], g[i], d)
  {
    TermAboveTangent(a.prior[i], a.w[i], x, x', d, ProbAt(a.w[i], x), ProbAt(a.w[i], x'), f[i], s[i], g[i]);
  }

  lemma TermAboveTangent(p: real, w: real, x: real, x': real, d: real, q: real, q': real, f: real, s: real, g: real)
    requires p >= 0.0 && w > 0.0 && x > 0.0 && x' > 0.0 && d == x' - x && q == ProbAt(w, x) && q' == ProbAt(w, x')
    requires f == p * q && s == SlopeTerm(p, w, q) && g == p * q'
    ensures Above(f, s, g, d)
  {
    var slope := w * q * q;
    ProbAboveTangent(w, x, x', q, q', slope);
    ScaledSlope(p, w, q, q', slope, d, f, s, g);
  }

  lemma ScaledSlope(p: real, w: real, q: real, q': real, slope: real, d: real, f: real, s: real, g: real)
    requires p >= 0.0 && slope == w * q * q && q - slope * d <= q'
    requires f == p * q && s == SlopeTerm(p, w, q) && g == p * q'
    ensures Above(f, s, g, d)
  {
    SlopeIs(p, w, q, slope, s);
    ScaledTangent(p, q, q', slope, d);
  }

  lemma SlopeIs(p: real, w: real, q: real, slope: real, s: real)
    requires slope == w * q * q && s == SlopeTerm(p, w, q)
    ensures s == p * slope
  {
  }

  lemma NewtonPointIs(x: real, f: real, df: real, next: real)
    requires df < 0.0 && next == NewtonPoint(x, f, df)
    ensures f + df * (next - x) == 0.0
  {
    var t := f / df;
    assert t * df == f;
  }

  /** Newton's step goes to where the tangent vanishes, and there the excess is not negative yet: a
      step never passes the root from the left. */
  lemma NewtonStaysLeft(a: Anchor, p: real, x: real, next: real)
    requires |a.prior| == |a.w| && NonNegative(a.prior) && Positive(a.w) && x > 0.0 && next > 0.0
    requires EquationOf(a, p).falls(x) && next == EquationOf(a, p).newton(x)
    ensures Excess(a, p, next) >= 0.0
  {
    var f, slope := Excess(a, p, x), Sum(SlopeTerms(a, x));
    var drop := slope * (next - x);
    NewtonPointIs(x, f, -slope, next);
    assert drop == f by {
      assert -slope * (next - x) == -drop;
    }
    ExcessAboveTangent(a, p, x, next, slope, drop);
  }

  /** So from the left of the root the search climbs by Newton's steps, as long as they lead into the
      bracket, and stays to the left. */
  lemma SearchClimbs(a: Anchor, p: real, s: Iterate)
    requires |a.prior| == |a.w| && NonNegative(a.prior) && Positive(a.w) && Usable(s) && Excess(a, p, s.x) > 0.0
    requires EquationOf(a, p).falls(s.x) && s.x < EquationOf(a, p).newton(s.x) < s.hi
    ensures var t := Step(EquationOf(a, p), s);
      t.x == EquationOf(a, p).newton(s.x) && t.lo == s.x < t.x && t.hi == s.hi && Excess(a, p, t.x) >= 0.0
  {
    NewtonStaysLeft(a, p, s.x, EquationOf(a, p).newton(s.x));
  }
}
