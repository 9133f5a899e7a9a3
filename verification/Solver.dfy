/** The safeguarded Newton search for the one shift that makes the profiles average back to an
    edge's probability. */
module Solver {
  import opened Anchor
  import opened Newton

  const PROB_CLAMP: real := 0.000001

  function Clamped(p: real): (q: real)
    ensures PROB_CLAMP <= q <= 1.0 - PROB_CLAMP
    ensures PROB_CLAMP <= p <= 1.0 - PROB_CLAMP <==> q == p
  {
    var q := if p > PROB_CLAMP then p else PROB_CLAMP;
    if q < 1.0 - PROB_CLAMP then q else 1.0 - PROB_CLAMP
  }

  /** The clamp: an edge at 0 or 1 is kept one millionth inside. */
  lemma ClampIs(p: real)
    ensures Clamped(p) == if p < 0.000001 then 0.000001 else if p > 0.999999 then 0.999999 else p
  {
  }

  ghost predicate Positive(w: seq<real>) {
    forall c :: 0 <= c < |w| ==> w[c] > 0.0
  }

  /** One profile's probability at `x`. */
  function ProbAt(w: real, x: real): real
    requires w > 0.0 && x > 0.0
  {
    assert x * w > 0.0;
    1.0 / (1.0 + x * w)
  }

  lemma ProbAtIs(w: real, x: real, xw: real, q: real)
    requires w > 0.0 && x > 0.0 && xw == x * w && q == ProbAt(w, x)
    ensures xw > 0.0 && 0.0 < q < 1.0 && q * (1.0 + xw) == 1.0
  {
  }

  function Probs(w: seq<real>, x: real): (q: seq<real>)
    requires Positive(w) && x > 0.0
    ensures |q| == |w| && forall c :: 0 <= c < |w| ==> q[c] == ProbAt(w[c], x)
  {
    seq(|w|, c requires 0 <= c < |w| => ProbAt(w[c], x))
  }

  /** How far the profiles' average lies above `p` at `x`. */
  function Excess(a: Anchor, p: real, x: real): real
    requires |a.prior| == |a.w| && Positive(a.w) && x > 0.0
  {
    Mean(a.prior, Probs(a.w, x)) - p
  }

  /** A larger `x` lowers every profile, and so does a larger weight. */
  lemma ProbFalls(w: real, x: real, w': real, x': real)
    requires 0.0 < w <= w' && 0.0 < x <= x'
    ensures ProbAt(w', x') <= ProbAt(w, x)
    ensures w == w' && x < x' ==> ProbAt(w', x') < ProbAt(w, x)
  {
    var xw, xw' := x * w, x' * w';
    LargerProduct(w, x, w', x', xw, xw');
    ProbAtIs(w, x, xw, ProbAt(w, x));
    ProbAtIs(w', x', xw', ProbAt(w', x'));
    LargerFraction(1.0 + xw, 1.0 + xw', ProbAt(w, x), ProbAt(w', x'));
  }

  lemma LargerProduct(w: real, x: real, w': real, x': real, xw: real, xw': real)
    requires 0.0 < w <= w' && 0.0 < x <= x' && xw == x * w && xw' == x' * w'
    ensures 0.0 < xw <= xw' && (w == w' && x < x' ==> xw < xw')
  {
    assert xw' - xw == x' * (w' - w) + (x' - x) * w;
  }

  lemma LargerFraction(d: real, d': real, q: real, q': real)
    requires 0.0 < d <= d' && q * d == 1.0 && q' * d' == 1.0 && q > 0.0 && q' > 0.0
    ensures q' <= q && (d < d' ==> q' < q)
  {
    assert (q - q') * d == q' * (d' - d);
  }

  /** The excess falls strictly, so it vanishes at most once. */
  lemma ExcessFalls(a: Anchor, p: real, x: real, x': real)
    requires |a.prior| == |a.w| && Positive(a.w) && IsPrior(a.prior) && 0.0 < x < x'
    ensures Excess(a, p, x') < Excess(a, p, x)
  {
    forall c | 0 <= c < |a.w| ensures Probs(a.w, x')[c] < Probs(a.w, x)[c] {
      ProbFalls(a.w[c], x, a.w[c], x');
    }
    MeanStrict(a.prior, Probs(a.w, x'), Probs(a.w, x));
  }

  // ── The equation ───────────────────────────────────────────────────

  /** One profile's term of the slope. */
  function SlopeTerm(prior: real, w: real, q: real): real {
    prior * w * q * q
  }

  function SlopeTerms(a: Anchor, x: real): (s: seq<real>)
    requires |a.prior| == |a.w| && Positive(a.w) && x > 0.0
    ensures |s| == |a.w| && forall c :: 0 <= c < |s| ==> s[c] == SlopeTerm(a.prior[c], a.w[c], ProbAt(a.w[c], x))
  {
    seq(|a.w|, c requires 0 <= c < |a.w| => SlopeTerm(a.prior[c], a.w[c], ProbAt(a.w[c], x)))
  }

  function NewtonPoint(x: real, f: real, df: real): real {
    if df < 0.0 then x - f / df else x
  }

  /** The equation the anchor solves for an edge of probability `p`. */
  function EquationOf(a: Anchor, p: real): Equation
    requires |a.prior| == |a.w| && Positive(a.w)
  {
    Equation(x => if x > 0.0 then Excess(a, p, x) else 0.0,
             x => x > 0.0 && -Sum(SlopeTerms(a, x)) < 0.0,
             x => if x > 0.0 then NewtonPoint(x, Excess(a, p, x), -Sum(SlopeTerms(a, x))) else 0.0)
  }

  function Odds(p: real): (r: real)
    requires PROB_CLAMP <= p <= 1.0 - PROB_CLAMP
    ensures r > 0.0
  {
    (1.0 - p) / p
  }

  lemma OddsAre(p: real, r: real)
    requires PROB_CLAMP <= p <= 1.0 - PROB_CLAMP && r == Odds(p)
    ensures p * (1.0 + r) == 1.0
  {
    assert r * p == 1.0 - p;
  }

  lemma ScaledBracket(r: real, yLo: real, yHi: real, lo: real, hi: real)
    requires r > 0.0 && 0.0 < yLo <= yHi && lo == r * yLo && hi == r * yHi
    ensures 0.0 < lo <= hi
  {
    TimesAtMost(r, yLo, yHi);
  }

  /** At an end of the bracket every profile lies on one side of `p`. */
  lemma EndProb(p: real, r: real, y: real, w: real, x: real)
    requires 0.0 < p < 1.0 && r > 0.0 && p * (1.0 + r) == 1.0 && y > 0.0 && w > 0.0 && x == r * y
    ensures x > 0.0
    ensures y * w <= 1.0 ==> ProbAt(w, x) >= p
    ensures y * w >= 1.0 ==> ProbAt(w, x) <= p
  {
    assert x > 0.0;
    var xw := x * w;
    assert xw == r * (y * w);
    ProbAtIs(w, x, xw, ProbAt(w, x));
    if y * w <= 1.0 {
      TimesAtMost(r, y * w, 1.0);
      LargerFraction(1.0 + xw, 1.0 + r, ProbAt(w, x), p);
    }
    if y * w >= 1.0 {
      TimesAtMost(r, 1.0, y * w);
      LargerFraction(1.0 + r, 1.0 + xw, p, ProbAt(w, x));
    }
  }

  lemma SoundIsPositive(a: Anchor)
    requires Sound(a)
    ensures Positive(a.w)
  {
    forall c | 0 <= c < |a.w| ensures a.w[c] > 0.0 {
      assert Brackets(a.w[c], a.yLo, a.yHi);
    }
  }

  lemma EndsBracket(a: Anchor, p: real, r: real, lo: real, hi: real)
    requires Sound(a) && Positive(a.w) && 0.0 < p < 1.0 && r > 0.0 && p * (1.0 + r) == 1.0
    requires lo == r * a.yLo > 0.0 && hi == r * a.yHi > 0.0
    ensures Excess(a, p, lo) >= 0.0 >= Excess(a, p, hi)
  {
    forall c | 0 <= c < |a.w| ensures ProbAt(a.w[c], lo) >= p >= ProbAt(a.w[c], hi) {
      assert Brackets(a.w[c], a.yLo, a.yHi);
      EndProb(p, r, a.yLo, a.w[c], lo);
      EndProb(p, r, a.yHi, a.w[c], hi);
    }
    MeanAtLeast(a.prior, Probs(a.w, lo), p);
    MeanAtMost(a.prior, Probs(a.w, hi), p);
  }

  /** The initial bracket, for the odds `r` against the edge, holds the root. */
  lemma BeginsBracketing(a: Anchor, p: real, r: real, lo: real, hi: real, hint: real, mid: (real, real) -> real)
    requires Sound(a) && PROB_CLAMP <= p <= 1.0 - PROB_CLAMP && r == Odds(p) && IsMiddle(mid)
    requires lo == r * a.yLo && hi == r * a.yHi
    ensures Positive(a.w) && Bracketing(EquationOf(a, p), BeginIn(lo, hi, hint, mid))
  {
    OddsAre(p, r);
    SoundIsPositive(a);
    ScaledBracket(r, a.yLo, a.yHi, lo, hi);
    EndsBracket(a, p, r, lo, hi);
    BeginsInside(lo, hi, hint, mid);
  }

  // ── How near the profiles average to the edge ──────────────────────

  /** Over a narrow bracket a profile's probability hardly changes. */
  lemma NarrowProb(w: real, lo: real, hi: real)
    requires w > 0.0 && 0.0 < lo <= hi && hi - lo <= 0.000000000000001 * hi
    ensures ProbAt(w, lo) <= ProbAt(w, hi) + 0.000000000000001
  {
    var q, q', low, high := ProbAt(w, lo), ProbAt(w, hi), lo * w, hi * w;
    ProbAtIs(w, lo, low, q);
    ProbAtIs(w, hi, high, q');
    NarrowProduct(w, lo, hi, low, high);
    NarrowFraction(q, q', low, high);
  }

  lemma NarrowProduct(w: real, lo: real, hi: real, low: real, high: real)
    requires w > 0.0 && 0.0 < lo <= hi && hi - lo <= 0.000000000000001 * hi && low == lo * w && high == hi * w
    ensures 0.0 < low <= high && high - low <= 0.000000000000001 * high
  {
    TimesAtMost(w, hi - lo, 0.000000000000001 * hi);
    TimesAtMost(w, lo, hi);
    assert w * (hi - lo) == high - low && w * (0.000000000000001 * hi) == 0.000000000000001 * high;
  }

  lemma NarrowFraction(q: real, q': real, low: real, high: real)
    requires 0.0 < q < 1.0 && 0.0 < q' < 1.0 && 0.0 < low <= high && high - low <= 0.000000000000001 * high
    requires q * (1.0 + low) == 1.0 && q' * (1.0 + high) == 1.0
    ensures q <= q' + 0.000000000000001
  {
    var qq, x, y, d := q * q', q' * high, 0.000000000000001 * high, high - low;
    var qd, qy, qx := qq * d, qq * y, q * x;
    assert x == 1.0 - q';
    GapOfFractions(q, q', low, high, qq, d, qd);
    Reassociate(q, q', high, qq, x, y, qx, qy);
    assert qq > 0.0;
    TimesAtMost(qq, d, y);
    TimesAtMost(q, x, 1.0);
  }

  lemma Reassociate(q: real, q': real, high: real, qq: real, x: real, y: real, qx: real, qy: real)
    requires qq == q * q' && x == q' * high && y == 0.000000000000001 * high && qx == q * x && qy == qq * y
    ensures qy == 0.000000000000001 * qx
  {
    assert qq * high == q * x;
  }

  lemma GapOfFractions(q: real, q': real, low: real, high: real, qq: real, d: real, qd: real)
    requires q * (1.0 + low) == 1.0 && q' * (1.0 + high) == 1.0 && qq == q * q' && d == high - low && qd == qq * d
    ensures q - q' == qd
  {
    assert qq * (1.0 + low) == q' * (q * (1.0 + low)) == q';
    assert qq * (1.0 + high) == q * (q' * (1.0 + high)) == q;
    assert qq * (1.0 + high) - qq * (1.0 + low) == qq * d;
  }

  /** The profiles average back to `p`, to within a ten-million-millionth. */
  ghost predicate AveragesNear(prior: seq<real>, col: seq<real>, p: real)
    requires |prior| == |col|
  {
    -0.0000000000001 < Mean(prior, col) - p < 0.0000000000001
  }

  /** However the search solved its equation, by its residual or by its bracket. */
  lemma SolvedIsNear(a: Anchor, p: real, x: real)
    requires |a.prior| == |a.w| && IsPrior(a.prior) && Positive(a.w) && x > 0.0 && SolvedAt(EquationOf(a, p), x)
    ensures AveragesNear(a.prior, Probs(a.w, x), p)
  {
    if lo, hi :| Pinched(EquationOf(a, p), lo, x, hi) {
      PinchedIsNear(a, p, lo, x, hi);
    }
  }

  lemma PinchedIsNear(a: Anchor, p: real, lo: real, x: real, hi: real)
    requires |a.prior| == |a.w| && IsPrior(a.prior) && Positive(a.w) && Pinched(EquationOf(a, p), lo, x, hi)
    ensures AveragesNear(a.prior, Probs(a.w, x), p)
  {
    forall c | 0 <= c < |a.w| ensures Probs(a.w, lo)[c] <= Probs(a.w, hi)[c] + 0.000000000000001 {
      NarrowProb(a.w[c], lo, hi);
    }
    MeanWithin(a.prior, Probs(a.w, lo), Probs(a.w, hi), 0.000000000000001);
    if lo < x {
      ExcessFalls(a, p, lo, x);
    }
    if x < hi {
      ExcessFalls(a, p, x, hi);
    }
  }

  /** One evaluation: the profiles' probabilities at `x`, the excess and its slope. */
  method Evaluate(a: Anchor, p: real, x: real, out: array<real>) returns (f: real, df: real)
    requires |a.prior| == |a.w| == out.Length && Positive(a.w) && x > 0.0
    modifies out
    ensures out[..] == Probs(a.w, x)
    ensures f == Excess(a, p, x) && df == -Sum(SlopeTerms(a, x))
  {
    f, df := -p, 0.0;
    ghost var probs, means, slopes := Probs(a.w, x), Terms(a.prior, Probs(a.w, x)), SlopeTerms(a, x);
    for c := 0 to |a.w|
      invariant forall d :: 0 <= d < c ==> out[d] == probs[d]
      invariant f == Sum(means[..c]) - p && df == -Sum(slopes[..c])
    {
      var q, mean, slope := EvaluateProfile(a, x, c, probs, means, slopes);
      out[c] := q;
      f, df := f + mean, df - slope;
    }
    SumWhole(means);
    SumWhole(slopes);
  }

  /** One profile's probability, and what it adds to the average and to the slope. */
  method EvaluateProfile(a: Anchor, x: real, c: nat, ghost probs: seq<real>, ghost means: seq<real>, ghost slopes: seq<real>) returns (q: real, mean: real, slope: real)
    requires |a.prior| == |a.w| && Positive(a.w) && x > 0.0 && c < |a.w|
    requires probs == Probs(a.w, x) && means == Terms(a.prior, probs) && slopes == SlopeTerms(a, x)
    ensures q == probs[c]
    ensures Sum(means[..c + 1]) == Sum(means[..c]) + mean && Sum(slopes[..c + 1]) == Sum(slopes[..c]) + slope
  {
    q := ProbAt(a.w[c], x);
    mean, slope := a.prior[c] * q, SlopeTerm(a.prior[c], a.w[c], q);
    EvaluateStep(a, x, c, q, mean, slope, means, slopes);
  }

  lemma EvaluateStep(a: Anchor, x: real, c: nat, q: real, mean: real, slope: real, means: seq<real>, slopes: seq<real>)
    requires |a.prior| == |a.w| && Positive(a.w) && x > 0.0 && c < |a.w| && q == ProbAt(a.w[c], x)
    requires mean == a.prior[c] * q && slope == SlopeTerm(a.prior[c], a.w[c], q)
    requires means == Terms(a.prior, Probs(a.w, x)) && slopes == SlopeTerms(a, x)
    ensures Sum(means[..c + 1]) == Sum(means[..c]) + mean && Sum(slopes[..c + 1]) == Sum(slopes[..c]) + slope
  {
    SumSnoc(means, c, mean);
    SumSnoc(slopes, c, slope);
  }

  lemma SumSnoc(s: seq<real>, c: nat, x: real)
    requires c < |s| && s[c] == x
    ensures Sum(s[..c + 1]) == Sum(s[..c]) + x
  {
    assert s[..c + 1][..c] == s[..c];
  }

  lemma {:induction false} SumWhole(s: seq<real>)
    ensures Sum(s[..|s|]) == Sum(s)
  {
    assert s[..|s|] == s;
  }

  /** One round: evaluate, and stop or take the next iterate. */
  method Round(a: Anchor, p: real, ghost eq: Equation, s: Iterate, i: nat, out: array<real>) returns (stop: bool, t: Iterate)
    requires |a.prior| == |a.w| == out.Length && Positive(a.w) && eq == EquationOf(a, p) && Usable(s)
    modifies out
    ensures out[..] == Probs(a.w, s.x)
    ensures stop <==> Stops(eq, s, i) || Step(eq, s).x == s.x
    ensures !stop ==> t == Step(eq, s)
  {
    var f, df := Evaluate(a, p, s.x, out);
    assert f == eq.excess(s.x) && (df < 0.0 <==> eq.falls(s.x)) && NewtonPoint(s.x, f, df) == eq.newton(s.x);
    t := s;
    if Abs(f) < RESIDUAL || s.hi - s.lo <= WIDTH * s.hi || i >= LAST {
      return true, s;
    }
    var lo, hi := if f > 0.0 then s.x else s.lo, if f > 0.0 then s.hi else s.x;
    var next := Next(df < 0.0, NewtonPoint(s.x, f, df), lo, hi);
    stop, t := next == s.x, Iterate(lo, hi, next);
  }

  /** One round in the search: it stops at `s`, or goes on to where the search goes. */
  method Advance(a: Anchor, p: real, ghost eq: Equation, s: Iterate, i: nat, out: array<real>) returns (stop: bool, t: Iterate)
    requires |a.prior| == |a.w| == out.Length && Positive(a.w) && eq == EquationOf(a, p) && Usable(s)
    modifies out
    ensures stop ==> Search(eq, s, i) == s.x && out[..] == Probs(a.w, s.x) && Evaluations(eq, s, i) == 1
    ensures !stop ==> i < LAST && Usable(t) && Search(eq, s, i) == Search(eq, t, i + 1)
    ensures !stop ==> Evaluations(eq, s, i) == 1 + Evaluations(eq, t, i + 1)
  {
    stop, t := Round(a, p, eq, s, i, out);
    SearchTurns(eq, s, i);
  }

  /** The rounds, counted. */
  method FindRoot(a: Anchor, p: real, ghost eq: Equation, begun: Iterate, out: array<real>) returns (x: real, ghost evals: nat)
    requires |a.prior| == |a.w| == out.Length && Positive(a.w) && eq == EquationOf(a, p) && Usable(begun)
    modifies out
    ensures x == Search(eq, begun, 0) && x > 0.0 && out[..] == Probs(a.w, x) && evals == Evaluations(eq, begun, 0)
  {
    var s, i := begun, 0;
    while true
      invariant Usable(s) && i <= LAST && Search(eq, s, i) == Search(eq, begun, 0)
      invariant i + Evaluations(eq, s, i) == Evaluations(eq, begun, 0)
      decreases LAST - i
    {
      var stop, t := Advance(a, p, eq, s, i, out);
      if stop {
        return s.x, i + 1;
      }
      s, i := t, i + 1;
    }
  }

  /** `x` is what the search stops at. */
  ghost predicate Solves(a: Anchor, p: real, r: real, y0: real, mid: (real, real) -> real, x: real) {
    var begun := BeginIn(r * a.yLo, r * a.yHi, r * y0, mid);
    |a.prior| == |a.w| && Positive(a.w) && Usable(begun) && x == Search(EquationOf(a, p), begun, 0)
  }

  /** `evals` is how often the search evaluates its equation. */
  ghost predicate Takes(a: Anchor, p: real, r: real, y0: real, mid: (real, real) -> real, evals: nat) {
    var begun := BeginIn(r * a.yLo, r * a.yHi, r * y0, mid);
    |a.prior| == |a.w| && Positive(a.w) && Usable(begun) && evals == Evaluations(EquationOf(a, p), begun, 0)
  }

  lemma TakesOnce(a: Anchor, p: real, r: real, y0: real, mid: (real, real) -> real, m: nat, n: nat)
    requires Takes(a, p, r, y0, mid, m) && Takes(a, p, r, y0, mid, n)
    ensures m == n
  {
  }

  /** `anchor.probs`: the profiles' probabilities written to `out`, and the solution's `y`. They
      average back to the clamped probability whenever the search ends before its 61st
      evaluation, which is its last. */
  method AnchoredProbs(a: Anchor, p0: real, y0: real, mid: (real, real) -> real, out: array<real>) returns (y: real, ghost x: real, ghost evals: nat)
    requires (a.w == [] || Sound(a)) && IsMiddle(mid) && out.Length == |a.w|
    modifies out
    ensures a.w == [] ==> y == 1.0
    ensures a.w != [] ==>
      var r := Odds(Clamped(p0));
      x > 0.0 && Solves(a, Clamped(p0), r, y0, mid, x) && Takes(a, Clamped(p0), r, y0, mid, evals) && y == x / r
    ensures a.w != [] ==> Positive(a.w) && out[..] == Probs(a.w, x)
    ensures a.w != [] ==> evals <= 61 && (evals < 61 ==> AveragesNear(a.prior, out[..], Clamped(p0)))
  {
    x, evals := 1.0, 0;
    if |a.w| == 0 {
      return 1.0, 1.0, 0;
    }
    var p := Clamped(p0);
    var r := Odds(p);
    var lo, hi, hint := r * a.yLo, r * a.yHi, r * y0;
    SoundIsPositive(a);
    BeginsBracketing(a, p, r, lo, hi, hint, mid);
    var at;
    at, evals := FindRoot(a, p, EquationOf(a, p), BeginIn(lo, hi, hint, mid), out);
    Solved(a, p, r, y0, mid, lo, hi, hint, BeginIn(lo, hi, hint, mid), at, evals);
    SearchedNear(a, p, BeginIn(lo, hi, hint, mid), at, evals);
    y, x := at / r, at;
  }

  lemma {:induction false} SearchedNear(a: Anchor, p: real, begun: Iterate, x: real, evals: nat)
    requires |a.prior| == |a.w| && IsPrior(a.prior) && Positive(a.w) && Bracketing(EquationOf(a, p), begun)
    requires x == Search(EquationOf(a, p), begun, 0) && evals == Evaluations(EquationOf(a, p), begun, 0)
    ensures x > 0.0 && evals <= 61 && (evals < 61 ==> AveragesNear(a.prior, Probs(a.w, x), p))
  {
    SearchSolves(EquationOf(a, p), begun, 0);
    if evals < 61 {
      SolvedIsNear(a, p, x);
    }
  }

  lemma {:induction false} Solved(a: Anchor, p: real, r: real, y0: real, mid: (real, real) -> real, lo: real, hi: real, hint: real, begun: Iterate, x: real, evals: nat)
    requires lo == r * a.yLo && hi == r * a.yHi && hint == r * y0
    requires |a.prior| == |a.w| && Positive(a.w)
    requires begun == BeginIn(lo, hi, hint, mid) && Usable(begun) && x == Search(EquationOf(a, p), begun, 0)
    requires evals == Evaluations(EquationOf(a, p), begun, 0)
    ensures Solves(a, p, r, y0, mid, x) && Takes(a, p, r, y0, mid, evals)
  {
    assert begun == BeginIn(r * a.yLo, r * a.yHi, r * y0, mid);
  }
}
