/** The score of a route changes by no more than its hops do, added up. */
module Tolerance {
  import Chain

  // ── A score moves no more than its hops ────────────────────────────

  ghost predicate Unit(s: seq<real>) {
    forall i :: 0 <= i < |s| ==> 0.0 <= s[i] <= 1.0
  }

  /** No more than `t` below. */
  ghost predicate Close(a: seq<real>, b: seq<real>, t: real) {
    |a| == |b| && forall i :: 0 <= i < |a| ==> b[i] - t <= a[i]
  }

  lemma OneFactorMoves(x: real, y: real, u: real, v: real, d: real, t: real)
    requires 0.0 <= x <= 1.0 && 0.0 <= y <= 1.0 && 0.0 <= u <= 1.0 && 0.0 <= v <= 1.0 && d >= 0.0 && t >= 0.0
    requires y - d <= x && v - t <= u
    ensures y * v - (d + t) <= x * u
  {
    assert x * u - y * v == (x - y) * u + y * (u - v);
    assert (x - y + d) * u >= 0.0 && y * (u - v + t) >= 0.0;
    assert d * u <= d && y * t <= t;
  }

  /** `n` times `t`. */
  function Total(n: nat, t: real): real {
    if n == 0 then 0.0 else Total(n - 1, t) + t
  }

  lemma {:induction false} TotalIs(n: nat, t: real)
    ensures Total(n, t) == n as real * t
  {
    if n > 0 {
      TotalIs(n - 1, t);
      assert (n - 1) as real * t + t == n as real * t;
    }
  }

  lemma {:induction false} TotalGrows(m: nat, n: nat, t: real)
    requires m <= n && t >= 0.0
    ensures 0.0 <= Total(m, t) <= Total(n, t)
    decreases n
  {
    if m < n {
      TotalGrows(m, n - 1, t);
    } else if m > 0 {
      TotalGrows(m - 1, m - 1, t);
    }
  }

  lemma {:induction false} ProductMoves(a: seq<real>, b: seq<real>, t: real)
    requires Unit(a) && Unit(b) && Close(a, b, t) && t >= 0.0
    ensures Chain.Mul(b) - Total(|a|, t) <= Chain.Mul(a)
    ensures 0.0 <= Chain.Mul(a) <= 1.0 && 0.0 <= Chain.Mul(b) <= 1.0
    decreases |a|
  {
    if a != [] {
      var n := |a| - 1;
      ProductMoves(a[..n], b[..n], t);
      TotalGrows(n, n, t);
      Chain.MulAtMostOne(a);
      Chain.MulAtMostOne(b);
      OneFactorMoves(Chain.Mul(a[..n]), Chain.Mul(b[..n]), a[n], b[n], Total(n, t), t);
    }
  }

  /** The same route, each hop of `a` no more than `t` below `b`'s. */
  ghost predicate CloseHops(a: seq<Chain.Hop>, b: seq<Chain.Hop>, t: real) {
    |a| == |b| && forall i :: 0 <= i < |a| ==> a[i].cause == b[i].cause && b[i].p - t <= a[i].p
  }

  lemma {:induction false} GroupMoves(a: seq<Chain.Hop>, b: seq<Chain.Hop>, c: string, t: real)
    requires CloseHops(a, b, t)
    ensures Close(Chain.Group(a, c), Chain.Group(b, c), t)
    decreases |a|
  {
    if a != [] {
      GroupMoves(a[..|a| - 1], b[..|b| - 1], c, t);
    }
  }

  lemma LeastMoves(a: seq<Chain.Hop>, b: seq<Chain.Hop>, c: string, t: real)
    requires CloseHops(a, b, t) && t >= 0.0
    ensures Chain.Least(b, c) - t <= Chain.Least(a, c)
  {
    GroupMoves(a, b, c, t);
    var ga, gb := Chain.Group(a, c), Chain.Group(b, c);
    if ga != [] {
      var i :| 0 <= i < |ga| && ga[i] == Chain.MinOf(ga);
      assert gb[i] in gb;
    }
  }

  lemma {:induction false} CausesAlike(a: seq<Chain.Hop>, b: seq<Chain.Hop>)
    requires |a| == |b| && forall i :: 0 <= i < |a| ==> a[i].cause == b[i].cause
    ensures Chain.CausesOf(a) == Chain.CausesOf(b)
    decreases |a|
  {
    if a != [] {
      CausesAlike(a[..|a| - 1], b[..|b| - 1]);
    }
  }

  /** A route has no more factors than hops. */
  lemma {:induction false} FewFactors(hs: seq<Chain.Hop>)
    ensures |Chain.Group(hs, "")| + |Chain.CausesOf(hs)| <= |hs|
    decreases |hs|
  {
    if hs != [] {
      FewFactors(hs[..|hs| - 1]);
    }
  }

  lemma FactorsMove(a: seq<Chain.Hop>, b: seq<Chain.Hop>, t: real)
    requires CloseHops(a, b, t) && t >= 0.0
    ensures Close(Chain.Factors(a), Chain.Factors(b), t)
  {
    GroupMoves(a, b, "", t);
    CausesAlike(a, b);
    var cs := Chain.CausesOf(a);
    forall i | 0 <= i < |cs| ensures Chain.Weakest(b, cs)[i] - t <= Chain.Weakest(a, cs)[i] {
      LeastMoves(a, b, cs[i], t);
    }
  }

  lemma {:induction false} ScoreMoves(a: seq<Chain.Hop>, b: seq<Chain.Hop>, t: real)
    requires Chain.UnitHops(a) && Chain.UnitHops(b) && CloseHops(a, b, t) && t >= 0.0
    ensures Chain.Score(b) - Total(|a|, t) <= Chain.Score(a)
  {
    var fa, fb := Chain.Factors(a), Chain.Factors(b);
    FactorsMove(a, b, t);
    Chain.FactorsUnit(a);
    Chain.FactorsUnit(b);
    FewFactors(a);
    ProductMoves(fa, fb, t);
    TotalGrows(|fa|, |a|, t);
  }
}
