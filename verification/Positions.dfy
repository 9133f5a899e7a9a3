/** The factors of a route's score, named by the positions of the hops they come from. */
module Positions {
  import Chain

  /** The values at the positions `pick`. */
  function Take(v: seq<real>, pick: seq<nat>): (s: seq<real>)
    requires forall t :: 0 <= t < |pick| ==> pick[t] < |v|
    ensures |s| == |pick| && forall t :: 0 <= t < |pick| ==> s[t] == v[pick[t]]
  {
    seq(|pick|, t requires 0 <= t < |pick| => v[pick[t]])
  }

  /** The positions of the hops resting on `c`. */
  function PlacesOf(causes: seq<string>, c: string): (pick: seq<nat>)
    ensures forall t :: 0 <= t < |pick| ==> pick[t] < |causes|
  {
    if causes == [] then []
    else
      var n := |causes| - 1;
      PlacesOf(causes[..n], c) + if causes[n] == c then [n] else []
  }

  lemma HopsInit(causes: seq<string>, v: seq<real>)
    requires |causes| == |v| && v != []
    ensures var n := |v| - 1; Chain.Hops(causes, v)[..n] == Chain.Hops(causes[..n], v[..n])
  {
  }

  lemma {:induction false} GroupByPosition(causes: seq<string>, v: seq<real>, c: string)
    requires |causes| == |v|
    ensures Chain.Group(Chain.Hops(causes, v), c) == Take(v, PlacesOf(causes, c))
    decreases |v|
  {
    if v != [] {
      var n := |v| - 1;
      HopsInit(causes, v);
      GroupByPosition(causes[..n], v[..n], c);
      assert Take(v[..n], PlacesOf(causes[..n], c)) == Take(v, PlacesOf(causes[..n], c));
    }
  }

  /** Which causes there are does not depend on the probabilities. */
  lemma {:induction false} CausesByName(causes: seq<string>, v: seq<real>, v': seq<real>)
    requires |causes| == |v| == |v'|
    ensures Chain.CausesOf(Chain.Hops(causes, v)) == Chain.CausesOf(Chain.Hops(causes, v'))
    decreases |v|
  {
    if v != [] {
      var n := |v| - 1;
      HopsInit(causes, v);
      HopsInit(causes, v');
      CausesByName(causes[..n], v[..n], v'[..n]);
    }
  }

  /** Position `i` holds the weakest of the values whose hops rest on its cause. */
  ghost predicate WeakestAt(causes: seq<string>, v: seq<real>, i: nat) {
    |causes| == |v| && i < |v| && forall k :: 0 <= k < |v| && causes[k] == causes[i] ==> v[i] <= v[k]
  }

  lemma LeastByPosition(causes: seq<string>, v: seq<real>, i: nat)
    requires WeakestAt(causes, v, i)
    ensures Chain.Least(Chain.Hops(causes, v), causes[i]) == v[i]
  {
    var hs := Chain.Hops(causes, v);
    assert hs[i] in hs;
    Chain.LeastIs(hs, causes[i], v[i]);
  }

  /** `weakest[t]` holds the weakest hop of the `t`-th cause. */
  ghost predicate PicksWeakest(causes: seq<string>, v: seq<real>, weakest: seq<nat>) {
    && |causes| == |v|
    && var cs := Chain.CausesOf(Chain.Hops(causes, v));
    && |weakest| == |cs|
    && forall t :: 0 <= t < |cs| ==> WeakestAt(causes, v, weakest[t]) && causes[weakest[t]] == cs[t]
  }

  lemma WeakestByPosition(causes: seq<string>, v: seq<real>, weakest: seq<nat>)
    requires PicksWeakest(causes, v, weakest)
    ensures forall t :: 0 <= t < |weakest| ==> weakest[t] < |v|
    ensures Chain.Weakest(Chain.Hops(causes, v), Chain.CausesOf(Chain.Hops(causes, v))) == Take(v, weakest)
  {
    var hs := Chain.Hops(causes, v);
    var cs := Chain.CausesOf(hs);
    forall t | 0 <= t < |cs| ensures Chain.Least(hs, cs[t]) == v[weakest[t]] {
      LeastByPosition(causes, v, weakest[t]);
    }
  }

  lemma TakeAppends(v: seq<real>, a: seq<nat>, b: seq<nat>)
    requires forall t :: 0 <= t < |a| ==> a[t] < |v|
    requires forall t :: 0 <= t < |b| ==> b[t] < |v|
    ensures forall t :: 0 <= t < |a + b| ==> (a + b)[t] < |v|
    ensures Take(v, a + b) == Take(v, a) + Take(v, b)
  {
  }

  /** The factors of the score, by position. */
  lemma {:induction false} FactorsByPosition(causes: seq<string>, v: seq<real>, weakest: seq<nat>)
    requires PicksWeakest(causes, v, weakest)
    ensures forall t :: 0 <= t < |PlacesOf(causes, "") + weakest| ==> (PlacesOf(causes, "") + weakest)[t] < |v|
    ensures Chain.Factors(Chain.Hops(causes, v)) == Take(v, PlacesOf(causes, "") + weakest)
  {
    GroupByPosition(causes, v, "");
    WeakestByPosition(causes, v, weakest);
    TakeAppends(v, PlacesOf(causes, ""), weakest);
  }

  lemma WeakestOf(causes: seq<string>, v: seq<real>, c: string, k: nat) returns (i: nat)
    requires |causes| == |v| && k < |v| && causes[k] == c
    ensures WeakestAt(causes, v, i) && causes[i] == c
  {
    i := k;
    for j := 0 to |v|
      invariant i < |v| && causes[i] == c
      invariant forall l :: 0 <= l < j && causes[l] == c ==> v[i] <= v[l]
    {
      if causes[j] == c && v[j] < v[i] {
        i := j;
      }
    }
  }

  lemma PickWeakest(causes: seq<string>, v: seq<real>) returns (weakest: seq<nat>)
    requires |causes| == |v|
    ensures PicksWeakest(causes, v, weakest)
  {
    var hs := Chain.Hops(causes, v);
    var cs := Chain.CausesOf(hs);
    weakest := [];
    for t := 0 to |cs|
      invariant |weakest| == t
      invariant forall u :: 0 <= u < t ==> WeakestAt(causes, v, weakest[u]) && causes[weakest[u]] == cs[u]
    {
      assert cs[t] in cs;
      Chain.CausesHold(hs, cs[t]);
      var k :| 0 <= k < |hs| && hs[k].cause == cs[t];
      var i := WeakestOf(causes, v, cs[t], k);
      weakest := weakest + [i];
    }
  }
}
