/** Which edges stand or fall together: the weakness an edge's probability rests on, what it means
    for the draws of a trial and for the score of a route. */
module Causes {
  import opened Graph
  import opened AttackPath
  import opened Compromise
  import opened Risk
  import Chain

  /** What a node is known by as a weakness: its name or, unnamed, its id. */
  function NameOf(n: Node): string {
    if n.causeName == "" then n.id else n.causeName
  }

  /** An undeclared edge into a CVE rests on the CVE. */
  predicate OnCve(e: Edge, index: map<string, Node>) {
    e.cause == "" && e.typ == "AFFECTS" && e.to in index && index[e.to].kind == "CVE" && NameOf(index[e.to]) != ""
  }

  /** Any other undeclared edge rests on nothing it could share. */
  predicate OnItsOwn(e: Edge, index: map<string, Node>) {
    e.cause == "" && !OnCve(e, index)
  }

  /** Both edges rest on one weakness; one the feed declared wins over the CVE's name. */
  predicate OneWeakness(e: Edge, f: Edge, index: map<string, Node>) {
    || (e.cause != "" && f.cause != "" && e.cause == f.cause)
    || (e.cause != "" && OnCve(f, index) && e.cause == NameOf(index[f.to]))
    || (OnCve(e, index) && f.cause != "" && NameOf(index[e.to]) == f.cause)
    || (OnCve(e, index) && OnCve(f, index) && NameOf(index[e.to]) == NameOf(index[f.to]))
  }

  /** Both are the same edge, listed twice or in parallel. */
  predicate SameEdge(e: Edge, f: Edge) {
    e.from == f.from && e.to == f.to && e.typ == f.typ
  }

  // ── In a trial ─────────────────────────────────────────────────────

  /** Two edges have one draw exactly when they rest on one weakness, or on nothing and are the
      same edge. */
  lemma DrawTogetherExactly(e: Edge, f: Edge, index: map<string, Node>)
    ensures DrawName(e, index) == DrawName(f, index) <==>
      OneWeakness(e, f, index) || (OnItsOwn(e, index) && OnItsOwn(f, index) && SameEdge(e, f))
  {
    assert NO_NODE.kind != "CVE";
  }

  /** In a trial an edge opens when its draw falls under its probability: 1/100 where none is given,
      and at most 1. */
  lemma OpensUnder(e: Edge, nodes: map<string, Node>, draw: Draws, it: nat)
    ensures e.probability <= 0.0 ==> (OpenIn(nodes, draw, it)(e) <==> draw(it, DrawName(e, nodes)) < 0.01)
    ensures 0.0 < e.probability <= 1.0 ==> (OpenIn(nodes, draw, it)(e) <==> draw(it, DrawName(e, nodes)) < e.probability)
    ensures e.probability > 1.0 ==> (OpenIn(nodes, draw, it)(e) <==> draw(it, DrawName(e, nodes)) < 1.0)
  {
  }

  /** In every trial and whatever the draws, two edges of one probability open together. */
  ghost predicate OpenTogether(nodes: map<string, Node>, e: Edge, f: Edge) {
    forall draw: Draws, it: nat :: OpenIn(nodes, draw, it)(e) <==> OpenIn(nodes, draw, it)(f)
  }

  /** One weakness is one chance, and nothing else is: two edges of one probability open together
      in every trial if and only if they rest on one weakness, or are one edge resting on none. */
  lemma OneChanceExactly(e: Edge, f: Edge, index: map<string, Node>)
    requires ClampProb(e.probability) == ClampProb(f.probability)
    ensures OpenTogether(index, e, f) <==>
      OneWeakness(e, f, index) || (OnItsOwn(e, index) && OnItsOwn(f, index) && SameEdge(e, f))
  {
    DrawTogetherExactly(e, f, index);
    var apart: Draws := (it, name) => if name == DrawName(e, index) then 0.0 else 1.0;
    if DrawName(e, index) != DrawName(f, index) {
      assert OpenIn(index, apart, 0)(e) && !OpenIn(index, apart, 0)(f);
    }
  }

  // ── In a score ─────────────────────────────────────────────────────

  function Without(hs: seq<Chain.Hop>, i: nat): seq<Chain.Hop>
    requires i < |hs|
  {
    hs[..i] + hs[i + 1..]
  }

  lemma MovedLast(hs: seq<Chain.Hop>, i: nat)
    requires i < |hs|
    ensures Chain.Score(hs) == Chain.Score(Without(hs, i) + [hs[i]])
  {
    assert hs == hs[..i] + [hs[i]] + hs[i + 1..];
    assert multiset(hs) == multiset(Without(hs, i) + [hs[i]]);
    Chain.ScorePermutes(hs, Without(hs, i) + [hs[i]]);
  }

  lemma SharedSnoc(hs: seq<Chain.Hop>, h: Chain.Hop, j: nat)
    requires j < |hs| && h.cause != "" && hs[j].cause == h.cause && hs[j].p <= h.p
    ensures Chain.Factors(hs + [h]) == Chain.Factors(hs)
  {
    var cs := Chain.CausesOf(hs);
    Chain.CausesHold(hs, h.cause);
    Chain.CausesSnoc(hs, h);
    Chain.GroupSnoc(hs, h, "");
    NoneWeakened(hs, h, j, cs);
    assert Chain.Group(hs, "") + [] == Chain.Group(hs, "");
  }

  lemma NoneWeakened(hs: seq<Chain.Hop>, h: Chain.Hop, j: nat, cs: seq<string>)
    requires j < |hs| && hs[j].cause == h.cause && hs[j].p <= h.p
    ensures Chain.Weakest(hs + [h], cs) == Chain.Weakest(hs, cs)
  {
    forall i | 0 <= i < |cs| ensures Chain.Weakest(hs + [h], cs)[i] == Chain.Weakest(hs, cs)[i] {
      NotWeakened(hs, h, j, cs[i]);
    }
  }

  lemma NotWeakened(hs: seq<Chain.Hop>, h: Chain.Hop, j: nat, c: string)
    requires j < |hs| && hs[j].cause == h.cause && hs[j].p <= h.p
    ensures Chain.Least(hs + [h], c) == Chain.Least(hs, c)
  {
    assert hs[j] == Chain.Hop(h.cause, hs[j].p) && hs[j] in hs;
    Chain.GroupHolds(hs, h.cause, hs[j].p);
    Chain.LeastSnoc(hs, h, c);
  }

  /** Of two hops on one cause only the weaker counts. */
  lemma SharedCountsOnce(hs: seq<Chain.Hop>, i: nat, j: nat)
    requires i < |hs| && j < |hs| && i != j && hs[i].cause != "" && hs[i].cause == hs[j].cause && hs[j].p <= hs[i].p
    ensures Chain.Score(hs) == Chain.Score(Without(hs, i))
  {
    MovedLast(hs, i);
    var k := if j < i then j else j - 1;
    assert Without(hs, i)[k] == hs[j];
    SharedSnoc(Without(hs, i), hs[i], k);
  }

  lemma LoneSnoc(hs: seq<Chain.Hop>, h: Chain.Hop, rest: real, whole: real)
    requires h.cause == "" || forall k :: 0 <= k < |hs| ==> hs[k].cause != h.cause
    requires rest == Chain.Score(hs) && whole == rest * h.p
    ensures Chain.Score(hs + [h]) == whole
  {
    Chain.CausesHold(hs, h.cause);
    var a, b := Chain.FactorsSnoc(hs, h);
    Chain.MulOfInsert(Chain.Factors(hs), Chain.Factors(hs + [h]), a, h.p, b, rest);
  }

  /** A hop whose cause no other shares multiplies what the others score: `whole` is the product. */
  lemma LoneMultiplies(hs: seq<Chain.Hop>, i: nat, p: real, rest: real, whole: real)
    requires i < |hs| && rest == Chain.Score(Without(hs, i)) && p == hs[i].p && whole == rest * p
    requires hs[i].cause == "" || forall k :: 0 <= k < |hs| && k != i ==> hs[k].cause != hs[i].cause
    ensures Chain.Score(hs) == whole
  {
    var others := Without(hs, i);
    OthersApart(hs, i);
    LoneSnoc(others, hs[i], rest, whole);
    MovedLast(hs, i);
  }

  lemma OthersApart(hs: seq<Chain.Hop>, i: nat)
    requires i < |hs|
    requires hs[i].cause == "" || forall k :: 0 <= k < |hs| && k != i ==> hs[k].cause != hs[i].cause
    ensures hs[i].cause == "" || forall k :: 0 <= k < |Without(hs, i)| ==> Without(hs, i)[k].cause != hs[i].cause
  {
    forall k | 0 <= k < |Without(hs, i)| && hs[i].cause != "" ensures Without(hs, i)[k].cause != hs[i].cause {
      assert Without(hs, i)[k] == hs[if k < i then k else k + 1];
    }
  }

  lemma CauseExactly(e: Edge, f: Edge, index: map<string, Node>, negLog: real -> real)
    ensures var oe, of := ToOutEdge(e, index, negLog), ToOutEdge(f, index, negLog);
      && (oe.cause == "" <==> OnItsOwn(e, index))
      && (oe.cause != "" && oe.cause == of.cause <==> OneWeakness(e, f, index))
      && oe.prob == ClampProb(e.probability)
  {
    assert NO_NODE.kind != "CVE";
  }

  /** A reported step names its edge. */
  lemma StepSays(ap: AttackPath, index: map<string, Node>, negLog: real -> real, u: string, es: seq<OutEdge>, i: nat, e: Edge)
    requires Reports(ap, index, u, es) && i < |es| && es[i] == ToOutEdge(e, index, negLog)
    ensures |ap.steps| == |es| && ap.steps[i].edgeType == e.typ && ap.steps[i].to == e.to
    ensures ap.steps[i].from == (if i == 0 then u else ap.steps[i - 1].to)
    ensures ap.steps[i].probability == ClampProb(e.probability)
    ensures ap.steps[i].basis == WeightBasisOf(e, Lookup(index, e.from), Lookup(index, e.to))
  {
    Graph.HopIs(e, index, negLog);
  }

  lemma HopIs(u: string, es: seq<OutEdge>, i: nat)
    requires i < |es|
    ensures HopsOf(StepsAlong(u, es))[i] == Chain.Hop(es[i].cause, es[i].prob)
  {
  }

  lemma ReportedScore(ap: AttackPath, index: map<string, Node>, u: string, es: seq<OutEdge>)
    requires Reports(ap, index, u, es)
    ensures ap.steps == StepsAlong(u, es) && ap.score == Chain.Score(HopsOf(ap.steps))
  {
  }

  /** On a reported route, of two hops on one weakness only the weaker counts. */
  lemma OneWeaknessCountsOnce(ap: AttackPath, index: map<string, Node>, negLog: real -> real, u: string, es: seq<OutEdge>, i: nat, j: nat, e: Edge, f: Edge)
    requires Reports(ap, index, u, es) && i < |es| && j < |es| && i != j
    requires es[i] == ToOutEdge(e, index, negLog) && es[j] == ToOutEdge(f, index, negLog)
    requires OneWeakness(e, f, index) && ClampProb(f.probability) <= ClampProb(e.probability)
    ensures |HopsOf(ap.steps)| == |es| && ap.score == Chain.Score(Without(HopsOf(ap.steps), i))
  {
    ReportedScore(ap, index, u, es);
    HopsShare(u, es, index, negLog, i, j, e, f);
    SharedCountsOnce(HopsOf(ap.steps), i, j);
  }

  lemma HopsShare(u: string, es: seq<OutEdge>, index: map<string, Node>, negLog: real -> real, i: nat, j: nat, e: Edge, f: Edge)
    requires i < |es| && j < |es| && es[i] == ToOutEdge(e, index, negLog) && es[j] == ToOutEdge(f, index, negLog)
    ensures var hs := HopsOf(StepsAlong(u, es));
      && |hs| == |es| && (hs[i].cause != "" && hs[i].cause == hs[j].cause <==> OneWeakness(e, f, index))
      && hs[i].p == ClampProb(e.probability) && hs[j].p == ClampProb(f.probability)
  {
    CauseExactly(e, f, index, negLog);
    CauseExactly(f, e, index, negLog);
    HopIs(u, es, i);
    HopIs(u, es, j);
  }

  /** The walk's hops are these edges of the snapshot. */
  ghost predicate Spells(es: seq<OutEdge>, edges: seq<Edge>, index: map<string, Node>, negLog: real -> real) {
    |edges| == |es| && forall k :: 0 <= k < |es| ==> es[k] == ToOutEdge(edges[k], index, negLog)
  }

  /** No other of the edges rests on what edge `i` rests on. */
  ghost predicate RestsAlone(edges: seq<Edge>, i: nat, index: map<string, Node>) {
    i < |edges| && forall k :: 0 <= k < |edges| && k != i ==> !OneWeakness(edges[i], edges[k], index)
  }

  /** A hop on its own, or on a weakness no other hop rests on, multiplies what the others score:
      `whole` is the product. */
  lemma LoneHopMultiplies(ap: AttackPath, index: map<string, Node>, negLog: real -> real, u: string, es: seq<OutEdge>, edges: seq<Edge>, i: nat, hs: seq<Chain.Hop>, p: real, rest: real, whole: real)
    requires Reports(ap, index, u, es) && Spells(es, edges, index, negLog) && RestsAlone(edges, i, index)
    requires hs == HopsOf(ap.steps) && |hs| == |es| && rest == Chain.Score(Without(hs, i)) && p == ClampProb(edges[i].probability) && whole == rest * p
    ensures ap.score == whole
  {
    ReportedScore(ap, index, u, es);
    NoOtherShares(hs, index, negLog, u, es, edges, i);
    LoneMultiplies(hs, i, p, rest, whole);
  }

  lemma NoOtherShares(hs: seq<Chain.Hop>, index: map<string, Node>, negLog: real -> real, u: string, es: seq<OutEdge>, edges: seq<Edge>, i: nat)
    requires hs == HopsOf(StepsAlong(u, es)) && Spells(es, edges, index, negLog) && RestsAlone(edges, i, index)
    ensures |hs| == |es| && hs[i].p == ClampProb(edges[i].probability)
    ensures hs[i].cause == "" || forall k :: 0 <= k < |hs| && k != i ==> hs[k].cause != hs[i].cause
  {
    HopsShare(u, es, index, negLog, i, i, edges[i], edges[i]);
    forall k | 0 <= k < |hs| && k != i && hs[i].cause != "" ensures hs[k].cause != hs[i].cause {
      HopsShare(u, es, index, negLog, i, k, edges[i], edges[k]);
    }
  }
}
