/** The graph the analyzer reasons over: nodes, edges, and what an edge contributes to a
    search - its probability, its cost and the cause its probability rests on. */
module Graph {
  /** `internetExposed` is the evaluated exposure; `causeName` is the node's name trimmed and
      upper-cased, the form a CVE's shared cause is named in. */
  datatype Node = Node(
    id: string,
    kind: string,
    causeName: string,
    internetExposed: bool,
    publicAccess: bool,
    credentialExposed: bool,
    crownJewel: bool,
    runtimeAlert: bool,
    hasCvss: bool)
  {
    /** An attack may start here. */
    predicate IsSeed() {
      internetExposed || credentialExposed || publicAccess
    }

    /** An attacker has this without crossing any edge. */
    predicate HeldByAttacker() {
      publicAccess || credentialExposed
    }
  }

  /** `cause` and `basis` are what the feed declared; empty when it declared nothing. */
  datatype Edge = Edge(typ: string, from: string, to: string, probability: real, cause: string, basis: string)

  datatype Snapshot = Snapshot(nodes: seq<Node>, edges: seq<Edge>)

  /** A node the index does not know reads as the zero node. */
  const NO_NODE := Node("", "", "", false, false, false, false, false, false)

  /** The nodes by id; the last listing of an id wins. */
  function NodeById(nodes: seq<Node>): (m: map<string, Node>)
    ensures forall id :: id in m ==> m[id] in nodes && m[id].id == id
    ensures forall n :: n in nodes ==> n.id in m
  {
    if nodes == [] then map[]
    else
      var last := nodes[|nodes| - 1];
      assert nodes == nodes[..|nodes| - 1] + [last];
      NodeById(nodes[..|nodes| - 1])[last.id := last]
  }

  /** Of a node listed more than once the last listing counts. */
  lemma {:induction false} LastListingCounts(nodes: seq<Node>, i: nat)
    requires i < |nodes| && forall k :: i < k < |nodes| ==> nodes[k].id != nodes[i].id
    ensures nodes[i].id in NodeById(nodes) && NodeById(nodes)[nodes[i].id] == nodes[i]
    decreases |nodes|
  {
    if i < |nodes| - 1 {
      LastListingCounts(nodes[..|nodes| - 1], i);
    }
  }

  function Lookup(m: map<string, Node>, id: string): Node {
    if id in m then m[id] else NO_NODE
  }

  /** Such a node has no label, no name and no flag: nothing starts there, and nothing is inferred of
      an edge into it. */
  lemma UnknownNode(m: map<string, Node>, id: string)
    requires id !in m
    ensures var n := Lookup(m, id);
      && n.id == n.kind == n.causeName == "" && !n.IsSeed() && !n.crownJewel && !n.runtimeAlert && !n.hasCvss
  {
  }

  predicate IsSeedId(index: map<string, Node>, id: string) {
    id in index && index[id].IsSeed()
  }

  predicate IsJewelId(index: map<string, Node>, id: string) {
    id in index && index[id].crownJewel
  }

  predicate IsHeldJewelId(index: map<string, Node>, id: string) {
    id in index && index[id].crownJewel && index[id].HeldByAttacker()
  }

  /** A missing or non-positive weight stays traversable but costly; above 1 is certain. */
  function ClampProb(p: real): (q: real)
    ensures 0.0 < q <= 1.0
    ensures 0.0 < p <= 1.0 ==> q == p
  {
    if p <= 0.0 then 0.01 else if p > 1.0 then 1.0 else p
  }

  /** The shared cause an edge's probability rests on, empty when it is its own. */
  function WeightCauseOf(e: Edge, to: Node): string {
    if e.cause != "" then e.cause
    else if e.typ == "AFFECTS" && to.kind == "CVE" then
      if to.causeName != "" then to.causeName else to.id
    else ""
  }

  /** Where an edge's probability came from. */
  function WeightBasisOf(e: Edge, from: Node, to: Node): string {
    if e.basis != "" then e.basis
    else if from.runtimeAlert || to.runtimeAlert then "runtime"
    else if e.typ == "AFFECTS" || e.typ == "EXPLOITS" then
      if to.hasCvss || from.hasCvss then "cvss" else "severity"
    else "heuristic"
  }

  /** A basis the feed declared wins; else what was seen happening at either end; else, for a
      vulnerability, whether either end is scored; and a topology default is a guess. */
  lemma BasisIs(e: Edge, from: Node, to: Node)
    ensures e.basis != "" ==> WeightBasisOf(e, from, to) == e.basis
    ensures e.basis == "" && (from.runtimeAlert || to.runtimeAlert) ==> WeightBasisOf(e, from, to) == "runtime"
    ensures e.basis == "" && !from.runtimeAlert && !to.runtimeAlert && e.typ in ["AFFECTS", "EXPLOITS"] ==>
      WeightBasisOf(e, from, to) == if from.hasCvss || to.hasCvss then "cvss" else "severity"
    ensures e.basis == "" && !from.runtimeAlert && !to.runtimeAlert && e.typ !in ["AFFECTS", "EXPLOITS"] ==>
      WeightBasisOf(e, from, to) == "heuristic"
  {
  }

  /** A hop costs what stands for its probability: 1/100 where none is given, and at most 1. */
  lemma HopIs(e: Edge, index: map<string, Node>, negLog: real -> real)
    ensures var oe := ToOutEdge(e, index, negLog);
      && oe.to == e.to && oe.typ == e.typ && oe.weight == negLog(oe.prob)
      && (e.probability <= 0.0 ==> oe.prob == 0.01) && (e.probability > 1.0 ==> oe.prob == 1.0)
      && (0.0 < e.probability <= 1.0 ==> oe.prob == e.probability)
      && oe.basis == WeightBasisOf(e, Lookup(index, e.from), Lookup(index, e.to))
  {
  }

  /** An edge as the searches see it from its source node. */
  datatype OutEdge = OutEdge(to: string, typ: string, weight: real, prob: real, basis: string, cause: string)

  type Adjacency = map<string, seq<OutEdge>>

  function Out(adj: Adjacency, u: string): seq<OutEdge> {
    if u in adj then adj[u] else []
  }

  /** The conversion of a probability to a cost: `-ln`, of which only these laws are used. */
  ghost predicate TurnsProductToSum(negLog: real -> real, p: real, q: real, pq: real) {
    0.0 < p <= 1.0 && 0.0 < q <= 1.0 && pq == p * q ==>
      negLog(pq) == negLog(p) + negLog(q) && (p < q ==> negLog(q) < negLog(p))
  }

  ghost predicate IsNegLog(negLog: real -> real) {
    negLog(1.0) == 0.0 && forall p, q, pq :: TurnsProductToSum(negLog, p, q, pq)
  }

  lemma NegLogSigns(negLog: real -> real, p: real)
    requires IsNegLog(negLog) && 0.0 < p <= 1.0
    ensures negLog(p) >= 0.0
  {
    assert TurnsProductToSum(negLog, p, 1.0, p);
  }

  /** Costs compare exactly opposite to the products they stand for. */
  lemma NegLogReverses(negLog: real -> real, p: real, q: real)
    requires IsNegLog(negLog) && 0.0 < p <= 1.0 && 0.0 < q <= 1.0
    ensures negLog(p) <= negLog(q) <==> q <= p
  {
    assert TurnsProductToSum(negLog, p, q, p * q) && TurnsProductToSum(negLog, q, p, q * p);
  }

  function ToOutEdge(e: Edge, index: map<string, Node>, negLog: real -> real): OutEdge {
    var p := ClampProb(e.probability);
    var from, to := Lookup(index, e.from), Lookup(index, e.to);
    OutEdge(e.to, e.typ, negLog(p), p, WeightBasisOf(e, from, to), WeightCauseOf(e, to))
  }

  /** The out-edges of every source node, in snapshot order. */
  function AdjacencyOf(edges: seq<Edge>, index: map<string, Node>, negLog: real -> real): Adjacency {
    if edges == [] then map[]
    else
      var adj, e := AdjacencyOf(edges[..|edges| - 1], index, negLog), edges[|edges| - 1];
      adj[e.from := Out(adj, e.from) + [ToOutEdge(e, index, negLog)]]
  }

  method BuildAdjacency(edges: seq<Edge>, index: map<string, Node>, negLog: real -> real) returns (adj: Adjacency)
    ensures adj == AdjacencyOf(edges, index, negLog)
  {
    adj := map[];
    for i := 0 to |edges|
      invariant adj == AdjacencyOf(edges[..i], index, negLog)
    {
      assert edges[..i + 1][..i] == edges[..i];
      adj := adj[edges[i].from := Out(adj, edges[i].from) + [ToOutEdge(edges[i], index, negLog)]];
    }
    assert edges[..|edges|] == edges;
  }

  /** The adjacency holds exactly the snapshot's edges, each under its source node. */
  lemma {:induction false} AdjacencyHoldsEdges(edges: seq<Edge>, index: map<string, Node>, negLog: real -> real, u: string, oe: OutEdge)
    ensures oe in Out(AdjacencyOf(edges, index, negLog), u) <==>
      exists e: Edge :: e in edges && e.from == u && ToOutEdge(e, index, negLog) == oe
  {
    if edges != [] {
      var init, last := edges[..|edges| - 1], edges[|edges| - 1];
      assert edges == init + [last];
      AdjacencyHoldsEdges(init, index, negLog, u, oe);
    }
  }

  lemma {:induction false} AdjacencyIsWeighted(edges: seq<Edge>, index: map<string, Node>, negLog: real -> real)
    ensures Weighted(AdjacencyOf(edges, index, negLog), negLog)
  {
    var adj: Adjacency := AdjacencyOf(edges, index, negLog);
    forall u, i | u in adj && 0 <= i < |adj[u]|
      ensures 0.0 < adj[u][i].prob <= 1.0 && adj[u][i].weight == negLog(adj[u][i].prob)
    {
      assert adj[u][i] in Out(adj, u);
      AdjacencyHoldsEdges(edges, index, negLog, u, adj[u][i]);
    }
  }

  // Walks: the edges crossed, in order, from a start node.

  ghost predicate IsWalk(adj: Adjacency, u: string, es: seq<OutEdge>)
    decreases |es|
  {
    es == [] || (es[0] in Out(adj, u) && IsWalk(adj, es[0].to, es[1..]))
  }

  function EndOf(u: string, es: seq<OutEdge>): string {
    if es == [] then u else es[|es| - 1].to
  }

  function Cost(es: seq<OutEdge>): real
    decreases |es|
  {
    if es == [] then 0.0 else es[0].weight + Cost(es[1..])
  }

  /** The probability that every edge of a walk holds, taken as independent. */
  function Product(es: seq<OutEdge>): real
    decreases |es|
  {
    if es == [] then 1.0 else es[0].prob * Product(es[1..])
  }

  /** The nodes a walk visits, its start included. */
  function NodesOf(u: string, es: seq<OutEdge>): (ns: seq<string>)
    ensures |ns| == |es| + 1 && ns[0] == u && ns[|es|] == EndOf(u, es)
    ensures forall i :: 0 <= i < |es| ==> ns[i + 1] == es[i].to
  {
    [u] + seq(|es|, i requires 0 <= i < |es| => es[i].to)
  }

  lemma {:induction false} WalkSnoc(adj: Adjacency, u: string, es: seq<OutEdge>, e: OutEdge)
    requires IsWalk(adj, u, es) && e in Out(adj, EndOf(u, es))
    ensures IsWalk(adj, u, es + [e]) && EndOf(u, es + [e]) == e.to
    ensures Cost(es + [e]) == Cost(es) + e.weight
    ensures Product(es + [e]) == Product(es) * e.prob
    decreases |es|
  {
    if es == [] {
      assert es + [e] == [e];
    } else {
      assert (es + [e])[1..] == es[1..] + [e];
      WalkSnoc(adj, es[0].to, es[1..], e);
    }
  }

  lemma NodesSnoc(u: string, es: seq<OutEdge>, e: OutEdge)
    ensures NodesOf(u, es + [e]) == NodesOf(u, es) + [e.to]
  {
  }

  /** A walk's nodes are its start and the nodes of the rest. */
  lemma NodesCons(u: string, es: seq<OutEdge>)
    requires es != []
    ensures NodesOf(u, es) == [u] + NodesOf(es[0].to, es[1..]) && EndOf(u, es) == EndOf(es[0].to, es[1..])
  {
    var ns, tail := NodesOf(u, es), NodesOf(es[0].to, es[1..]);
    forall i | 1 <= i < |ns| ensures ns[i] == tail[i - 1] {
      assert i > 1 ==> es[1..][i - 2] == es[i - 1];
    }
  }

  /** Every edge carries a probability in (0,1] and the cost that stands for it. */
  ghost predicate Weighted(adj: Adjacency, negLog: real -> real) {
    forall u, i :: u in adj && 0 <= i < |adj[u]| ==>
      0.0 < adj[u][i].prob <= 1.0 && adj[u][i].weight == negLog(adj[u][i].prob)
  }

  ghost predicate NonNegative(adj: Adjacency) {
    forall u, i :: u in adj && 0 <= i < |adj[u]| ==> adj[u][i].weight >= 0.0
  }

  lemma WeightedIsNonNegative(adj: Adjacency, negLog: real -> real)
    requires IsNegLog(negLog) && Weighted(adj, negLog)
    ensures NonNegative(adj)
  {
    forall u, i | u in adj && 0 <= i < |adj[u]| ensures adj[u][i].weight >= 0.0 {
      NegLogSigns(negLog, adj[u][i].prob);
    }
  }

  lemma ProductStaysUnit(p: real, q: real)
    requires 0.0 < p <= 1.0 && 0.0 < q <= 1.0
    ensures 0.0 < p * q <= 1.0 && p * q <= p && p * q <= q
  {
    assert p * q - q == (p - 1.0) * q;
    assert p * q - p == (q - 1.0) * p;
  }

  lemma {:induction false} CostStandsForProduct(adj: Adjacency, u: string, es: seq<OutEdge>, negLog: real -> real)
    requires IsNegLog(negLog) && Weighted(adj, negLog) && IsWalk(adj, u, es)
    ensures 0.0 < Product(es) <= 1.0 && Cost(es) == negLog(Product(es))
    decreases |es|
  {
    if es != [] {
      CostStandsForProduct(adj, es[0].to, es[1..], negLog);
      var i :| 0 <= i < |Out(adj, u)| && Out(adj, u)[i] == es[0];
      ProductStaysUnit(es[0].prob, Product(es[1..]));
      assert TurnsProductToSum(negLog, es[0].prob, Product(es[1..]), Product(es));
    }
  }
}
