/** Splitting an event that is too large for one message: nodes first, in order, then edges,
    every chunk a copy of the event's other fields. */
module Splitter {

  /** `rest` stands for every field of an event but its nodes and edges. A chunk has no list where
      it has no elements. */
  datatype Event<R, N, E> = Event(rest: R, nodes: seq<N>, edges: seq<E>)

  datatype Result<T> = Ok(value: T) | TooLarge

  /** The nodes of the chunks, end to end. */
  ghost function NodesIn<R, N, E>(chunks: seq<Event<R, N, E>>): seq<N> {
    if chunks == [] then [] else NodesIn(chunks[..|chunks| - 1]) + chunks[|chunks| - 1].nodes
  }

  ghost function EdgesIn<R, N, E>(chunks: seq<Event<R, N, E>>): seq<E> {
    if chunks == [] then [] else EdgesIn(chunks[..|chunks| - 1]) + chunks[|chunks| - 1].edges
  }

  lemma {:induction false} ChunksAppend<R, N, E>(a: seq<Event<R, N, E>>, b: seq<Event<R, N, E>>)
    ensures NodesIn(a + b) == NodesIn(a) + NodesIn(b) && EdgesIn(a + b) == EdgesIn(a) + EdgesIn(b)
    decreases |b|
  {
    if b == [] {
      assert a + b == a;
    } else {
      assert (a + b)[..|a + b| - 1] == a + b[..|b| - 1];
      ChunksAppend(a, b[..|b| - 1]);
    }
  }

  /** The size of a serialised event never falls when nodes or edges are added. */
  ghost predicate GrowsFrom<R, N, E>(size: Event<R, N, E> -> nat, small: Event<R, N, E>, large: Event<R, N, E>) {
    && small.rest == large.rest
    && (forall n :: n in small.nodes ==> n in large.nodes) && (forall e :: e in small.edges ==> e in large.edges)
    && |small.nodes| <= 1 && |small.edges| <= 1
    ==> size(small) <= size(large)
  }

  ghost predicate IsSize<R(!new), N(!new), E(!new)>(size: Event<R, N, E> -> nat) {
    forall small, large :: GrowsFrom(size, small, large)
  }

  /** One node, or one edge, with the event's other fields. */
  function OneNode<R, N, E>(rest: R, n: N): Event<R, N, E> {
    Event(rest, [n], [])
  }

  function OneEdge<R, N, E>(rest: R, e: E): Event<R, N, E> {
    Event(rest, [], [e])
  }

  /** Every element fits a message on its own. */
  ghost predicate AllFit<R, N, E>(size: Event<R, N, E> -> nat, limit: nat, ev: Event<R, N, E>) {
    && (forall i :: 0 <= i < |ev.nodes| ==> size(OneNode(ev.rest, ev.nodes[i])) <= limit)
    && (forall i :: 0 <= i < |ev.edges| ==> size(OneEdge(ev.rest, ev.edges[i])) <= limit)
  }

  lemma FittingHasFitting<R(!new), N(!new), E(!new)>(size: Event<R, N, E> -> nat, limit: nat, ev: Event<R, N, E>)
    requires IsSize(size) && size(ev) <= limit
    ensures AllFit(size, limit, ev)
  {
    forall i | 0 <= i < |ev.nodes| ensures size(OneNode(ev.rest, ev.nodes[i])) <= limit {
      assert GrowsFrom(size, OneNode(ev.rest, ev.nodes[i]), ev);
    }
    forall i | 0 <= i < |ev.edges| ensures size(OneEdge(ev.rest, ev.edges[i])) <= limit {
      assert GrowsFrom(size, OneEdge(ev.rest, ev.edges[i]), ev);
    }
  }

  /** A chunk that fits is split into itself. */
  lemma WholeSplits<R(!new), N(!new), E(!new)>(size: Event<R, N, E> -> nat, limit: nat, ev: Event<R, N, E>)
    requires IsSize(size) && size(ev) <= limit && |ev.nodes| + |ev.edges| > 0
    ensures AllFit(size, limit, ev) && Splits(size, limit, ev, [ev])
  {
    FittingHasFitting(size, limit, ev);
    assert [ev][..0] == [];
  }

  /** Each chunk fits, carries the other fields, and is not empty; a chunk with nodes comes
      before every chunk with edges. */
  ghost predicate Good<R, N, E>(size: Event<R, N, E> -> nat, limit: nat, rest: R, chunks: seq<Event<R, N, E>>) {
    && (forall i :: 0 <= i < |chunks| ==> size(chunks[i]) <= limit && chunks[i].rest == rest && |chunks[i].nodes| + |chunks[i].edges| > 0)
    && (forall i, j :: 0 <= i < j < |chunks| && chunks[i].edges != [] ==> chunks[j].nodes == [])
  }

  /** The chunks are the event, cut. */
  ghost predicate Splits<R, N, E>(size: Event<R, N, E> -> nat, limit: nat, ev: Event<R, N, E>, chunks: seq<Event<R, N, E>>) {
    NodesIn(chunks) == ev.nodes && EdgesIn(chunks) == ev.edges && Good(size, limit, ev.rest, chunks)
  }

  lemma {:induction false} NodesOnly<R, N, E>(chunks: seq<Event<R, N, E>>, i: nat)
    requires i < |chunks|
    ensures NodesIn(chunks) == [] ==> chunks[i].nodes == []
    ensures EdgesIn(chunks) == [] ==> chunks[i].edges == []
  {
    if i < |chunks| - 1 {
      NodesOnly(chunks[..|chunks| - 1], i);
    }
  }

  /** Where an event could be cut, every element of it fits a message. */
  lemma {:induction false} SplitsFit<R(!new), N(!new), E(!new)>(size: Event<R, N, E> -> nat, limit: nat, rest: R, chunks: seq<Event<R, N, E>>)
    requires IsSize(size) && Good(size, limit, rest, chunks)
    ensures AllFit(size, limit, Event(rest, NodesIn(chunks), EdgesIn(chunks)))
    decreases |chunks|
  {
    if chunks != [] {
      var n := |chunks| - 1;
      SplitsFit(size, limit, rest, chunks[..n]);
      FittingHasFitting(size, limit, chunks[n]);
      FitsBeside(size, limit, rest, NodesIn(chunks[..n]), chunks[n].nodes, EdgesIn(chunks[..n]), chunks[n].edges);
    }
  }

  lemma CutFits<R(!new), N(!new), E(!new)>(size: Event<R, N, E> -> nat, limit: nat, ev: Event<R, N, E>, chunks: seq<Event<R, N, E>>)
    requires IsSize(size) && Splits(size, limit, ev, chunks)
    ensures AllFit(size, limit, ev)
  {
    SplitsFit(size, limit, ev.rest, chunks);
    assert ev == Event(ev.rest, NodesIn(chunks), EdgesIn(chunks));
  }

  lemma FitsBeside<R, N, E>(size: Event<R, N, E> -> nat, limit: nat, rest: R, ns: seq<N>, ns': seq<N>, es: seq<E>, es': seq<E>)
    requires AllFit(size, limit, Event(rest, ns, es)) && AllFit(size, limit, Event(rest, ns', es'))
    ensures AllFit(size, limit, Event(rest, ns + ns', es + es'))
  {
    var x, y := Event(rest, ns, es), Event(rest, ns', es');
    forall i | 0 <= i < |ns + ns'| ensures size(OneNode(rest, (ns + ns')[i])) <= limit {
      assert if i < |ns| then (ns + ns')[i] == x.nodes[i] else (ns + ns')[i] == y.nodes[i - |ns|];
    }
    forall i | 0 <= i < |es + es'| ensures size(OneEdge(rest, (es + es')[i])) <= limit {
      assert if i < |es| then (es + es')[i] == x.edges[i] else (es + es')[i] == y.edges[i - |es|];
    }
  }

  /** Chunks of one part followed by chunks of the next. */
  lemma SplitsAppend<R, N, E>(size: Event<R, N, E> -> nat, limit: nat, x: Event<R, N, E>, y: Event<R, N, E>, a: seq<Event<R, N, E>>, b: seq<Event<R, N, E>>)
    requires Splits(size, limit, x, a) && Splits(size, limit, y, b) && x.rest == y.rest
    requires x.edges == [] || y.nodes == []
    ensures Splits(size, limit, Event(x.rest, x.nodes + y.nodes, x.edges + y.edges), a + b)
  {
    ChunksAppend(a, b);
    forall i, j | 0 <= i < j < |a + b| && (a + b)[i].edges != [] ensures (a + b)[j].nodes == [] {
      if i < |a| <= j {
        NodesOnly(a, i);
        NodesOnly(b, j - |a|);
      }
    }
  }

  // ── How full the chunks are ────────────────────────────────────────

  /** The running estimate: the elements' own sizes, and one more for each. */
  function Estimate<T>(of: T -> nat, xs: seq<T>): nat {
    if xs == [] then 0 else Estimate(of, xs[..|xs| - 1]) + of(xs[|xs| - 1]) + 1
  }

  /** The lists are `xs` cut, up to its first `n` elements, and none has room for the element that
      comes after it. */
  ghost predicate Filled<T>(of: T -> nat, budget: int, lists: seq<seq<T>>, xs: seq<T>, n: nat)
    requires n <= |xs|
  {
    lists == [] ||
      var last := lists[|lists| - 1];
      && |last| <= n && (n < |xs| ==> Estimate(of, last) + of(xs[n]) + 1 > budget)
      && Filled(of, budget, lists[..|lists| - 1], xs, n - |last|)
  }

  function NodeLists<R, N, E>(chunks: seq<Event<R, N, E>>): seq<seq<N>> {
    if chunks == [] then [] else NodeLists(chunks[..|chunks| - 1]) + [chunks[|chunks| - 1].nodes]
  }

  function EdgeLists<R, N, E>(chunks: seq<Event<R, N, E>>): seq<seq<E>> {
    if chunks == [] then [] else EdgeLists(chunks[..|chunks| - 1]) + [chunks[|chunks| - 1].edges]
  }

  /** The estimate does not fall short: nodes it finds within the budget fit a message. */
  ghost predicate NodesForetold<R, N(!new), E>(size: Event<R, N, E> -> nat, limit: nat, budget: int, rest: R, nodeSize: N -> nat) {
    forall ns: seq<N> :: Estimate(nodeSize, ns) <= budget ==> size(Event(rest, ns, [])) <= limit
  }

  ghost predicate EdgesForetold<R, N, E(!new)>(size: Event<R, N, E> -> nat, limit: nat, budget: int, rest: R, edgeSize: E -> nat) {
    forall es: seq<E> :: Estimate(edgeSize, es) <= budget ==> size(Event(rest, [], es)) <= limit
  }

  /** The estimate kept while the elements from `a` to `b` go by. */
  function Running<T>(of: T -> nat, xs: seq<T>, a: int, b: int): nat
    requires 0 <= a <= b <= |xs|
    decreases b - a
  {
    if a == b then 0 else Running(of, xs, a, b - 1) + of(xs[b - 1]) + 1
  }

  lemma {:induction false} RunningIs<T>(of: T -> nat, xs: seq<T>, a: nat, b: nat)
    requires a <= b <= |xs|
    ensures Running(of, xs, a, b) == Estimate(of, xs[a..b])
    decreases b - a
  {
    if a < b {
      RunningIs(of, xs, a, b - 1);
      assert xs[a..b][..b - a - 1] == xs[a..b - 1];
    }
  }

  lemma {:induction false} FilledSnoc<T>(of: T -> nat, budget: int, lists: seq<seq<T>>, xs: seq<T>, a: nat, b: nat)
    requires a <= b <= |xs| && Filled(of, budget, lists, xs, a)
    requires b < |xs| ==> Estimate(of, xs[a..b]) + of(xs[b]) + 1 > budget
    ensures Filled(of, budget, lists + [xs[a..b]], xs, b)
  {
    assert (lists + [xs[a..b]])[..|lists|] == lists;
  }

  lemma {:induction false} ListsSnoc<R, N, E>(chunks: seq<Event<R, N, E>>, chunk: Event<R, N, E>)
    ensures NodeLists(chunks + [chunk]) == NodeLists(chunks) + [chunk.nodes]
    ensures EdgeLists(chunks + [chunk]) == EdgeLists(chunks) + [chunk.edges]
  {
    assert (chunks + [chunk])[..|chunks|] == chunks;
  }

  /** The first `k` chunks are filled with nodes, and the others with edges. */
  ghost predicate FilledAt<R, N, E>(ev: Event<R, N, E>, nodeSize: N -> nat, edgeSize: E -> nat, budget: int, chunks: seq<Event<R, N, E>>, k: nat) {
    && k <= |chunks|
    && (forall i :: 0 <= i < k ==> chunks[i].edges == []) && (forall i :: k <= i < |chunks| ==> chunks[i].nodes == [])
    && Filled(nodeSize, budget, NodeLists(chunks[..k]), ev.nodes, |ev.nodes|) && Filled(edgeSize, budget, EdgeLists(chunks[k..]), ev.edges, |ev.edges|)
  }

  lemma {:induction false} BothFilled<R, N, E>(ev: Event<R, N, E>, nodeSize: N -> nat, edgeSize: E -> nat, budget: int, nodes: seq<Event<R, N, E>>, edges: seq<Event<R, N, E>>)
    requires EdgesIn(nodes) == [] && NodesIn(edges) == []
    requires Filled(nodeSize, budget, NodeLists(nodes), ev.nodes, |ev.nodes|) && Filled(edgeSize, budget, EdgeLists(edges), ev.edges, |ev.edges|)
    ensures FilledAt(ev, nodeSize, edgeSize, budget, nodes + edges, |nodes|)
  {
    assert (nodes + edges)[..|nodes|] == nodes && (nodes + edges)[|nodes|..] == edges;
    forall i | 0 <= i < |nodes| ensures nodes[i].edges == [] {
      NodesOnly(nodes, i);
    }
    forall i | 0 <= i < |edges| ensures edges[i].nodes == [] {
      NodesOnly(edges, i);
    }
  }

  /** `splitEvent`. `written` is the size of the event as it is given: a list it has without
      elements is not written as one it has not. An event that fits is sent as it is; one that does
      not, with neither nodes nor edges, is sent as nothing. */
  method SplitEvent<R(!new), N(!new), E(!new)>(ev: Event<R, N, E>, written: nat, limit: nat, size: Event<R, N, E> -> nat, nodeSize: N -> nat, edgeSize: E -> nat) returns (r: Result<seq<Event<R, N, E>>>)
    requires IsSize(size)
    ensures r.Ok? <==> written <= limit || AllFit(size, limit, ev)
    ensures written <= limit ==> r == Ok([ev])
    ensures r.Ok? && written > limit ==> Splits(size, limit, ev, r.value)
    ensures r.Ok? && written > limit && |ev.nodes| + |ev.edges| == 0 ==> r.value == []
    ensures var budget := limit - size(Event(ev.rest, [], []));
      r.Ok? && written > limit && NodesForetold(size, limit, budget, ev.rest, nodeSize) && EdgesForetold(size, limit, budget, ev.rest, edgeSize) ==>
        exists k :: FilledAt(ev, nodeSize, edgeSize, budget, r.value, k)
    decreases |ev.nodes| + |ev.edges|, 4
  {
    if written <= limit {
      return Ok([ev]);
    }
    var budget := limit - size(Event(ev.rest, [], []));
    var nodes := SplitNodes(ev, limit, budget, size, nodeSize, edgeSize);
    if nodes.TooLarge? {
      return TooLarge;
    }
    var edges := SplitEdges(ev, limit, budget, size, nodeSize, edgeSize);
    if edges.TooLarge? {
      return TooLarge;
    }
    r := Ok(nodes.value + edges.value);
    Joined(ev, limit, budget, size, nodeSize, edgeSize, nodes.value, edges.value);
    CutFits(size, limit, ev, r.value);
    if |ev.nodes| + |ev.edges| == 0 {
      NothingSplits(size, limit, ev, r.value);
    }
  }

  lemma {:induction false} Joined<R(!new), N(!new), E(!new)>(ev: Event<R, N, E>, limit: nat, budget: int, size: Event<R, N, E> -> nat, nodeSize: N -> nat, edgeSize: E -> nat, nodes: seq<Event<R, N, E>>, edges: seq<Event<R, N, E>>)
    requires Splits(size, limit, Event(ev.rest, ev.nodes, []), nodes) && Splits(size, limit, Event(ev.rest, [], ev.edges), edges)
    requires NodesForetold(size, limit, budget, ev.rest, nodeSize) ==> Filled(nodeSize, budget, NodeLists(nodes), ev.nodes, |ev.nodes|)
    requires EdgesForetold(size, limit, budget, ev.rest, edgeSize) ==> Filled(edgeSize, budget, EdgeLists(edges), ev.edges, |ev.edges|)
    ensures Splits(size, limit, ev, nodes + edges)
    ensures NodesForetold(size, limit, budget, ev.rest, nodeSize) && EdgesForetold(size, limit, budget, ev.rest, edgeSize) ==>
      exists k :: FilledAt(ev, nodeSize, edgeSize, budget, nodes + edges, k)
  {
    SplitsAppend(size, limit, Event(ev.rest, ev.nodes, []), Event(ev.rest, [], ev.edges), nodes, edges);
    assert ev.nodes + [] == ev.nodes && [] + ev.edges == ev.edges;
    if NodesForetold(size, limit, budget, ev.rest, nodeSize) && EdgesForetold(size, limit, budget, ev.rest, edgeSize) {
      BothFilled(ev, nodeSize, edgeSize, budget, nodes, edges);
    }
  }

  /** `splitEvent` on a chunk. */
  method SplitChunk<R(!new), N(!new), E(!new)>(chunk: Event<R, N, E>, limit: nat, size: Event<R, N, E> -> nat, nodeSize: N -> nat, edgeSize: E -> nat) returns (r: Result<seq<Event<R, N, E>>>)
    requires IsSize(size) && |chunk.nodes| + |chunk.edges| > 0
    ensures r.Ok? <==> AllFit(size, limit, chunk)
    ensures r.Ok? ==> Splits(size, limit, chunk, r.value)
    decreases |chunk.nodes| + |chunk.edges|, 5
  {
    r := SplitEvent(chunk, size(chunk), limit, size, nodeSize, edgeSize);
    if size(chunk) <= limit {
      WholeSplits(size, limit, chunk);
    }
  }

  lemma NothingSplits<R, N, E>(size: Event<R, N, E> -> nat, limit: nat, ev: Event<R, N, E>, chunks: seq<Event<R, N, E>>)
    requires Splits(size, limit, ev, chunks) && ev.nodes == [] && ev.edges == []
    ensures chunks == []
  {
    EnoughElements(chunks);
  }

  lemma {:induction false} EnoughElements<R, N, E>(chunks: seq<Event<R, N, E>>)
    requires forall i :: 0 <= i < |chunks| ==> |chunks[i].nodes| + |chunks[i].edges| > 0
    ensures |NodesIn(chunks)| + |EdgesIn(chunks)| >= |chunks|
  {
    if chunks != [] {
      EnoughElements(chunks[..|chunks| - 1]);
    }
  }

  /** The loop over the nodes: a running estimate decides where to cut; a chunk that is still
      too large is halved. */
  method SplitNodes<R(!new), N(!new), E(!new)>(ev: Event<R, N, E>, limit: nat, budget: int, size: Event<R, N, E> -> nat, nodeSize: N -> nat, edgeSize: E -> nat) returns (r: Result<seq<Event<R, N, E>>>)
    requires IsSize(size)
    ensures r.Ok? <==> AllFit(size, limit, Event(ev.rest, ev.nodes, []))
    ensures r.Ok? ==> Splits(size, limit, Event(ev.rest, ev.nodes, []), r.value)
    ensures r.Ok? && NodesForetold(size, limit, budget, ev.rest, nodeSize) ==> Filled(nodeSize, budget, NodeLists(r.value), ev.nodes, |ev.nodes|)
    decreases |ev.nodes| + |ev.edges|, 3
  {
    var out: seq<Event<R, N, E>> := [];
    ghost var told := NodesForetold(size, limit, budget, ev.rest, nodeSize);
    var estimate, start := 0, 0;
    for i := 0 to |ev.nodes|
      invariant 0 <= start <= i && (i > 0 ==> start < i)
      invariant Splits(size, limit, Event(ev.rest, ev.nodes[..start], []), out)
      invariant estimate == Running(nodeSize, ev.nodes, start, i) && (i - start <= 1 || estimate <= budget)
      invariant told ==> Filled(nodeSize, budget, NodeLists(out), ev.nodes, start)
    {
      if estimate + nodeSize(ev.nodes[i]) + 1 > budget && i > start {
        var more := AppendNodes(ev, out, start, i, limit, budget, size, nodeSize, edgeSize, told);
        if more.TooLarge? {
          return TooLarge;
        }
        out, estimate, start := more.value, 0, i;
      }
      estimate := estimate + nodeSize(ev.nodes[i]) + 1;
    }
    r := LastNodes(ev, out, start, limit, budget, size, nodeSize, edgeSize, told);
  }

  method LastNodes<R(!new), N(!new), E(!new)>(ev: Event<R, N, E>, out: seq<Event<R, N, E>>, start: nat, limit: nat, budget: int, size: Event<R, N, E> -> nat, nodeSize: N -> nat, edgeSize: E -> nat, ghost told: bool) returns (r: Result<seq<Event<R, N, E>>>)
    requires IsSize(size) && start <= |ev.nodes| && (start == |ev.nodes| ==> start == 0)
    requires Splits(size, limit, Event(ev.rest, ev.nodes[..start], []), out)
    requires told ==> NodesForetold(size, limit, budget, ev.rest, nodeSize) && Filled(nodeSize, budget, NodeLists(out), ev.nodes, start)
    requires |ev.nodes| - start <= 1 || Running(nodeSize, ev.nodes, start, |ev.nodes|) <= budget
    ensures r.Ok? <==> AllFit(size, limit, Event(ev.rest, ev.nodes, []))
    ensures r.Ok? ==> Splits(size, limit, Event(ev.rest, ev.nodes, []), r.value)
    ensures r.Ok? && told ==> Filled(nodeSize, budget, NodeLists(r.value), ev.nodes, |ev.nodes|)
    decreases |ev.nodes| - start, 2
  {
    assert ev.nodes[..|ev.nodes|] == ev.nodes;
    if start < |ev.nodes| {
      r := AppendNodes(ev, out, start, |ev.nodes|, limit, budget, size, nodeSize, edgeSize, told);
    } else {
      r := Ok(out);
    }
  }

  lemma {:induction false} FillNodes<R, N(!new), E>(ev: Event<R, N, E>, size: Event<R, N, E> -> nat, limit: nat, budget: int, nodeSize: N -> nat, told: bool, a: nat, b: nat, out: seq<Event<R, N, E>>, part: seq<Event<R, N, E>>)
    requires a < b <= |ev.nodes|
    requires told ==> NodesForetold(size, limit, budget, ev.rest, nodeSize) && Filled(nodeSize, budget, NodeLists(out), ev.nodes, a)
    requires b - a <= 1 || Running(nodeSize, ev.nodes, a, b) <= budget
    requires b == |ev.nodes| || Running(nodeSize, ev.nodes, a, b) + nodeSize(ev.nodes[b]) + 1 > budget
    requires size(Event(ev.rest, ev.nodes[a..b], [])) <= limit || b - a <= 1 ==> part == [Event(ev.rest, ev.nodes[a..b], [])]
    ensures told ==> Filled(nodeSize, budget, NodeLists(out + part), ev.nodes, b)
  {
    if told {
      var chunk := Event(ev.rest, ev.nodes[a..b], []);
      RunningIs(nodeSize, ev.nodes, a, b);
      assert part == [chunk];
      FilledSnoc(nodeSize, budget, NodeLists(out), ev.nodes, a, b);
      ListsSnoc(out, chunk);
    }
  }

  method AppendNodes<R(!new), N(!new), E(!new)>(ev: Event<R, N, E>, out: seq<Event<R, N, E>>, a: nat, b: nat, limit: nat, budget: int, size: Event<R, N, E> -> nat, nodeSize: N -> nat, edgeSize: E -> nat, ghost told: bool) returns (r: Result<seq<Event<R, N, E>>>)
    requires IsSize(size) && a < b <= |ev.nodes|
    requires Splits(size, limit, Event(ev.rest, ev.nodes[..a], []), out)
    requires told ==> NodesForetold(size, limit, budget, ev.rest, nodeSize) && Filled(nodeSize, budget, NodeLists(out), ev.nodes, a)
    requires b - a <= 1 || Running(nodeSize, ev.nodes, a, b) <= budget
    requires b == |ev.nodes| || Running(nodeSize, ev.nodes, a, b) + nodeSize(ev.nodes[b]) + 1 > budget
    ensures AllFit(size, limit, Event(ev.rest, ev.nodes, [])) ==> r.Ok?
    ensures r.Ok? ==> AllFit(size, limit, Event(ev.rest, ev.nodes[..b], [])) && Splits(size, limit, Event(ev.rest, ev.nodes[..b], []), r.value)
    ensures r.Ok? && told ==> Filled(nodeSize, budget, NodeLists(r.value), ev.nodes, b)
    decreases b - a, 1
  {
    var part := EmitNodes(ev.rest, ev.nodes[a..b], limit, size, nodeSize, edgeSize);
    PartOfNodes(size, limit, ev, a, b);
    if part.TooLarge? {
      return TooLarge;
    }
    FlushNodes(size, limit, ev, a, b, out, part.value);
    FillNodes(ev, size, limit, budget, nodeSize, told, a, b, out, part.value);
    CutFits(size, limit, Event(ev.rest, ev.nodes[..b], []), out + part.value);
    r := Ok(out + part.value);
  }

  lemma FlushNodes<R, N, E>(size: Event<R, N, E> -> nat, limit: nat, ev: Event<R, N, E>, a: nat, b: nat, out: seq<Event<R, N, E>>, part: seq<Event<R, N, E>>)
    requires a <= b <= |ev.nodes|
    requires Splits(size, limit, Event(ev.rest, ev.nodes[..a], []), out) && Splits(size, limit, Event(ev.rest, ev.nodes[a..b], []), part)
    ensures Splits(size, limit, Event(ev.rest, ev.nodes[..b], []), out + part)
  {
    SplitsAppend(size, limit, Event(ev.rest, ev.nodes[..a], []), Event(ev.rest, ev.nodes[a..b], []), out, part);
    assert ev.nodes[..a] + ev.nodes[a..b] == ev.nodes[..b];
  }

  lemma PartOfNodes<R, N, E>(size: Event<R, N, E> -> nat, limit: nat, ev: Event<R, N, E>, a: nat, b: nat)
    requires a <= b <= |ev.nodes|
    ensures AllFit(size, limit, Event(ev.rest, ev.nodes, [])) ==> AllFit(size, limit, Event(ev.rest, ev.nodes[a..b], []))
    ensures AllFit(size, limit, Event(ev.rest, ev.nodes[..a], [])) && AllFit(size, limit, Event(ev.rest, ev.nodes[a..b], [])) ==>
      AllFit(size, limit, Event(ev.rest, ev.nodes[..b], []))
  {
    var whole, head, part := Event(ev.rest, ev.nodes, []), Event(ev.rest, ev.nodes[..a], []), Event(ev.rest, ev.nodes[a..b], []);
    if AllFit(size, limit, whole) {
      forall i | 0 <= i < b - a ensures size(OneNode(ev.rest, ev.nodes[a..b][i])) <= limit {
        assert ev.nodes[a..b][i] == whole.nodes[a + i];
      }
    }
    if AllFit(size, limit, head) && AllFit(size, limit, part) {
      forall i | 0 <= i < b ensures size(OneNode(ev.rest, ev.nodes[..b][i])) <= limit {
        assert if i < a then ev.nodes[..b][i] == head.nodes[i] else ev.nodes[..b][i] == part.nodes[i - a];
      }
    }
  }

  lemma HalvesOfNodes<R, N, E>(size: Event<R, N, E> -> nat, limit: nat, rest: R, nodes: seq<N>, mid: nat)
    requires mid <= |nodes|
    ensures AllFit(size, limit, Event(rest, nodes, [])) <==>
      AllFit(size, limit, Event(rest, nodes[..mid], [])) && AllFit(size, limit, Event(rest, nodes[mid..], []))
    ensures nodes[..mid] + nodes[mid..] == nodes
  {
    var chunk: Event<R, N, E> := Event(rest, nodes, []);
    PartOfNodes(size, limit, chunk, 0, mid);
    PartOfNodes(size, limit, chunk, mid, |nodes|);
    assert nodes[0..mid] == nodes[..mid] && nodes[..|nodes|] == nodes && nodes[mid..|nodes|] == nodes[mid..];
  }

  method EmitNodes<R(!new), N(!new), E(!new)>(rest: R, nodes: seq<N>, limit: nat, size: Event<R, N, E> -> nat, nodeSize: N -> nat, edgeSize: E -> nat) returns (r: Result<seq<Event<R, N, E>>>)
    requires IsSize(size) && nodes != []
    ensures r.Ok? <==> AllFit(size, limit, Event(rest, nodes, []))
    ensures r.Ok? ==> Splits(size, limit, Event(rest, nodes, []), r.value)
    ensures r.Ok? && (size(Event(rest, nodes, [])) <= limit || |nodes| <= 1) ==> r.value == [Event(rest, nodes, [])]
    decreases |nodes|, 0
  {
    var chunk := Event(rest, nodes, []);
    if size(chunk) <= limit {
      WholeSplits(size, limit, chunk);
      return Ok([chunk]);
    }
    if |nodes| <= 1 {
      assert chunk == OneNode(rest, nodes[0]);
      return TooLarge;
    }
    var mid := |nodes| / 2;
    HalvesOfNodes(size, limit, rest, nodes, mid);
    var first := SplitChunk(Event(rest, nodes[..mid], []), limit, size, nodeSize, edgeSize);
    if first.TooLarge? {
      return TooLarge;
    }
    var second := SplitChunk(Event(rest, nodes[mid..], []), limit, size, nodeSize, edgeSize);
    if second.TooLarge? {
      return TooLarge;
    }
    SplitsAppend(size, limit, Event(rest, nodes[..mid], []), Event(rest, nodes[mid..], []), first.value, second.value);
    r := Ok(first.value + second.value);
  }

  method SplitEdges<R(!new), N(!new), E(!new)>(ev: Event<R, N, E>, limit: nat, budget: int, size: Event<R, N, E> -> nat, nodeSize: N -> nat, edgeSize: E -> nat) returns (r: Result<seq<Event<R, N, E>>>)
    requires IsSize(size)
    ensures r.Ok? <==> AllFit(size, limit, Event(ev.rest, [], ev.edges))
    ensures r.Ok? ==> Splits(size, limit, Event(ev.rest, [], ev.edges), r.value)
    ensures r.Ok? && EdgesForetold(size, limit, budget, ev.rest, edgeSize) ==> Filled(edgeSize, budget, EdgeLists(r.value), ev.edges, |ev.edges|)
    decreases |ev.nodes| + |ev.edges|, 3
  {
    var out: seq<Event<R, N, E>> := [];
    ghost var told := EdgesForetold(size, limit, budget, ev.rest, edgeSize);
    var estimate, start := 0, 0;
    for i := 0 to |ev.edges|
      invariant 0 <= start <= i && (i > 0 ==> start < i)
      invariant Splits(size, limit, Event(ev.rest, [], ev.edges[..start]), out)
      invariant estimate == Running(edgeSize, ev.edges, start, i) && (i - start <= 1 || estimate <= budget)
      invariant told ==> Filled(edgeSize, budget, EdgeLists(out), ev.edges, start)
    {
      if estimate + edgeSize(ev.edges[i]) + 1 > budget && i > start {
        var more := AppendEdges(ev, out, start, i, limit, budget, size, nodeSize, edgeSize, told);
        if more.TooLarge? {
          return TooLarge;
        }
        out, estimate, start := more.value, 0, i;
      }
      estimate := estimate + edgeSize(ev.edges[i]) + 1;
    }
    r := LastEdges(ev, out, start, limit, budget, size, nodeSize, edgeSize, told);
  }

  method LastEdges<R(!new), N(!new), E(!new)>(ev: Event<R, N, E>, out: seq<Event<R, N, E>>, start: nat, limit: nat, budget: int, size: Event<R, N, E> -> nat, nodeSize: N -> nat, edgeSize: E -> nat, ghost told: bool) returns (r: Result<seq<Event<R, N, E>>>)
    requires IsSize(size) && start <= |ev.edges| && (start == |ev.edges| ==> start == 0)
    requires Splits(size, limit, Event(ev.rest, [], ev.edges[..start]), out)
    requires told ==> EdgesForetold(size, limit, budget, ev.rest, edgeSize) && Filled(edgeSize, budget, EdgeLists(out), ev.edges, start)
    requires |ev.edges| - start <= 1 || Running(edgeSize, ev.edges, start, |ev.edges|) <= budget
    ensures r.Ok? <==> AllFit(size, limit, Event(ev.rest, [], ev.edges))
    ensures r.Ok? ==> Splits(size, limit, Event(ev.rest, [], ev.edges), r.value)
    ensures r.Ok? && told ==> Filled(edgeSize, budget, EdgeLists(r.value), ev.edges, |ev.edges|)
    decreases |ev.edges| - start, 2
  {
    assert ev.edges[..|ev.edges|] == ev.edges;
    if start < |ev.edges| {
      r := AppendEdges(ev, out, start, |ev.edges|, limit, budget, size, nodeSize, edgeSize, told);
    } else {
      r := Ok(out);
    }
  }

  lemma {:induction false} FillEdges<R, N, E(!new)>(ev: Event<R, N, E>, size: Event<R, N, E> -> nat, limit: nat, budget: int, edgeSize: E -> nat, told: bool, a: nat, b: nat, out: seq<Event<R, N, E>>, part: seq<Event<R, N, E>>)
    requires a < b <= |ev.edges|
    requires told ==> EdgesForetold(size, limit, budget, ev.rest, edgeSize) && Filled(edgeSize, budget, EdgeLists(out), ev.edges, a)
    requires b - a <= 1 || Running(edgeSize, ev.edges, a, b) <= budget
    requires b == |ev.edges| || Running(edgeSize, ev.edges, a, b) + edgeSize(ev.edges[b]) + 1 > budget
    requires size(Event(ev.rest, [], ev.edges[a..b])) <= limit || b - a <= 1 ==> part == [Event(ev.rest, [], ev.edges[a..b])]
    ensures told ==> Filled(edgeSize, budget, EdgeLists(out + part), ev.edges, b)
  {
    if told {
      var chunk := Event(ev.rest, [], ev.edges[a..b]);
      RunningIs(edgeSize, ev.edges, a, b);
      assert part == [chunk];
      FilledSnoc(edgeSize, budget, EdgeLists(out), ev.edges, a, b);
      ListsSnoc(out, chunk);
    }
  }

  method AppendEdges<R(!new), N(!new), E(!new)>(ev: Event<R, N, E>, out: seq<Event<R, N, E>>, a: nat, b: nat, limit: nat, budget: int, size: Event<R, N, E> -> nat, nodeSize: N -> nat, edgeSize: E -> nat, ghost told: bool) returns (r: Result<seq<Event<R, N, E>>>)
    requires IsSize(size) && a < b <= |ev.edges|
    requires Splits(size, limit, Event(ev.rest, [], ev.edges[..a]), out)
    requires told ==> EdgesForetold(size, limit, budget, ev.rest, edgeSize) && Filled(edgeSize, budget, EdgeLists(out), ev.edges, a)
    requires b - a <= 1 || Running(edgeSize, ev.edges, a, b) <= budget
    requires b == |ev.edges| || Running(edgeSize, ev.edges, a, b) + edgeSize(ev.edges[b]) + 1 > budget
    ensures AllFit(size, limit, Event(ev.rest, [], ev.edges)) ==> r.Ok?
    ensures r.Ok? ==> AllFit(size, limit, Event(ev.rest, [], ev.edges[..b])) && Splits(size, limit, Event(ev.rest, [], ev.edges[..b]), r.value)
    ensures r.Ok? && told ==> Filled(edgeSize, budget, EdgeLists(r.value), ev.edges, b)
    decreases b - a, 1
  {
    var part := EmitEdges(ev.rest, ev.edges[a..b], limit, size, nodeSize, edgeSize);
    PartOfEdges(size, limit, ev, a, b);
    if part.TooLarge? {
      return TooLarge;
    }
    FlushEdges(size, limit, ev, a, b, out, part.value);
    FillEdges(ev, size, limit, budget, edgeSize, told, a, b, out, part.value);
    CutFits(size, limit, Event(ev.rest, [], ev.edges[..b]), out + part.value);
    r := Ok(out + part.value);
  }

  lemma FlushEdges<R, N, E>(size: Event<R, N, E> -> nat, limit: nat, ev: Event<R, N, E>, a: nat, b: nat, out: seq<Event<R, N, E>>, part: seq<Event<R, N, E>>)
    requires a <= b <= |ev.edges|
    requires Splits(size, limit, Event(ev.rest, [], ev.edges[..a]), out) && Splits(size, limit, Event(ev.rest, [], ev.edges[a..b]), part)
    ensures Splits(size, limit, Event(ev.rest, [], ev.edges[..b]), out + part)
  {
    SplitsAppend(size, limit, Event(ev.rest, [], ev.edges[..a]), Event(ev.rest, [], ev.edges[a..b]), out, part);
    assert ev.edges[..a] + ev.edges[a..b] == ev.edges[..b];
  }

  lemma PartOfEdges<R, N, E>(size: Event<R, N, E> -> nat, limit: nat, ev: Event<R, N, E>, a: nat, b: nat)
    requires a <= b <= |ev.edges|
    ensures AllFit(size, limit, Event(ev.rest, [], ev.edges)) ==> AllFit(size, limit, Event(ev.rest, [], ev.edges[a..b]))
    ensures AllFit(size, limit, Event(ev.rest, [], ev.edges[..a])) && AllFit(size, limit, Event(ev.rest, [], ev.edges[a..b])) ==>
      AllFit(size, limit, Event(ev.rest, [], ev.edges[..b]))
  {
    var whole, head, part := Event(ev.rest, [], ev.edges), Event(ev.rest, [], ev.edges[..a]), Event(ev.rest, [], ev.edges[a..b]);
    if AllFit(size, limit, whole) {
      forall i | 0 <= i < b - a ensures size(OneEdge(ev.rest, ev.edges[a..b][i])) <= limit {
        assert ev.edges[a..b][i] == whole.edges[a + i];
      }
    }
    if AllFit(size, limit, head) && AllFit(size, limit, part) {
      forall i | 0 <= i < b ensures size(OneEdge(ev.rest, ev.edges[..b][i])) <= limit {
        assert if i < a then ev.edges[..b][i] == head.edges[i] else ev.edges[..b][i] == part.edges[i - a];
      }
    }
  }

  lemma HalvesOfEdges<R, N, E>(size: Event<R, N, E> -> nat, limit: nat, rest: R, edges: seq<E>, mid: nat)
    requires mid <= |edges|
    ensures AllFit(size, limit, Event(rest, [], edges)) <==>
      AllFit(size, limit, Event(rest, [], edges[..mid])) && AllFit(size, limit, Event(rest, [], edges[mid..]))
    ensures edges[..mid] + edges[mid..] == edges
  {
    var chunk: Event<R, N, E> := Event(rest, [], edges);
    PartOfEdges(size, limit, chunk, 0, mid);
    PartOfEdges(size, limit, chunk, mid, |edges|);
    assert edges[0..mid] == edges[..mid] && edges[..|edges|] == edges && edges[mid..|edges|] == edges[mid..];
  }

  method EmitEdges<R(!new), N(!new), E(!new)>(rest: R, edges: seq<E>, limit: nat, size: Event<R, N, E> -> nat, nodeSize: N -> nat, edgeSize: E -> nat) returns (r: Result<seq<Event<R, N, E>>>)
    requires IsSize(size) && edges != []
    ensures r.Ok? <==> AllFit(size, limit, Event(rest, [], edges))
    ensures r.Ok? ==> Splits(size, limit, Event(rest, [], edges), r.value)
    ensures r.Ok? && (size(Event(rest, [], edges)) <= limit || |edges| <= 1) ==> r.value == [Event(rest, [], edges)]
    decreases |edges|, 0
  {
    var chunk := Event(rest, [], edges);
    if size(chunk) <= limit {
      WholeSplits(size, limit, chunk);
      return Ok([chunk]);
    }
    if |edges| <= 1 {
      assert chunk == OneEdge(rest, edges[0]);
      return TooLarge;
    }
    var mid := |edges| / 2;
    HalvesOfEdges(size, limit, rest, edges, mid);
    var first := SplitChunk(Event(rest, [], edges[..mid]), limit, size, nodeSize, edgeSize);
    if first.TooLarge? {
      return TooLarge;
    }
    var second := SplitChunk(Event(rest, [], edges[mid..]), limit, size, nodeSize, edgeSize);
    if second.TooLarge? {
      return TooLarge;
    }
    SplitsAppend(size, limit, Event(rest, [], edges[..mid]), Event(rest, [], edges[mid..]), first.value, second.value);
    r := Ok(first.value + second.value);
  }
}
