/** What one trial means: which crown jewels are compromised when exactly the open edges can
    be crossed. Everything here is about the snapshot; nothing depends on the order in which
    it lists its edges. */
module Compromise {
  import opened Graph

  /** What names an edge's draw: its shared cause, or its own endpoints and type. */
  datatype Name = EdgeName(from: string, to: string, typ: string) | CauseName(cause: string)

  function DrawName(e: Edge, index: map<string, Node>): Name {
    var cause := WeightCauseOf(e, Lookup(index, e.to));
    if cause != "" then CauseName(cause) else EdgeName(e.from, e.to, e.typ)
  }

  /** A jewel an attack may start at without the attacker holding it: only an edge into it
      compromises it. */
  predicate ByEdgeOnly(index: map<string, Node>, id: string) {
    IsJewelId(index, id) && index[id].IsSeed() && !index[id].HeldByAttacker()
  }

  /** `es` are open edges of the snapshot, each starting where the one before ended. */
  ghost predicate Crosses(edges: seq<Edge>, open: Edge -> bool, u: string, es: seq<Edge>)
    decreases |es|
  {
    es == [] || (es[0] in edges && open(es[0]) && es[0].from == u && Crosses(edges, open, es[0].to, es[1..]))
  }

  function Arrives(u: string, es: seq<Edge>): string {
    if es == [] then u else es[|es| - 1].to
  }

  ghost predicate CrossesFromSeed(snap: Snapshot, open: Edge -> bool, u: string, es: seq<Edge>) {
    IsSeedId(NodeById(snap.nodes), u) && Crosses(snap.edges, open, u, es)
  }

  ghost predicate Reached(snap: Snapshot, open: Edge -> bool, v: string) {
    exists u, es :: CrossesFromSeed(snap, open, u, es) && Arrives(u, es) == v
  }

  /** An open edge into `v` from another node that was reached. */
  ghost predicate Entered(snap: Snapshot, open: Edge -> bool, v: string) {
    exists e :: e in snap.edges && open(e) && e.to == v && e.from != v && Reached(snap, open, e.from)
  }

  ghost predicate Compromised(snap: Snapshot, open: Edge -> bool, j: string) {
    var index := NodeById(snap.nodes);
    IsJewelId(index, j) && if ByEdgeOnly(index, j) then Entered(snap, open, j) else Reached(snap, open, j)
  }

  ghost function CompromisedSet(snap: Snapshot, open: Edge -> bool): set<string> {
    var index := NodeById(snap.nodes);
    set j | j in index && Compromised(snap, open, j)
  }

  lemma {:induction false} CrossesSnoc(edges: seq<Edge>, open: Edge -> bool, u: string, es: seq<Edge>, e: Edge)
    requires Crosses(edges, open, u, es) && e in edges && open(e) && e.from == Arrives(u, es)
    ensures Crosses(edges, open, u, es + [e]) && Arrives(u, es + [e]) == e.to
    decreases |es|
  {
    if es == [] {
      assert es + [e] == [e];
    } else {
      assert (es + [e])[1..] == es[1..] + [e];
      CrossesSnoc(edges, open, es[0].to, es[1..], e);
    }
  }

  lemma {:induction false} CrossesAppend(edges: seq<Edge>, open: Edge -> bool, u: string, es: seq<Edge>, ds: seq<Edge>)
    requires Crosses(edges, open, u, es) && Crosses(edges, open, Arrives(u, es), ds)
    ensures Crosses(edges, open, u, es + ds) && Arrives(u, es + ds) == Arrives(Arrives(u, es), ds)
    decreases |es|
  {
    if es == [] {
      assert es + ds == ds;
    } else {
      assert (es + ds)[1..] == es[1..] + ds;
      CrossesAppend(edges, open, es[0].to, es[1..], ds);
    }
  }

  lemma SeedIsReached(snap: Snapshot, open: Edge -> bool, u: string)
    requires IsSeedId(NodeById(snap.nodes), u)
    ensures Reached(snap, open, u)
  {
    assert CrossesFromSeed(snap, open, u, []);
  }

  lemma OpenEdgeReaches(snap: Snapshot, open: Edge -> bool, e: Edge)
    requires e in snap.edges && open(e) && Reached(snap, open, e.from)
    ensures Reached(snap, open, e.to)
  {
    var u, es :| CrossesFromSeed(snap, open, u, es) && Arrives(u, es) == e.from;
    CrossesSnoc(snap.edges, open, u, es, e);
    assert CrossesFromSeed(snap, open, u, es + [e]);
  }

  /** With no edge open, an attacker is where nodes are exposed to the internet, open to the public
      or have their credentials exposed; and has compromised the jewels of the last two kinds. */
  lemma NothingOpen(snap: Snapshot, v: string)
    ensures var index, none := NodeById(snap.nodes), (e: Edge) => false;
      && (Reached(snap, none, v) <==> v in index && (index[v].internetExposed || index[v].publicAccess || index[v].credentialExposed))
      && (Compromised(snap, none, v) <==> v in index && index[v].crownJewel && (index[v].publicAccess || index[v].credentialExposed))
  {
    var none := (e: Edge) => false;
    if IsSeedId(NodeById(snap.nodes), v) {
      SeedIsReached(snap, none, v);
    }
  }

  /** A set that holds the seeds and is closed under open edges holds all that is reached. */
  lemma {:induction false} ClosedHoldsReached(snap: Snapshot, open: Edge -> bool, closed: set<string>, u: string, es: seq<Edge>)
    requires u in closed && Crosses(snap.edges, open, u, es)
    requires forall e :: e in snap.edges && open(e) && e.from in closed ==> e.to in closed
    ensures Arrives(u, es) in closed
    decreases |es|
  {
    if es != [] {
      ClosedHoldsReached(snap, open, closed, es[0].to, es[1..]);
    }
  }

  /** `smaller` has the same nodes, and an edge it can cross `larger` can cross too. */
  ghost predicate CrossesLess(smaller: Snapshot, open: Edge -> bool, larger: Snapshot, open': Edge -> bool) {
    && smaller.nodes == larger.nodes
    && forall e :: e in smaller.edges && open(e) ==> e in larger.edges && open'(e)
  }

  lemma {:induction false} CrossingSurvives(smaller: Snapshot, open: Edge -> bool, larger: Snapshot, open': Edge -> bool, u: string, es: seq<Edge>)
    requires CrossesLess(smaller, open, larger, open') && Crosses(smaller.edges, open, u, es)
    ensures Crosses(larger.edges, open', u, es)
    decreases |es|
  {
    if es != [] {
      CrossingSurvives(smaller, open, larger, open', es[0].to, es[1..]);
    }
  }

  lemma ReachedSurvives(smaller: Snapshot, open: Edge -> bool, larger: Snapshot, open': Edge -> bool, v: string)
    requires CrossesLess(smaller, open, larger, open') && Reached(smaller, open, v)
    ensures Reached(larger, open', v)
  {
    var u, es :| CrossesFromSeed(smaller, open, u, es) && Arrives(u, es) == v;
    CrossingSurvives(smaller, open, larger, open', u, es);
    assert CrossesFromSeed(larger, open', u, es);
  }

  /** Being able to cross more never compromises less. */
  lemma MoreOpenMoreCompromised(smaller: Snapshot, open: Edge -> bool, larger: Snapshot, open': Edge -> bool)
    requires CrossesLess(smaller, open, larger, open')
    ensures CompromisedSet(smaller, open) <= CompromisedSet(larger, open')
  {
    forall j | j in CompromisedSet(smaller, open) ensures j in CompromisedSet(larger, open') {
      if ByEdgeOnly(NodeById(smaller.nodes), j) {
        var e :| e in smaller.edges && open(e) && e.to == j && e.from != j && Reached(smaller, open, e.from);
        ReachedSurvives(smaller, open, larger, open', e.from);
        assert Entered(larger, open', j);
      } else {
        ReachedSurvives(smaller, open, larger, open', j);
      }
    }
  }

  /** Only which edges a snapshot holds matters, not the order it lists them in. */
  lemma EdgeOrderIsIrrelevant(a: Snapshot, b: Snapshot, open: Edge -> bool)
    requires a.nodes == b.nodes && multiset(a.edges) == multiset(b.edges)
    ensures CompromisedSet(a, open) == CompromisedSet(b, open)
  {
    forall e ensures e in a.edges <==> e in b.edges {
      assert e in multiset(a.edges) <==> e in multiset(b.edges);
    }
    MoreOpenMoreCompromised(a, open, b, open);
    MoreOpenMoreCompromised(b, open, a, open);
  }
}
