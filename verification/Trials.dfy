/** The trials over a compiled graph: marks stamped with a generation, so that a trial starts
    without clearing what earlier trials left. */
module Trials {
  import opened Sequences
  import opened Graph
  import opened Compromise
  import opened MonteCarlo
  import opened Walks

  /** Generations are 32-bit. */
  const GENERATIONS: nat := 0x1_0000_0000

  /** An edge opens when its name's draw in this trial falls under its probability. */
  function LiveIn(g: Compiled, draw: Name -> real, prob: seq<real>): Live {
    (k: nat) => k < |g.name| && k < |prob| && draw(g.name[k]) < prob[k]
  }

  function Among(s: seq<nat>): set<nat> {
    set x | x in s
  }

  lemma AmongSnoc(s: seq<nat>, n: nat)
    requires n < |s|
    ensures Among(s[..n + 1]) == Among(s[..n]) + {s[n]}
  {
    assert s[..n + 1] == s[..n] + [s[n]];
  }

  class Trials {
    const g: Compiled
    const visited: array<nat>
    const hit: array<nat>
    var gen: nat
    var stack: seq<nat>

    ghost predicate Valid()
      reads this, visited, hit
    {
      && Shaped(g) && visited != hit && visited.Length == hit.Length == |g.ids|
      && gen < GENERATIONS
      && (forall i :: 0 <= i < visited.Length ==> visited[i] <= gen)
      && (forall i :: 0 <= i < hit.Length ==> hit[i] <= gen)
    }

    ghost function Stamped(a: array<nat>): set<nat>
      reads this, a
    {
      set i: nat | i < a.Length && a[i] == gen
    }

    /** The marks of the running trial. */
    ghost function Marks(): Walk
      reads this, visited, hit
    {
      Walk(Stamped(visited), Stamped(hit), stack)
    }

    constructor (g: Compiled)
      requires Shaped(g)
      ensures Valid() && this.g == g && fresh(visited) && fresh(hit)
    {
      this.g := g;
      visited := new nat[|g.ids|](i => 0);
      hit := new nat[|g.ids|](i => 0);
      gen, stack := 0, [];
    }

    /** A new generation marks nothing yet; when it wraps round to zero, the old stamps are
        cleared first. */
    method Begin()
      requires Valid()
      modifies this, visited, hit
      ensures Valid() && Marks() == Walk({}, {}, [])
      ensures gen == if old(gen) == 4294967295 then 1 else old(gen) + 1
    {
      gen := (gen + 1) % GENERATIONS;
      if gen == 0 {
        forall i | 0 <= i < visited.Length {
          visited[i] := 0;
        }
        forall i | 0 <= i < hit.Length {
          hit[i] := 0;
        }
        gen := 1;
      }
      stack := [];
    }

    method MarkSeed(s: nat)
      requires Valid() && s < |g.ids| && Waiting()
      modifies this`stack, visited
      ensures Valid() && Waiting() && Stamped(hit) == old(Stamped(hit)) && Stamped(visited) == old(Stamped(visited)) + {s}
    {
      ghost var before := Stamped(visited);
      if visited[s] != gen {
        visited[s] := gen;
        stack := stack + [s];
        assert Stamped(visited) == before + {s};
      } else {
        assert before + {s} == before;
      }
    }

    /** Everything marked waits on the stack, once. */
    ghost predicate Waiting()
      reads this, visited
    {
      (set s | s in stack) == Stamped(visited) && |stack| == |Stamped(visited)|
    }

    method MarkSeeds()
      requires Valid() && Marks() == Walk({}, {}, [])
      modifies this`stack, visited
      ensures Valid() && Marks().hit == {} && Marks().visited == (set s | s in g.seeds) && Waiting()
    {
      for n := 0 to |g.seeds|
        invariant Valid() && Waiting() && Stamped(hit) == {} && Stamped(visited) == Among(g.seeds[..n])
      {
        AmongSnoc(g.seeds, n);
        MarkSeed(g.seeds[n]);
      }
      assert g.seeds[..|g.seeds|] == g.seeds;
    }

    /** Crosses one edge from `cur`, or skips it: a node already marked is done with, unless
        it is a jewel only an edge compromises and none has yet. */
    method CrossEdge(cur: nat, k: nat, draw: Name -> real, prob: seq<real>)
      requires Valid() && k < |g.to| == |prob|
      modifies this`stack, visited, hit
      ensures Valid() && Marks() == Cross(g, LiveIn(g, draw, prob), cur, old(Marks()), k)
    {
      var to := g.to[k];
      if to == cur {
        return;
      }
      var seen := visited[to] == gen;
      ghost var before := Marks();
      assert before.visited + {to} == before.visited || !seen;
      if seen && !(g.byEdgeOnly[to] && hit[to] != gen) {
        assert g.byEdgeOnly[to] ==> before.hit + {to} == before.hit;
        return;
      }
      if draw(g.name[k]) >= prob[k] {
        return;
      }
      if g.byEdgeOnly[to] {
        hit[to] := gen;
      }
      assert Stamped(hit) == if g.byEdgeOnly[to] then before.hit + {to} else before.hit;
      if !seen {
        visited[to] := gen;
        stack := stack + [to];
      }
      assert Stamped(visited) == before.visited + {to};
    }

    method ExpandTop(draw: Name -> real, prob: seq<real>)
      requires Valid() && |g.to| == |prob| && stack != [] && stack[|stack| - 1] < |g.ids|
      modifies this`stack, visited, hit
      ensures Valid() && Marks() == Expand(g, LiveIn(g, draw, prob), old(Marks()))
    {
      var cur := stack[|stack| - 1];
      stack := stack[..|stack| - 1];
      ghost var popped := Marks();
      for i := 0 to |g.adj[cur]|
        invariant Valid() && AreEdges(g, g.adj[cur][..i])
        invariant Marks() == CrossAll(g, LiveIn(g, draw, prob), cur, popped, g.adj[cur][..i])
      {
        assert g.adj[cur][..i + 1][..i] == g.adj[cur][..i];
        CrossEdge(cur, g.adj[cur][i], draw, prob);
      }
      assert g.adj[cur][..|g.adj[cur]|] == g.adj[cur];
      assert popped == old(Marks()).(stack := old(stack)[..|old(stack)| - 1]);
    }

    /** One trial marks exactly what is reachable over the open edges, whatever earlier trials
        left in the stamps. */
    method Run(draw: Name -> real, prob: seq<real>, ghost snap: Snapshot, ghost open: Edge -> bool)
      requires Valid() && |g.to| == |prob| && CompiledFrom(g, snap)
      requires Opens(snap.edges, LiveIn(g, draw, prob), open)
      modifies this, visited, hit
      ensures Valid() && MarksReached(snap, open, g, Marks())
    {
      ghost var live := LiveIn(g, draw, prob);
      Begin();
      MarkSeeds();
      SeedsStart(snap, open, g, live, Marks());
      while stack != []
        invariant Valid() && WalkInv(snap, open, g, live, Marks())
        decreases |g.ids| + |stack| - |Marks().visited|
      {
        ExpandKeeps(snap, open, g, live, Marks());
        ExpandShrinks(g, live, Marks());
        MarksAreBounded(g, Expand(g, live, Marks()), snap, open);
        ExpandTop(draw, prob);
      }
      EmptiedMarksReached(snap, open, g, live, Marks());
    }

    /** Whether the last trial compromised node `j`. */
    predicate Reached(j: nat)
      requires Valid() && j < |g.ids|
      reads this, visited, hit
    {
      if g.byEdgeOnly[j] then hit[j] == gen else visited[j] == gen
    }

    /** The nodes the last trial compromised. */
    ghost function ReachedNodes(): set<nat>
      requires Valid()
      reads this, visited, hit
    {
      set i: nat | i < |g.ids| && Reached(i)
    }

    method AnyJewel() returns (any: bool)
      requires Valid()
      ensures any <==> exists j :: j in g.jewels && j in ReachedNodes()
    {
      for n := 0 to |g.jewels|
        invariant forall i :: 0 <= i < n ==> !Reached(g.jewels[i])
      {
        if Reached(g.jewels[n]) {
          assert g.jewels[n] in g.jewels && g.jewels[n] in ReachedNodes();
          return true;
        }
      }
      return false;
    }
  }

  lemma ReachedIsCompromised(t: Trials, snap: Snapshot, open: Edge -> bool, j: nat)
    requires t.Valid() && CompiledFrom(t.g, snap) && MarksReached(snap, open, t.g, t.Marks()) && j in t.g.jewels
    ensures t.Reached(j) <==> t.g.ids[j] in CompromisedSet(snap, open)
  {
    assert j in t.Marks().visited <==> t.visited[j] == t.gen;
    assert j in t.Marks().hit <==> t.hit[j] == t.gen;
  }

  lemma CrossKeepsBalance(g: Compiled, live: Live, cur: nat, w: Walk, k: nat)
    requires Shaped(g) && k < |g.to|
    ensures var w' := Cross(g, live, cur, w, k); |w'.stack| - |w'.visited| == |w.stack| - |w.visited|
  {
    assert g.to[k] in w.visited ==> w.visited + {g.to[k]} == w.visited;
  }

  lemma {:induction false} CrossAllKeepsBalance(g: Compiled, live: Live, cur: nat, w: Walk, ks: seq<nat>)
    requires Shaped(g) && AreEdges(g, ks)
    ensures var w' := CrossAll(g, live, cur, w, ks); |w'.stack| - |w'.visited| == |w.stack| - |w.visited|
  {
    if ks != [] {
      CrossAllKeepsBalance(g, live, cur, w, ks[..|ks| - 1]);
      CrossKeepsBalance(g, live, cur, CrossAll(g, live, cur, w, ks[..|ks| - 1]), ks[|ks| - 1]);
    }
  }

  /** A node is pushed once, when it is first marked: every expansion uses one up. */
  lemma ExpandShrinks(g: Compiled, live: Live, w: Walk)
    requires Shaped(g) && w.stack != [] && w.stack[|w.stack| - 1] < |g.adj|
    ensures var w' := Expand(g, live, w); |w'.stack| - |w'.visited| < |w.stack| - |w.visited|
  {
    var n := |w.stack| - 1;
    CrossAllKeepsBalance(g, live, w.stack[n], w.(stack := w.stack[..n]), g.adj[w.stack[n]]);
  }

  lemma MarksAreBounded(g: Compiled, w: Walk, snap: Snapshot, open: Edge -> bool)
    requires Justified(snap, open, g, w)
    ensures |w.visited| <= |g.ids|
  {
    BoundedSet(w.visited, |g.ids|);
  }
}
