/** The query guard: what a document costs with every fragment spread expanded, and the
    memoised, early-exiting walk that decides whether it is within the limits. */
module QueryGuard {
  import opened Options

  const MAX_DEPTH: nat := 15
  const MAX_SELECTIONS: nat := 2000

  const WEIGHT_SIMULATION: nat := 200
  const WEIGHT_KSHORTEST: nat := 200
  const WEIGHT_VERIFICATION: nat := 5

  /** A field without a selection set has no children. */
  datatype Selection =
    | Field(name: string, args: set<string>, children: seq<Selection>)
    | Inline(children: seq<Selection>)
    | Spread(fragment: string)

  type Fragments = map<string, seq<Selection>>

  datatype Cost = Cost(depth: nat, selections: nat)

  const NOTHING: Cost := Cost(0, 0)

  /** What one resolution of a field costs. */
  function FieldWeight(name: string, args: set<string>): (w: nat)
    ensures w >= 1
  {
    if name == "riskSimulation" then if "iterations" in args || "seed" in args then WEIGHT_SIMULATION else 1
    else if name == "whatIf" then WEIGHT_SIMULATION
    else if name == "kShortestPaths" then WEIGHT_KSHORTEST
    else if name == "verification" then WEIGHT_VERIFICATION
    else 1
  }

  /** Two parts side by side: the deeper depth, and all the selections. */
  function Beside(a: Cost, b: Cost): Cost {
    Cost(if b.depth > a.depth then b.depth else a.depth, a.selections + b.selections)
  }

  function Under(weight: nat, child: Cost): Cost {
    Cost(1 + child.depth, weight + child.selections)
  }

  // ── The full expansion ─────────────────────────────────────────────

  /** The cost of a selection set with every spread expanded, nesting at most `fuel` spreads;
      nothing when that is not enough. An undefined fragment costs nothing. */
  function Full(frags: Fragments, sels: seq<Selection>, fuel: nat): Option<Cost>
    decreases fuel, sels
  {
    if sels == [] then Some(NOTHING)
    else
      var n := |sels| - 1;
      var init, last := Full(frags, sels[..n], fuel), FullOne(frags, sels[n], fuel);
      if init.Some? && last.Some? then Some(Beside(init.value, last.value)) else None
  }

  function FullOne(frags: Fragments, s: Selection, fuel: nat): Option<Cost>
    decreases fuel, s
  {
    match s
    case Field(name, args, children) =>
      var child := Full(frags, children, fuel);
      if child.Some? then Some(Under(FieldWeight(name, args), child.value)) else None
    case Inline(children) => Full(frags, children, fuel)
    case Spread(f) =>
      if f !in frags then Some(NOTHING) else if fuel == 0 then None else Full(frags, frags[f], fuel - 1)
  }

  /** The expansion never ends: it runs into a cycle of spreads. */
  ghost predicate Endless(frags: Fragments, sels: seq<Selection>) {
    forall k: nat :: Full(frags, sels, k) == None
  }

  ghost predicate EndlessOne(frags: Fragments, s: Selection) {
    forall k: nat :: FullOne(frags, s, k) == None
  }

  /** More fuel changes nothing once there is enough. */
  lemma {:induction false} FullMonotone(frags: Fragments, sels: seq<Selection>, k: nat, m: nat)
    requires k <= m && Full(frags, sels, k).Some?
    ensures Full(frags, sels, m) == Full(frags, sels, k)
    decreases k, sels
  {
    if sels != [] {
      var n := |sels| - 1;
      FullMonotone(frags, sels[..n], k, m);
      FullOneMonotone(frags, sels[n], k, m);
    }
  }

  lemma {:induction false} FullOneMonotone(frags: Fragments, s: Selection, k: nat, m: nat)
    requires k <= m && FullOne(frags, s, k).Some?
    ensures FullOne(frags, s, m) == FullOne(frags, s, k)
    decreases k, s
  {
    match s
    case Field(_, _, children) => FullMonotone(frags, children, k, m);
    case Inline(children) => FullMonotone(frags, children, k, m);
    case Spread(f) =>
      if f in frags {
        FullMonotone(frags, frags[f], k - 1, m - 1);
      }
  }

  lemma {:induction false} PartOfFull(frags: Fragments, sels: seq<Selection>, i: nat, k: nat)
    requires i < |sels| && Full(frags, sels, k).Some?
    ensures FullOne(frags, sels[i], k).Some? && FullOne(frags, sels[i], k).value.depth <= Full(frags, sels, k).value.depth
    decreases |sels|
  {
    if i < |sels| - 1 {
      PartOfFull(frags, sels[..|sels| - 1], i, k);
    }
  }

  // ── What the expansion's cost measures ─────────────────────────────

  /** A field as the expansion holds it: its name and what it is given. */
  datatype Resolved = Resolved(name: string, args: set<string>)

  /** `chain` is a chain of fields in the expansion, each inside the one before; inline fragments
      and spreads are looked through. */
  ghost predicate Nested(frags: Fragments, sels: seq<Selection>, fuel: nat, chain: seq<string>)
    decreases fuel, sels
  {
    chain == [] || exists i :: 0 <= i < |sels| && NestedIn(frags, sels[i], fuel, chain)
  }

  ghost predicate NestedIn(frags: Fragments, s: Selection, fuel: nat, chain: seq<string>)
    requires chain != []
    decreases fuel, s
  {
    match s
    case Field(name, _, children) => name == chain[0] && Nested(frags, children, fuel, chain[1..])
    case Inline(children) => Nested(frags, children, fuel, chain)
    case Spread(f) => f in frags && fuel > 0 && Nested(frags, frags[f], fuel - 1, chain)
  }

  /** Every field of the expansion, in document order, or nothing when the fuel runs out. */
  function FieldsOf(frags: Fragments, sels: seq<Selection>, fuel: nat): Option<seq<Resolved>>
    decreases fuel, sels
  {
    if sels == [] then Some([])
    else
      var n := |sels| - 1;
      var init, last := FieldsOf(frags, sels[..n], fuel), FieldsIn(frags, sels[n], fuel);
      if init.Some? && last.Some? then Some(init.value + last.value) else None
  }

  function FieldsIn(frags: Fragments, s: Selection, fuel: nat): Option<seq<Resolved>>
    decreases fuel, s
  {
    match s
    case Field(name, args, children) =>
      var below := FieldsOf(frags, children, fuel);
      if below.Some? then Some([Resolved(name, args)] + below.value) else None
    case Inline(children) => FieldsOf(frags, children, fuel)
    case Spread(f) =>
      if f !in frags then Some([]) else if fuel == 0 then None else FieldsOf(frags, frags[f], fuel - 1)
  }

  /** The weights of the fields, added up. */
  function Weights(fields: seq<Resolved>): nat {
    if fields == [] then 0 else Weights(fields[..|fields| - 1]) + FieldWeight(fields[|fields| - 1].name, fields[|fields| - 1].args)
  }

  lemma {:induction false} WeightsAppend(a: seq<Resolved>, b: seq<Resolved>)
    ensures Weights(a + b) == Weights(a) + Weights(b)
    decreases |b|
  {
    if b == [] {
      assert a + b == a;
    } else {
      WeightsAppend(a, b[..|b| - 1]);
      assert (a + b)[..|a + b| - 1] == a + b[..|b| - 1];
    }
  }

  /** What the weights are: a simulation that runs anew, a what-if and an enumeration of paths cost
      as much as 200 plain fields each, a proof as much as 5. */
  lemma WeightsAre(name: string, args: set<string>)
    ensures name == "riskSimulation" ==> FieldWeight(name, args) == if "iterations" in args || "seed" in args then 200 else 1
    ensures name == "whatIf" || name == "kShortestPaths" ==> FieldWeight(name, args) == 200
    ensures name == "verification" ==> FieldWeight(name, args) == 5
    ensures name !in ["riskSimulation", "whatIf", "kShortestPaths", "verification"] ==> FieldWeight(name, args) == 1
  {
  }

  /** The selections of an expansion are the weights of its fields, added up. */
  lemma {:induction false} SelectionsAreWeights(frags: Fragments, sels: seq<Selection>, fuel: nat)
    ensures Full(frags, sels, fuel).Some? <==> FieldsOf(frags, sels, fuel).Some?
    ensures Full(frags, sels, fuel).Some? ==> Full(frags, sels, fuel).value.selections == Weights(FieldsOf(frags, sels, fuel).value)
    decreases fuel, sels
  {
    if sels != [] {
      var n := |sels| - 1;
      SelectionsAreWeights(frags, sels[..n], fuel);
      SelectionsOfOne(frags, sels[n], fuel);
      if Full(frags, sels, fuel).Some? {
        WeightsAppend(FieldsOf(frags, sels[..n], fuel).value, FieldsIn(frags, sels[n], fuel).value);
      }
    }
  }

  lemma {:induction false} SelectionsOfOne(frags: Fragments, s: Selection, fuel: nat)
    ensures FullOne(frags, s, fuel).Some? <==> FieldsIn(frags, s, fuel).Some?
    ensures FullOne(frags, s, fuel).Some? ==> FullOne(frags, s, fuel).value.selections == Weights(FieldsIn(frags, s, fuel).value)
    decreases fuel, s
  {
    match s
    case Field(name, args, children) =>
      SelectionsAreWeights(frags, children, fuel);
      if Full(frags, children, fuel).Some? {
        var one := [Resolved(name, args)];
        assert one[..0] == [];
        WeightsAppend(one, FieldsOf(frags, children, fuel).value);
      }
    case Inline(children) => SelectionsAreWeights(frags, children, fuel);
    case Spread(f) =>
      if f in frags && fuel > 0 {
        SelectionsAreWeights(frags, frags[f], fuel - 1);
      }
  }

  /** The depth of an expansion is its longest chain: no chain is longer. */
  lemma {:induction false} NoChainIsLonger(frags: Fragments, sels: seq<Selection>, fuel: nat, chain: seq<string>)
    requires Full(frags, sels, fuel).Some? && Nested(frags, sels, fuel, chain)
    ensures |chain| <= Full(frags, sels, fuel).value.depth
    decreases fuel, sels
  {
    if chain != [] {
      var i :| 0 <= i < |sels| && NestedIn(frags, sels[i], fuel, chain);
      PartOfFull(frags, sels, i, fuel);
      match sels[i]
      case Field(_, _, children) => NoChainIsLonger(frags, children, fuel, chain[1..]);
      case Inline(children) => NoChainIsLonger(frags, children, fuel, chain);
      case Spread(f) => NoChainIsLonger(frags, frags[f], fuel - 1, chain);
    }
  }

  /** And some chain is as long. */
  lemma {:induction false} LongestChain(frags: Fragments, sels: seq<Selection>, fuel: nat) returns (chain: seq<string>)
    requires Full(frags, sels, fuel).Some?
    ensures Nested(frags, sels, fuel, chain) && |chain| == Full(frags, sels, fuel).value.depth
    decreases fuel, sels
  {
    chain := [];
    if sels != [] {
      var n := |sels| - 1;
      var init, last := Full(frags, sels[..n], fuel).value, FullOne(frags, sels[n], fuel).value;
      if last.depth > init.depth {
        chain := LongestChainIn(frags, sels[n], fuel);
      } else {
        chain := LongestChain(frags, sels[..n], fuel);
        if chain != [] {
          var i :| 0 <= i < |sels[..n]| && NestedIn(frags, sels[..n][i], fuel, chain);
          assert sels[i] == sels[..n][i];
        }
      }
    }
  }

  lemma {:induction false} LongestChainIn(frags: Fragments, s: Selection, fuel: nat) returns (chain: seq<string>)
    requires FullOne(frags, s, fuel).Some? && FullOne(frags, s, fuel).value.depth > 0
    ensures chain != [] && NestedIn(frags, s, fuel, chain) && |chain| == FullOne(frags, s, fuel).value.depth
    decreases fuel, s
  {
    match s
    case Field(name, _, children) =>
      var below := LongestChain(frags, children, fuel);
      chain := [name] + below;
      assert chain[1..] == below;
    case Inline(children) => chain := LongestChain(frags, children, fuel);
    case Spread(f) => chain := LongestChain(frags, frags[f], fuel - 1);
  }

  // ── What an answer must be ─────────────────────────────────────────

  /** Exact when the expansion ends within the budget; over it otherwise. */
  ghost predicate Right(frags: Fragments, sels: seq<Selection>, r: Cost) {
    && (forall k: nat :: Full(frags, sels, k).Some? ==> Fits(Full(frags, sels, k).value, r))
    && (Endless(frags, sels) ==> r.selections > MAX_SELECTIONS)
  }

  ghost predicate RightOne(frags: Fragments, s: Selection, r: Cost) {
    && (forall k: nat :: FullOne(frags, s, k).Some? ==> Fits(FullOne(frags, s, k).value, r))
    && (EndlessOne(frags, s) ==> r.selections > MAX_SELECTIONS)
  }

  predicate Fits(full: Cost, r: Cost) {
    if full.selections <= MAX_SELECTIONS then r == full else r.selections > MAX_SELECTIONS
  }

  lemma EndlessSplits(frags: Fragments, sels: seq<Selection>, s: Selection)
    ensures Endless(frags, sels + [s]) <==> Endless(frags, sels) || EndlessOne(frags, s)
  {
    assert (sels + [s])[..|sels|] == sels;
    if !Endless(frags, sels) && !EndlessOne(frags, s) {
      var k: nat :| Full(frags, sels, k).Some?;
      var m: nat :| FullOne(frags, s, m).Some?;
      var both := if k < m then m else k;
      FullMonotone(frags, sels, k, both);
      FullOneMonotone(frags, s, m, both);
      assert Full(frags, sels + [s], both).Some?;
    } else {
      forall k: nat ensures Full(frags, sels + [s], k) == None {
        assert Full(frags, sels, k) == None || FullOne(frags, s, k) == None;
      }
    }
  }

  /** A running total that is right stays right when the next part's cost is. */
  lemma RightSnoc(frags: Fragments, sels: seq<Selection>, s: Selection, out: Cost, c: Cost)
    requires Right(frags, sels, out) && RightOne(frags, s, c)
    ensures Right(frags, sels + [s], Beside(out, c))
  {
    EndlessSplits(frags, sels, s);
    assert (sels + [s])[..|sels|] == sels;
    forall k: nat | Full(frags, sels + [s], k).Some? ensures Fits(Full(frags, sels + [s], k).value, Beside(out, c)) {
      assert Full(frags, sels, k).Some? && FullOne(frags, s, k).Some?;
    }
  }

  /** Once the total is over the budget it is right whatever follows: the walk may stop. */
  lemma OverStaysRight(frags: Fragments, sels: seq<Selection>, s: Selection, out: Cost)
    requires Right(frags, sels, out) && out.selections > MAX_SELECTIONS
    ensures Right(frags, sels + [s], out)
  {
    assert (sels + [s])[..|sels|] == sels;
    forall k: nat | Full(frags, sels + [s], k).Some? ensures Fits(Full(frags, sels + [s], k).value, out) {
      assert Full(frags, sels, k).Some?;
    }
  }

  lemma {:induction false} OverSkipsRest(frags: Fragments, sels: seq<Selection>, i: nat, out: Cost)
    requires i <= |sels| && Right(frags, sels[..i], out) && out.selections > MAX_SELECTIONS
    ensures Right(frags, sels, out)
    decreases |sels| - i
  {
    if i == |sels| {
      assert sels[..i] == sels;
    } else {
      OverStaysRight(frags, sels[..i], sels[i], out);
      assert sels[..i + 1] == sels[..i] + [sels[i]];
      OverSkipsRest(frags, sels, i + 1, out);
    }
  }

  lemma RightField(frags: Fragments, s: Selection, child: Cost)
    requires s.Field? && Right(frags, s.children, child)
    ensures RightOne(frags, s, Under(FieldWeight(s.name, s.args), child))
  {
    if EndlessOne(frags, s) {
      forall k: nat ensures Full(frags, s.children, k) == None {
        assert FullOne(frags, s, k) == None;
      }
    }
  }

  lemma RightInline(frags: Fragments, s: Selection, child: Cost)
    requires s.Inline? && Right(frags, s.children, child)
    ensures RightOne(frags, s, child)
  {
    if EndlessOne(frags, s) {
      forall k: nat ensures Full(frags, s.children, k) == None {
        assert FullOne(frags, s, k) == None;
      }
    }
  }

  lemma SpreadEndless(frags: Fragments, f: string)
    requires f in frags
    ensures EndlessOne(frags, Spread(f)) <==> Endless(frags, frags[f])
  {
    if EndlessOne(frags, Spread(f)) {
      forall k: nat ensures Full(frags, frags[f], k) == None {
        assert FullOne(frags, Spread(f), k + 1) == None;
      }
    }
    if Endless(frags, frags[f]) {
      forall k: nat ensures FullOne(frags, Spread(f), k) == None {
        assert k > 0 ==> Full(frags, frags[f], k - 1) == None;
      }
    }
  }

  lemma RightSpread(frags: Fragments, f: string, r: Cost)
    requires f in frags && Right(frags, frags[f], r)
    ensures RightOne(frags, Spread(f), r)
  {
    SpreadEndless(frags, f);
  }

  /** A spread of a fragment the document does not have costs nothing. */
  lemma MissingSpread(frags: Fragments, f: string)
    requires f !in frags
    ensures RightOne(frags, Spread(f), NOTHING)
  {
    assert FullOne(frags, Spread(f), 0) == Some(NOTHING);
  }

  // ── Fragments being walked ─────────────────────────────────────────

  /** Fragment `v` needs more than `k` nested spreads. */
  predicate Needs(frags: Fragments, v: string, k: nat) {
    v in frags && (k == 0 || Full(frags, frags[v], k - 1) == None)
  }

  /** Where the walk stands: `sels` ends within `k` nested spreads, which none of the fragments
      being walked does within one less; or it is endless, and so are they all. */
  ghost predicate Placed(frags: Fragments, sels: seq<Selection>, visiting: set<string>, k: nat) {
    && (forall v :: v in visiting ==> Needs(frags, v, k))
    && (Full(frags, sels, k).Some? || (Endless(frags, sels) && AllEndless(frags, visiting)))
  }

  ghost predicate PlacedOne(frags: Fragments, s: Selection, visiting: set<string>, k: nat) {
    && (forall v :: v in visiting ==> Needs(frags, v, k))
    && (FullOne(frags, s, k).Some? || (EndlessOne(frags, s) && AllEndless(frags, visiting)))
  }

  ghost predicate AllEndless(frags: Fragments, visiting: set<string>) {
    forall v :: v in visiting ==> v in frags && Endless(frags, frags[v])
  }

  /** Each part of a placed selection set is placed. */
  lemma PartPlaced(frags: Fragments, sels: seq<Selection>, i: nat, visiting: set<string>, k: nat) returns (m: nat)
    requires i < |sels| && Placed(frags, sels, visiting, k)
    ensures PlacedOne(frags, sels[i], visiting, m)
  {
    m := k;
    if Full(frags, sels, k).Some? {
      PartOfFull(frags, sels, i, k);
    } else if j: nat :| FullOne(frags, sels[i], j).Some? {
      m := j;
    }
  }

  lemma ChildPlaced(frags: Fragments, s: Selection, visiting: set<string>, k: nat)
    requires !s.Spread? && PlacedOne(frags, s, visiting, k)
    ensures Placed(frags, s.children, visiting, k)
  {
    if EndlessOne(frags, s) {
      forall j: nat ensures Full(frags, s.children, j) == None {
        assert FullOne(frags, s, j) == None;
      }
    }
  }

  /** A spread of a fragment being walked is a cycle. */
  lemma VisitedIsEndless(frags: Fragments, f: string, visiting: set<string>, k: nat)
    requires PlacedOne(frags, Spread(f), visiting, k) && f in visiting
    ensures EndlessOne(frags, Spread(f))
  {
    assert Needs(frags, f, k);
  }

  /** The least fuel that is enough. */
  lemma {:induction false} Least(frags: Fragments, sels: seq<Selection>, k: nat) returns (m: nat)
    requires Full(frags, sels, k).Some?
    ensures m <= k && Full(frags, sels, m).Some? && (m == 0 || Full(frags, sels, m - 1) == None)
    decreases k
  {
    m := k;
    if k > 0 && Full(frags, sels, k - 1).Some? {
      m := Least(frags, sels, k - 1);
    }
  }

  lemma NeedsFewer(frags: Fragments, v: string, m: nat, k: nat)
    requires Needs(frags, v, k) && m <= k
    ensures Needs(frags, v, m)
  {
    if m > 0 && Full(frags, frags[v], m - 1).Some? {
      FullMonotone(frags, frags[v], m - 1, k - 1);
    }
  }

  /** Walking into a fragment not being walked yet. */
  lemma BodyPlaced(frags: Fragments, f: string, visiting: set<string>, k: nat) returns (m: nat)
    requires PlacedOne(frags, Spread(f), visiting, k) && f in frags
    ensures Placed(frags, frags[f], visiting + {f}, m)
  {
    m := 0;
    SpreadEndless(frags, f);
    if FullOne(frags, Spread(f), k).Some? {
      m := Least(frags, frags[f], k - 1);
      forall v | v in visiting + {f} ensures Needs(frags, v, m) {
        if v != f {
          NeedsFewer(frags, v, m, k);
        }
      }
    }
  }

  // ── The guard ──────────────────────────────────────────────────────

  /** The walk over one document: the fragments' costs found so far, those being walked, and -
      for the record - every fragment body it walked into, in order. */
  class Guard {
    const frags: Fragments
    var memo: map<string, Cost>
    var visiting: set<string>
    ghost var walked: seq<string>

    /** Every cost found is right, and a body was walked only for a fragment that is being
        walked or has its cost. */
    ghost predicate Valid()
      reads this
    {
      && (forall f :: f in memo ==> f in frags && Right(frags, frags[f], memo[f]))
      && visiting <= frags.Keys && visiting !! memo.Keys
      && (forall f :: f in walked <==> f in visiting || f in memo)
      && (forall i, j :: 0 <= i < j < |walked| ==> walked[i] != walked[j])
    }

    constructor (frags: Fragments)
      ensures Valid() && this.frags == frags && memo == map[] && visiting == {}
    {
      this.frags := frags;
      memo, visiting, walked := map[], {}, [];
    }

    method SelectionSetCost(sels: seq<Selection>, ghost k: nat) returns (out: Cost)
      requires Valid() && Placed(frags, sels, visiting, k)
      modifies this
      ensures Valid() && visiting == old(visiting) && Right(frags, sels, out)
      decreases frags.Keys - visiting, sels, 1
    {
      out := NOTHING;
      ghost var at := visiting;
      assert Full(frags, sels[..0], 0) == Some(NOTHING);
      for i := 0 to |sels|
        invariant Valid() && visiting == at && Right(frags, sels[..i], out)
      {
        ghost var m := PartPlaced(frags, sels, i, visiting, k);
        var c := SelectionCost(sels[i], m);
        RightSnoc(frags, sels[..i], sels[i], out, c);
        assert sels[..i + 1] == sels[..i] + [sels[i]];
        out := Beside(out, c);
        if out.selections > MAX_SELECTIONS {
          OverSkipsRest(frags, sels, i + 1, out);
          return;
        }
      }
      assert sels[..|sels|] == sels;
    }

    method SelectionCost(s: Selection, ghost k: nat) returns (c: Cost)
      requires Valid() && PlacedOne(frags, s, visiting, k)
      modifies this
      ensures Valid() && visiting == old(visiting) && RightOne(frags, s, c)
      decreases frags.Keys - visiting, s, 1
    {
      match s
      case Field(name, args, children) =>
        ChildPlaced(frags, s, visiting, k);
        var child := SelectionSetCost(children, k);
        RightField(frags, s, child);
        c := Under(FieldWeight(name, args), child);
      case Inline(children) =>
        ChildPlaced(frags, s, visiting, k);
        c := SelectionSetCost(children, k);
        RightInline(frags, s, c);
      case Spread(f) =>
        c := FragmentCost(f, k);
    }

    method FragmentCost(f: string, ghost k: nat) returns (c: Cost)
      requires Valid() && PlacedOne(frags, Spread(f), visiting, k)
      modifies this
      ensures Valid() && visiting == old(visiting) && RightOne(frags, Spread(f), c)
      decreases frags.Keys - visiting, Spread(f), 0
    {
      if f in memo {
        RightSpread(frags, f, memo[f]);
        return memo[f];
      }
      if f in visiting {
        VisitedIsEndless(frags, f, visiting, k);
        return Cost(MAX_DEPTH + 1, MAX_SELECTIONS + 1);
      }
      if f !in frags {
        MissingSpread(frags, f);
        return NOTHING;
      }
      ghost var at := visiting;
      ghost var m := BodyPlaced(frags, f, visiting, k);
      visiting, walked := visiting + {f}, walked + [f];
      c := SelectionSetCost(frags[f], m);
      visiting := visiting - {f};
      assert visiting == at;
      memo := memo[f := c];
      RightSpread(frags, f, c);
    }
  }

  /** An operation is acceptable: its expansion ends, no chain of fields in it is longer than 15,
      and the weights of its fields add up to at most 2000. */
  ghost predicate Acceptable(frags: Fragments, op: seq<Selection>) {
    exists k: nat :: FieldsOf(frags, op, k).Some? && Moderate(frags, op, k)
  }

  ghost predicate Moderate(frags: Fragments, op: seq<Selection>, k: nat)
    requires FieldsOf(frags, op, k).Some?
  {
    && (forall chain :: Nested(frags, op, k, chain) ==> |chain| <= 15)
    && Weights(FieldsOf(frags, op, k).value) <= 2000
  }

  predicate Within(c: Cost) {
    c.depth <= MAX_DEPTH && c.selections <= MAX_SELECTIONS
  }

  lemma {:induction false} ModerateIsWithin(frags: Fragments, op: seq<Selection>, k: nat)
    requires Full(frags, op, k).Some?
    ensures FieldsOf(frags, op, k).Some? && (Moderate(frags, op, k) <==> Within(Full(frags, op, k).value))
  {
    SelectionsAreWeights(frags, op, k);
    var longest := LongestChain(frags, op, k);
    forall chain | Nested(frags, op, k, chain) ensures |chain| <= |longest| {
      NoChainIsLonger(frags, op, k, chain);
    }
  }

  lemma RightDecides(frags: Fragments, op: seq<Selection>, r: Cost)
    requires Right(frags, op, r)
    ensures Within(r) <==> Acceptable(frags, op)
  {
    if k: nat :| Full(frags, op, k).Some? {
      assert Fits(Full(frags, op, k).value, r);
      ModerateIsWithin(frags, op, k);
    }
    if k: nat :| FieldsOf(frags, op, k).Some? && Moderate(frags, op, k) {
      SelectionsAreWeights(frags, op, k);
      ModerateIsWithin(frags, op, k);
      assert Fits(Full(frags, op, k).value, r);
    }
  }

  /** `d` is as long as the longest chain and `w` as much as the weights of an operation's expansion. */
  ghost predicate Costs(frags: Fragments, op: seq<Selection>, d: nat, w: nat) {
    exists k: nat :: FieldsOf(frags, op, k).Some? && w == Weights(FieldsOf(frags, op, k).value) && IsLongest(frags, op, k, d)
  }

  ghost predicate IsLongest(frags: Fragments, op: seq<Selection>, k: nat, d: nat) {
    (exists chain :: Nested(frags, op, k, chain) && |chain| == d) && forall chain :: Nested(frags, op, k, chain) ==> |chain| <= d
  }

  /** An acceptable operation costs what the walk says. */
  lemma RightIsExact(frags: Fragments, op: seq<Selection>, r: Cost)
    requires Right(frags, op, r) && Within(r)
    ensures Costs(frags, op, r.depth, r.selections)
  {
    RightDecides(frags, op, r);
    var k: nat :| FieldsOf(frags, op, k).Some? && Moderate(frags, op, k);
    SelectionsAreWeights(frags, op, k);
    assert Fits(Full(frags, op, k).value, r);
    var longest := LongestChain(frags, op, k);
    forall chain | Nested(frags, op, k, chain) ensures |chain| <= r.depth {
      NoChainIsLonger(frags, op, k, chain);
    }
    ModerateIsWithin(frags, op, k);
    assert IsLongest(frags, op, k, r.depth);
  }

  /** The larger depth and the larger weight. */
  function Worse(a: Cost, b: Cost): Cost {
    Cost(if b.depth > a.depth then b.depth else a.depth, if b.selections > a.selections then b.selections else a.selections)
  }

  function WorstOf(costs: seq<Cost>): Cost {
    if costs == [] then NOTHING else Worse(WorstOf(costs[..|costs| - 1]), costs[|costs| - 1])
  }

  /** `worst` is no smaller than any of the costs and has nothing that none of them has. */
  ghost predicate IsWorst(costs: seq<Cost>, worst: Cost) {
    && (forall c :: c in costs ==> c.depth <= worst.depth && c.selections <= worst.selections)
    && (worst.depth == 0 || exists c :: c in costs && c.depth == worst.depth)
    && (worst.selections == 0 || exists c :: c in costs && c.selections == worst.selections)
  }

  lemma {:induction false} WorstIs(costs: seq<Cost>)
    ensures IsWorst(costs, WorstOf(costs))
    decreases |costs|
  {
    if costs != [] {
      var init, last := costs[..|costs| - 1], costs[|costs| - 1];
      WorstIs(init);
      assert costs == init + [last];
      assert last in costs && forall c :: c in init ==> c in costs;
    }
  }

  ghost predicate AllRight(frags: Fragments, ops: seq<seq<Selection>>, costs: seq<Cost>) {
    |costs| == |ops| && (ops == [] ||
      (AllRight(frags, ops[..|ops| - 1], costs[..|ops| - 1]) && Right(frags, ops[|ops| - 1], costs[|ops| - 1])))
  }

  lemma {:induction false} EachIsRight(frags: Fragments, ops: seq<seq<Selection>>, costs: seq<Cost>, i: nat)
    requires AllRight(frags, ops, costs) && i < |ops|
    ensures Right(frags, ops[i], costs[i])
    decreases |ops|
  {
    if i < |ops| - 1 {
      EachIsRight(frags, ops[..|ops| - 1], costs[..|ops| - 1], i);
    }
  }

  lemma {:induction false} AllRightSnoc(frags: Fragments, ops: seq<seq<Selection>>, costs: seq<Cost>, op: seq<Selection>, c: Cost)
    requires AllRight(frags, ops, costs) && Right(frags, op, c)
    ensures AllRight(frags, ops + [op], costs + [c])
    ensures WorstOf(costs + [c]) == Worse(WorstOf(costs), c)
  {
    assert (costs + [c])[..|costs|] == costs && (ops + [op])[..|ops|] == ops;
  }

  lemma {:induction false} WorstWithin(costs: seq<Cost>)
    ensures Within(WorstOf(costs)) <==> forall i :: 0 <= i < |costs| ==> Within(costs[i])
  {
    WorstIs(costs);
    if forall i :: 0 <= i < |costs| ==> Within(costs[i]) {
      assert forall c :: c in costs ==> Within(c);
    }
  }

  /** The worst of the walks is within the limits exactly when every operation is acceptable. */
  lemma {:induction false} AllAcceptable(frags: Fragments, ops: seq<seq<Selection>>, costs: seq<Cost>)
    requires AllRight(frags, ops, costs)
    ensures Within(WorstOf(costs)) <==> forall i :: 0 <= i < |ops| ==> Acceptable(frags, ops[i])
  {
    WorstWithin(costs);
    forall i | 0 <= i < |ops| ensures Within(costs[i]) <==> Acceptable(frags, ops[i]) {
      EachIsRight(frags, ops, costs, i);
      RightDecides(frags, ops[i], costs[i]);
    }
  }

  ghost predicate AllExact(frags: Fragments, ops: seq<seq<Selection>>, costs: seq<Cost>) {
    |costs| == |ops| && forall i :: 0 <= i < |ops| ==> Costs(frags, ops[i], costs[i].depth, costs[i].selections)
  }

  lemma {:induction false} AllAreExact(frags: Fragments, ops: seq<seq<Selection>>, costs: seq<Cost>)
    requires AllRight(frags, ops, costs) && Within(WorstOf(costs))
    ensures AllExact(frags, ops, costs)
  {
    WorstWithin(costs);
    forall i | 0 <= i < |ops| ensures Costs(frags, ops[i], costs[i].depth, costs[i].selections) {
      EachIsRight(frags, ops, costs, i);
      RightIsExact(frags, ops[i], costs[i]);
    }
  }

  /** What `queryCost` promises: within the limits exactly when every operation is acceptable, and
      then the operations' own worst. */
  ghost predicate Decides(frags: Fragments, ops: seq<seq<Selection>>, worst: Cost) {
    && (worst.depth <= 15 && worst.selections <= 2000 <==> forall i :: 0 <= i < |ops| ==> Acceptable(frags, ops[i]))
    && (worst.depth <= 15 && worst.selections <= 2000 ==> exists costs :: AllExact(frags, ops, costs) && IsWorst(costs, worst))
  }

  lemma {:induction false} WorstDecides(frags: Fragments, ops: seq<seq<Selection>>, costs: seq<Cost>)
    requires AllRight(frags, ops, costs)
    ensures Decides(frags, ops, WorstOf(costs))
  {
    AllAcceptable(frags, ops, costs);
    WorstIs(costs);
    if Within(WorstOf(costs)) {
      AllAreExact(frags, ops, costs);
    }
  }

  /** `queryCost`: the worst depth and the worst weight over the operations; and no fragment's body
      is walked twice in one document. */
  method QueryCost(frags: Fragments, ops: seq<seq<Selection>>) returns (worst: Cost, ghost walked: seq<string>)
    ensures Decides(frags, ops, worst)
    ensures forall i, j :: 0 <= i < j < |walked| ==> walked[i] != walked[j]
  {
    var guard := new Guard(frags);
    worst := NOTHING;
    ghost var costs: seq<Cost> := [];
    for i := 0 to |ops|
      invariant guard.Valid() && guard.visiting == {} && guard.frags == frags && fresh(guard)
      invariant AllRight(frags, ops[..i], costs) && worst == WorstOf(costs)
    {
      ghost var k := EveryOpPlaced(frags, ops[i]);
      var c := guard.SelectionSetCost(ops[i], k);
      AllRightSnoc(frags, ops[..i], costs, ops[i], c);
      assert ops[..i + 1] == ops[..i] + [ops[i]];
      worst, costs := Worse(worst, c), costs + [c];
    }
    assert ops[..|ops|] == ops;
    WorstDecides(frags, ops, costs);
    walked := guard.walked;
  }

  lemma EveryOpPlaced(frags: Fragments, op: seq<Selection>) returns (k: nat)
    ensures Placed(frags, op, {}, k)
  {
    k := 0;
    if j: nat :| Full(frags, op, j).Some? {
      k := j;
    }
  }
}
