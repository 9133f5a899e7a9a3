/** The pass over all seeds and crown jewels: which routes are listed, and in what order. */
module CriticalPaths {
  import opened Sequences
  import opened Graph
  import opened Search
  import opened AttackPath
  import opened Sorting
  import Chain

  ghost function IdsOf(nodes: seq<Node>): set<string> {
    set n | n in nodes :: n.id
  }

  lemma IdsSnoc(nodes: seq<Node>, i: nat)
    requires i < |nodes|
    ensures IdsOf(nodes[..i + 1]) == IdsOf(nodes[..i]) + {nodes[i].id}
  {
    assert nodes[..i + 1] == nodes[..i] + [nodes[i]];
  }

  lemma {:induction false} IdsAreKeys(nodes: seq<Node>)
    ensures IdsOf(nodes[..|nodes|]) == NodeById(nodes).Keys
    ensures forall i :: 0 <= i < |nodes| ==> nodes[i].id in NodeById(nodes)
    ensures forall id :: id in NodeById(nodes) ==> NodeById(nodes)[id].id == id
  {
    assert nodes[..|nodes|] == nodes;
    assert forall id :: id in NodeById(nodes) ==> NodeById(nodes)[id] in nodes;
  }

  /** `a` is listed before any listing of `b`. */
  ghost predicate ListedBefore(nodes: seq<Node>, a: string, b: string) {
    exists i :: 0 <= i < |nodes| && nodes[i].id == a && b !in IdsOf(nodes[..i + 1])
  }

  ghost predicate InListingOrder(nodes: seq<Node>, ids: seq<string>) {
    forall i, j :: 0 <= i < j < |ids| ==> ListedBefore(nodes, ids[i], ids[j])
  }

  lemma ListedFirst(nodes: seq<Node>, n: nat)
    requires n < |nodes| && nodes[n].id !in IdsOf(nodes[..n])
    ensures forall k :: k in IdsOf(nodes[..n]) ==> ListedBefore(nodes, k, nodes[n].id)
  {
    forall k | k in IdsOf(nodes[..n]) ensures ListedBefore(nodes, k, nodes[n].id) {
      var i :| 0 <= i < n && nodes[..n][i].id == k;
      assert forall m :: m in nodes[..i + 1] ==> m in nodes[..n];
      assert nodes[i].id == k && nodes[n].id !in IdsOf(nodes[..i + 1]);
    }
  }

  /** A node listed twice is one seed and one jewel, with its last listing's properties. */
  method SeedsAndJewels(nodes: seq<Node>, index: map<string, Node>) returns (seeds: seq<string>, jewels: seq<string>)
    requires index == NodeById(nodes)
    ensures Distinct(seeds) && Distinct(jewels)
    ensures forall id :: id in seeds <==> IsSeedId(index, id)
    ensures forall id :: id in jewels <==> IsJewelId(index, id)
    ensures InListingOrder(nodes, seeds) && InListingOrder(nodes, jewels)
  {
    seeds, jewels := [], [];
    IdsAreKeys(nodes);
    var listed: set<string> := {};
    ghost var isSeed, isJewel := (k: string) => IsSeedId(index, k), (k: string) => IsJewelId(index, k);
    for i := 0 to |nodes|
      invariant listed == IdsOf(nodes[..i])
      invariant PickedFrom(nodes, listed, isSeed, seeds) && PickedFrom(nodes, listed, isJewel, jewels)
    {
      IdsSnoc(nodes, i);
      var id := nodes[i].id;
      if id in listed {
        assert listed + {id} == listed;
        continue;
      }
      var n := index[id];
      ListedFirst(nodes, i);
      seeds := Pick(seeds, id, n.IsSeed(), nodes, listed, isSeed);
      jewels := Pick(jewels, id, n.crownJewel, nodes, listed, isJewel);
      listed := listed + {id};
    }
  }

  /** `ids` are the wanted ones of those listed so far, once each and in listing order. */
  ghost predicate PickedFrom(nodes: seq<Node>, listed: set<string>, wants: string -> bool, ids: seq<string>) {
    && Distinct(ids) && InListingOrder(nodes, ids)
    && forall k :: k in ids <==> k in listed && wants(k)
  }

  method Pick(ids: seq<string>, id: string, wanted: bool, ghost nodes: seq<Node>, ghost listed: set<string>, ghost wants: string -> bool) returns (r: seq<string>)
    requires PickedFrom(nodes, listed, wants, ids) && id !in listed && wanted == wants(id)
    requires forall k :: k in listed ==> ListedBefore(nodes, k, id)
    ensures PickedFrom(nodes, listed + {id}, wants, r)
  {
    if !wanted {
      return ids;
    }
    DistinctSnoc(ids, id);
    r := ids + [id];
  }

  /** The path of a jewel already held: the jewel alone, certain. */
  function DirectAccessPath(jewel: Node): AttackPath {
    AttackPath([jewel], [], 1.0, 1.0, jewel.runtimeAlert, true)
  }

  method AssembleDirect(jewel: Node) returns (ap: AttackPath)
    ensures ap == DirectAccessPath(jewel)
  {
    ap := AssembleAttackPath([jewel], []);
    assert Chain.Factors(HopsOf([])) == [];
    ap := ap.(direct := true);
  }

  /** The held jewels, each once. */
  method DirectAccessPaths(nodes: seq<Node>, index: map<string, Node>) returns (out: seq<AttackPath>, ghost held: seq<string>)
    requires index == NodeById(nodes)
    ensures Distinct(held) && InListingOrder(nodes, held) && DirectOf(out, held, index)
    ensures forall id :: id in held <==> IsHeldJewelId(index, id)
  {
    out, held := [], [];
    IdsAreKeys(nodes);
    var seen: set<string> := {};
    for i := 0 to |nodes|
      invariant seen == IdsOf(nodes[..i])
      invariant Distinct(held) && InListingOrder(nodes, held) && DirectOf(out, held, index)
      invariant forall id :: id in held <==> id in seen && IsHeldJewelId(index, id)
    {
      IdsSnoc(nodes, i);
      var id := nodes[i].id;
      if id in seen {
        assert seen + {id} == seen;
        continue;
      }
      var n := index[id];
      ListedFirst(nodes, i);
      out := DirectWith(out, n.crownJewel && n.HeldByAttacker(), id, index, held);
      held := HeldWith(held, id, n.crownJewel && n.HeldByAttacker(), nodes, seen, k => IsHeldJewelId(index, k));
      seen := seen + {id};
    }
  }

  /** The direct paths of these jewels, in order. */
  ghost predicate DirectOf(out: seq<AttackPath>, held: seq<string>, index: map<string, Node>) {
    |out| == |held| && forall k :: 0 <= k < |held| ==> out[k] == DirectAccessPath(Lookup(index, held[k]))
  }

  method DirectWith(out: seq<AttackPath>, wanted: bool, id: string, index: map<string, Node>, ghost held: seq<string>) returns (r: seq<AttackPath>)
    requires DirectOf(out, held, index) && id in index
    ensures DirectOf(r, if wanted then held + [id] else held, index)
  {
    r := out;
    if wanted {
      var ap := AssembleDirect(index[id]);
      r := out + [ap];
    }
  }

  ghost method HeldWith(held: seq<string>, id: string, wanted: bool, nodes: seq<Node>, listed: set<string>, wants: string -> bool) returns (r: seq<string>)
    requires Distinct(held) && id !in listed && (forall k :: k in held <==> k in listed && wants(k)) && wanted == wants(id)
    requires InListingOrder(nodes, held) && forall k :: k in listed ==> ListedBefore(nodes, k, id)
    ensures r == if wanted then held + [id] else held
    ensures Distinct(r) && InListingOrder(nodes, r) && forall k :: k in r <==> k in listed + {id} && wants(k)
  {
    if wanted {
      DistinctSnoc(held, id);
    }
    r := if wanted then held + [id] else held;
  }

  /** The jewels a seed lists a route to, in jewel order. */
  ghost function Targets(adj: Adjacency, seed: string, jewels: seq<string>): seq<string> {
    if jewels == [] then []
    else
      var j := jewels[|jewels| - 1];
      Targets(adj, seed, jewels[..|jewels| - 1]) + if j != seed && Reaches(adj, seed, j) then [j] else []
  }

  lemma {:induction false} TargetsAre(adj: Adjacency, seed: string, jewels: seq<string>, j: string)
    requires Distinct(jewels)
    ensures Distinct(Targets(adj, seed, jewels))
    ensures j in Targets(adj, seed, jewels) <==> j in jewels && j != seed && Reaches(adj, seed, j)
  {
    if jewels != [] {
      var init, last := jewels[..|jewels| - 1], jewels[|jewels| - 1];
      assert jewels == init + [last];
      TargetsAre(adj, seed, init, j);
      TargetsAre(adj, seed, init, last);
    }
  }

  /** One seed's search: the best route to every other jewel it reaches. */
  method PathsFromSeed(seed: string, jewels: seq<string>, adj: Adjacency, index: map<string, Node>, sc: Scratch) returns (out: seq<AttackPath>)
    requires NonNegative(adj)
    modifies sc, sc.pq
    ensures |out| == |Targets(adj, seed, jewels)|
    ensures forall k :: 0 <= k < |out| ==> BestRoute(out[k], index, adj, seed, Targets(adj, seed, jewels)[k])
  {
    var dist, prev := Dijkstra(seed, adj, sc);
    out := [];
    for i := 0 to |jewels|
      invariant |out| == |Targets(adj, seed, jewels[..i])|
      invariant forall k :: 0 <= k < |out| ==> BestRoute(out[k], index, adj, seed, Targets(adj, seed, jewels[..i])[k])
    {
      assert jewels[..i + 1][..i] == jewels[..i];
      SearchReaches(seed, adj, dist, prev, jewels[i]);
      if seed == jewels[i] || jewels[i] !in dist {
        continue;
      }
      var ap := Reconstruct(seed, jewels[i], prev, index, dist, adj);
      out := out + [ap];
    }
    assert jewels[..|jewels|] == jewels;
  }

  lemma SearchReaches(seed: string, adj: Adjacency, dist: map<string, real>, prev: map<string, Step>, v: string)
    requires NonNegative(adj) && SearchResult(seed, adj, dist, prev)
    ensures v in dist <==> Reaches(adj, seed, v)
  {
    var link :| RunResult(seed, adj, dist, link) && prev == StepsOf(link);
    var rank := RunFinishes(seed, adj, dist, link);
    FinishedIsShortest(dist, link, seed, adj, rank, v);
  }

  /** Runtime-confirmed paths first, then by score. */
  predicate RanksBefore(p: AttackPath, q: AttackPath) {
    if p.runtimeConfirmed != q.runtimeConfirmed then p.runtimeConfirmed else p.score > q.score
  }

  /** What names a listed path: its seed, its jewel, and whether it is held directly. */
  function Key(p: AttackPath): (bool, string, string) {
    if p.nodes == [] then (p.direct, "", "") else (p.direct, p.nodes[0].id, p.nodes[|p.nodes| - 1].id)
  }

  lemma RouteKey(ap: AttackPath, index: map<string, Node>, adj: Adjacency, u: string, v: string)
    requires BestRoute(ap, index, adj, u, v)
    requires u in index && index[u].id == u && v in index && index[v].id == v
    ensures Key(ap) == (false, u, v)
  {
    var es :| Shortest(adj, u, v, es) && Reports(ap, index, u, es);
  }

  ghost predicate KeysDiffer(r: seq<AttackPath>) {
    forall i, j :: 0 <= i < j < |r| ==> Key(r[i]) != Key(r[j])
  }

  ghost predicate IsRoutePair(index: map<string, Node>, adj: Adjacency, s: string, j: string) {
    IsSeedId(index, s) && IsJewelId(index, j) && s != j && Reaches(adj, s, j)
  }

  /** `p` belongs on the list: a held jewel, or the best route between a seed and a jewel. */
  ghost predicate Belongs(p: AttackPath, index: map<string, Node>, adj: Adjacency) {
    var (direct, s, j) := Key(p);
    if direct then IsHeldJewelId(index, s) && p == DirectAccessPath(index[s])
    else IsRoutePair(index, adj, s, j) && BestRoute(p, index, adj, s, j)
  }

  ghost predicate Lists(r: seq<AttackPath>, key: (bool, string, string)) {
    exists p :: p in r && Key(p) == key
  }

  /** What the list is: only paths that belong, no two of one key, and none missing. */
  ghost predicate Complete(r: seq<AttackPath>, index: map<string, Node>, adj: Adjacency) {
    && KeysDiffer(r)
    && (forall p :: p in r ==> Belongs(p, index, adj))
    && (forall id :: IsHeldJewelId(index, id) ==> Lists(r, (true, id, id)))
    && (forall s, j :: IsRoutePair(index, adj, s, j) ==> Lists(r, (false, s, j)))
  }

  lemma {:induction false} TargetsInOrder(nodes: seq<Node>, adj: Adjacency, seed: string, jewels: seq<string>)
    requires Distinct(jewels) && InListingOrder(nodes, jewels)
    ensures InListingOrder(nodes, Targets(adj, seed, jewels))
  {
    if jewels != [] {
      var n := |jewels| - 1;
      var init, last := jewels[..n], jewels[n];
      TargetsInOrder(nodes, adj, seed, init);
      var ts := Targets(adj, seed, init);
      forall i | 0 <= i < |ts| ensures ListedBefore(nodes, ts[i], last) {
        assert ts[i] in ts;
        TargetsAre(adj, seed, init, ts[i]);
        var k :| 0 <= k < |init| && init[k] == ts[i];
        assert ListedBefore(nodes, jewels[k], jewels[n]);
      }
    }
  }

  /** Seed by seed, and jewel by jewel for each. */
  ghost predicate PairBefore(nodes: seq<Node>, p: (string, string), q: (string, string)) {
    ListedBefore(nodes, p.0, q.0) || (p.0 == q.0 && ListedBefore(nodes, p.1, q.1))
  }

  lemma {:induction false} PairsInOrder(nodes: seq<Node>, adj: Adjacency, seeds: seq<string>, jewels: seq<string>)
    requires Distinct(seeds) && Distinct(jewels) && InListingOrder(nodes, seeds) && InListingOrder(nodes, jewels)
    ensures forall i, j :: 0 <= i < j < |Pairs(adj, seeds, jewels)| ==> PairBefore(nodes, Pairs(adj, seeds, jewels)[i], Pairs(adj, seeds, jewels)[j])
    decreases |seeds|
  {
    if seeds != [] {
      var n := |seeds| - 1;
      var init, last := seeds[..n], seeds[n];
      PairsInOrder(nodes, adj, init, jewels);
      TargetsInOrder(nodes, adj, last, jewels);
      PairsAre(adj, init, jewels);
      var before, ts := Pairs(adj, init, jewels), Targets(adj, last, jewels);
      var more := seq(|ts|, i requires 0 <= i < |ts| => (last, ts[i]));
      assert Pairs(adj, seeds, jewels) == before + more;
      forall i | 0 <= i < |before| ensures ListedBefore(nodes, before[i].0, last) {
        assert (before[i].0, before[i].1) in before;
        var k :| 0 <= k < |init| && init[k] == before[i].0;
        assert ListedBefore(nodes, seeds[k], seeds[n]);
      }
      BeforeAppend(nodes, before, more);
    }
  }

  lemma BeforeAppend(nodes: seq<Node>, a: seq<(string, string)>, b: seq<(string, string)>)
    requires forall i, j :: 0 <= i < j < |a| ==> PairBefore(nodes, a[i], a[j])
    requires forall i, j :: 0 <= i < j < |b| ==> PairBefore(nodes, b[i], b[j])
    requires forall i, j :: 0 <= i < |a| && 0 <= j < |b| ==> PairBefore(nodes, a[i], b[j])
    ensures forall i, j :: 0 <= i < j < |a + b| ==> PairBefore(nodes, (a + b)[i], (a + b)[j])
  {
  }

  /** Every (seed, target) pair, in the order the routes are collected. */
  ghost function Pairs(adj: Adjacency, seeds: seq<string>, jewels: seq<string>): seq<(string, string)> {
    if seeds == [] then []
    else
      var s := seeds[|seeds| - 1];
      var ts := Targets(adj, s, jewels);
      Pairs(adj, seeds[..|seeds| - 1], jewels) + seq(|ts|, i requires 0 <= i < |ts| => (s, ts[i]))
  }

  lemma {:induction false} PairsAre(adj: Adjacency, seeds: seq<string>, jewels: seq<string>)
    requires Distinct(seeds) && Distinct(jewels)
    ensures Distinct(Pairs(adj, seeds, jewels))
    ensures forall s, j :: (s, j) in Pairs(adj, seeds, jewels) <==>
      s in seeds && j in jewels && j != s && Reaches(adj, s, j)
    decreases |seeds|
  {
    if seeds != [] {
      var init, last := seeds[..|seeds| - 1], seeds[|seeds| - 1];
      assert seeds == init + [last];
      PairsAre(adj, init, jewels);
      var ts := Targets(adj, last, jewels);
      var more := seq(|ts|, i requires 0 <= i < |ts| => (last, ts[i]));
      forall j ensures j in ts <==> j in jewels && j != last && Reaches(adj, last, j) {
        TargetsAre(adj, last, jewels, j);
      }
      TargetsAre(adj, last, jewels, last);
      forall s, j ensures (s, j) in more <==> s == last && j in ts {
        if s == last && j in ts {
          var i :| 0 <= i < |ts| && ts[i] == j;
          assert more[i] == (s, j);
        }
      }
      forall a, b | 0 <= a < b < |Pairs(adj, seeds, jewels)|
        ensures Pairs(adj, seeds, jewels)[a] != Pairs(adj, seeds, jewels)[b]
      {
        var before := Pairs(adj, init, jewels);
        if a < |before| <= b {
          assert before[a] in before && before[a].0 in init;
        }
      }
    }
  }

  /** `routes` lists the best route of each pair, in order. */
  ghost predicate RoutesOf(routes: seq<AttackPath>, index: map<string, Node>, adj: Adjacency, pairs: seq<(string, string)>) {
    && |routes| == |pairs|
    && forall k :: 0 <= k < |pairs| ==> BestRoute(routes[k], index, adj, pairs[k].0, pairs[k].1)
  }

  method CollectRoutes(seeds: seq<string>, jewels: seq<string>, adj: Adjacency, index: map<string, Node>) returns (routes: seq<AttackPath>)
    requires NonNegative(adj)
    ensures RoutesOf(routes, index, adj, Pairs(adj, seeds, jewels))
  {
    var sc := new Scratch();
    routes := [];
    for i := 0 to |seeds|
      invariant fresh(sc) && fresh(sc.pq)
      invariant RoutesOf(routes, index, adj, Pairs(adj, seeds[..i], jewels))
    {
      assert seeds[..i + 1][..i] == seeds[..i];
      var out := PathsFromSeed(seeds[i], jewels, adj, index, sc);
      RoutesAppend(routes, out, index, adj, Pairs(adj, seeds[..i], jewels), seeds[i], Targets(adj, seeds[i], jewels));
      routes := routes + out;
    }
    assert seeds[..|seeds|] == seeds;
  }

  lemma RoutesAppend(a: seq<AttackPath>, b: seq<AttackPath>, index: map<string, Node>, adj: Adjacency, pairs: seq<(string, string)>, s: string, ts: seq<string>)
    requires RoutesOf(a, index, adj, pairs)
    requires |b| == |ts| && forall k :: 0 <= k < |b| ==> BestRoute(b[k], index, adj, s, ts[k])
    ensures RoutesOf(a + b, index, adj, pairs + seq(|ts|, i requires 0 <= i < |ts| => (s, ts[i])))
  {
    var more := seq(|ts|, i requires 0 <= i < |ts| => (s, ts[i]));
    forall k | 0 <= k < |more| ensures more[k] == (s, ts[k]) {
    }
    PairwiseAppend(a, pairs, b, more, (p: AttackPath, w: (string, string)) => BestRoute(p, index, adj, w.0, w.1));
  }

  lemma PairwiseAppend<T, U>(a: seq<T>, x: seq<U>, b: seq<T>, y: seq<U>, good: (T, U) -> bool)
    requires |a| == |x| && forall k :: 0 <= k < |a| ==> good(a[k], x[k])
    requires |b| == |y| && forall k :: 0 <= k < |b| ==> good(b[k], y[k])
    ensures forall k :: 0 <= k < |a + b| ==> good((a + b)[k], (x + y)[k])
  {
  }

  /** The routes carry the keys of their pairs, and belong. */
  lemma {:induction false} RoutesBelong(index: map<string, Node>, adj: Adjacency, seeds: seq<string>, jewels: seq<string>, routes: seq<AttackPath>, k: nat)
    requires forall id :: id in index ==> index[id].id == id
    requires Distinct(seeds) && Distinct(jewels)
    requires forall id :: id in seeds <==> IsSeedId(index, id)
    requires forall id :: id in jewels <==> IsJewelId(index, id)
    requires RoutesOf(routes, index, adj, Pairs(adj, seeds, jewels)) && k < |routes|
    ensures var (s, j) := Pairs(adj, seeds, jewels)[k];
      Key(routes[k]) == (false, s, j) && Belongs(routes[k], index, adj)
  {
    PairsAre(adj, seeds, jewels);
    var (s, j) := Pairs(adj, seeds, jewels)[k];
    assert (s, j) in Pairs(adj, seeds, jewels);
    RouteKey(routes[k], index, adj, s, j);
  }

  lemma DirectBelongs(index: map<string, Node>, adj: Adjacency, id: string)
    requires IsHeldJewelId(index, id) && index[id].id == id
    ensures var p := DirectAccessPath(index[id]); Key(p) == (true, id, id) && Belongs(p, index, adj)
  {
  }

  /** The unsorted list is complete. */
  lemma {:induction false} CollectedIsComplete(nodes: seq<Node>, index: map<string, Node>, adj: Adjacency, seeds: seq<string>, jewels: seq<string>, held: seq<string>, direct: seq<AttackPath>, routes: seq<AttackPath>)
    requires forall id :: id in index ==> index[id].id == id
    requires Distinct(seeds) && Distinct(jewels) && Distinct(held)
    requires forall id :: id in seeds <==> IsSeedId(index, id)
    requires forall id :: id in jewels <==> IsJewelId(index, id)
    requires forall id :: id in held <==> IsHeldJewelId(index, id)
    requires DirectOf(direct, held, index)
    requires RoutesOf(routes, index, adj, Pairs(adj, seeds, jewels))
    requires InListingOrder(nodes, seeds) && InListingOrder(nodes, jewels) && InListingOrder(nodes, held)
    ensures Complete(direct + routes, index, adj)
    ensures forall i, j :: 0 <= i < j < |direct + routes| ==> CollectedFirst(nodes, (direct + routes)[i], (direct + routes)[j])
  {
    var pairs := Pairs(adj, seeds, jewels);
    AllBelong(index, adj, seeds, jewels, held, direct, routes, pairs);
    PairsAre(adj, seeds, jewels);
    KeyedParts(direct, routes, held, pairs);
    ListedParts(index, adj, direct, routes, held, pairs);
    PairsInOrder(nodes, adj, seeds, jewels);
    forall i, j | 0 <= i < j < |direct + routes| ensures CollectedFirst(nodes, (direct + routes)[i], (direct + routes)[j]) {
      CollectedInOrder(nodes, direct, routes, held, pairs, i, j);
    }
  }

  lemma {:induction false} AllBelong(index: map<string, Node>, adj: Adjacency, seeds: seq<string>, jewels: seq<string>, held: seq<string>, direct: seq<AttackPath>, routes: seq<AttackPath>, pairs: seq<(string, string)>)
    requires forall id :: id in index ==> index[id].id == id
    requires Distinct(seeds) && Distinct(jewels)
    requires forall id :: id in seeds <==> IsSeedId(index, id)
    requires forall id :: id in jewels <==> IsJewelId(index, id)
    requires forall id :: id in held <==> IsHeldJewelId(index, id)
    requires DirectOf(direct, held, index)
    requires pairs == Pairs(adj, seeds, jewels) && RoutesOf(routes, index, adj, pairs)
    ensures forall k :: 0 <= k < |routes| ==> Key(routes[k]) == (false, pairs[k].0, pairs[k].1) && Belongs(routes[k], index, adj)
    ensures forall k :: 0 <= k < |direct| ==> Key(direct[k]) == (true, held[k], held[k]) && Belongs(direct[k], index, adj)
  {
    forall k | 0 <= k < |routes|
      ensures Key(routes[k]) == (false, pairs[k].0, pairs[k].1) && Belongs(routes[k], index, adj)
    {
      RoutesBelong(index, adj, seeds, jewels, routes, k);
    }
    forall k | 0 <= k < |direct|
      ensures Key(direct[k]) == (true, held[k], held[k]) && Belongs(direct[k], index, adj)
    {
      assert held[k] in held;
      DirectBelongs(index, adj, held[k]);
    }
  }

  lemma KeyedParts(direct: seq<AttackPath>, routes: seq<AttackPath>, held: seq<string>, pairs: seq<(string, string)>)
    requires Distinct(held) && Distinct(pairs) && |direct| == |held| && |routes| == |pairs|
    requires forall k :: 0 <= k < |routes| ==> Key(routes[k]) == (false, pairs[k].0, pairs[k].1)
    requires forall k :: 0 <= k < |direct| ==> Key(direct[k]) == (true, held[k], held[k])
    ensures KeysDiffer(direct + routes)
  {
    var r, n := direct + routes, |direct|;
    forall i, j | 0 <= i < j < |r| ensures Key(r[i]) != Key(r[j]) {
      assert i < n ==> Key(r[i]) == (true, held[i], held[i]);
      assert j < n ==> Key(r[j]) == (true, held[j], held[j]);
      assert i >= n ==> Key(r[i]) == (false, pairs[i - n].0, pairs[i - n].1);
      assert j >= n ==> Key(r[j]) == (false, pairs[j - n].0, pairs[j - n].1);
      assert i >= n ==> pairs[i - n] != pairs[j - n];
    }
  }

  lemma ListedParts(index: map<string, Node>, adj: Adjacency, direct: seq<AttackPath>, routes: seq<AttackPath>, held: seq<string>, pairs: seq<(string, string)>)
    requires |direct| == |held| && |routes| == |pairs|
    requires forall k :: 0 <= k < |routes| ==> Key(routes[k]) == (false, pairs[k].0, pairs[k].1)
    requires forall k :: 0 <= k < |direct| ==> Key(direct[k]) == (true, held[k], held[k])
    requires forall id :: IsHeldJewelId(index, id) ==> id in held
    requires forall s, j :: IsRoutePair(index, adj, s, j) ==> (s, j) in pairs
    ensures forall id :: IsHeldJewelId(index, id) ==> Lists(direct + routes, (true, id, id))
    ensures forall s, j :: IsRoutePair(index, adj, s, j) ==> Lists(direct + routes, (false, s, j))
  {
    var r := direct + routes;
    forall id | IsHeldJewelId(index, id) ensures Lists(r, (true, id, id)) {
      var k :| 0 <= k < |held| && held[k] == id;
      assert r[k] == direct[k] && r[k] in r;
    }
    forall s, j | IsRoutePair(index, adj, s, j) ensures Lists(r, (false, s, j)) {
      var k :| 0 <= k < |pairs| && pairs[k] == (s, j);
      assert r[|direct| + k] == routes[k] && r[|direct| + k] in r;
    }
  }

  /** The order paths are collected in: the held jewels, then seed by seed, jewel by jewel. */
  ghost predicate CollectedFirst(nodes: seq<Node>, p: AttackPath, q: AttackPath) {
    var (direct, s, j) := Key(p);
    var (direct', s', j') := Key(q);
    if direct != direct' then direct else PairBefore(nodes, (s, j), (s', j'))
  }

  lemma CollectedInOrder(nodes: seq<Node>, direct: seq<AttackPath>, routes: seq<AttackPath>, held: seq<string>, pairs: seq<(string, string)>, i: nat, j: nat)
    requires |direct| == |held| && |routes| == |pairs| && InListingOrder(nodes, held) && i < j < |direct + routes|
    requires forall i, j :: 0 <= i < j < |pairs| ==> PairBefore(nodes, pairs[i], pairs[j])
    requires forall k :: 0 <= k < |routes| ==> Key(routes[k]) == (false, pairs[k].0, pairs[k].1)
    requires forall k :: 0 <= k < |direct| ==> Key(direct[k]) == (true, held[k], held[k])
    ensures CollectedFirst(nodes, (direct + routes)[i], (direct + routes)[j])
  {
    var n := |direct|;
    if n <= i {
      assert PairBefore(nodes, pairs[i - n], pairs[j - n]);
    } else if j < n {
      assert ListedBefore(nodes, held[i], held[j]);
    }
  }

  lemma RanksIsStrictWeak()
    ensures StrictWeak(RanksBefore)
  {
  }

  /** Completeness does not depend on the order of the list. */
  lemma CompletePermutes(a: seq<AttackPath>, b: seq<AttackPath>, index: map<string, Node>, adj: Adjacency)
    requires Complete(a, index, adj) && multiset(a) == multiset(b)
    ensures Complete(b, index, adj)
  {
    DistinctKeysPermute(a, b, Key);
    forall p ensures p in a <==> p in b {
      assert p in multiset(a) <==> p in multiset(b);
    }
    forall key ensures Lists(a, key) ==> Lists(b, key) {
    }
  }

  /** `FindCriticalPaths`: every held jewel, and the best route from every seed to every other
      jewel it reaches - each once and nothing else - runtime-confirmed first, then by score; and
      what ties stands as it was collected. */
  method FindCriticalPaths(snap: Snapshot, negLog: real -> real) returns (paths: seq<AttackPath>)
    requires IsNegLog(negLog)
    ensures var index := NodeById(snap.nodes);
      Complete(paths, index, AdjacencyOf(snap.edges, index, negLog))
    ensures Ranked(snap.nodes, paths)
  {
    var index := NodeById(snap.nodes);
    var adj := BuildAdjacency(snap.edges, index, negLog);
    AdjacencyIsWeighted(snap.edges, index, negLog);
    WeightedIsNonNegative(adj, negLog);
    var seeds, jewels := SeedsAndJewels(snap.nodes, index);
    var direct, held := DirectAccessPaths(snap.nodes, index);
    if seeds == [] || jewels == [] {
      NothingHeld(index, seeds, jewels, held);
      return direct;
    }
    var routes := CollectRoutes(seeds, jewels, adj, index);
    CollectedIsComplete(snap.nodes, index, adj, seeds, jewels, held, direct, routes);
    RankedBySort(snap.nodes, direct + routes);
    paths := SortBy(RanksBefore, direct + routes);
    CompletePermutes(direct + routes, paths, index, adj);
  }

  /** The listing order: runtime-confirmed first, then the higher score, and what ties as it was
      collected. */
  ghost predicate Ranked(nodes: seq<Node>, paths: seq<AttackPath>) {
    forall i, j :: 0 <= i < j < |paths| ==> Precedes(nodes, paths[i], paths[j])
  }

  ghost predicate Precedes(nodes: seq<Node>, p: AttackPath, q: AttackPath) {
    if p.runtimeConfirmed != q.runtimeConfirmed then p.runtimeConfirmed
    else if p.score != q.score then p.score > q.score
    else CollectedFirst(nodes, p, q)
  }

  lemma {:induction false} RankedBySort(nodes: seq<Node>, collected: seq<AttackPath>)
    requires forall i, j :: 0 <= i < j < |collected| ==> CollectedFirst(nodes, collected[i], collected[j])
    ensures Ranked(nodes, SortBy(RanksBefore, collected)) && multiset(SortBy(RanksBefore, collected)) == multiset(collected)
  {
    RanksIsStrictWeak();
    SortKeeps(RanksBefore, collected);
    SortStably(RanksBefore, (p, q) => CollectedFirst(nodes, p, q), collected);
    var paths := SortBy(RanksBefore, collected);
    forall i, j | 0 <= i < j < |paths| ensures Precedes(nodes, paths[i], paths[j]) {
      assert InTurn(RanksBefore, (p, q) => CollectedFirst(nodes, p, q), paths[i], paths[j]);
    }
  }

  /** A held jewel is a seed and a jewel. */
  lemma NothingHeld(index: map<string, Node>, seeds: seq<string>, jewels: seq<string>, held: seq<string>)
    requires forall id :: id in seeds <==> IsSeedId(index, id)
    requires forall id :: id in jewels <==> IsJewelId(index, id)
    requires forall id :: id in held <==> IsHeldJewelId(index, id)
    requires seeds == [] || jewels == []
    ensures held == []
    ensures forall id :: !IsHeldJewelId(index, id)
    ensures (forall id :: !IsSeedId(index, id)) || (forall id :: !IsJewelId(index, id))
  {
    assert held != [] ==> held[0] in held;
    if seeds == [] {
      forall id ensures !IsSeedId(index, id) {
        assert id !in seeds;
      }
    } else {
      forall id ensures !IsJewelId(index, id) {
        assert id !in jewels;
      }
    }
    forall id ensures !IsHeldJewelId(index, id) {
      HeldIsSeedAndJewel(index, id);
    }
  }

  lemma HeldIsSeedAndJewel(index: map<string, Node>, id: string)
    ensures IsHeldJewelId(index, id) ==> IsSeedId(index, id) && IsJewelId(index, id)
  {
  }
}
