/** The resident copy of a tenant's graph, patched by deltas between full reads, beside the
    store it copies, which other replicas write to and remove from all the while. */
module SnapshotCache {
  import opened Options

  /** What names a graph element. */
  datatype Key = NodeKey(id: string) | EdgeKey(typ: string, from: string, to: string)

  /** An element's properties, and when it was last observed; an old one may carry no stamp. */
  datatype Element = Element(props: string, lastSeen: Option<int>)

  /** `epoch` moves whenever something leaves the graph. */
  datatype Store = Store(elements: map<Key, Element>, epoch: nat)

  /** What a replica does to the store. */
  datatype Op = Upsert(key: Key, element: Element) | Remove(keys: set<Key>)

  function Apply(s: Store, op: Op): Store {
    match op
    case Upsert(key, element) => s.(elements := s.elements[key := element])
    case Remove(keys) =>
      if keys * s.elements.Keys == {} then s else Store(s.elements - keys, s.epoch + 1)
  }

  function ApplyAll(s: Store, ops: seq<Op>): Store
    decreases |ops|
  {
    if ops == [] then s else ApplyAll(Apply(s, ops[0]), ops[1..])
  }

  /** Observed at or after `since`. */
  predicate SeenSince(e: Element, since: int) {
    e.lastSeen.Some? && e.lastSeen.value >= since
  }

  /** `SnapshotSince`. */
  function Delta(s: Store, since: int): map<Key, Element> {
    map k | k in s.elements && SeenSince(s.elements[k], since) :: s.elements[k]
  }

  const FULL_SNAPSHOT_EVERY: nat := 20

  /** What reading the removal epoch gives: the store keeps none, the read fails, or a value. */
  datatype EpochRead = Unsupported | Failed | Known(epoch: nat)

  // ── What the cache promises ────────────────────────────────────────

  /** Every element of the store is in the cache as it stands, or the next delta carries it. */
  ghost predicate Caught(cache: map<Key, Element>, since: int, s: Store) {
    forall k :: k in s.elements ==> (k in cache && cache[k] == s.elements[k]) || SeenSince(s.elements[k], since)
  }

  /** Something in the cache has left the store. */
  ghost predicate HasExtra(cache: map<Key, Element>, s: Store) {
    exists k :: k in cache && k !in s.elements
  }

  /** The cache beside the store: what the next delta cannot bring, the epoch gives away. */
  ghost predicate Beside(cache: map<Key, Element>, since: int, epoch: nat, s: Store) {
    && Caught(cache, since, s)
    && epoch <= s.epoch
    && (HasExtra(cache, s) ==> epoch < s.epoch)
  }

  /** The write is stamped no earlier than the cache's watermark. */
  predicate Fresh(op: Op, since: int) {
    op.Upsert? ==> SeenSince(op.element, since)
  }

  predicate AllFresh(ops: seq<Op>, since: int) {
    forall i :: 0 <= i < |ops| ==> Fresh(ops[i], since)
  }

  lemma OpKeepsBeside(cache: map<Key, Element>, since: int, epoch: nat, s: Store, op: Op)
    requires Beside(cache, since, epoch, s) && Fresh(op, since)
    ensures Beside(cache, since, epoch, Apply(s, op))
  {
    var t := Apply(s, op);
    forall k | k in t.elements ensures (k in cache && cache[k] == t.elements[k]) || SeenSince(t.elements[k], since) {
      if !(op.Upsert? && k == op.key) {
        assert k in s.elements && t.elements[k] == s.elements[k];
      }
    }
    if HasExtra(cache, t) && t.epoch == s.epoch {
      var k :| k in cache && k !in t.elements;
      assert k !in s.elements by {
        if op.Remove? {
          assert op.keys * s.elements.Keys == {};
        }
      }
    }
  }

  lemma {:induction false} OpsKeepBeside(cache: map<Key, Element>, since: int, epoch: nat, s: Store, ops: seq<Op>)
    requires Beside(cache, since, epoch, s) && AllFresh(ops, since)
    ensures Beside(cache, since, epoch, ApplyAll(s, ops))
    decreases |ops|
  {
    if ops != [] {
      assert Fresh(ops[0], since);
      OpKeepsBeside(cache, since, epoch, s, ops[0]);
      forall i | 0 <= i < |ops| - 1 ensures Fresh(ops[1..][i], since) {
        assert Fresh(ops[i + 1], since);
      }
      OpsKeepBeside(cache, since, epoch, Apply(s, ops[0]), ops[1..]);
    }
  }

  /** No operation takes away an element that is there. */
  predicate TakesNothing(s: Store, ops: seq<Op>)
    decreases |ops|
  {
    ops == [] || (s.elements.Keys <= Apply(s, ops[0]).elements.Keys && TakesNothing(Apply(s, ops[0]), ops[1..]))
  }

  /** The epoch stays where it is exactly as long as nothing goes: a removal that finds nothing does
      not move it. */
  lemma {:induction false} EpochStaysExactly(s: Store, ops: seq<Op>)
    ensures ApplyAll(s, ops).epoch == s.epoch <==> TakesNothing(s, ops)
    decreases |ops|
  {
    if ops != [] {
      var t := Apply(s, ops[0]);
      EpochStaysExactly(t, ops[1..]);
      EpochOnlyGrows(t, ops[1..]);
      if ops[0].Remove? && s.elements.Keys <= t.elements.Keys {
        assert forall k :: k in ops[0].keys * s.elements.Keys ==> k !in t.elements.Keys;
      }
    }
  }

  lemma {:induction false} EpochOnlyGrows(s: Store, ops: seq<Op>)
    ensures s.epoch <= ApplyAll(s, ops).epoch
    ensures ApplyAll(s, ops).epoch == s.epoch ==> s.elements.Keys <= ApplyAll(s, ops).elements.Keys
    decreases |ops|
  {
    if ops != [] {
      EpochOnlyGrows(Apply(s, ops[0]), ops[1..]);
    }
  }

  // ── The pass ───────────────────────────────────────────────────────

  /** The snapshot a pass returned, judged against the store it was read from: every element
      there with its current value, and nothing else but what was there when the pass read the
      epoch and left since. */
  ghost predicate Faithful(snap: map<Key, Element>, read: Store, atEpoch: Store) {
    && (forall k :: k in read.elements ==> k in snap && snap[k] == read.elements[k])
    && (forall k :: k in snap && k !in read.elements ==> k in atEpoch.elements)
    && (HasExtra(snap, read) ==> atEpoch.epoch < read.epoch)
  }

  /** One pass over a store that replicas write to all along: `early` before it begins, `before`
      between its read of the epoch and its delta, `between` from there to a full read. Whether
      it knows the epoch is given; what it then knows is the store's. */
  datatype Pass = Pass(now: int, incremental: bool, canDelta: bool, pruned: bool, e: EpochRead, deltaFails: bool, fullFails: bool,
                       early: seq<Op>, before: seq<Op>, between: seq<Op>)

  datatype Read = Read(snap: Option<map<Key, Element>>, full: bool)

  function AtEpoch(s: Store, p: Pass): Store {
    ApplyAll(s, p.early)
  }

  function AtDelta(s: Store, p: Pass): Store {
    ApplyAll(AtEpoch(s, p), p.before)
  }

  function AtFull(s: Store, p: Pass): Store {
    ApplyAll(AtDelta(s, p), p.between)
  }

  /** The store as the passes find it, one after the other. */
  function StoreAfter(s: Store, passes: seq<Pass>): Store {
    if passes == [] then s else AtFull(StoreAfter(s, passes[..|passes| - 1]), passes[|passes| - 1])
  }

  /** The clock does not go back, and no write is stamped before the pass it follows began. */
  ghost predicate OnTime(p: Pass, last: Option<int>) {
    && AllFresh(p.before, p.now) && AllFresh(p.between, p.now)
    && (last.Some? ==> last.value <= p.now && AllFresh(p.early, last.value))
  }

  function LastNow(passes: seq<Pass>): Option<int> {
    if passes == [] then None else Some(passes[|passes| - 1].now)
  }

  /** What a pass that found the store at `s` must read: the whole graph, or a faithful delta. */
  ghost predicate ReadsWell(s: Store, p: Pass, r: Read) {
    if r.full then r.snap == if p.fullFails then None else Some(AtFull(s, p).elements)
    else r.snap.Some? && (p.e.Known? ==> Faithful(r.snap.value, AtDelta(s, p), AtEpoch(s, p)))
  }

  /** A delta left something in the snapshot that is no longer in the store. */
  ghost predicate LeftExtra(s: Store, p: Pass, r: Read) {
    !r.full && r.snap.Some? && HasExtra(r.snap.value, AtDelta(s, p))
  }

  /** What a pass makes of the number of deltas since the last full read that succeeded. */
  function Counted(deltas: nat, r: Read): nat {
    if !r.full then deltas + 1 else if r.snap.Some? then 0 else deltas
  }

  /** The deltas read since the last full read that succeeded. */
  function Deltas(results: seq<Read>): nat {
    if results == [] then 0 else Counted(Deltas(results[..|results| - 1]), results[|results| - 1])
  }

  ghost predicate EndsWithExtra(s: Store, passes: seq<Pass>, results: seq<Read>) {
    var n := |passes| - 1;
    passes != [] && |results| == |passes| && LeftExtra(StoreAfter(s, passes[..n]), passes[n], results[n])
  }

  /** A run of passes: each reads the whole graph or a faithful delta; after a delta that kept
      something gone, a pass that knows the epoch reads the whole graph; and no more than the
      period's deltas come in a row. */
  ghost predicate RunsWell(s: Store, passes: seq<Pass>, results: seq<Read>) {
    && |results| == |passes| && Deltas(results) <= 20
    && (passes == [] || LastRunsWell(s, passes, results, |passes| - 1))
    && (passes == [] || RunsWell(s, passes[..|passes| - 1], results[..|passes| - 1]))
  }

  ghost predicate LastRunsWell(s: Store, passes: seq<Pass>, results: seq<Read>, n: nat)
    requires |results| == |passes| == n + 1
  {
    && ReadsWell(StoreAfter(s, passes[..n]), passes[n], results[n])
    && (EndsWithExtra(s, passes[..n], results[..n]) && passes[n].incremental && passes[n].e.Known? ==> results[n].full)
  }

  // ── Removals the pass is told of ───────────────────────────────────

  predicate NoRemovals(ops: seq<Op>) {
    forall i :: 0 <= i < |ops| ==> ops[i].Upsert?
  }

  /** The one remover is this replica, between passes, and the next pass is told and can read. */
  predicate Announced(p: Pass) {
    p.incremental && NoRemovals(p.before) && NoRemovals(p.between) && (if p.pruned then !p.fullFails else NoRemovals(p.early))
  }

  lemma {:induction false} NothingLeaves(s: Store, ops: seq<Op>)
    requires NoRemovals(ops)
    ensures s.elements.Keys <= ApplyAll(s, ops).elements.Keys
    decreases |ops|
  {
    if ops != [] {
      assert ops[0].Upsert?;
      assert forall i :: 0 <= i < |ops| - 1 ==> ops[1..][i] == ops[i + 1];
      NothingLeaves(Apply(s, ops[0]), ops[1..]);
    }
  }

  lemma NoneExtra(cache: map<Key, Element>, s: Store, p: Pass)
    requires !HasExtra(cache, s) && Announced(p) && !p.pruned
    ensures !HasExtra(cache, AtDelta(s, p)) && !HasExtra(cache, AtFull(s, p))
  {
    NothingLeaves(s, p.early);
    NothingLeaves(AtEpoch(s, p), p.before);
    NothingLeaves(AtDelta(s, p), p.between);
  }

  /** What the pass returns is the store as it read it. */
  ghost predicate Exact(s: Store, p: Pass, r: Read) {
    r.snap.Some? ==> r.snap.value == if r.full then AtFull(s, p).elements else AtDelta(s, p).elements
  }

  predicate AllAnnounced(passes: seq<Pass>) {
    forall i :: 0 <= i < |passes| ==> Announced(passes[i])
  }

  ghost predicate AllExact(s: Store, passes: seq<Pass>, results: seq<Read>)
    requires |results| == |passes|
    decreases |passes|
  {
    passes == [] ||
      var n := |passes| - 1;
      Exact(StoreAfter(s, passes[..n]), passes[n], results[n]) && AllExact(s, passes[..n], results[..n])
  }

  lemma {:induction false} ExactGrows(s: Store, passes: seq<Pass>, results: seq<Read>, p: Pass, r: Read)
    requires |results| == |passes|
    ensures AllExact(s, passes + [p], results + [r]) <==> AllExact(s, passes, results) && Exact(StoreAfter(s, passes), p, r)
    ensures AllAnnounced(passes + [p]) <==> AllAnnounced(passes) && Announced(p)
  {
    assert (passes + [p])[..|passes|] == passes && (results + [r])[..|passes|] == results;
    assert (passes + [p])[|passes|] == p;
    forall i | 0 <= i < |passes| ensures (passes + [p])[i] == passes[i] {
    }
  }

  lemma CaughtUpIsExact(cache: map<Key, Element>, s: Store)
    requires !HasExtra(cache, s) && forall k :: k in s.elements ==> k in cache && cache[k] == s.elements[k]
    ensures cache == s.elements
  {
  }

  lemma {:induction false} RunGrows(s: Store, passes: seq<Pass>, results: seq<Read>, p: Pass, r: Read)
    requires RunsWell(s, passes, results) && ReadsWell(StoreAfter(s, passes), p, r)
    requires EndsWithExtra(s, passes, results) && p.incremental && p.e.Known? ==> r.full
    requires Counted(Deltas(results), r) <= FULL_SNAPSHOT_EVERY
    ensures RunsWell(s, passes + [p], results + [r])
    ensures Deltas(results + [r]) == Counted(Deltas(results), r)
    ensures EndsWithExtra(s, passes + [p], results + [r]) <==> LeftExtra(StoreAfter(s, passes), p, r)
    ensures StoreAfter(s, passes + [p]) == AtFull(StoreAfter(s, passes), p)
  {
    var ps, rs, n := passes + [p], results + [r], |passes|;
    assert ps[..n] == passes && rs[..n] == results;
    DeltasGrow(results, r);
    assert LastRunsWell(s, ps, rs, n);
  }

  lemma {:induction false} DeltasGrow(results: seq<Read>, r: Read)
    ensures Deltas(results + [r]) == Counted(Deltas(results), r)
  {
    assert (results + [r])[..|results|] == results;
  }

  lemma {:induction false} FreshEarlier(ops: seq<Op>, since: int, earlier: int)
    requires AllFresh(ops, since) && earlier <= since
    ensures AllFresh(ops, earlier)
  {
    forall i | 0 <= i < |ops| ensures Fresh(ops[i], earlier) {
      assert Fresh(ops[i], since);
    }
  }

  /** The patched cache holds every element of the store as it stands, and nothing that neither the
      store nor the cache held before. */
  ghost predicate CaughtUp(before: map<Key, Element>, cache: map<Key, Element>, s: Store) {
    && (forall k :: k in s.elements ==> k in cache && cache[k] == s.elements[k])
    && cache.Keys <= before.Keys + s.elements.Keys
  }

  /** One tenant's incremental state. */
  class TenantState {
    var cache: map<Key, Element>
    var valid: bool
    var watermark: int
    var epoch: nat
    var passesSinceFull: nat

    constructor ()
      ensures !valid && epoch == 0 && passesSinceFull == 0
    {
      cache, valid, watermark, epoch, passesSinceFull := map[], false, 0, 0, 0;
    }

    /** The cache stands beside the store, if there is one to patch. */
    ghost predicate Valid(s: Store)
      reads this
    {
      passesSinceFull <= FULL_SNAPSHOT_EVERY && epoch <= s.epoch && (valid ==> Beside(cache, watermark, epoch, s))
    }

    /** What makes a pass read the whole graph. */
    predicate NeedsFull(incremental: bool, canDelta: bool, pruned: bool, e: EpochRead)
      reads this
    {
      || !incremental || !canDelta || !valid || pruned || passesSinceFull >= FULL_SNAPSHOT_EVERY
      || e == Failed || (e.Known? && e.epoch != epoch)
    }

    /** `acquireSnapshot`. `now` is read before anything else; then the epoch, from the store as
        it stood at `atEpoch`; then the delta, or the whole graph, from the store as the other
        replicas' `before` and `between` left it. */
    method Acquire(now: int, incremental: bool, canDelta: bool, pruned: bool, e: EpochRead, deltaFails: bool, fullFails: bool,
                   atEpoch: Store, atDelta: Store, atFull: Store, ghost before: seq<Op>, ghost between: seq<Op>) returns (snap: Option<map<Key, Element>>, full: bool)
      requires Valid(atEpoch) && (e.Known? ==> e.epoch == atEpoch.epoch)
      requires atDelta == ApplyAll(atEpoch, before) && atFull == ApplyAll(atDelta, between)
      requires valid ==> AllFresh(before, watermark) && AllFresh(between, watermark)
      modifies this
      ensures full <==> old(NeedsFull(incremental, canDelta, pruned, if incremental then e else Unsupported)) || deltaFails
      ensures snap == None <==> full && fullFails
      ensures full && !fullFails ==> snap == Some(atFull.elements)
      ensures !full ==> snap == Some(cache) && (e.Known? ==> Faithful(cache, atDelta, atEpoch))
      ensures Valid(if full then atFull else atDelta)
      ensures full && fullFails ==> passesSinceFull == old(passesSinceFull) && cache == old(cache) && epoch == old(epoch)
      ensures full && !fullFails && incremental ==> valid && cache == atFull.elements && passesSinceFull == 0
      ensures !full ==> valid && passesSinceFull == old(passesSinceFull) + 1
      ensures !full ==> !pruned && cache == old(cache) + Delta(atDelta, old(watermark)) && CaughtUp(old(cache), cache, atDelta)
      ensures epoch == if full && !fullFails && incremental && e.Known? then e.epoch else old(epoch)
      ensures if snap.Some? && incremental then watermark == now else watermark == old(watermark) && valid == old(valid)
    {
      full := !incremental || !canDelta || !valid || pruned || passesSinceFull >= FULL_SNAPSHOT_EVERY;
      var known, seen := false, 0;
      if incremental {
        match e
        case Unsupported =>
        case Failed => full := true;
        case Known(value) =>
          known, seen := true, value;
          full := full || value != epoch;
      }
      EpochOnlyGrows(atEpoch, before);
      EpochOnlyGrows(atDelta, between);
      if valid {
        OpsKeepBeside(cache, watermark, epoch, atEpoch, before);
        OpsKeepBeside(cache, watermark, epoch, atDelta, between);
      }
      if !full && !deltaFails {
        PatchCatchesUp(cache, watermark, epoch, atEpoch, atDelta, before, now);
        cache := cache + Delta(atDelta, watermark);
        watermark, passesSinceFull := now, passesSinceFull + 1;
        return Some(cache), false;
      }
      full := true;
      if fullFails {
        return None, true;
      }
      if incremental {
        cache, valid, watermark, passesSinceFull := atFull.elements, true, now, 0;
        if known {
          epoch := seen;
        }
      }
      snap := Some(atFull.elements);
    }

    /** Between passes: the cache beside the store, its watermark no later than the last pass. */
    ghost predicate Ready(s: Store, last: Option<int>)
      reads this
    {
      Valid(s) && (valid ==> last.Some? && watermark <= last.value)
    }

    /** The writes before a pass leave the cache beside the store. */
    lemma EarlyKeeps(s: Store, p: Pass, last: Option<int>)
      requires Ready(s, last) && OnTime(p, last)
      ensures Valid(AtEpoch(s, p)) && s.epoch <= AtEpoch(s, p).epoch
      ensures valid ==> watermark <= p.now && AllFresh(p.before, watermark) && AllFresh(p.between, watermark)
    {
      EpochOnlyGrows(s, p.early);
      if valid {
        FreshEarlier(p.early, last.value, watermark);
        FreshEarlier(p.before, p.now, watermark);
        FreshEarlier(p.between, p.now, watermark);
        OpsKeepBeside(cache, watermark, epoch, s, p.early);
      }
    }

    /** The writes after a delta was read leave the cache beside the store. */
    lemma LateKeeps(s: Store, p: Pass)
      requires Valid(AtDelta(s, p)) && AllFresh(p.between, p.now) && (valid ==> watermark == p.now)
      ensures Valid(AtFull(s, p)) && AtDelta(s, p).epoch <= AtFull(s, p).epoch
    {
      EpochOnlyGrows(AtDelta(s, p), p.between);
      if valid {
        OpsKeepBeside(cache, watermark, epoch, AtDelta(s, p), p.between);
      }
    }

    /** The cache holds nothing that has left the store. */
    ghost predicate NoLeftovers(s: Store)
      reads this
    {
      valid ==> !HasExtra(cache, s)
    }

    method Perform(p: Pass, s: Store, ghost last: Option<int>) returns (r: Read)
      requires Ready(s, last) && OnTime(p, last)
      modifies this
      ensures Ready(AtFull(s, p), Some(p.now)) && ReadsWell(s, p, r)
      ensures p.incremental && p.e.Known? && old(epoch) < s.epoch ==> r.full
      ensures LeftExtra(s, p, r) ==> epoch < AtFull(s, p).epoch
      ensures Counted(old(passesSinceFull), r) <= passesSinceFull
      ensures old(NoLeftovers(s)) && Announced(p) ==> Exact(s, p, r) && NoLeftovers(AtFull(s, p))
    {
      ghost var was := cache;
      if NoLeftovers(s) && Announced(p) && valid && !p.pruned {
        NoneExtra(cache, s, p);
      }
      EarlyKeeps(s, p, last);
      var e := if p.e.Known? then Known(AtEpoch(s, p).epoch) else p.e;
      var snap, full := Acquire(p.now, p.incremental, p.canDelta, p.pruned, e, p.deltaFails, p.fullFails,
                                AtEpoch(s, p), AtDelta(s, p), AtFull(s, p), p.before, p.between);
      if !full {
        LateKeeps(s, p);
        if !HasExtra(was, AtDelta(s, p)) && NoRemovals(p.between) {
          CaughtUpIsExact(cache, AtDelta(s, p));
          NothingLeaves(AtDelta(s, p), p.between);
        }
      }
      r := Read(snap, full);
    }
  }

  /** The state a run of passes leaves, and what it has read. */
  ghost predicate RanTo(st: TenantState, s: Store, passes: seq<Pass>, results: seq<Read>)
    reads st
  {
    && st.Ready(StoreAfter(s, passes), LastNow(passes)) && RunsWell(s, passes, results) && Deltas(results) <= st.passesSinceFull
    && (EndsWithExtra(s, passes, results) ==> st.epoch < StoreAfter(s, passes).epoch)
    && (AllAnnounced(passes) ==> st.NoLeftovers(StoreAfter(s, passes)) && AllExact(s, passes, results))
  }

  method PassOn(st: TenantState, s: Store, passes: seq<Pass>, results: seq<Read>, p: Pass) returns (r: Read)
    requires RanTo(st, s, passes, results) && OnTime(p, LastNow(passes))
    modifies st
    ensures RanTo(st, s, passes + [p], results + [r])
  {
    r := st.Perform(p, StoreAfter(s, passes), LastNow(passes));
    RunGrows(s, passes, results, p, r);
    ExactGrows(s, passes, results, p, r);
  }

  /** A run of passes, from an empty cache. Whether the store keeps an epoch or not, if nothing is
      removed but between passes and the next pass is told of it and can read, every pass returns
      exactly the store it read. */
  method Passes(s: Store, passes: seq<Pass>) returns (results: seq<Read>)
    requires forall i :: 0 <= i < |passes| ==> OnTime(passes[i], LastNow(passes[..i]))
    ensures RunsWell(s, passes, results)
    ensures AllAnnounced(passes) ==> AllExact(s, passes, results)
  {
    var st := new TenantState();
    results := [];
    for i := 0 to |passes|
      invariant fresh(st) && RanTo(st, s, passes[..i], results)
    {
      assert passes[..i + 1] == passes[..i] + [passes[i]];
      var r := PassOn(st, s, passes[..i], results, passes[i]);
      results := results + [r];
    }
    assert passes[..|passes|] == passes;
  }

  /** That it can read is needed: when the full read after a prune fails and the store keeps no
      epoch, the next pass patches the cache as it was, and returns what was pruned. */
  method FailedReadLingers(key: Key, element: Element, now: int) returns (snap: Option<map<Key, Element>>)
    requires SeenSince(element, now)
    ensures snap.Some? && key in snap.value
  {
    var st := new TenantState();
    var full: bool;
    var s := Store(map[key := element], 0);
    var t := Apply(s, Remove({key}));
    assert ApplyAll(s, []) == s && ApplyAll(t, []) == t && key in {key} * s.elements.Keys;
    snap, full := st.Acquire(now, true, true, false, Unsupported, false, false, s, s, s, [], []);
    RemovedBeside(st.cache, st.watermark, st.epoch, s, key);
    snap, full := st.Acquire(now, true, true, true, Unsupported, false, true, t, t, t, [], []);
    snap, full := st.Acquire(now, true, true, false, Unsupported, false, false, t, t, t, [], []);
  }

  lemma RemovedBeside(cache: map<Key, Element>, since: int, epoch: nat, s: Store, key: Key)
    requires Beside(cache, since, epoch, s) && key in s.elements
    ensures Beside(cache, since, epoch, Apply(s, Remove({key})))
  {
    OpKeepsBeside(cache, since, epoch, s, Remove({key}));
    assert Fresh(Remove({key}), since);
  }

  /** Patching the cache with the delta leaves every element of the store in it as it stands;
      what it keeps beyond those left after the epoch was read. */
  lemma {:induction false} PatchCatchesUp(cache: map<Key, Element>, since: int, epoch: nat, atEpoch: Store, atDelta: Store, before: seq<Op>, now: int)
    requires Beside(cache, since, epoch, atEpoch) && Beside(cache, since, epoch, atDelta)
    requires atDelta == ApplyAll(atEpoch, before)
    ensures var patched := cache + Delta(atDelta, since);
      && Beside(patched, now, epoch, atDelta) && CaughtUp(cache, patched, atDelta)
      && (epoch == atEpoch.epoch ==> Faithful(patched, atDelta, atEpoch))
  {
    var patched := cache + Delta(atDelta, since);
    EpochOnlyGrows(atEpoch, before);
    if k :| k in patched && k !in atDelta.elements {
      assert k in cache;
    }
  }

  /** Once something in the cache has left the store, the next pass that knows the epoch reads
      the whole graph. */
  lemma {:induction false} ExtraForcesFullRead(st: TenantState, s: Store, later: Store, ops: seq<Op>)
    requires st.Valid(s) && st.valid && HasExtra(st.cache, s) && later == ApplyAll(s, ops)
    ensures st.NeedsFull(true, true, false, Known(later.epoch))
  {
    EpochOnlyGrows(s, ops);
  }

  // ── Writes stamped before the watermark ────────────────────────────

  /** A write the cache agreed with the store before: the next delta brings it if and only if it
      is stamped at or after the watermark, or changed nothing. */
  lemma WriteArrivesExactly(cache: map<Key, Element>, since: int, s: Store, key: Key, element: Element)
    requires forall k :: k in s.elements ==> k in cache && cache[k] == s.elements[k]
    ensures var t := Apply(s, Upsert(key, element));
      (forall k :: k in t.elements ==> k in cache + Delta(t, since) && (cache + Delta(t, since))[k] == t.elements[k])
      <==> (element.lastSeen.Some? && element.lastSeen.value >= since) || (key in cache && cache[key] == element)
  {
    var t := Apply(s, Upsert(key, element));
    assert key in t.elements && t.elements[key] == element;
    forall k | k in t.elements && k != key ensures (cache + Delta(t, since))[k] == t.elements[k] {
      assert k in s.elements;
    }
  }

  /** So a node observed before a pass began, and written after it had read, stays unseen by
      every delta that follows: here the next one, at a watermark of 10, misses a node observed
      at 9. */
  lemma LateWriteIsMissed()
    ensures var s := Store(map[], 0);
      var t := Apply(s, Upsert(NodeKey("n"), Element("", Some(9))));
      !Caught(map[], 10, t) && NodeKey("n") !in map[] + Delta(t, 10)
  {
    var t := Apply(Store(map[], 0), Upsert(NodeKey("n"), Element("", Some(9))));
    assert NodeKey("n") in t.elements;
  }
}
