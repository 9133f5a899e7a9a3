/** One ingest batch on its way to the graph: its messages, the replicas that consume them and
    the keys they share, step by step. */
module Batch {
  import opened Options
  import opened Sequences

  const MAX_DELIVER: nat := 8

  /** `scopes[i]` is the scope message `i` describes in full; `ttl` is how long a key lives. */
  datatype Batch = Batch(scopes: seq<Option<string>>, ttl: nat) {
    predicate Valid() {
      scopes != []
    }

    ghost predicate Declares(scope: string) {
      exists i :: 0 <= i < |scopes| && scopes[i] == Some(scope)
    }
  }

  /** Where a replica is with the message it holds. `since` is when it read the total. */
  datatype Replica =
    | Idle
    | Handling(msg: nat, attempt: nat)
    | Recording(msg: nat)
    | Marking(msg: nat)
    | Acking(msg: nat)
    | Checking(msg: nat)
    | Counting(since: nat)
    | Creating(since: nat)
    | Listing
    | Sweeping(pending: set<string>)

  /** How an attempt at a message ended: the handler's verdict, or with its replica. */
  datatype Outcome = Succeeded | Refused | Dropped

  /** The total is written at time 0, before any message. A key is the time it was written at.
      `outcomes`, `handled`, `starts`, `swept` and `unrecorded` are a log: how each attempt at a
      message ended, what the handler has applied, when sweeps were started, what they swept,
      and which scopes' records failed to be written. */
  datatype State = State(
    now: nat,
    published: nat,
    delivered: seq<nat>,
    settled: set<nat>,
    deadLettered: set<nat>,
    applied: map<nat, nat>,
    snaps: map<string, nat>,
    sweptKey: Option<nat>,
    replicas: seq<Replica>,
    outcomes: map<(nat, nat), Outcome>,
    handled: set<nat>,
    starts: seq<nat>,
    swept: set<string>,
    unrecorded: set<string>)

  /** One step. `ok` says whether a call to the handler, the bucket or the stream succeeds. */
  datatype Action =
    | Tick(time: nat)
    | Publish
    | Deliver(r: nat, msg: nat)
    | Handle(r: nat, ok: bool)
    | Record(r: nat, ok: bool)
    | Mark(r: nat, ok: bool)
    | Ack(r: nat, ok: bool)
    | ReadTotal(r: nat, ok: bool)
    | Count(r: nat, ok: bool)
    | Create(r: nat, ok: bool)
    | List(r: nat, ok: bool)
    | Sweep(r: nat, scope: string, ok: bool)
    | Crash(r: nat)

  predicate Alive(b: Batch, s: State, written: nat) {
    s.now < written + b.ttl
  }

  /** The keys of one family that have not expired. */
  function LiveKeys<K>(b: Batch, s: State, keys: map<K, nat>): set<K> {
    set k | k in keys && Alive(b, s, keys[k])
  }

  function Start(b: Batch, replicas: nat): State {
    State(0, 0, seq(|b.scopes|, i => 0), {}, {}, map[], map[], None, seq(replicas, i => Idle), map[], {}, [], {}, {})
  }

  predicate Enabled(b: Batch, s: State, a: Action) {
    match a
    case Tick(time) => true
    case Publish => s.published < |b.scopes|
    case Deliver(r, m) =>
      && r < |s.replicas| && s.replicas[r] == Idle
      && m < s.published && m < |s.delivered| && m !in s.settled && s.delivered[m] < MAX_DELIVER
    case Handle(r, ok) => r < |s.replicas| && s.replicas[r].Handling?
    case Record(r, ok) => r < |s.replicas| && s.replicas[r].Recording? && s.replicas[r].msg < |b.scopes|
    case Mark(r, ok) => r < |s.replicas| && s.replicas[r].Marking?
    case Ack(r, ok) => r < |s.replicas| && s.replicas[r].Acking?
    case ReadTotal(r, ok) => r < |s.replicas| && s.replicas[r].Checking?
    case Count(r, ok) => r < |s.replicas| && s.replicas[r].Counting?
    case Create(r, ok) => r < |s.replicas| && s.replicas[r].Creating?
    case List(r, ok) => r < |s.replicas| && s.replicas[r] == Listing
    case Sweep(r, scope, ok) => r < |s.replicas| && s.replicas[r].Sweeping? && scope in s.replicas[r].pending
    case Crash(r) => r < |s.replicas|
  }

  function At(s: State, r: nat, p: Replica): State
    requires r < |s.replicas|
  {
    s.(replicas := s.replicas[r := p])
  }

  /** A failed delivery is retried until the last one, which is dead-lettered. */
  function Failed(s: State, r: nat, msg: nat, attempt: nat): State
    requires r < |s.replicas|
  {
    if attempt >= MAX_DELIVER then At(s, r, Idle).(settled := s.settled + {msg}, deadLettered := s.deadLettered + {msg})
    else At(s, r, Idle)
  }

  /** A sweeper with nothing left to sweep is done. */
  function Pending(scopes: set<string>): Replica {
    if scopes == {} then Idle else Sweeping(scopes)
  }

  /** Handled, then recorded, then marked, then acknowledged, then - and only then - swept. */
  function After(b: Batch, s: State, a: Action): State
    requires Enabled(b, s, a)
  {
    match a
    case Tick(time) => s.(now := s.now + time)
    case Publish => s.(published := s.published + 1)
    case Deliver(r, m) =>
      At(s, r, Handling(m, s.delivered[m] + 1)).(delivered := s.delivered[m := s.delivered[m] + 1])
    case Handle(r, ok) =>
      var m, k := s.replicas[r].msg, s.replicas[r].attempt;
      if ok then At(s, r, Recording(m)).(handled := s.handled + {m}, outcomes := s.outcomes[(m, k) := Succeeded])
      else Failed(s, r, m, k).(outcomes := s.outcomes[(m, k) := Refused])
    case Record(r, ok) =>
      var m := s.replicas[r].msg;
      (match b.scopes[m]
       case None => At(s, r, Marking(m))
       case Some(scope) =>
         if ok then At(s, r, Marking(m)).(snaps := s.snaps[scope := s.now])
         else At(s, r, Marking(m)).(unrecorded := s.unrecorded + {scope}))
    case Mark(r, ok) =>
      var m := s.replicas[r].msg;
      if ok then At(s, r, Acking(m)).(applied := s.applied[m := s.now]) else At(s, r, Acking(m))
    case Ack(r, ok) =>
      var m := s.replicas[r].msg;
      if ok then At(s, r, Checking(m)).(settled := s.settled + {m}) else At(s, r, Checking(m))
    case ReadTotal(r, ok) => At(s, r, if ok && Alive(b, s, 0) then Counting(s.now) else Idle)
    case Count(r, ok) =>
      At(s, r, if ok && |LiveKeys(b, s, s.applied)| >= |b.scopes| then Creating(s.replicas[r].since) else Idle)
    case Create(r, ok) =>
      if ok && (s.sweptKey == None || !Alive(b, s, s.sweptKey.value)) then
        At(s, r, Listing).(sweptKey := Some(s.now), starts := s.starts + [s.now])
      else At(s, r, Idle)
    case List(r, ok) => At(s, r, if ok then Pending(LiveKeys(b, s, s.snaps)) else Idle)
    case Sweep(r, scope, ok) =>
      var left := At(s, r, Pending(s.replicas[r].pending - {scope}));
      if ok && scope in LiveKeys(b, s, s.snaps) then left.(swept := s.swept + {scope}) else left
    case Crash(r) =>
      if s.replicas[r].Handling? then At(s, r, Idle).(outcomes := s.outcomes[(s.replicas[r].msg, s.replicas[r].attempt) := Dropped])
      else At(s, r, Idle)
  }

  // ── Runs ───────────────────────────────────────────────────────────

  /** Every step is enabled where it is taken. */
  predicate Legal(b: Batch, s: State, acts: seq<Action>)
    decreases |acts|
  {
    acts == [] || (Enabled(b, s, acts[0]) && Legal(b, After(b, s, acts[0]), acts[1..]))
  }

  function Run(b: Batch, s: State, acts: seq<Action>): State
    requires Legal(b, s, acts)
    decreases |acts|
  {
    if acts == [] then s else Run(b, After(b, s, acts[0]), acts[1..])
  }

  // ── What every step keeps ──────────────────────────────────────────

  /** The handler has succeeded for every message. */
  ghost predicate AllHandled(b: Batch, s: State) {
    forall m: nat :: m < |b.scopes| ==> m in s.handled
  }

  /** What a replica's place in the protocol says of the batch. */
  ghost predicate Entitled(b: Batch, s: State, p: Replica) {
    match p
    case Idle => true
    case Handling(m, attempt) => m < |b.scopes|
    case Recording(m) => m < |b.scopes| && m in s.handled
    case Marking(m) => m < |b.scopes| && m in s.handled && Recorded(b, s, m)
    case Acking(m) => m < |b.scopes| && m in s.handled
    case Checking(m) => m < |b.scopes| && m in s.handled
    case Counting(since) => since <= s.now && since < b.ttl
    case Creating(since) => since <= s.now && since < b.ttl && AllHandled(b, s) && AllRecorded(b, s)
    case Listing => AllHandled(b, s) && AllRecorded(b, s)
    case Sweeping(pending) => AllHandled(b, s) && forall scope :: scope in pending ==> b.Declares(scope)
  }

  /** The scope message `m` declares has been recorded, or its record failed. */
  ghost predicate Recorded(b: Batch, s: State, m: nat)
    requires m < |b.scopes|
  {
    b.scopes[m].Some? ==> b.scopes[m].value in s.snaps || b.scopes[m].value in s.unrecorded
  }

  ghost predicate AllRecorded(b: Batch, s: State) {
    forall m: nat :: m < |b.scopes| ==> Recorded(b, s, m)
  }

  ghost predicate Keys(b: Batch, s: State) {
    && (forall m :: m in s.applied ==> m < |b.scopes| && m in s.handled && Recorded(b, s, m))
    && (forall scope :: scope in s.snaps ==> b.Declares(scope))
    && (forall scope :: scope in s.swept ==> b.Declares(scope))
  }

  ghost predicate Sweeps(b: Batch, s: State) {
    && (s.sweptKey.Some? <==> s.starts != [])
    && (s.starts != [] ==> s.sweptKey.value == s.starts[|s.starts| - 1] && AllHandled(b, s))
  }

  ghost predicate Inv(b: Batch, s: State) {
    && b.Valid() && s.published <= |b.scopes| && |s.delivered| == |b.scopes|
    && Keys(b, s) && Sweeps(b, s)
    && forall r :: 0 <= r < |s.replicas| ==> Entitled(b, s, s.replicas[r])
  }

  /** Nothing that entitles a replica to its place is ever taken back. */
  ghost predicate Grows(s: State, s': State) {
    s.now <= s'.now && s.handled <= s'.handled && s.snaps.Keys <= s'.snaps.Keys && s.unrecorded <= s'.unrecorded
  }

  lemma EntitledSurvives(b: Batch, s: State, s': State, p: Replica)
    requires Entitled(b, s, p) && Grows(s, s')
    ensures Entitled(b, s', p)
  {
    forall m: nat | m < |b.scopes| && Recorded(b, s, m) ensures Recorded(b, s', m) {
    }
  }

  lemma OthersSurvive(b: Batch, s: State, s': State, r: nat, p: Replica)
    requires r < |s.replicas| && s'.replicas == s.replicas[r := p] && Grows(s, s')
    requires forall q :: 0 <= q < |s.replicas| ==> Entitled(b, s, s.replicas[q])
    requires Entitled(b, s', p)
    ensures forall q :: 0 <= q < |s'.replicas| ==> Entitled(b, s', s'.replicas[q])
  {
    forall q | 0 <= q < |s'.replicas| ensures Entitled(b, s', s'.replicas[q]) {
      if q != r {
        EntitledSurvives(b, s, s', s.replicas[q]);
      }
    }
  }

  lemma KeysSurvive(b: Batch, s: State, s': State)
    requires Keys(b, s) && Grows(s, s') && s'.applied == s.applied && s'.swept == s.swept
    requires forall scope :: scope in s'.snaps ==> b.Declares(scope)
    ensures Keys(b, s')
  {
  }

  /** When as many applied keys are alive as the batch has messages, every message was handled
      and recorded. */
  lemma FullCountIsAll(b: Batch, s: State)
    requires Keys(b, s) && |LiveKeys(b, s, s.applied)| >= |b.scopes|
    ensures AllHandled(b, s) && AllRecorded(b, s)
  {
    var live := LiveKeys(b, s, s.applied);
    BoundedSet(live, |b.scopes|);
    forall m: nat | m < |b.scopes| ensures m in s.handled && Recorded(b, s, m) {
      assert m in live;
    }
  }

  lemma DeliverKeeps(b: Batch, s: State, r: nat, m: nat)
    requires Inv(b, s) && Enabled(b, s, Deliver(r, m))
    ensures Inv(b, After(b, s, Deliver(r, m)))
  {
    var s' := After(b, s, Deliver(r, m));
    assert Entitled(b, s, s.replicas[r]);
    KeysSurvive(b, s, s');
    OthersSurvive(b, s, s', r, s'.replicas[r]);
  }

  lemma HandleKeeps(b: Batch, s: State, r: nat, ok: bool)
    requires Inv(b, s) && Enabled(b, s, Handle(r, ok))
    ensures Inv(b, After(b, s, Handle(r, ok)))
  {
    var s' := After(b, s, Handle(r, ok));
    assert Entitled(b, s, s.replicas[r]);
    KeysSurvive(b, s, s');
    OthersSurvive(b, s, s', r, s'.replicas[r]);
  }

  lemma RecordKeeps(b: Batch, s: State, r: nat, ok: bool)
    requires Inv(b, s) && Enabled(b, s, Record(r, ok))
    ensures Inv(b, After(b, s, Record(r, ok)))
  {
    var s', m := After(b, s, Record(r, ok)), s.replicas[r].msg;
    assert Entitled(b, s, s.replicas[r]);
    RecordedKeeps(b, s, s', r, m);
  }

  lemma RecordedKeeps(b: Batch, s: State, s': State, r: nat, m: nat)
    requires Inv(b, s) && r < |s.replicas| && m < |b.scopes| && m in s.handled && Recorded(b, s', m)
    requires s' == s.(replicas := s.replicas[r := Marking(m)], snaps := s'.snaps, unrecorded := s'.unrecorded)
    requires s.snaps.Keys <= s'.snaps.Keys && s.unrecorded <= s'.unrecorded
    requires forall scope :: scope in s'.snaps ==> b.Declares(scope)
    ensures Inv(b, s')
  {
    KeysSurvive(b, s, s');
    OthersSurvive(b, s, s', r, Marking(m));
  }

  lemma MarkKeeps(b: Batch, s: State, r: nat, ok: bool)
    requires Inv(b, s) && Enabled(b, s, Mark(r, ok))
    ensures Inv(b, After(b, s, Mark(r, ok)))
  {
    var s' := After(b, s, Mark(r, ok));
    assert Entitled(b, s, s.replicas[r]);
    OthersSurvive(b, s, s', r, s'.replicas[r]);
  }

  lemma AckKeeps(b: Batch, s: State, r: nat, ok: bool)
    requires Inv(b, s) && Enabled(b, s, Ack(r, ok))
    ensures Inv(b, After(b, s, Ack(r, ok)))
  {
    var s' := After(b, s, Ack(r, ok));
    assert Entitled(b, s, s.replicas[r]);
    KeysSurvive(b, s, s');
    OthersSurvive(b, s, s', r, s'.replicas[r]);
  }

  lemma ReadTotalKeeps(b: Batch, s: State, r: nat, ok: bool)
    requires Inv(b, s) && Enabled(b, s, ReadTotal(r, ok))
    ensures Inv(b, After(b, s, ReadTotal(r, ok)))
  {
    var s' := After(b, s, ReadTotal(r, ok));
    assert Entitled(b, s, s.replicas[r]);
    KeysSurvive(b, s, s');
    OthersSurvive(b, s, s', r, s'.replicas[r]);
  }

  lemma CountKeeps(b: Batch, s: State, r: nat, ok: bool)
    requires Inv(b, s) && Enabled(b, s, Count(r, ok))
    ensures Inv(b, After(b, s, Count(r, ok)))
  {
    var s' := After(b, s, Count(r, ok));
    assert Entitled(b, s, s.replicas[r]);
    if |LiveKeys(b, s, s.applied)| >= |b.scopes| {
      FullCountIsAll(b, s);
    }
    KeysSurvive(b, s, s');
    EntitledSurvives(b, s, s', s'.replicas[r]);
    OthersSurvive(b, s, s', r, s'.replicas[r]);
  }

  lemma CreateKeeps(b: Batch, s: State, r: nat, ok: bool)
    requires Inv(b, s) && Enabled(b, s, Create(r, ok))
    ensures Inv(b, After(b, s, Create(r, ok)))
  {
    var s' := After(b, s, Create(r, ok));
    assert Entitled(b, s, s.replicas[r]);
    KeysSurvive(b, s, s');
    EntitledSurvives(b, s, s', s.replicas[r]);
    OthersSurvive(b, s, s', r, s'.replicas[r]);
  }

  lemma ListKeeps(b: Batch, s: State, r: nat, ok: bool)
    requires Inv(b, s) && Enabled(b, s, List(r, ok))
    ensures Inv(b, After(b, s, List(r, ok)))
  {
    var s' := After(b, s, List(r, ok));
    assert Entitled(b, s, s.replicas[r]);
    KeysSurvive(b, s, s');
    OthersSurvive(b, s, s', r, s'.replicas[r]);
  }

  lemma SweepKeeps(b: Batch, s: State, r: nat, scope: string, ok: bool)
    requires Inv(b, s) && Enabled(b, s, Sweep(r, scope, ok))
    ensures Inv(b, After(b, s, Sweep(r, scope, ok)))
  {
    var s' := After(b, s, Sweep(r, scope, ok));
    assert Entitled(b, s, s.replicas[r]);
    OthersSurvive(b, s, s', r, s'.replicas[r]);
  }

  lemma CrashKeeps(b: Batch, s: State, r: nat)
    requires Inv(b, s) && Enabled(b, s, Crash(r))
    ensures Inv(b, After(b, s, Crash(r)))
  {
    var s' := After(b, s, Crash(r));
    KeysSurvive(b, s, s');
    OthersSurvive(b, s, s', r, s'.replicas[r]);
  }

  /** Time passes, or the next message is published. */
  lemma AloneKeeps(b: Batch, s: State, s': State)
    requires Inv(b, s) && s' == s.(now := s'.now, published := s'.published)
    requires s.now <= s'.now && s'.published <= |b.scopes|
    ensures Inv(b, s')
  {
    KeysSurvive(b, s, s');
    forall q | 0 <= q < |s.replicas| ensures Entitled(b, s', s.replicas[q]) {
      EntitledSurvives(b, s, s', s.replicas[q]);
    }
  }

  /** Every step keeps the invariant. */
  lemma StepKeeps(b: Batch, s: State, a: Action)
    requires Inv(b, s) && Enabled(b, s, a)
    ensures Inv(b, After(b, s, a))
  {
    match a
    case Tick(_) => AloneKeeps(b, s, After(b, s, a));
    case Publish => AloneKeeps(b, s, After(b, s, a));
    case Deliver(r, m) => DeliverKeeps(b, s, r, m);
    case Handle(r, ok) => HandleKeeps(b, s, r, ok);
    case Record(r, ok) => RecordKeeps(b, s, r, ok);
    case Mark(r, ok) => MarkKeeps(b, s, r, ok);
    case Ack(r, ok) => AckKeeps(b, s, r, ok);
    case ReadTotal(r, ok) => ReadTotalKeeps(b, s, r, ok);
    case Count(r, ok) => CountKeeps(b, s, r, ok);
    case Create(r, ok) => CreateKeeps(b, s, r, ok);
    case List(r, ok) => ListKeeps(b, s, r, ok);
    case Sweep(r, scope, ok) => SweepKeeps(b, s, r, scope, ok);
    case Crash(r) => CrashKeeps(b, s, r);
  }

  lemma {:induction false} RunKeeps(b: Batch, s: State, acts: seq<Action>)
    requires Inv(b, s) && Legal(b, s, acts)
    ensures Inv(b, Run(b, s, acts))
    decreases |acts|
  {
    if acts != [] {
      StepKeeps(b, s, acts[0]);
      RunKeeps(b, After(b, s, acts[0]), acts[1..]);
    }
  }

  lemma StartsInvariant(b: Batch, replicas: nat)
    requires b.Valid()
    ensures Inv(b, Start(b, replicas))
  {
  }

  /** In every interleaving a sweep is started only after the handler has succeeded for every
      message of the batch, and only scopes the batch declared are swept. */
  lemma {:induction false} SweepsAreSafe(b: Batch, replicas: nat, acts: seq<Action>)
    requires b.Valid() && Legal(b, Start(b, replicas), acts)
    ensures var s := Run(b, Start(b, replicas), acts);
      && (s.starts != [] ==> AllHandled(b, s))
      && (forall scope :: scope in s.swept ==> b.Declares(scope))
  {
    StartsInvariant(b, replicas);
    RunKeeps(b, Start(b, replicas), acts);
  }

  /** What a replica lists is every scope the batch declared, as long as no record failed and
      none has expired: a complete batch has all its records. */
  lemma ListsEveryScope(b: Batch, s: State, r: nat)
    requires Inv(b, s) && Enabled(b, s, List(r, true)) && s.unrecorded == {} && s.now < b.ttl
    ensures var p := After(b, s, List(r, true)).replicas[r];
      (p == Idle && forall scope :: !b.Declares(scope)) || (p.Sweeping? && forall scope :: scope in p.pending <==> b.Declares(scope))
  {
    assert Entitled(b, s, s.replicas[r]);
    forall scope | b.Declares(scope) ensures scope in LiveKeys(b, s, s.snaps) {
      var m: nat :| m < |b.scopes| && b.scopes[m] == Some(scope);
      assert Recorded(b, s, m);
    }
  }

  // ── At most one sweep ──────────────────────────────────────────────

  /** The replica goes from reading the total to creating the key within the time the batch
      took to its first sweep. */
  predicate Prompt(s: State, a: Action) {
    a.Create? && a.ok && s.starts != [] && a.r < |s.replicas| && s.replicas[a.r].Creating? ==>
      s.now - s.replicas[a.r].since <= s.starts[0]
  }

  predicate AllPrompt(b: Batch, s: State, acts: seq<Action>)
    requires Legal(b, s, acts)
    decreases |acts|
  {
    acts == [] || (Prompt(s, acts[0]) && AllPrompt(b, After(b, s, acts[0]), acts[1..]))
  }

  /** The total is older than the swept key, so a replica that read the total alive finds the
      swept key alive. */
  lemma PromptStepsOnce(b: Batch, s: State, a: Action)
    requires Inv(b, s) && Enabled(b, s, a) && Prompt(s, a) && |s.starts| <= 1
    ensures |After(b, s, a).starts| <= 1
  {
    if a.Create? {
      assert Entitled(b, s, s.replicas[a.r]);
    }
  }

  lemma {:induction false} PromptRunsOnce(b: Batch, s: State, acts: seq<Action>)
    requires Inv(b, s) && Legal(b, s, acts) && AllPrompt(b, s, acts) && |s.starts| <= 1
    ensures |Run(b, s, acts).starts| <= 1
    decreases |acts|
  {
    if acts != [] {
      StepKeeps(b, s, acts[0]);
      PromptStepsOnce(b, s, acts[0]);
      PromptRunsOnce(b, After(b, s, acts[0]), acts[1..]);
    }
  }

  /** Over any run in which no replica dawdles between its check and its create, a batch is
      swept at most once, however its keys expire. */
  lemma {:induction false} AtMostOneSweep(b: Batch, replicas: nat, acts: seq<Action>)
    requires b.Valid() && Legal(b, Start(b, replicas), acts) && AllPrompt(b, Start(b, replicas), acts)
    ensures |Run(b, Start(b, replicas), acts).starts| <= 1
  {
    StartsInvariant(b, replicas);
    PromptRunsOnce(b, Start(b, replicas), acts);
  }

  lemma {:induction false} RunAppends(b: Batch, s: State, acts: seq<Action>, more: seq<Action>)
    requires Legal(b, s, acts) && Legal(b, Run(b, s, acts), more)
    ensures Legal(b, s, acts + more) && Run(b, s, acts + more) == Run(b, Run(b, s, acts), more)
    decreases |acts|
  {
    if acts == [] {
      assert acts + more == more;
    } else {
      assert (acts + more)[1..] == acts[1..] + more;
      RunAppends(b, After(b, s, acts[0]), acts[1..], more);
    }
  }

  lemma {:induction false} StepOnto(b: Batch, s: State, acts: seq<Action>, a: Action)
    requires Legal(b, s, acts) && Enabled(b, Run(b, s, acts), a)
    ensures Legal(b, s, acts + [a]) && Run(b, s, acts + [a]) == After(b, Run(b, s, acts), a)
  {
    assert [a][1..] == [];
    RunAppends(b, s, acts, [a]);
  }

  /** A run from `s` over `acts` ends at `t`. */
  ghost predicate Reaches(b: Batch, s: State, acts: seq<Action>, t: State) {
    Legal(b, s, acts) && Run(b, s, acts) == t
  }

  lemma Step(b: Batch, s: State, acts: seq<Action>, t: State, a: Action) returns (longer: seq<Action>)
    requires Reaches(b, s, acts, t) && Enabled(b, t, a)
    ensures Reaches(b, s, longer, After(b, t, a))
  {
    longer := acts + [a];
    StepOnto(b, s, acts, a);
  }

  // The run that sweeps twice. The acknowledgement of the one message is lost, and the first
  // replica sweeps; the second, redelivered to, reads the total in the last moment of its life
  // and creates its key only when the first one's key is gone.

  /** One message, one scope. */
  function Single(ttl: nat): Batch {
    Batch([Some("scope")], ttl)
  }

  /** `t` is as far as `s`, but for what a replica does with the one message. */
  ghost predicate Alongside(s: State, t: State) {
    t.now == s.now && t.published == s.published && t.sweptKey == s.sweptKey && t.starts == s.starts
  }

  /** Replica `r` takes the message through the handler. */
  lemma HandlesIt(b: Batch, s: State, acts: seq<Action>, t: State, r: nat) returns (longer: seq<Action>, u: State)
    requires Reaches(b, s, acts, t) && |t.delivered| == 1 && r < |t.replicas| && Enabled(b, t, Deliver(r, 0))
    ensures Reaches(b, s, longer, u) && Alongside(t, u) && u.replicas == t.replicas[r := Recording(0)]
    ensures u.delivered == [t.delivered[0] + 1] && u.settled == t.settled && u.applied == t.applied
  {
    var v := After(b, t, Deliver(r, 0));
    longer := Step(b, s, acts, t, Deliver(r, 0));
    u := After(b, v, Handle(r, true));
    longer := Step(b, s, longer, v, Handle(r, true));
  }

  /** And records and marks it. */
  lemma MarksIt(ttl: nat, s: State, acts: seq<Action>, t: State, r: nat) returns (longer: seq<Action>, u: State)
    requires Reaches(Single(ttl), s, acts, t) && r < |t.replicas| && t.replicas[r] == Recording(0)
    ensures Reaches(Single(ttl), s, longer, u) && Alongside(t, u) && u.replicas == t.replicas[r := Acking(0)]
    ensures u.delivered == t.delivered && u.settled == t.settled && u.applied == t.applied[0 := t.now]
  {
    var b := Single(ttl);
    var v := After(b, t, Record(r, true));
    longer := Step(b, s, acts, t, Record(r, true));
    u := After(b, v, Mark(r, true));
    longer := Step(b, s, longer, v, Mark(r, true));
  }

  /** And acknowledges it, in vain or not, and reads the total. */
  lemma AcksIt(b: Batch, s: State, acts: seq<Action>, t: State, r: nat, acked: bool) returns (longer: seq<Action>, u: State)
    requires Reaches(b, s, acts, t) && r < |t.replicas| && t.replicas[r] == Acking(0) && t.now < b.ttl
    ensures Reaches(b, s, longer, u) && Alongside(t, u) && u.replicas == t.replicas[r := Counting(t.now)]
    ensures u.delivered == t.delivered && u.settled == (if acked then t.settled + {0} else t.settled) && u.applied == t.applied
  {
    var v := After(b, t, Ack(r, acked));
    longer := Step(b, s, acts, t, Ack(r, acked));
    u := After(b, v, ReadTotal(r, true));
    longer := Step(b, s, longer, v, ReadTotal(r, true));
  }

  /** And counts one message of one. */
  lemma CountsIt(ttl: nat, s: State, acts: seq<Action>, t: State, r: nat) returns (longer: seq<Action>, u: State)
    requires Reaches(Single(ttl), s, acts, t) && r < |t.replicas| && t.replicas[r] == Counting(t.now) && t.now < ttl
    requires t.applied == map[0 := t.now]
    ensures Reaches(Single(ttl), s, longer, u) && Alongside(t, u) && u.replicas == t.replicas[r := Creating(t.now)]
    ensures u.delivered == t.delivered && u.settled == t.settled && u.applied == t.applied
  {
    assert LiveKeys(Single(ttl), t, t.applied) == {0};
    u := After(Single(ttl), t, Count(r, true));
    longer := Step(Single(ttl), s, acts, t, Count(r, true));
  }

  /** All of this: one delivery, up to the point of creating the key. */
  lemma DeliversIt(ttl: nat, s: State, acts: seq<Action>, t: State, r: nat, acked: bool) returns (longer: seq<Action>, u: State)
    requires Reaches(Single(ttl), s, acts, t) && |t.delivered| == 1 && r < |t.replicas| && Enabled(Single(ttl), t, Deliver(r, 0))
    requires t.now < ttl && t.applied.Keys <= {0}
    ensures Reaches(Single(ttl), s, longer, u) && Alongside(t, u) && u.replicas == t.replicas[r := Creating(t.now)]
    ensures u.delivered == [t.delivered[0] + 1] && u.settled == (if acked then t.settled + {0} else t.settled) && u.applied == map[0 := t.now]
  {
    var v, w, x;
    longer, v := HandlesIt(Single(ttl), s, acts, t, r);
    longer, w := MarksIt(ttl, s, longer, v, r);
    longer, x := AcksIt(Single(ttl), s, longer, w, r, acked);
    longer, u := CountsIt(ttl, s, longer, x, r);
  }

  /** It waits, and creates the key. */
  lemma CreatesIt(b: Batch, s: State, acts: seq<Action>, t: State, r: nat, time: nat) returns (longer: seq<Action>, u: State)
    requires Reaches(b, s, acts, t) && r < |t.replicas| && t.replicas[r].Creating?
    requires t.sweptKey == None || t.sweptKey.value + b.ttl <= t.now + time
    ensures Reaches(b, s, longer, u) && u.now == t.now + time && u.published == t.published && u.replicas == t.replicas[r := Listing]
    ensures u.delivered == t.delivered && u.settled == t.settled && u.applied == t.applied
    ensures u.sweptKey == Some(u.now) && u.starts == t.starts + [u.now]
  {
    var v := After(b, t, Tick(time));
    longer := Step(b, s, acts, t, Tick(time));
    u := After(b, v, Create(r, true));
    longer := Step(b, s, longer, v, Create(r, true));
  }

  lemma Publishes(b: Batch, s: State) returns (acts: seq<Action>, t: State)
    requires b == Single(b.ttl) && s == Start(b, 2)
    ensures Reaches(b, s, acts, t) && t.now == 0 && t.published == 1 && t.replicas == [Idle, Idle]
    ensures t.delivered == [0] && t.settled == {} && t.applied == map[] && t.sweptKey == None && t.starts == []
  {
    t := After(b, s, Publish);
    acts := Step(b, s, [], s, Publish);
  }

  lemma Waits(b: Batch, s: State, acts: seq<Action>, t: State, time: nat) returns (longer: seq<Action>, u: State)
    requires Reaches(b, s, acts, t)
    ensures Reaches(b, s, longer, u) && u == t.(now := t.now + time)
  {
    u := After(b, t, Tick(time));
    longer := Step(b, s, acts, t, Tick(time));
  }

  lemma SweepsOnce(ttl: nat, first: nat) returns (acts: seq<Action>, t: State)
    requires first < ttl
    ensures Reaches(Single(ttl), Start(Single(ttl), 2), acts, t) && t.now == first && t.published == 1 && t.replicas == [Listing, Idle]
    ensures t.delivered == [1] && t.settled == {} && t.applied == map[0 := 0] && t.sweptKey == Some(first) && t.starts == [first]
  {
    var b, s := Single(ttl), Start(Single(ttl), 2);
    var u, v;
    acts, u := Publishes(b, s);
    acts, v := DeliversIt(ttl, s, acts, u, 0, false);
    acts, t := CreatesIt(b, s, acts, v, 0, first);
  }

  /** However long the keys live, and whenever the batch was first swept, a replica that takes
      any longer than that from reading the total to creating the key can sweep it again. */
  lemma DawdlingSweepsTwice(ttl: nat, first: nat, delay: nat) returns (acts: seq<Action>, t: State)
    requires first < ttl && delay > first
    ensures Reaches(Single(ttl), Start(Single(ttl), 2), acts, t) && t.starts == [first, ttl - 1 + delay]
  {
    var b, s := Single(ttl), Start(Single(ttl), 2);
    var u, v, w;
    acts, u := SweepsOnce(ttl, first);
    acts, v := Waits(b, s, acts, u, ttl - 1 - first);
    acts, w := DeliversIt(ttl, s, acts, v, 1, true);
    acts, t := CreatesIt(b, s, acts, w, 1, delay);
  }

  // ── Messages given up ──────────────────────────────────────────────

  /** Message `m` is settled without ever having been handled, and no replica holds it. */
  ghost predicate Lost(s: State, m: nat) {
    && m in s.settled && m !in s.handled
    && forall r :: 0 <= r < |s.replicas| ==> !(s.replicas[r].Handling? && s.replicas[r].msg == m)
  }

  lemma LostStays(b: Batch, s: State, a: Action, m: nat)
    requires Inv(b, s) && Enabled(b, s, a) && Lost(s, m)
    ensures Lost(After(b, s, a), m)
  {
    SettledStays(b, s, a);
    StaysUnhandled(b, s, a, m);
    StaysUnheld(b, s, a, m);
  }

  lemma SettledStays(b: Batch, s: State, a: Action)
    requires Enabled(b, s, a)
    ensures s.settled <= After(b, s, a).settled
  {
  }

  lemma StaysUnhandled(b: Batch, s: State, a: Action, m: nat)
    requires Enabled(b, s, a) && Lost(s, m)
    ensures m !in After(b, s, a).handled
  {
  }

  lemma StaysUnheld(b: Batch, s: State, a: Action, m: nat)
    requires Enabled(b, s, a) && Lost(s, m)
    ensures var t := After(b, s, a);
      forall r :: 0 <= r < |t.replicas| ==> !(t.replicas[r].Handling? && t.replicas[r].msg == m)
  {
  }

  /** A batch with a message dead-lettered unhandled is never swept: it errs towards keeping. */
  lemma {:induction false} LostNeverSweeps(b: Batch, s: State, acts: seq<Action>, m: nat)
    requires Inv(b, s) && Legal(b, s, acts) && Lost(s, m) && m < |b.scopes|
    ensures Run(b, s, acts).starts == []
    decreases |acts|
  {
    if acts == [] {
      assert Sweeps(b, s);
    } else {
      StepKeeps(b, s, acts[0]);
      LostStays(b, s, acts[0], m);
      LostNeverSweeps(b, After(b, s, acts[0]), acts[1..], m);
    }
  }

  // ── Attempts ───────────────────────────────────────────────────────

  predicate InFlight(s: State, r: nat, m: nat, k: nat) {
    r < |s.replicas| && s.replicas[r] == Handling(m, k)
  }

  predicate Issued(s: State, m: nat, k: nat) {
    m < |s.delivered| && 1 <= k <= s.delivered[m]
  }

  predicate Ended(s: State, m: nat, k: nat, o: Outcome) {
    (m, k) in s.outcomes && s.outcomes[(m, k)] == o
  }

  ghost predicate Accounted(s: State, m: nat, k: nat) {
    (m, k) in s.outcomes || exists r: nat :: InFlight(s, r, m, k)
  }

  /** Every attempt issued has ended or is with exactly one replica, and there are no others. */
  ghost predicate Attempts(s: State) {
    && (forall m :: 0 <= m < |s.delivered| ==> s.delivered[m] <= MAX_DELIVER)
    && (forall r: nat, m: nat, k: nat :: InFlight(s, r, m, k) ==> Issued(s, m, k) && (m, k) !in s.outcomes)
    && (forall r: nat, q: nat, m: nat, k: nat :: InFlight(s, r, m, k) && InFlight(s, q, m, k) ==> r == q)
    && (forall m: nat, k: nat :: (m, k) in s.outcomes ==> Issued(s, m, k))
    && (forall m: nat, k: nat :: Issued(s, m, k) ==> Accounted(s, m, k))
  }

  /** A message is given up exactly when its handler refused it on the last attempt, and counts
      as handled exactly when some attempt succeeded. */
  ghost predicate Verdicts(s: State) {
    && s.deadLettered <= s.settled
    && (forall m: nat :: m in s.deadLettered <==> Ended(s, m, MAX_DELIVER, Refused))
    && (forall m: nat :: m in s.handled <==> exists k: nat :: Ended(s, m, k, Succeeded))
  }

  /** A step that neither starts nor ends an attempt. */
  lemma MovesKeep(s: State, t: State, r: nat, p: Replica)
    requires Attempts(s) && r < |s.replicas| && t.replicas == s.replicas[r := p] && !s.replicas[r].Handling? && !p.Handling?
    requires t.delivered == s.delivered && t.outcomes == s.outcomes
    ensures Attempts(t)
  {
    assert forall q: nat, m: nat, k: nat :: InFlight(t, q, m, k) <==> InFlight(s, q, m, k);
    forall m: nat, k: nat | Issued(t, m, k) ensures Accounted(t, m, k) {
      assert Accounted(s, m, k);
      if q: nat :| InFlight(s, q, m, k) {
        assert InFlight(t, q, m, k);
      }
    }
  }

  lemma DeliverIssues(b: Batch, s: State, r: nat, n: nat)
    requires Attempts(s) && Enabled(b, s, Deliver(r, n))
    ensures Attempts(After(b, s, Deliver(r, n)))
  {
    var t := After(b, s, Deliver(r, n));
    var last := s.delivered[n] + 1;
    assert forall q: nat, m: nat, k: nat :: InFlight(t, q, m, k) <==> InFlight(s, q, m, k) || (q == r && m == n && k == last);
    forall m: nat, k: nat | Issued(t, m, k) ensures Accounted(t, m, k) {
      if m == n && k == last {
        assert InFlight(t, r, m, k);
      } else {
        assert Issued(s, m, k);
        if q: nat :| InFlight(s, q, m, k) {
          assert InFlight(t, q, m, k);
        }
      }
    }
  }

  lemma EndKeeps(s: State, t: State, r: nat, p: Replica, m: nat, k: nat, o: Outcome)
    requires Attempts(s) && InFlight(s, r, m, k) && t.replicas == s.replicas[r := p] && !p.Handling?
    requires t.delivered == s.delivered && t.outcomes == s.outcomes[(m, k) := o]
    ensures Attempts(t)
  {
    assert forall q: nat, n: nat, j: nat :: InFlight(t, q, n, j) <==> InFlight(s, q, n, j) && q != r;
    forall n: nat, j: nat | Issued(t, n, j) ensures Accounted(t, n, j) {
      assert Accounted(s, n, j);
      if q: nat :| InFlight(s, q, n, j) {
        assert q != r ==> InFlight(t, q, n, j);
      }
    }
  }

  lemma HandleEnds(b: Batch, s: State, r: nat, ok: bool)
    requires Attempts(s) && Enabled(b, s, Handle(r, ok))
    ensures Attempts(After(b, s, Handle(r, ok)))
  {
    EndKeeps(s, After(b, s, Handle(r, ok)), r, After(b, s, Handle(r, ok)).replicas[r],
             s.replicas[r].msg, s.replicas[r].attempt, if ok then Succeeded else Refused);
  }

  lemma CrashEnds(b: Batch, s: State, r: nat)
    requires Attempts(s) && Enabled(b, s, Crash(r))
    ensures Attempts(After(b, s, Crash(r)))
  {
    if s.replicas[r].Handling? {
      EndKeeps(s, After(b, s, Crash(r)), r, Idle, s.replicas[r].msg, s.replicas[r].attempt, Dropped);
    } else {
      MovesKeep(s, After(b, s, Crash(r)), r, Idle);
    }
  }

  lemma AttemptsKept(b: Batch, s: State, a: Action)
    requires Attempts(s) && Enabled(b, s, a)
    ensures Attempts(After(b, s, a))
  {
    match a
    case Tick(_) => Unmoved(s, After(b, s, a));
    case Publish => Unmoved(s, After(b, s, a));
    case Deliver(r, m) => DeliverIssues(b, s, r, m);
    case Handle(r, ok) => HandleEnds(b, s, r, ok);
    case Crash(r) => CrashEnds(b, s, r);
    case _ => MovesKeep(s, After(b, s, a), a.r, After(b, s, a).replicas[a.r]);
  }

  lemma Unmoved(s: State, t: State)
    requires Attempts(s) && t.replicas == s.replicas && t.delivered == s.delivered && t.outcomes == s.outcomes
    ensures Attempts(t)
  {
    assert forall q: nat, m: nat, k: nat :: InFlight(t, q, m, k) <==> InFlight(s, q, m, k);
    forall m: nat, k: nat | Issued(t, m, k) ensures Accounted(t, m, k) {
      assert Accounted(s, m, k);
      if q: nat :| InFlight(s, q, m, k) {
        assert InFlight(t, q, m, k);
      }
    }
  }

  /** The verdict on an attempt settles what it must and nothing else. */
  lemma VerdictKeeps(s: State, t: State, m: nat, k: nat, o: Outcome)
    requires Verdicts(s) && (m, k) !in s.outcomes && t.outcomes == s.outcomes[(m, k) := o]
    requires t.deadLettered == if o == Refused && k == MAX_DELIVER then s.deadLettered + {m} else s.deadLettered
    requires t.handled == (if o == Succeeded then s.handled + {m} else s.handled) && t.deadLettered <= t.settled
    ensures Verdicts(t)
  {
    forall n: nat ensures n in t.deadLettered <==> Ended(t, n, MAX_DELIVER, Refused) {
      assert n in s.deadLettered <==> Ended(s, n, MAX_DELIVER, Refused);
      assert (n, MAX_DELIVER) != (m, k) ==> (Ended(t, n, MAX_DELIVER, Refused) <==> Ended(s, n, MAX_DELIVER, Refused));
    }
    forall n: nat ensures n in t.handled <==> exists j: nat :: Ended(t, n, j, Succeeded) {
      if n in s.handled {
        var j: nat :| Ended(s, n, j, Succeeded);
        assert Ended(t, n, j, Succeeded);
      }
      if o == Succeeded {
        assert Ended(t, m, k, Succeeded);
      }
      if j: nat :| Ended(t, n, j, Succeeded) {
        assert (n, j) == (m, k) || Ended(s, n, j, Succeeded);
      }
    }
  }

  lemma VerdictsKept(b: Batch, s: State, a: Action)
    requires Attempts(s) && Verdicts(s) && Enabled(b, s, a)
    ensures Verdicts(After(b, s, a))
  {
    var t := After(b, s, a);
    match a
    case Handle(r, ok) =>
      var m, k := s.replicas[r].msg, s.replicas[r].attempt;
      assert InFlight(s, r, m, k);
      VerdictKeeps(s, t, m, k, if ok then Succeeded else Refused);
    case Crash(r) =>
      if s.replicas[r].Handling? {
        assert InFlight(s, r, s.replicas[r].msg, s.replicas[r].attempt);
        VerdictKeeps(s, t, s.replicas[r].msg, s.replicas[r].attempt, Dropped);
      } else {
        VerdictsSame(s, t);
      }
    case _ =>
      assert t.outcomes == s.outcomes && t.handled == s.handled && t.deadLettered == s.deadLettered && s.settled <= t.settled;
      VerdictsSame(s, t);
  }

  lemma VerdictsSame(s: State, t: State)
    requires Verdicts(s) && t.outcomes == s.outcomes && t.handled == s.handled && t.deadLettered == s.deadLettered && s.settled <= t.settled
    ensures Verdicts(t)
  {
    forall n: nat ensures n in t.handled <==> exists j: nat :: Ended(t, n, j, Succeeded) {
      if j: nat :| Ended(s, n, j, Succeeded) {
        assert Ended(t, n, j, Succeeded);
      }
      if j: nat :| Ended(t, n, j, Succeeded) {
        assert Ended(s, n, j, Succeeded);
      }
    }
  }

  lemma {:induction false} RunAccounts(b: Batch, s: State, acts: seq<Action>)
    requires Attempts(s) && Verdicts(s) && Legal(b, s, acts)
    ensures Attempts(Run(b, s, acts)) && Verdicts(Run(b, s, acts))
    decreases |acts|
  {
    if acts != [] {
      AttemptsKept(b, s, acts[0]);
      VerdictsKept(b, s, acts[0]);
      RunAccounts(b, After(b, s, acts[0]), acts[1..]);
    }
  }

  /** Over every run: a message is attempted at most eight times; each attempt ended once, or is
      with exactly one replica; and the message is dead-lettered exactly when its handler refused
      it on the eighth - so one dead-lettered without ever having been handled was refused,
      dropped with its replica, or is still being handled on every attempt before. */
  lemma {:induction false} GivenUpOnLastAttempt(b: Batch, replicas: nat, acts: seq<Action>, m: nat)
    requires Legal(b, Start(b, replicas), acts) && m < |b.scopes|
    ensures var s := Run(b, Start(b, replicas), acts);
      && Attempts(s) && (m in s.deadLettered <==> Ended(s, m, 8, Refused))
      && (m < |s.delivered| ==> s.delivered[m] <= 8)
      && (m in s.deadLettered ==> m in s.settled && |s.delivered| > m && s.delivered[m] == 8)
      && (m in s.deadLettered && m !in s.handled ==>
            forall k: nat :: 1 <= k < 8 ==>
              Ended(s, m, k, Refused) || Ended(s, m, k, Dropped) || exists r: nat :: InFlight(s, r, m, k))
  {
    RunAccounts(b, Start(b, replicas), acts);
    var s := Run(b, Start(b, replicas), acts);
    if m in s.deadLettered {
      assert Issued(s, m, MAX_DELIVER);
      forall k: nat | 1 <= k < MAX_DELIVER && m !in s.handled
        ensures Ended(s, m, k, Refused) || Ended(s, m, k, Dropped) || exists r: nat :: InFlight(s, r, m, k)
      {
        assert Issued(s, m, k) && Accounted(s, m, k) && !Ended(s, m, k, Succeeded);
      }
    }
  }
}
