/** What the sweeps of a batch reach: over every run, which scopes are swept, and that a batch on
    which nothing fails is swept in full. */
module Sweeps {
  import opened Batch

  // ── What is swept ──────────────────────────────────────────────────

  /** The step sweeps the scope: the call succeeds, and the scope's record is still there. */
  predicate SweepsIt(b: Batch, s: State, a: Action, scope: string) {
    a.Sweep? && a.scope == scope && a.ok && scope in s.snaps && s.now < s.snaps[scope] + b.ttl
  }

  ghost predicate SweptOn(b: Batch, s: State, acts: seq<Action>, scope: string)
    requires Legal(b, s, acts)
    decreases |acts|
  {
    acts != [] && (SweepsIt(b, s, acts[0], scope) || SweptOn(b, After(b, s, acts[0]), acts[1..], scope))
  }

  /** Over every run exactly those scopes are swept that a step swept. */
  lemma {:induction false} SweptExactly(b: Batch, s: State, acts: seq<Action>, scope: string)
    requires Legal(b, s, acts)
    ensures scope in Run(b, s, acts).swept <==> scope in s.swept || SweptOn(b, s, acts, scope)
    decreases |acts|
  {
    if acts != [] {
      SweptExactly(b, After(b, s, acts[0]), acts[1..], scope);
    }
  }

  /** The scope is lost to the sweeper `r`: its sweep fails, its record has expired, or `r` does
      not live to sweep it. */
  predicate Loses(b: Batch, s: State, a: Action, r: nat, scope: string) {
    || a == Crash(r)
    || (a.Sweep? && a.r == r && a.scope == scope && (!a.ok || scope !in s.snaps || s.now >= s.snaps[scope] + b.ttl))
  }

  ghost predicate LostOn(b: Batch, s: State, acts: seq<Action>, r: nat, scope: string)
    requires Legal(b, s, acts)
    decreases |acts|
  {
    acts != [] && (Loses(b, s, acts[0], r, scope) || LostOn(b, After(b, s, acts[0]), acts[1..], r, scope))
  }

  predicate StillPending(s: State, r: nat, scope: string) {
    r < |s.replicas| && s.replicas[r].Sweeping? && scope in s.replicas[r].pending
  }

  lemma PendingStep(b: Batch, s: State, a: Action, r: nat, scope: string)
    requires Enabled(b, s, a) && StillPending(s, r, scope)
    ensures StillPending(After(b, s, a), r, scope) || SweepsIt(b, s, a, scope) || Loses(b, s, a, r, scope)
  {
    if a.Sweep? && a.r == r && a.scope != scope {
      assert scope in s.replicas[r].pending - {a.scope};
    }
  }

  /** Whether its sweep succeeds or fails, a scope's turn is over, and no other's is: a sweep ends
      after as many calls as scopes were listed. */
  lemma TriedOnce(b: Batch, s: State, r: nat, scope: string, ok: bool)
    requires Enabled(b, s, Sweep(r, scope, ok))
    ensures var t, pending := After(b, s, Sweep(r, scope, ok)), s.replicas[r].pending;
      && (forall other :: StillPending(t, r, other) <==> other in pending && other != scope)
      && (if |pending| == 1 then t.replicas[r] == Idle else t.replicas[r].Sweeping? && |t.replicas[r].pending| == |pending| - 1)
  {
    var pending := s.replicas[r].pending;
    assert |pending - {scope}| == |pending| - 1;
    if pending - {scope} != {} {
      var other :| other in pending - {scope};
      assert |pending| == 1 + |pending - {scope}|;
    }
  }

  /** Over every run a scope that was listed is still to be swept, was swept, or was lost. */
  lemma {:induction false} ListedIsAccounted(b: Batch, s: State, acts: seq<Action>, r: nat, scope: string)
    requires Legal(b, s, acts) && StillPending(s, r, scope)
    ensures StillPending(Run(b, s, acts), r, scope) || scope in Run(b, s, acts).swept || LostOn(b, s, acts, r, scope)
    decreases |acts|
  {
    if acts != [] {
      PendingStep(b, s, acts[0], r, scope);
      if StillPending(After(b, s, acts[0]), r, scope) {
        ListedIsAccounted(b, After(b, s, acts[0]), acts[1..], r, scope);
      } else {
        SweptExactly(b, s, acts, scope);
      }
    }
  }

  lemma {:induction false} TimePasses(b: Batch, s: State, acts: seq<Action>)
    requires Legal(b, s, acts)
    ensures s.now <= Run(b, s, acts).now
    decreases |acts|
  {
    if acts != [] {
      TimePasses(b, After(b, s, acts[0]), acts[1..]);
    }
  }

  /** No step of `r` fails or ends it. */
  predicate SweepsOn(acts: seq<Action>, r: nat) {
    forall i :: 0 <= i < |acts| ==> acts[i] != Crash(r) && (acts[i].Sweep? && acts[i].r == r ==> acts[i].ok)
  }

  lemma {:induction false} NoneLost(b: Batch, s: State, acts: seq<Action>, r: nat, scope: string)
    requires Legal(b, s, acts) && SweepsOn(acts, r) && scope in s.snaps && Run(b, s, acts).now < b.ttl
    ensures !LostOn(b, s, acts, r, scope)
    decreases |acts|
  {
    if acts != [] {
      TimePasses(b, s, acts);
      var rest := acts[1..];
      forall i | 0 <= i < |rest| ensures rest[i] != Crash(r) && (rest[i].Sweep? && rest[i].r == r ==> rest[i].ok) {
        assert rest[i] == acts[i + 1];
      }
      NoneLost(b, After(b, s, acts[0]), rest, r, scope);
    }
  }

  /** From where a replica lists: when every record was written, none has expired, and none of its
      sweeps fails or is cut short, then once it is done exactly the declared scopes are swept. */
  lemma {:induction false} FinishedSweepIsExact(b: Batch, s: State, acts: seq<Action>, r: nat, scope: string)
    requires Inv(b, s) && Enabled(b, s, List(r, true)) && s.unrecorded == {}
    requires Legal(b, s, [List(r, true)] + acts) && SweepsOn(acts, r)
    requires var t := Run(b, s, [List(r, true)] + acts); t.now < b.ttl && r < |t.replicas| && !t.replicas[r].Sweeping?
    ensures scope in Run(b, s, [List(r, true)] + acts).swept <==> b.Declares(scope)
  {
    var all, listed := [List(r, true)] + acts, After(b, s, List(r, true));
    assert all[0] == List(r, true) && all[1..] == acts;
    RunKeeps(b, s, all);
    TimePasses(b, s, all);
    ListsEveryScope(b, s, r);
    if b.Declares(scope) {
      assert StillPending(listed, r, scope);
      assert scope in LiveKeys(b, s, s.snaps);
      NoneLost(b, listed, acts, r, scope);
      ListedIsAccounted(b, listed, acts, r, scope);
    }
  }

  // ── A batch on which nothing fails ─────────────────────────────────

  predicate Succeeds(a: Action) {
    match a
    case Tick(_) => true
    case Publish => true
    case Deliver(_, _) => true
    case Crash(_) => false
    case _ => a.ok
  }

  predicate Flawless(acts: seq<Action>) {
    forall i :: 0 <= i < |acts| ==> Succeeds(acts[i])
  }

  predicate AllApplied(b: Batch, s: State) {
    forall m: nat :: m < |b.scopes| ==> m in s.applied
  }

  /** On its way from its acknowledgement to the key of the sweep. */
  predicate Closing(p: Replica) {
    p.Acking? || p.Checking? || p.Counting? || p.Creating?
  }

  predicate SomeClosing(s: State) {
    exists r :: 0 <= r < |s.replicas| && Closing(s.replicas[r])
  }

  predicate SomeListing(s: State) {
    exists r :: 0 <= r < |s.replicas| && s.replicas[r] == Listing
  }

  ghost predicate SweptOrPending(s: State, scope: string) {
    scope in s.swept || exists r: nat :: StillPending(s, r, scope)
  }

  /** What holds as long as nothing has failed or expired: what is acknowledged is marked; a batch
      all marked is about to be swept or has been started on; and once started on, every declared
      scope is swept or about to be. */
  ghost predicate OnCourse(b: Batch, s: State) {
    && s.unrecorded == {}
    && (forall m :: m in s.settled ==> m in s.applied)
    && (forall r :: 0 <= r < |s.replicas| && s.replicas[r].Acking? ==> s.replicas[r].msg in s.applied)
    && (AllApplied(b, s) && s.starts == [] ==> SomeClosing(s))
    && |s.starts| <= 1
    && (s.starts != [] && !SomeListing(s) ==> forall scope :: b.Declares(scope) ==> SweptOrPending(s, scope))
    && (forall r :: 0 <= r < |s.replicas| && s.replicas[r].Sweeping? ==> s.replicas[r].pending <= s.snaps.Keys)
  }

  /** A replica moves where nothing is decided. */
  predicate Passive(p: Replica) {
    !Closing(p) && p != Listing && !p.Sweeping?
  }

  lemma PassiveKeeps(b: Batch, s: State, t: State, r: nat, p: Replica)
    requires OnCourse(b, s) && r < |s.replicas| && t.replicas == s.replicas[r := p] && Passive(s.replicas[r]) && Passive(p)
    requires t.settled == s.settled && t.applied == s.applied && t.starts == s.starts && t.swept == s.swept
    requires s.snaps.Keys <= t.snaps.Keys && t.unrecorded == {}
    ensures OnCourse(b, t)
  {
    if AllApplied(b, s) && s.starts == [] {
      var q :| 0 <= q < |s.replicas| && Closing(s.replicas[q]);
      assert Closing(t.replicas[q]);
    }
    if SomeListing(s) {
      var q :| 0 <= q < |s.replicas| && s.replicas[q] == Listing;
      assert t.replicas[q] == Listing;
    }
    PendingElsewhere(b, s, t, r);
  }

  /** What others have pending stays. */
  lemma PendingElsewhere(b: Batch, s: State, t: State, r: nat)
    requires |t.replicas| == |s.replicas| && t.swept == s.swept
    requires forall q :: 0 <= q < |s.replicas| && q != r ==> t.replicas[q] == s.replicas[q]
    requires r < |s.replicas| ==> !s.replicas[r].Sweeping?
    ensures forall scope :: SweptOrPending(s, scope) ==> SweptOrPending(t, scope)
  {
    forall scope | SweptOrPending(s, scope) ensures SweptOrPending(t, scope) {
      if scope !in s.swept {
        var q: nat :| StillPending(s, q, scope);
        assert StillPending(t, q, scope);
      }
    }
  }

  /** A replica moves on towards the key, or up to it; nobody else moves. */
  lemma ClosingKeeps(b: Batch, s: State, t: State, r: nat, p: Replica)
    requires OnCourse(b, s) && r < |s.replicas| && t.replicas == s.replicas[r := p] && s.replicas[r] != Listing && !s.replicas[r].Sweeping?
    requires Closing(p) && (p.Acking? ==> p.msg in t.applied)
    requires s.applied.Keys <= t.applied.Keys && t.starts == s.starts && t.swept == s.swept && t.snaps == s.snaps && t.unrecorded == {}
    requires forall m :: m in t.settled ==> m in t.applied
    ensures OnCourse(b, t)
  {
    assert Closing(t.replicas[r]);
    if SomeListing(s) {
      var q :| 0 <= q < |s.replicas| && s.replicas[q] == Listing;
      assert t.replicas[q] == Listing;
    }
    PendingElsewhere(b, s, t, r);
  }

  lemma MarkKeeps(b: Batch, s: State, r: nat)
    requires OnCourse(b, s) && Enabled(b, s, Mark(r, true))
    ensures OnCourse(b, After(b, s, Mark(r, true)))
  {
    var t := After(b, s, Mark(r, true));
    ClosingKeeps(b, s, t, r, Acking(s.replicas[r].msg));
  }

  lemma AckKeeps(b: Batch, s: State, r: nat)
    requires OnCourse(b, s) && Enabled(b, s, Ack(r, true))
    ensures OnCourse(b, After(b, s, Ack(r, true)))
  {
    ClosingKeeps(b, s, After(b, s, Ack(r, true)), r, Checking(s.replicas[r].msg));
  }

  lemma ReadTotalKeeps(b: Batch, s: State, r: nat)
    requires OnCourse(b, s) && Enabled(b, s, ReadTotal(r, true)) && s.now < b.ttl
    ensures OnCourse(b, After(b, s, ReadTotal(r, true)))
  {
    ClosingKeeps(b, s, After(b, s, ReadTotal(r, true)), r, Counting(s.now));
  }

  function Messages(n: nat): (ms: set<nat>)
    ensures |ms| == n && forall m: nat :: m in ms <==> m < n
  {
    if n == 0 then {} else Messages(n - 1) + {n - 1}
  }

  lemma Fewer(a: set<nat>, c: set<nat>)
    requires a <= c
    ensures |a| <= |c|
  {
    assert c == a + (c - a);
  }

  lemma AllAppliedCounts(b: Batch, s: State)
    requires AllApplied(b, s) && s.now < b.ttl
    ensures |LiveKeys(b, s, s.applied)| >= |b.scopes|
  {
    Fewer(Messages(|b.scopes|), LiveKeys(b, s, s.applied));
  }

  /** A replica that is not needed to close the batch goes back to work. */
  lemma RetiresKeeps(b: Batch, s: State, t: State, r: nat)
    requires OnCourse(b, s) && r < |s.replicas| && t == s.(replicas := s.replicas[r := Idle])
    requires s.replicas[r] != Listing && !s.replicas[r].Sweeping? && (!AllApplied(b, s) || s.starts != [])
    ensures OnCourse(b, t)
  {
    if SomeListing(s) {
      var q :| 0 <= q < |s.replicas| && s.replicas[q] == Listing;
      assert t.replicas[q] == Listing;
    }
    PendingElsewhere(b, s, t, r);
  }

  lemma CountKeeps(b: Batch, s: State, r: nat)
    requires OnCourse(b, s) && Enabled(b, s, Count(r, true)) && s.now < b.ttl
    ensures OnCourse(b, After(b, s, Count(r, true)))
  {
    var t := After(b, s, Count(r, true));
    if |LiveKeys(b, s, s.applied)| >= |b.scopes| {
      ClosingKeeps(b, s, t, r, Creating(s.replicas[r].since));
    } else {
      if AllApplied(b, s) {
        AllAppliedCounts(b, s);
      }
      RetiresKeeps(b, s, t, r);
    }
  }

  lemma CreateKeeps(b: Batch, s: State, r: nat)
    requires Inv(b, s) && OnCourse(b, s) && Enabled(b, s, Create(r, true)) && s.now < b.ttl
    ensures OnCourse(b, After(b, s, Create(r, true)))
  {
    var t := After(b, s, Create(r, true));
    if s.starts == [] {
      assert t.replicas[r] == Listing;
    } else {
      RetiresKeeps(b, s, t, r);
    }
  }

  lemma ListKeeps(b: Batch, s: State, r: nat)
    requires Inv(b, s) && OnCourse(b, s) && Enabled(b, s, List(r, true)) && s.now < b.ttl
    ensures OnCourse(b, After(b, s, List(r, true)))
  {
    var t := After(b, s, List(r, true));
    ListsEveryScope(b, s, r);
    assert Entitled(b, s, s.replicas[r]);
    forall scope | b.Declares(scope) ensures SweptOrPending(t, scope) {
      assert StillPending(t, r, scope);
    }
    if AllApplied(b, s) && s.starts == [] {
      var q :| 0 <= q < |s.replicas| && Closing(s.replicas[q]);
      assert Closing(t.replicas[q]);
    }
  }

  lemma SweepKeeps(b: Batch, s: State, r: nat, scope: string)
    requires OnCourse(b, s) && Enabled(b, s, Sweep(r, scope, true)) && s.now < b.ttl
    ensures OnCourse(b, After(b, s, Sweep(r, scope, true)))
  {
    var t := After(b, s, Sweep(r, scope, true));
    assert scope in LiveKeys(b, s, s.snaps);
    if AllApplied(b, s) && s.starts == [] {
      var q :| 0 <= q < |s.replicas| && Closing(s.replicas[q]);
      assert Closing(t.replicas[q]);
    }
    if SomeListing(s) {
      var q :| 0 <= q < |s.replicas| && s.replicas[q] == Listing;
      assert t.replicas[q] == Listing;
    }
    forall other | SweptOrPending(s, other) ensures SweptOrPending(t, other) {
      SweepMoves(b, s, r, scope, other);
    }
  }

  lemma SweepMoves(b: Batch, s: State, r: nat, scope: string, other: string)
    requires Enabled(b, s, Sweep(r, scope, true)) && scope in LiveKeys(b, s, s.snaps) && SweptOrPending(s, other)
    ensures SweptOrPending(After(b, s, Sweep(r, scope, true)), other)
  {
    var t := After(b, s, Sweep(r, scope, true));
    if other !in s.swept && other != scope {
      var q: nat :| StillPending(s, q, other);
      assert q == r ==> other in s.replicas[r].pending - {scope};
      assert StillPending(t, q, other);
    }
  }

  lemma RecordKeeps(b: Batch, s: State, r: nat)
    requires OnCourse(b, s) && Enabled(b, s, Record(r, true))
    ensures OnCourse(b, After(b, s, Record(r, true)))
  {
    PassiveKeeps(b, s, After(b, s, Record(r, true)), r, Marking(s.replicas[r].msg));
  }

  lemma DeliverKeeps(b: Batch, s: State, r: nat, m: nat)
    requires OnCourse(b, s) && Enabled(b, s, Deliver(r, m))
    ensures OnCourse(b, After(b, s, Deliver(r, m)))
  {
    PassiveKeeps(b, s, After(b, s, Deliver(r, m)), r, Handling(m, s.delivered[m] + 1));
  }

  lemma HandleKeeps(b: Batch, s: State, r: nat)
    requires OnCourse(b, s) && Enabled(b, s, Handle(r, true))
    ensures OnCourse(b, After(b, s, Handle(r, true)))
  {
    PassiveKeeps(b, s, After(b, s, Handle(r, true)), r, Recording(s.replicas[r].msg));
  }

  lemma AloneKeeps(b: Batch, s: State, t: State)
    requires OnCourse(b, s) && t == s.(now := t.now, published := t.published)
    ensures OnCourse(b, t)
  {
    PendingElsewhere(b, s, t, |s.replicas|);
  }

  lemma StaysOnCourse(b: Batch, s: State, a: Action)
    requires Inv(b, s) && OnCourse(b, s) && Enabled(b, s, a) && Succeeds(a) && After(b, s, a).now < b.ttl
    ensures OnCourse(b, After(b, s, a))
  {
    var t := After(b, s, a);
    match a
    case Tick(_) => AloneKeeps(b, s, t);
    case Publish => AloneKeeps(b, s, t);
    case Deliver(r, m) => DeliverKeeps(b, s, r, m);
    case Handle(r, _) => HandleKeeps(b, s, r);
    case Record(r, _) => RecordKeeps(b, s, r);
    case Mark(r, _) => MarkKeeps(b, s, r);
    case Ack(r, _) => AckKeeps(b, s, r);
    case ReadTotal(r, _) => ReadTotalKeeps(b, s, r);
    case Count(r, _) => CountKeeps(b, s, r);
    case Create(r, _) => CreateKeeps(b, s, r);
    case List(r, _) => ListKeeps(b, s, r);
    case Sweep(r, scope, _) => SweepKeeps(b, s, r, scope);
    case Crash(_) =>
  }

  lemma {:induction false} FlawlessStaysOnCourse(b: Batch, s: State, acts: seq<Action>)
    requires Inv(b, s) && OnCourse(b, s) && Legal(b, s, acts) && Flawless(acts) && Run(b, s, acts).now < b.ttl
    ensures Inv(b, Run(b, s, acts)) && OnCourse(b, Run(b, s, acts))
    decreases |acts|
  {
    if acts != [] {
      var rest := acts[1..];
      forall i | 0 <= i < |rest| ensures Succeeds(rest[i]) {
        assert rest[i] == acts[i + 1];
      }
      TimePasses(b, After(b, s, acts[0]), rest);
      StepKeeps(b, s, acts[0]);
      StaysOnCourse(b, s, acts[0]);
      FlawlessStaysOnCourse(b, After(b, s, acts[0]), rest);
    }
  }

  /** In every interleaving in which no call fails, no replica crashes and nothing expires: once all
      messages are settled and every replica is idle, the batch has been swept exactly once, and
      exactly in the scopes it declared. */
  lemma {:induction false} FlawlessBatchIsSwept(b: Batch, replicas: nat, acts: seq<Action>, scope: string)
    requires b.Valid() && Legal(b, Start(b, replicas), acts) && Flawless(acts)
    requires var t := Run(b, Start(b, replicas), acts);
      && t.now < b.ttl && (forall m: nat :: m < |b.scopes| ==> m in t.settled)
      && forall r :: 0 <= r < |t.replicas| ==> t.replicas[r] == Idle
    ensures var t := Run(b, Start(b, replicas), acts);
      |t.starts| == 1 && (scope in t.swept <==> b.Declares(scope))
  {
    var s, t := Start(b, replicas), Run(b, Start(b, replicas), acts);
    StartsInvariant(b, replicas);
    StartsOnCourse(b, replicas);
    FlawlessStaysOnCourse(b, s, acts);
    assert AllApplied(b, t);
    if b.Declares(scope) {
      assert SweptOrPending(t, scope);
    }
  }

  lemma StartsOnCourse(b: Batch, replicas: nat)
    requires b.Valid()
    ensures OnCourse(b, Start(b, replicas))
  {
    assert 0 !in Start(b, replicas).applied;
  }

  // ── Every step has its effect, and no other ────────────────────────

  /** A call that fails leaves no trace in what the replicas share, and sweeps nothing. */
  lemma FailedCallKeeps(b: Batch, s: State, a: Action)
    requires Enabled(b, s, a) && !Succeeds(a)
    ensures var t := After(b, s, a);
      && t.now == s.now && t.applied == s.applied && t.snaps == s.snaps && t.sweptKey == s.sweptKey
      && t.handled == s.handled && t.starts == s.starts && t.swept == s.swept
  {
  }

  /** A record and a mark written again live from the last writing. */
  lemma KeysLiveFromLastWrite(b: Batch, s: State, r: nat, m: nat)
    requires r < |s.replicas| && m < |b.scopes| && b.ttl > 0
    ensures s.replicas[r] == Marking(m) ==> var t := After(b, s, Mark(r, true)); m in t.applied && t.applied[m] == t.now
    ensures s.replicas[r] == Recording(m) && b.scopes[m].Some? ==>
      var t := After(b, s, Record(r, true)); b.scopes[m].value in t.snaps && t.snaps[b.scopes[m].value] == t.now
  {
  }

  /** Wherever a replica stands, it can take its next step, and only its own crash takes it out of
      the order: handler, record, mark, acknowledgement, total, count, key, list, sweeps. */
  lemma GoesOn(b: Batch, s: State, r: nat, ok: bool) returns (a: Action)
    requires Inv(b, s) && r < |s.replicas| && s.replicas[r] != Idle && (s.replicas[r].Sweeping? ==> s.replicas[r].pending != {})
    ensures Enabled(b, s, a) && a != Crash(r)
    ensures match s.replicas[r]
      case Idle => true
      case Handling(_, _) => a == Handle(r, ok)
      case Recording(_) => a == Record(r, ok)
      case Marking(_) => a == Mark(r, ok)
      case Acking(_) => a == Ack(r, ok)
      case Checking(_) => a == ReadTotal(r, ok)
      case Counting(_) => a == Count(r, ok)
      case Creating(_) => a == Create(r, ok)
      case Listing => a == List(r, ok)
      case Sweeping(pending) => a.Sweep? && a.r == r && a.scope in pending && a.ok == ok
  {
    assert Entitled(b, s, s.replicas[r]);
    match s.replicas[r]
    case Handling(_, _) => a := Handle(r, ok);
    case Recording(_) => a := Record(r, ok);
    case Marking(_) => a := Mark(r, ok);
    case Acking(_) => a := Ack(r, ok);
    case Checking(_) => a := ReadTotal(r, ok);
    case Counting(_) => a := Count(r, ok);
    case Creating(_) => a := Create(r, ok);
    case Listing => a := List(r, ok);
    case Sweeping(pending) =>
      var scope :| scope in pending;
      a := Sweep(r, scope, ok);
  }

  /** A message that is published, not settled and not attempted eight times can be delivered to
      any idle replica. */
  lemma CanDeliver(b: Batch, s: State, r: nat, m: nat)
    requires Inv(b, s) && r < |s.replicas| && s.replicas[r] == Idle && m < s.published && m !in s.settled && s.delivered[m] < 8
    ensures Enabled(b, s, Deliver(r, m))
  {
  }
}
