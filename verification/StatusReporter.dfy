/** The commit-status reporter: which commits are red, as it remembers them and as the forge was
    told. */
module StatusReporter {
  import opened Options

  datatype CommitRef = CommitRef(slug: string, sha: string)

  /** A path is its nodes' stamped commits, in path order; a node without one has empty parts. */
  datatype Path = Path(id: string, commits: seq<CommitRef>)

  /** How the merge gate judges a path for a commit. */
  datatype Change = Recorded | Later | Other

  datatype Judgement = Judgement(counts: bool, change: Change)

  /** One commit's standing in a pass. */
  datatype Tally = Tally(counted: nat, recorded: bool, later: bool, preexisting: nat)

  const NO_PATHS: Tally := Tally(0, false, false, 0)

  /** The configuration of a pass: the slugs a status may be posted for at all, the repositories
      it may be posted on, the gate's judgement, and the wording of a failure. */
  datatype Gate = Gate(validSlug: string -> bool, permitted: string -> bool, judge: (string, CommitRef, Path) -> Judgement, describe: Tally -> string) {
    ghost predicate Speaks() {
      forall t :: describe(t) != ""
    }
  }

  // ── Which commits a path runs through ──────────────────────────────

  predicate Posts(g: Gate, ref: CommitRef) {
    ref.sha != "" && g.validSlug(ref.slug)
  }

  /** `commitsOn`: the distinct commits stamped on a path's nodes, in path order. */
  function CommitsOn(g: Gate, commits: seq<CommitRef>): seq<CommitRef> {
    if commits == [] then []
    else
      var rest, last := CommitsOn(g, commits[..|commits| - 1]), commits[|commits| - 1];
      if Posts(g, last) && last !in rest then rest + [last] else rest
  }

  lemma {:induction false} CommitsAreDistinct(g: Gate, commits: seq<CommitRef>, ref: CommitRef)
    ensures ref in CommitsOn(g, commits) <==> ref in commits && Posts(g, ref)
    ensures forall i, j :: 0 <= i < j < |CommitsOn(g, commits)| ==> CommitsOn(g, commits)[i] != CommitsOn(g, commits)[j]
  {
    if commits != [] {
      assert commits == commits[..|commits| - 1] + [commits[|commits| - 1]];
      CommitsAreDistinct(g, commits[..|commits| - 1], ref);
      CommitsAreDistinct(g, commits[..|commits| - 1], commits[|commits| - 1]);
    }
  }

  method ListCommits(g: Gate, p: Path) returns (out: seq<CommitRef>)
    ensures out == CommitsOn(g, p.commits)
  {
    out := [];
    for i := 0 to |p.commits|
      invariant out == CommitsOn(g, p.commits[..i])
    {
      assert p.commits[..i + 1][..i] == p.commits[..i];
      var ref := p.commits[i];
      if ref.sha != "" && g.validSlug(ref.slug) && ref !in out {
        out := out + [ref];
      }
    }
    assert p.commits[..|p.commits|] == p.commits;
  }

  // ── Tallies ────────────────────────────────────────────────────────

  type Tallies = map<CommitRef, Tally>

  function Find(ts: Tallies, ref: CommitRef): Tally {
    if ref in ts then ts[ref] else NO_PATHS
  }

  function Judged(t: Tally, v: Judgement): Tally {
    if !v.counts then t.(preexisting := t.preexisting + 1)
    else match v.change
      case Recorded => t.(counted := t.counted + 1, recorded := true)
      case Later => t.(counted := t.counted + 1, later := true)
      case Other => t.(counted := t.counted + 1)
  }

  /** A commit's standing over the paths, path by path. */
  function Standing(g: Gate, tenant: string, ref: CommitRef, paths: seq<Path>): Tally {
    if paths == [] then NO_PATHS
    else
      var p := paths[|paths| - 1];
      var before := Standing(g, tenant, ref, paths[..|paths| - 1]);
      if ref in CommitsOn(g, p.commits) && g.permitted(ref.slug) then Judged(before, g.judge(tenant, ref, p)) else before
  }

  /** A path counts against a commit it runs through. */
  predicate Counts(g: Gate, tenant: string, ref: CommitRef, p: Path) {
    ref in p.commits && Posts(g, ref) && g.permitted(ref.slug) && g.judge(tenant, ref, p).counts
  }

  /** A commit's count is positive exactly when some path counts against it. */
  lemma {:induction false} CountedWhenSomePathCounts(g: Gate, tenant: string, ref: CommitRef, paths: seq<Path>)
    ensures Standing(g, tenant, ref, paths).counted > 0 <==> exists i :: 0 <= i < |paths| && Counts(g, tenant, ref, paths[i])
  {
    if paths != [] {
      var n := |paths| - 1;
      CountedWhenSomePathCounts(g, tenant, ref, paths[..n]);
      CommitsAreDistinct(g, paths[n].commits, ref);
      assert forall i :: 0 <= i < n ==> paths[..n][i] == paths[i];
    }
  }

  /** The gate excuses a path for a commit it runs through: it was there before. */
  predicate Excuses(g: Gate, tenant: string, ref: CommitRef, p: Path) {
    ref in p.commits && Posts(g, ref) && g.permitted(ref.slug) && !g.judge(tenant, ref, p).counts
  }

  ghost function Against(g: Gate, tenant: string, ref: CommitRef, paths: seq<Path>): set<nat> {
    set i: nat | i < |paths| && Counts(g, tenant, ref, paths[i])
  }

  ghost function Excused(g: Gate, tenant: string, ref: CommitRef, paths: seq<Path>): set<nat> {
    set i: nat | i < |paths| && Excuses(g, tenant, ref, paths[i])
  }

  /** A path that counts, with this kind of change. */
  predicate CountsAs(g: Gate, tenant: string, ref: CommitRef, p: Path, change: Change) {
    Counts(g, tenant, ref, p) && g.judge(tenant, ref, p).change == change
  }

  ghost predicate SomeCountsAs(g: Gate, tenant: string, ref: CommitRef, paths: seq<Path>, change: Change) {
    exists i :: 0 <= i < |paths| && CountsAs(g, tenant, ref, paths[i], change)
  }

  /** What a commit's tally says: how many paths count against it, how many are excused, and
      whether one of those that count was recorded, or came later. */
  lemma {:induction false} StandingIs(g: Gate, tenant: string, ref: CommitRef, paths: seq<Path>)
    ensures var t := Standing(g, tenant, ref, paths);
      && t.counted == |Against(g, tenant, ref, paths)| && t.preexisting == |Excused(g, tenant, ref, paths)|
      && (t.recorded <==> SomeCountsAs(g, tenant, ref, paths, Recorded))
      && (t.later <==> SomeCountsAs(g, tenant, ref, paths, Later))
    decreases |paths|
  {
    if paths != [] {
      var n := |paths| - 1;
      StandingIs(g, tenant, ref, paths[..n]);
      CommitsAreDistinct(g, paths[n].commits, ref);
      AgainstSnoc(g, tenant, ref, paths);
      SomeSnoc(g, tenant, ref, paths, Recorded);
      SomeSnoc(g, tenant, ref, paths, Later);
    }
  }

  lemma SomeSnoc(g: Gate, tenant: string, ref: CommitRef, paths: seq<Path>, change: Change)
    requires paths != []
    ensures var n := |paths| - 1;
      SomeCountsAs(g, tenant, ref, paths, change) <==> SomeCountsAs(g, tenant, ref, paths[..n], change) || CountsAs(g, tenant, ref, paths[n], change)
  {
    var n := |paths| - 1;
    assert forall i :: 0 <= i < n ==> paths[..n][i] == paths[i];
  }

  lemma AgainstSnoc(g: Gate, tenant: string, ref: CommitRef, paths: seq<Path>)
    requires paths != []
    ensures var n := |paths| - 1;
      && |Against(g, tenant, ref, paths)| == |Against(g, tenant, ref, paths[..n])| + (if Counts(g, tenant, ref, paths[n]) then 1 else 0)
      && |Excused(g, tenant, ref, paths)| == |Excused(g, tenant, ref, paths[..n])| + (if Excuses(g, tenant, ref, paths[n]) then 1 else 0)
  {
    var n := |paths| - 1;
    assert Against(g, tenant, ref, paths) == Against(g, tenant, ref, paths[..n]) + if Counts(g, tenant, ref, paths[n]) then {n} else {};
    assert Excused(g, tenant, ref, paths) == Excused(g, tenant, ref, paths[..n]) + if Excuses(g, tenant, ref, paths[n]) then {n} else {};
  }

  ghost predicate TalliesAre(g: Gate, tenant: string, ts: Tallies, paths: seq<Path>) {
    forall ref :: Find(ts, ref) == Standing(g, tenant, ref, paths)
  }

  /** The tallies once the commits of one more path, up to the `n`-th, are judged. */
  ghost predicate PathTallied(g: Gate, tenant: string, before: Tallies, ts: Tallies, p: Path, refs: seq<CommitRef>) {
    forall ref :: Find(ts, ref) ==
      if ref in refs && g.permitted(ref.slug) then Judged(Find(before, ref), g.judge(tenant, ref, p)) else Find(before, ref)
  }

  method TallyPath(g: Gate, tenant: string, before: Tallies, p: Path) returns (ts: Tallies)
    ensures PathTallied(g, tenant, before, ts, p, CommitsOn(g, p.commits))
  {
    var refs := ListCommits(g, p);
    ts := before;
    for i := 0 to |refs|
      invariant PathTallied(g, tenant, before, ts, p, refs[..i])
    {
      var ref := refs[i];
      CommitsAreDistinct(g, p.commits, ref);
      assert refs[..i + 1] == refs[..i] + [ref] && ref !in refs[..i];
      if g.permitted(ref.slug) {
        ts := ts[ref := Judged(Find(ts, ref), g.judge(tenant, ref, p))];
      }
    }
    assert refs[..|refs|] == refs;
  }

  method TallyPaths(g: Gate, tenant: string, paths: seq<Path>) returns (ts: Tallies)
    ensures TalliesAre(g, tenant, ts, paths)
  {
    ts := map[];
    for i := 0 to |paths|
      invariant TalliesAre(g, tenant, ts, paths[..i])
    {
      ghost var before := ts;
      ts := TallyPath(g, tenant, ts, paths[i]);
      assert paths[..i + 1][..i] == paths[..i];
    }
    assert paths[..|paths|] == paths;
  }

  // ── The reporter and the forge ─────────────────────────────────────

  datatype Key = Key(tenant: string, ref: CommitRef)

  /** A status the forge accepted: a failure with its description, or a success. */
  datatype Post = Failure(key: Key, desc: string) | Success(key: Key)

  /** What the forge was last told for a key. */
  function LastFor(log: seq<Post>, key: Key): Option<Post> {
    if log == [] then None
    else if log[|log| - 1].key == key then Some(log[|log| - 1])
    else LastFor(log[..|log| - 1], key)
  }

  lemma {:induction false} LastAfter(log: seq<Post>, p: Post, key: Key)
    ensures LastFor(log + [p], key) == if p.key == key then Some(p) else LastFor(log, key)
  {
    assert (log + [p])[..|log|] == log;
  }

  /** What a key is remembered as, told as a post. */
  ghost predicate Tracks(failing: map<Key, string>, log: seq<Post>) {
    forall key :: if key in failing then LastFor(log, key) == Some(Failure(key, failing[key]))
                  else LastFor(log, key) == None || LastFor(log, key) == Some(Success(key))
  }

  lemma TracksFailure(failing: map<Key, string>, log: seq<Post>, key: Key, desc: string)
    requires Tracks(failing, log)
    ensures Tracks(failing[key := desc], log + [Failure(key, desc)])
  {
    forall k ensures LastFor(log + [Failure(key, desc)], k) == if k == key then Some(Failure(key, desc)) else LastFor(log, k) {
      LastAfter(log, Failure(key, desc), k);
    }
  }

  lemma TracksSuccess(failing: map<Key, string>, log: seq<Post>, key: Key)
    requires Tracks(failing, log)
    ensures Tracks(failing - {key}, log + [Success(key)])
  {
    forall k ensures LastFor(log + [Success(key)], k) == if k == key then Some(Success(key)) else LastFor(log, k) {
      LastAfter(log, Success(key), k);
    }
  }

  /** What one pass should make of one key: red with its description, green, or as it was when
      the post fails or belongs to another tenant. */
  function Settled(g: Gate, tenant: string, ts: Tallies, ok: CommitRef -> bool, failing: map<Key, string>, key: Key): Option<string> {
    var was := if key in failing then Some(failing[key]) else None;
    var t := Find(ts, key.ref);
    if key.tenant != tenant || !ok(key.ref) then was
    else if t.counted > 0 then Some(g.describe(t))
    else None
  }

  function At(failing: map<Key, string>, key: Key): Option<string> {
    if key in failing then Some(failing[key]) else None
  }

  /** Every post of a pass is the tenant's own, went through, and says something new. */
  ghost predicate PostsChange(g: Gate, tenant: string, ts: Tallies, ok: CommitRef -> bool, before: map<Key, string>, posts: seq<Post>) {
    forall i :: 0 <= i < |posts| ==>
      var key := posts[i].key;
      && key.tenant == tenant && ok(key.ref)
      && (match posts[i]
         case Failure(_, desc) => Find(ts, key.ref).counted > 0 && desc == g.describe(Find(ts, key.ref)) && At(before, key) != Some(desc)
         case Success(_) => Find(ts, key.ref).counted == 0 && key in before)
  }

  class Reporter {
    const gate: Gate
    var failing: map<Key, string>
    /** Every post the forge accepted, in order. */
    ghost var log: seq<Post>

    ghost predicate Valid()
      reads this
    {
      gate.Speaks() && Tracks(failing, log)
    }

    constructor (gate: Gate)
      requires gate.Speaks()
      ensures Valid() && this.gate == gate && failing == map[] && log == []
    {
      this.gate := gate;
      failing, log := map[], [];
    }

    /** One commit goes red, unless it is red already in the same words or the post fails. */
    method Redden(tenant: string, ref: CommitRef, t: Tally, ok: CommitRef -> bool) returns (ghost posts: seq<Post>)
      requires Valid() && t.counted > 0
      modifies this
      ensures Valid() && log == old(log) + posts
      ensures failing == if ok(ref) then old(failing)[Key(tenant, ref) := gate.describe(t)] else old(failing)
      ensures posts == if ok(ref) && At(old(failing), Key(tenant, ref)) != Some(gate.describe(t)) then [Failure(Key(tenant, ref), gate.describe(t))] else []
    {
      var key, desc := Key(tenant, ref), gate.describe(t);
      posts := [];
      var known := if key in failing then failing[key] else "";
      if known == desc {
        assert failing == failing[key := desc];
        return;
      }
      if ok(ref) {
        TracksFailure(failing, log, key, desc);
        posts := [Failure(key, desc)];
        failing, log := failing[key := desc], log + posts;
      }
    }

    /** One red commit goes green, unless the post fails. */
    method Clear(key: Key, ok: CommitRef -> bool) returns (ghost posts: seq<Post>)
      requires Valid() && key in failing
      modifies this
      ensures Valid() && log == old(log) + posts
      ensures failing == if ok(key.ref) then old(failing) - {key} else old(failing)
      ensures posts == if ok(key.ref) then [Success(key)] else []
    {
      posts := [];
      if ok(key.ref) {
        TracksSuccess(failing, log, key);
        posts := [Success(key)];
        failing, log := failing - {key}, log + posts;
      }
    }

    /** `OnCriticalPaths`. `ok` says which commits' posts go through this time. */
    method OnCriticalPaths(tenant: string, paths: seq<Path>, ok: CommitRef -> bool) returns (ghost posts: seq<Post>, ghost ts: Tallies)
      requires Valid()
      modifies this
      ensures Valid() && log == old(log) + posts && TalliesAre(gate, tenant, ts, paths)
      ensures AllSettled(gate, tenant, ts, ok, old(failing), failing)
      ensures PostsChange(gate, tenant, ts, ok, old(failing), posts)
    {
      var tallies := TallyPaths(gate, tenant, paths);
      ts := tallies;
      posts := ReddenAll(tenant, tallies, ok);
      ghost var told := log;
      ghost var more := ClearAll(tenant, tallies, ok, old(failing));
      LogGrows(old(log), posts, told, more);
      PostsAppend(gate, tenant, tallies, ok, old(failing), posts, more);
      posts := posts + more;
    }

    /** One commit's turn among the tallies. */
    method ReddenOne(tenant: string, tallies: Tallies, ref: CommitRef, ok: CommitRef -> bool, ghost before: map<Key, string>, ghost done: set<CommitRef>) returns (ghost posts: seq<Post>)
      requires Valid() && ref in tallies && ref !in done && Reddened(gate, tenant, tallies, ok, before, failing, done)
      modifies this
      ensures Valid() && log == old(log) + posts && PostsChange(gate, tenant, tallies, ok, before, posts)
      ensures Reddened(gate, tenant, tallies, ok, before, failing, done + {ref})
    {
      posts := [];
      ghost var was := failing;
      assert At(was, Key(tenant, ref)) == At(before, Key(tenant, ref));
      if tallies[ref].counted > 0 {
        posts := Redden(tenant, ref, tallies[ref], ok);
      }
      ReddenedStep(gate, tenant, tallies, ok, before, was, failing, done, ref);
    }

    method ReddenAll(tenant: string, tallies: Tallies, ok: CommitRef -> bool) returns (ghost posts: seq<Post>)
      requires Valid()
      modifies this
      ensures Valid() && log == old(log) + posts && PostsChange(gate, tenant, tallies, ok, old(failing), posts)
      ensures Reddened(gate, tenant, tallies, ok, old(failing), failing, tallies.Keys)
    {
      posts := [];
      ghost var before, done: set<CommitRef>, start := failing, {}, log;
      var left := tallies.Keys;
      assert log == start + posts;
      while left != {}
        invariant Valid() && log == start + posts && left + done == tallies.Keys && left !! done
        invariant PostsChange(gate, tenant, tallies, ok, before, posts)
        invariant Reddened(gate, tenant, tallies, ok, before, failing, done)
        decreases |left|
      {
        var ref :| ref in left;
        ghost var told := log;
        ghost var more := ReddenOne(tenant, tallies, ref, ok, before, done);
        LogGrows(start, posts, told, more);
        Moves(left, done, tallies.Keys, ref);
        PostsAppend(gate, tenant, tallies, ok, before, posts, more);
        posts, left, done := posts + more, left - {ref}, done + {ref};
      }
    }

    /** One red commit's turn among those to clear. */
    method ClearOne(tenant: string, ghost tallies: Tallies, key: Key, ok: CommitRef -> bool, ghost before: map<Key, string>, ghost start: map<Key, string>, ghost done: set<Key>) returns (ghost posts: seq<Post>)
      requires Valid() && key in start && key !in done && Cleared(ok, start, failing, done)
      requires key.tenant == tenant && Find(tallies, key.ref).counted == 0 && At(start, key) == At(before, key)
      modifies this
      ensures Valid() && log == old(log) + posts && PostsChange(gate, tenant, tallies, ok, before, posts)
      ensures Cleared(ok, start, failing, done + {key})
    {
      ghost var was := failing;
      assert At(was, key) == At(start, key);
      posts := Clear(key, ok);
      ClearedStep(ok, start, was, failing, done, key);
    }

    method ClearAll(tenant: string, tallies: Tallies, ok: CommitRef -> bool, ghost before: map<Key, string>) returns (ghost posts: seq<Post>)
      requires Valid() && Reddened(gate, tenant, tallies, ok, before, failing, tallies.Keys)
      modifies this
      ensures Valid() && log == old(log) + posts && PostsChange(gate, tenant, tallies, ok, before, posts)
      ensures AllSettled(gate, tenant, tallies, ok, before, failing)
    {
      posts := [];
      ghost var start, done: set<Key>, logged := failing, {}, log;
      var resolved := set key | key in failing && key.tenant == tenant && Find(tallies, key.ref).counted == 0;
      var left := resolved;
      assert log == logged + posts;
      while left != {}
        invariant Valid() && log == logged + posts && left + done == resolved && left !! done
        invariant PostsChange(gate, tenant, tallies, ok, before, posts)
        invariant Cleared(ok, start, failing, done)
        decreases |left|
      {
        var key :| key in left;
        assert At(start, key) == At(before, key);
        ghost var told := log;
        ghost var more := ClearOne(tenant, tallies, key, ok, before, start, done);
        LogGrows(logged, posts, told, more);
        Moves(left, done, resolved, key);
        PostsAppend(gate, tenant, tallies, ok, before, posts, more);
        posts, left, done := posts + more, left - {key}, done + {key};
      }
      RedThenGreen(gate, tenant, tallies, ok, before, start, failing, resolved);
    }
  }

  /** The commits among `refs` with a path counting against them are red where their posts went
      through. */
  ghost predicate Reddened(g: Gate, tenant: string, ts: Tallies, ok: CommitRef -> bool, before: map<Key, string>, after: map<Key, string>, refs: set<CommitRef>) {
    forall key :: At(after, key) ==
      if key.tenant == tenant && key.ref in refs && Find(ts, key.ref).counted > 0 && ok(key.ref) then Some(g.describe(Find(ts, key.ref)))
      else At(before, key)
  }

  lemma ReddenedStep(g: Gate, tenant: string, ts: Tallies, ok: CommitRef -> bool, before: map<Key, string>, was: map<Key, string>, now: map<Key, string>, refs: set<CommitRef>, ref: CommitRef)
    requires Reddened(g, tenant, ts, ok, before, was, refs) && ref !in refs && ref in ts
    requires now == if ts[ref].counted > 0 && ok(ref) then was[Key(tenant, ref) := g.describe(ts[ref])] else was
    ensures Reddened(g, tenant, ts, ok, before, now, refs + {ref})
  {
  }

  /** The keys are green where their posts went through. */
  ghost predicate Cleared(ok: CommitRef -> bool, before: map<Key, string>, after: map<Key, string>, keys: set<Key>) {
    forall key :: At(after, key) == if key in keys && ok(key.ref) then None else At(before, key)
  }

  lemma ClearedStep(ok: CommitRef -> bool, before: map<Key, string>, was: map<Key, string>, now: map<Key, string>, keys: set<Key>, key: Key)
    requires Cleared(ok, before, was, keys) && key !in keys
    requires now == if ok(key.ref) then was - {key} else was
    ensures Cleared(ok, before, now, keys + {key})
  {
  }

  ghost predicate AllSettled(g: Gate, tenant: string, ts: Tallies, ok: CommitRef -> bool, before: map<Key, string>, after: map<Key, string>) {
    forall key :: At(after, key) == Settled(g, tenant, ts, ok, before, key)
  }

  lemma RedThenGreen(g: Gate, tenant: string, ts: Tallies, ok: CommitRef -> bool, before: map<Key, string>, red: map<Key, string>, after: map<Key, string>, resolved: set<Key>)
    requires Reddened(g, tenant, ts, ok, before, red, ts.Keys) && Cleared(ok, red, after, resolved)
    requires resolved == set key | key in red && key.tenant == tenant && Find(ts, key.ref).counted == 0
    ensures AllSettled(g, tenant, ts, ok, before, after)
  {
    forall key ensures At(after, key) == Settled(g, tenant, ts, ok, before, key) {
      assert At(after, key) == if key in resolved && ok(key.ref) then None else At(red, key);
      assert Find(ts, key.ref).counted > 0 ==> key.ref in ts;
    }
  }

  lemma LogGrows(start: seq<Post>, posts: seq<Post>, log: seq<Post>, more: seq<Post>)
    requires log == start + posts
    ensures log + more == start + (posts + more)
  {
  }

  lemma Moves<T>(left: set<T>, done: set<T>, all: set<T>, x: T)
    requires left + done == all && left !! done && x in left
    ensures (left - {x}) + (done + {x}) == all && (left - {x}) !! (done + {x})
    ensures |left - {x}| < |left|
  {
  }

  lemma PostsAppend(g: Gate, tenant: string, ts: Tallies, ok: CommitRef -> bool, before: map<Key, string>, posts: seq<Post>, more: seq<Post>)
    requires PostsChange(g, tenant, ts, ok, before, posts) && PostsChange(g, tenant, ts, ok, before, more)
    ensures PostsChange(g, tenant, ts, ok, before, posts + more)
  {
  }

  // ── What a pass leaves ─────────────────────────────────────────────

  /** After a pass whose posts all went through, a commit of the tenant is red exactly when some
      path counts against it; another tenant's commits are as they were. */
  lemma RedSetIsExact(g: Gate, tenant: string, ts: Tallies, paths: seq<Path>, ok: CommitRef -> bool, before: map<Key, string>, after: map<Key, string>, key: Key)
    requires TalliesAre(g, tenant, ts, paths) && (forall ref :: ok(ref))
    requires AllSettled(g, tenant, ts, ok, before, after)
    ensures key.tenant == tenant ==>
      (key in after <==> exists i :: 0 <= i < |paths| && Counts(g, tenant, key.ref, paths[i]))
    ensures key.tenant != tenant ==> At(after, key) == At(before, key)
  {
    CountedWhenSomePathCounts(g, tenant, key.ref, paths);
    assert At(after, key) == Settled(g, tenant, ts, ok, before, key);
  }

  /** A verdict that has not changed posts nothing. */
  lemma UnchangedPostsNothing(g: Gate, tenant: string, ts: Tallies, ok: CommitRef -> bool, before: map<Key, string>, posts: seq<Post>, ref: CommitRef)
    requires PostsChange(g, tenant, ts, ok, before, posts)
    requires At(before, Key(tenant, ref)) == if Find(ts, ref).counted > 0 then Some(g.describe(Find(ts, ref))) else None
    ensures forall i :: 0 <= i < |posts| ==> posts[i].key != Key(tenant, ref)
  {
  }

  /** What the forge shows for a commit is the last post on it by any tenant. */
  function LastOn(log: seq<Post>, ref: CommitRef): Option<Post> {
    if log == [] then None
    else if log[|log| - 1].key.ref == ref then Some(log[|log| - 1])
    else LastOn(log[..|log| - 1], ref)
  }

  /** The forge shows a commit as the tenant remembers it exactly when the tenant's was the last
      word on it; a commit two tenants share can be red for one of them and green on the forge. */
  lemma {:induction false} ForgeAgreesExactly(failing: map<Key, string>, log: seq<Post>, key: Key)
    requires Tracks(failing, log) && key in failing
    ensures LastOn(log, key.ref) == Some(Failure(key, failing[key])) <==>
      LastOn(log, key.ref).Some? && LastOn(log, key.ref).value.key == key
  {
    LastOnIsLastFor(log, key);
  }

  lemma {:induction false} LastOnIsLastFor(log: seq<Post>, key: Key)
    ensures LastOn(log, key.ref).Some? && LastOn(log, key.ref).value.key == key ==> LastFor(log, key) == LastOn(log, key.ref)
  {
    if log != [] && log[|log| - 1].key.ref != key.ref {
      LastOnIsLastFor(log[..|log| - 1], key);
    }
  }

  /** Where a tenant's pass changed what the forge last heard from it on a commit, it had the last
      word on it. */
  lemma {:induction false} LastWord(log: seq<Post>, posts: seq<Post>, key: Key)
    requires forall i :: 0 <= i < |posts| ==> posts[i].key.tenant == key.tenant
    requires LastFor(log + posts, key) != LastFor(log, key)
    ensures LastOn(log + posts, key.ref) == LastFor(log + posts, key)
    decreases |posts|
  {
    assert log + [] == log;
    if posts != [] {
      var n := |posts| - 1;
      assert (log + posts)[..|log + posts| - 1] == log + posts[..n];
      if posts[n].key.ref == key.ref {
        assert posts[n].key == key;
      } else {
        LastWord(log, posts[..n], key);
      }
    }
  }

  /** The pass in which `b`'s commit goes green again. */
  lemma {:induction false} GreenHasLastWord(g: Gate, ts: Tallies, ok: CommitRef -> bool, before: map<Key, string>, after: map<Key, string>, log: seq<Post>, posts: seq<Post>, key: Key)
    requires Tracks(before, log) && Tracks(after, log + posts) && PostsChange(g, key.tenant, ts, ok, before, posts)
    requires key in before && key !in after
    ensures LastOn(log + posts, key.ref) == Some(Success(key))
  {
    NeverForgets(log, posts, key);
    assert LastFor(log, key) == Some(Failure(key, before[key]));
    LastWord(log, posts, key);
  }

  lemma {:induction false} NeverForgets(log: seq<Post>, posts: seq<Post>, key: Key)
    requires LastFor(log, key).Some?
    ensures LastFor(log + posts, key).Some?
    decreases |posts|
  {
    if posts == [] {
      assert log + posts == log;
    } else {
      assert (log + posts)[..|log + posts| - 1] == log + posts[..|posts| - 1];
      NeverForgets(log, posts[..|posts| - 1], key);
    }
  }

  /** A commit that a path counts against for two tenants is red for both; when the path closes for
      one of them its pass turns the forge green, and the other still remembers the commit as red
      and posts nothing. */
  method SharedCommitDisagrees(g: Gate, a: string, b: string, ref: CommitRef, p: Path) returns (r: Reporter)
    requires g.Speaks() && a != b && Counts(g, a, ref, p) && Counts(g, b, ref, p)
    ensures r.Valid() && Key(a, ref) in r.failing && LastOn(r.log, ref) == Some(Success(Key(b, ref)))
  {
    r := new Reporter(g);
    var allOk := (c: CommitRef) => true;
    ghost var posts, ts := r.OnCriticalPaths(a, [p], allOk);
    RedFor(g, a, ref, p, ts, map[], r.failing);
    ghost var red := r.failing;
    posts, ts := r.OnCriticalPaths(b, [p], allOk);
    RedFor(g, b, ref, p, ts, red, r.failing);
    assert At(r.failing, Key(a, ref)) == Settled(g, b, ts, allOk, red, Key(a, ref));
    ghost var both, log := r.failing, r.log;
    posts, ts := r.OnCriticalPaths(b, [], allOk);
    assert At(r.failing, Key(a, ref)) == Settled(g, b, ts, allOk, both, Key(a, ref));
    assert At(r.failing, Key(b, ref)) == Settled(g, b, ts, allOk, both, Key(b, ref));
    assert Find(ts, ref) == Standing(g, b, ref, []) == NO_PATHS;
    GreenHasLastWord(g, ts, allOk, both, r.failing, log, posts, Key(b, ref));
  }

  lemma RedFor(g: Gate, tenant: string, ref: CommitRef, p: Path, ts: Tallies, before: map<Key, string>, after: map<Key, string>)
    requires TalliesAre(g, tenant, ts, [p]) && Counts(g, tenant, ref, p) && AllSettled(g, tenant, ts, (c: CommitRef) => true, before, after)
    ensures Key(tenant, ref) in after
  {
    assert [p][0] == p;
    RedSetIsExact(g, tenant, ts, [p], (c: CommitRef) => true, before, after, Key(tenant, ref));
  }
}
