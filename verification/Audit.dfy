/** The tamper-evident chain of audit records, and the log that keeps it in a table. */
module Audit {
  import opened Options

  /** What a record says, its place in the chain aside. `fields` is the text its fields are hashed
      as. */
  datatype Body = Body(time: int, action: string, subject: string, role: string, tenant: string, fields: string)

  datatype Record = Record(number: nat, body: Body, prevHash: string, hash: string)

  /** The hash of a record's contents: everything but the hash itself. */
  type Hasher = (nat, Body, string) -> string

  /** No two contents share a hash. */
  ghost predicate Injective(h: Hasher) {
    forall s, b, p, s', b', p' :: SameOrApart(h, s, b, p, s', b', p')
  }

  ghost predicate SameOrApart(h: Hasher, s: nat, b: Body, p: string, s': nat, b': Body, p': string) {
    h(s, b, p) == h(s', b', p') ==> s == s' && b == b' && p == p'
  }

  // ── The chain ──────────────────────────────────────────────────────

  /** The hash the chain stands at, having started at `from`. */
  function Head(recs: seq<Record>, from: string): string {
    if recs == [] then from else recs[|recs| - 1].hash
  }

  /** The record at `i` has the next number, points at the one before and matches its hash. */
  predicate Held(h: Hasher, recs: seq<Record>, base: nat, from: string, i: nat)
    requires i < |recs|
  {
    var r := recs[i];
    r.number == base + 1 + i && r.prevHash == Head(recs[..i], from) && r.hash == h(r.number, r.body, r.prevHash)
  }

  predicate Chained(h: Hasher, recs: seq<Record>, base: nat, from: string) {
    forall i :: 0 <= i < |recs| ==> Held(h, recs, base, from, i)
  }

  function Next(h: Hasher, recs: seq<Record>, base: nat, from: string, body: Body): Record {
    var number, prev := base + |recs| + 1, Head(recs, from);
    Record(number, body, prev, h(number, body, prev))
  }

  lemma HeldSnoc(h: Hasher, recs: seq<Record>, base: nat, from: string, r: Record, i: nat)
    requires i < |recs|
    ensures Held(h, recs + [r], base, from, i) <==> Held(h, recs, base, from, i)
  {
    assert (recs + [r])[..i] == recs[..i];
  }

  lemma ChainedSnoc(h: Hasher, recs: seq<Record>, base: nat, from: string, r: Record)
    ensures Chained(h, recs + [r], base, from) <==>
      Chained(h, recs, base, from) && Held(h, recs + [r], base, from, |recs|)
  {
    forall i | 0 <= i < |recs| ensures Held(h, recs + [r], base, from, i) <==> Held(h, recs, base, from, i) {
      HeldSnoc(h, recs, base, from, r, i);
    }
    if Chained(h, recs + [r], base, from) {
      forall i | 0 <= i < |recs| ensures Held(h, recs, base, from, i) {
        assert Held(h, recs + [r], base, from, i);
      }
    }
  }

  lemma NextChains(h: Hasher, recs: seq<Record>, base: nat, from: string, body: Body)
    requires Chained(h, recs, base, from)
    ensures Chained(h, recs + [Next(h, recs, base, from, body)], base, from)
  {
    var r := Next(h, recs, base, from, body);
    assert (recs + [r])[..|recs|] == recs;
    ChainedSnoc(h, recs, base, from, r);
  }

  /** What survives a pruned prefix is chained to the last record that was pruned. */
  lemma SuffixChains(h: Hasher, recs: seq<Record>, base: nat, from: string, n: nat)
    requires Chained(h, recs, base, from) && 0 < n <= |recs|
    ensures Chained(h, recs[n..], base + n, recs[n - 1].hash) && recs[n - 1].number == base + n
  {
    assert Held(h, recs, base, from, n - 1);
    var rest, start, last := recs[n..], base + n, recs[n - 1].hash;
    forall i | 0 <= i < |rest| ensures Held(h, rest, start, last, i) {
      assert Held(h, recs, base, from, n + i);
      assert i > 0 ==> rest[..i][i - 1] == recs[..n + i][n + i - 1];
    }
  }

  /** The head hash commits to the history: two chains that stand at one hash agree record by
      record, back from their ends, as far as both reach. */
  lemma {:induction false} HeadCommits(h: Hasher, a: seq<Record>, baseA: nat, fromA: string, b: seq<Record>, baseB: nat, fromB: string)
    requires Injective(h) && Chained(h, a, baseA, fromA) && Chained(h, b, baseB, fromB)
    requires a != [] && b != [] && Head(a, fromA) == Head(b, fromB)
    ensures baseA + |a| == baseB + |b|
    ensures forall i, j :: 0 <= i < |a| && 0 <= j < |b| && baseA + i == baseB + j ==> a[i] == b[j]
    decreases |a|
  {
    var n, m := |a| - 1, |b| - 1;
    assert Held(h, a, baseA, fromA, n) && Held(h, b, baseB, fromB, m);
    assert SameOrApart(h, a[n].number, a[n].body, a[n].prevHash, b[m].number, b[m].body, b[m].prevHash);
    assert a[n] == b[m];
    assert a == a[..n] + [a[n]] && b == b[..m] + [b[m]];
    ChainedSnoc(h, a[..n], baseA, fromA, a[n]);
    ChainedSnoc(h, b[..m], baseB, fromB, b[m]);
    if n > 0 && m > 0 {
      HeadCommits(h, a[..n], baseA, fromA, b[..m], baseB, fromB);
    }
    forall i, j | 0 <= i < |a| && 0 <= j < |b| && baseA + i == baseB + j ensures a[i] == b[j] {
      assert i == n <==> j == m;
      if i < n {
        assert a[i] == a[..n][i] && b[j] == b[..m][j];
      }
    }
  }

  /** Kept whole, a chain is the only one that ends at its hash: altering, reordering or removing
      a record inside it cannot go unnoticed while the head stays. */
  lemma OnlyOneHistory(h: Hasher, a: seq<Record>, b: seq<Record>, base: nat, from: string)
    requires Injective(h) && Chained(h, a, base, from) && Chained(h, b, base, from)
    requires a != [] && b != [] && Head(a, from) == Head(b, from)
    ensures a == b
  {
    HeadCommits(h, a, base, from, b, base, from);
  }

  // ── The table ──────────────────────────────────────────────────────

  /** How a process writes a record's fields to their column and reads them back, sealed or
      plain. `again` is the text that fields read from a text are hashed as, if they are fields. */
  datatype Codec = Codec(sealing: bool, seal: string -> string, unseal: string -> Option<string>, again: string -> Option<string>) {
    function Store(text: string): string {
      if sealing then seal(text) else text
    }

    function Load(stored: string): Option<string> {
      match if sealing then unseal(stored) else Some(stored)
      case None => None
      case Some(raw) => again(raw)
    }
  }

  datatype Row = Row(number: nat, time: int, action: string, subject: string, role: string, tenant: string, stored: string, prevHash: string, hash: string)

  datatype Checkpoint = Checkpoint(throughSeq: nat, throughHash: string, pruned: nat)

  function RowOf(c: Codec, r: Record): Row {
    Row(r.number, r.body.time, r.body.action, r.body.subject, r.body.role, r.body.tenant, c.Store(r.body.fields), r.prevHash, r.hash)
  }

  /** The record a row holds, if its fields can be read. */
  function Opened(c: Codec, row: Row): Option<Record> {
    match c.Load(row.stored)
    case None => None
    case Some(fields) =>
      Some(Record(row.number, Body(row.time, row.action, row.subject, row.role, row.tenant, fields), row.prevHash, row.hash))
  }

  predicate Opens(c: Codec, rows: seq<Row>, recs: seq<Record>) {
    |rows| == |recs| && forall i :: 0 <= i < |rows| ==> Opened(c, rows[i]) == Some(recs[i])
  }

  function BaseSeq(cp: Option<Checkpoint>): nat {
    if cp.None? then 0 else cp.value.throughSeq
  }

  function BaseHash(cp: Option<Checkpoint>): string {
    if cp.None? then "" else cp.value.throughHash
  }

  /** The table holds a chain that resumes where its checkpoint left off. */
  ghost predicate Verifies(h: Hasher, c: Codec, rows: seq<Row>, cp: Option<Checkpoint>) {
    exists recs :: Opens(c, rows, recs) && Chained(h, recs, BaseSeq(cp), BaseHash(cp))
  }

  /** `VerifyPG`: whether the table verifies, and how many records held before the first that
      did not. */
  method VerifyPG(h: Hasher, c: Codec, rows: seq<Row>, cp: Option<Checkpoint>) returns (records: nat, ok: bool)
    ensures ok <==> Verifies(h, c, rows, cp)
    ensures records <= |rows| && Verifies(h, c, rows[..records], cp)
    ensures if ok then records == |rows| else records < |rows| && !Verifies(h, c, rows[..records + 1], cp)
  {
    var prev, due := BaseHash(cp), BaseSeq(cp) + 1;
    ghost var recs: seq<Record> := [];
    records := 0;
    for i := 0 to |rows|
      invariant records == i && Opens(c, rows[..i], recs) && Chained(h, recs, BaseSeq(cp), BaseHash(cp))
      invariant prev == Head(recs, BaseHash(cp)) && due == BaseSeq(cp) + 1 + i
    {
      var row := rows[i];
      var got := Opened(c, row);
      RowDecides(h, c, rows, cp, i, recs);
      if row.number != due || row.prevHash != prev || got.None? || h(row.number, got.value.body, row.prevHash) != row.hash {
        assert rows[..records] == rows[..i];
        return records, false;
      }
      recs := recs + [got.value];
      prev, due, records := row.hash, due + 1, records + 1;
    }
    assert rows[..|rows|] == rows;
    ok := true;
  }

  lemma OpensIsOne(c: Codec, rows: seq<Row>, a: seq<Record>, b: seq<Record>)
    requires Opens(c, rows, a) && Opens(c, rows, b)
    ensures a == b
  {
    forall i | 0 <= i < |rows| ensures a[i] == b[i] {
      assert Some(a[i]) == Some(b[i]);
    }
  }

  lemma OpensPrefix(c: Codec, rows: seq<Row>, recs: seq<Record>, n: nat)
    requires Opens(c, rows, recs) && n <= |rows|
    ensures Opens(c, rows[..n], recs[..n])
  {
  }

  lemma ChainedPrefix(h: Hasher, recs: seq<Record>, base: nat, from: string, n: nat)
    requires Chained(h, recs, base, from) && n <= |recs|
    ensures Chained(h, recs[..n], base, from)
  {
    forall i | 0 <= i < n ensures Held(h, recs[..n], base, from, i) {
      assert Held(h, recs, base, from, i);
      assert recs[..n][..i] == recs[..i];
    }
  }

  /** A row that follows a verified prefix: numbered next, linked and hashed right. */
  predicate Follows(h: Hasher, c: Codec, row: Row, due: nat, prev: string) {
    && row.number == due && row.prevHash == prev
    && Opened(c, row).Some? && h(row.number, Opened(c, row).value.body, row.prevHash) == row.hash
  }

  lemma RowExtends(h: Hasher, c: Codec, rows: seq<Row>, cp: Option<Checkpoint>, i: nat, recs: seq<Record>)
    requires i < |rows| && Opens(c, rows[..i], recs) && Chained(h, recs, BaseSeq(cp), BaseHash(cp))
    requires Follows(h, c, rows[i], BaseSeq(cp) + 1 + i, Head(recs, BaseHash(cp)))
    ensures var all := recs + [Opened(c, rows[i]).value];
      Opens(c, rows[..i + 1], all) && Chained(h, all, BaseSeq(cp), BaseHash(cp))
  {
    var r := Opened(c, rows[i]).value;
    assert rows[..i + 1] == rows[..i] + [rows[i]] && (recs + [r])[..i] == recs;
    ChainedSnoc(h, recs, BaseSeq(cp), BaseHash(cp), r);
  }

  lemma RowStops(h: Hasher, c: Codec, rows: seq<Row>, cp: Option<Checkpoint>, i: nat, recs: seq<Record>, all: seq<Record>)
    requires i < |rows| && Opens(c, rows[..i], recs) && Opens(c, rows, all) && Chained(h, all, BaseSeq(cp), BaseHash(cp))
    ensures Follows(h, c, rows[i], BaseSeq(cp) + 1 + i, Head(recs, BaseHash(cp)))
  {
    OpensPrefix(c, rows, all, i);
    OpensIsOne(c, rows[..i], recs, all[..i]);
    assert Opened(c, rows[i]) == Some(all[i]);
    assert Held(h, all, BaseSeq(cp), BaseHash(cp), i);
  }

  /** With the rows before it verified, row `i` alone decides whether the rows up to it verify;
      and when they do not, no longer table does. */
  lemma RowDecides(h: Hasher, c: Codec, rows: seq<Row>, cp: Option<Checkpoint>, i: nat, recs: seq<Record>)
    requires i < |rows| && Opens(c, rows[..i], recs) && Chained(h, recs, BaseSeq(cp), BaseHash(cp))
    ensures Verifies(h, c, rows[..i], cp)
    ensures var good := Follows(h, c, rows[i], BaseSeq(cp) + 1 + i, Head(recs, BaseHash(cp)));
      if good then var all := recs + [Opened(c, rows[i]).value]; Opens(c, rows[..i + 1], all) && Chained(h, all, BaseSeq(cp), BaseHash(cp))
      else !Verifies(h, c, rows[..i + 1], cp) && !Verifies(h, c, rows, cp)
  {
    if Follows(h, c, rows[i], BaseSeq(cp) + 1 + i, Head(recs, BaseHash(cp))) {
      RowExtends(h, c, rows, cp, i, recs);
    }
    forall all | Opens(c, rows, all) && Chained(h, all, BaseSeq(cp), BaseHash(cp))
      ensures Follows(h, c, rows[i], BaseSeq(cp) + 1 + i, Head(recs, BaseHash(cp)))
    {
      RowStops(h, c, rows, cp, i, recs, all);
    }
    var upTo := rows[..i + 1];
    assert upTo[..i] == rows[..i] && upTo[i] == rows[i];
    forall all | Opens(c, upTo, all) && Chained(h, all, BaseSeq(cp), BaseHash(cp))
      ensures Follows(h, c, rows[i], BaseSeq(cp) + 1 + i, Head(recs, BaseHash(cp)))
    {
      RowStops(h, c, upTo, cp, i, recs, all);
    }
  }

  /** Two tables that verify and end at one hash hold the same records wherever both reach. */
  lemma VerifiedTablesAgree(h: Hasher, c: Codec, a: seq<Row>, cpA: Option<Checkpoint>, b: seq<Row>, cpB: Option<Checkpoint>, i: nat, j: nat)
    requires Injective(h) && Verifies(h, c, a, cpA) && Verifies(h, c, b, cpB)
    requires a != [] && b != [] && a[|a| - 1].hash == b[|b| - 1].hash
    requires i < |a| && j < |b| && a[i].number == b[j].number
    ensures Opened(c, a[i]) == Opened(c, b[j])
    ensures BaseSeq(cpA) + |a| == BaseSeq(cpB) + |b|
  {
    var ra :| Opens(c, a, ra) && Chained(h, ra, BaseSeq(cpA), BaseHash(cpA));
    var rb :| Opens(c, b, rb) && Chained(h, rb, BaseSeq(cpB), BaseHash(cpB));
    assert Opened(c, a[|a| - 1]) == Some(ra[|a| - 1]) && Opened(c, b[|b| - 1]) == Some(rb[|b| - 1]);
    HeadCommits(h, ra, BaseSeq(cpA), BaseHash(cpA), rb, BaseSeq(cpB), BaseHash(cpB));
    assert Opened(c, a[i]) == Some(ra[i]) && Opened(c, b[j]) == Some(rb[j]);
    assert Held(h, ra, BaseSeq(cpA), BaseHash(cpA), i) && Held(h, rb, BaseSeq(cpB), BaseHash(cpB), j);
  }

  // ── Writing ────────────────────────────────────────────────────────

  /** What became of a queued record: stored, replaced by a tombstone, or - the store being
      unreachable - neither. */
  datatype Fate = Stored | Tombstoned | Lost

  const TOMBSTONE: string := "{\"audit_error\":\"the detail of this event could not be stored\"}"

  /** The who and what survive; the detail is replaced by why it could not be stored. */
  function Tombstone(b: Body): Body {
    b.(fields := TOMBSTONE)
  }

  function Written(b: Body, f: Fate): seq<Body> {
    match f
    case Stored => [b]
    case Tombstoned => [Tombstone(b)]
    case Lost => []
  }

  function AllWritten(queue: seq<Body>, fates: seq<Fate>): seq<Body>
    requires |queue| == |fates|
  {
    if queue == [] then []
    else AllWritten(queue[..|queue| - 1], fates[..|queue| - 1]) + Written(queue[|queue| - 1], fates[|queue| - 1])
  }

  function FateOf(fails: bool, tombFails: bool): Fate {
    if !fails then Stored else if !tombFails then Tombstoned else Lost
  }

  /** The chain grown by records with these bodies. */
  function Extended(h: Hasher, recs: seq<Record>, base: nat, from: string, bodies: seq<Body>): seq<Record>
    decreases |bodies|
  {
    if bodies == [] then recs
    else
      var init := Extended(h, recs, base, from, bodies[..|bodies| - 1]);
      init + [Next(h, init, base, from, bodies[|bodies| - 1])]
  }

  lemma {:induction false} ExtendedSplits(h: Hasher, recs: seq<Record>, base: nat, from: string, a: seq<Body>, b: seq<Body>)
    ensures Extended(h, recs, base, from, a + b) == Extended(h, Extended(h, recs, base, from, a), base, from, b)
    decreases |b|
  {
    if b == [] {
      assert a + b == a;
    } else {
      assert (a + b)[..|a + b| - 1] == a + b[..|b| - 1];
      ExtendedSplits(h, recs, base, from, a, b[..|b| - 1]);
    }
  }

  ghost predicate Fated(fates: seq<Fate>, n: nat, fails: nat -> bool, tombFails: nat -> bool) {
    |fates| == n && forall k: nat :: k < n ==> fates[k] == FateOf(fails(k), tombFails(k))
  }

  lemma {:induction false} FatedSnoc(fates: seq<Fate>, n: nat, fails: nat -> bool, tombFails: nat -> bool)
    requires Fated(fates, n, fails, tombFails)
    ensures Fated(fates + [FateOf(fails(n), tombFails(n))], n + 1, fails, tombFails)
  {
    forall k: nat | k < n ensures (fates + [FateOf(fails(n), tombFails(n))])[k] == FateOf(fails(k), tombFails(k)) {
      assert fates[k] == FateOf(fails(k), tombFails(k));
    }
  }

  /** Who did what, when. */
  predicate SaysWho(w: Body, b: Body) {
    w.time == b.time && w.action == b.action && w.subject == b.subject && w.role == b.role && w.tenant == b.tenant
  }

  /** Unless a tombstone fails too, every queued record leaves a record of who did what, when: with
      its detail or, where that could not be stored, saying so. */
  lemma {:induction false} QueueIsAccounted(queue: seq<Body>, fates: seq<Fate>)
    requires |queue| == |fates| && forall k :: 0 <= k < |fates| ==> fates[k] != Lost
    ensures |AllWritten(queue, fates)| == |queue|
    ensures forall k :: 0 <= k < |queue| ==>
      && SaysWho(AllWritten(queue, fates)[k], queue[k])
      && AllWritten(queue, fates)[k].fields ==
           if fates[k] == Stored then queue[k].fields else "{\"audit_error\":\"the detail of this event could not be stored\"}"
  {
    if queue != [] {
      var n := |queue| - 1;
      QueueIsAccounted(queue[..n], fates[..n]);
    }
  }

  // ── What a run of operations leaves ────────────────────────────────

  /** One operation of a run: an append by any replica, or a prune. */
  datatype Op = Appended(body: Body, writer: Codec, fails: bool, tombFails: bool) | Pruned(cutoff: int, fails: bool)

  /** What the log stands at: the records it keeps, the checkpoint before them, and - for the
      record - how each one ever appended was written, by its number. */
  datatype History = History(recs: seq<Record>, checkpoint: Option<Checkpoint>, writers: map<nat, Codec>)

  function WithWriter(writers: map<nat, Codec>, number: nat, w: Codec, f: Fate): map<nat, Codec> {
    if f == Lost then writers else writers[number := w]
  }

  /** How many records retention takes: up to the newest that is old enough. */
  function Expired(recs: seq<Record>, cutoff: int): (n: nat)
    ensures n <= |recs|
  {
    if recs == [] then 0
    else if recs[|recs| - 1].body.time < cutoff then |recs|
    else Expired(recs[..|recs| - 1], cutoff)
  }

  lemma {:induction false} ExpiredIs(recs: seq<Record>, cutoff: int, n: nat)
    requires n <= |recs| && forall i :: n <= i < |recs| ==> recs[i].body.time >= cutoff
    requires n > 0 ==> recs[n - 1].body.time < cutoff
    ensures Expired(recs, cutoff) == n
    decreases |recs|
  {
    if n < |recs| {
      ExpiredIs(recs[..|recs| - 1], cutoff, n);
    }
  }

  function Without(t: History, n: nat): History
    requires n <= |t.recs|
  {
    if n == 0 then t
    else
      var through := BaseSeq(t.checkpoint) + n;
      History(t.recs[n..], Some(Checkpoint(through, t.recs[n - 1].hash, through)), t.writers)
  }

  function AfterOp(h: Hasher, t: History, op: Op): History {
    match op
    case Appended(body, w, fails, tombFails) =>
      var base, fate := BaseSeq(t.checkpoint), FateOf(fails, tombFails);
      History(Extended(h, t.recs, base, BaseHash(t.checkpoint), Written(body, fate)), t.checkpoint,
              WithWriter(t.writers, base + |t.recs| + 1, w, fate))
    case Pruned(cutoff, fails) => Without(t, if fails then 0 else Expired(t.recs, cutoff))
  }

  function AfterOps(h: Hasher, ops: seq<Op>): History {
    if ops == [] then History([], None, map[]) else AfterOp(h, AfterOps(h, ops[..|ops| - 1]), ops[|ops| - 1])
  }

  /** The bodies a run appends, in order. */
  function Bodies(ops: seq<Op>): seq<Body> {
    if ops == [] then []
    else
      Bodies(ops[..|ops| - 1]) +
      match ops[|ops| - 1]
      case Appended(body, _, fails, tombFails) => Written(body, FateOf(fails, tombFails))
      case Pruned(_, _) => []
  }

  /** The log is `whole` less a prefix, which its checkpoint stands for. */
  ghost predicate Remains(t: History, whole: seq<Record>) {
    var n := BaseSeq(t.checkpoint);
    n <= |whole| && t.recs == whole[n..] && BaseHash(t.checkpoint) == Head(whole[..n], "")
  }

  lemma {:induction false} ExtendedRemains(h: Hasher, t: History, whole: seq<Record>, bodies: seq<Body>)
    requires Remains(t, whole)
    ensures Remains(t.(recs := Extended(h, t.recs, BaseSeq(t.checkpoint), BaseHash(t.checkpoint), bodies)), Extended(h, whole, 0, "", bodies))
    ensures |Extended(h, whole, 0, "", bodies)| == |whole| + |bodies|
    decreases |bodies|
  {
    if bodies != [] {
      var init, n := bodies[..|bodies| - 1], BaseSeq(t.checkpoint);
      ExtendedRemains(h, t, whole, init);
      var kept, all := Extended(h, t.recs, n, BaseHash(t.checkpoint), init), Extended(h, whole, 0, "", init);
      NextRemains(h, t.(recs := kept), all, bodies[|bodies| - 1]);
    }
  }

  /** The next record is the same whether the chain was pruned or not. */
  lemma NextRemains(h: Hasher, t: History, whole: seq<Record>, body: Body)
    requires Remains(t, whole)
    ensures var next := Next(h, whole, 0, "", body);
      && Next(h, t.recs, BaseSeq(t.checkpoint), BaseHash(t.checkpoint), body) == next
      && Remains(t.(recs := t.recs + [next]), whole + [next])
  {
    var n, next := BaseSeq(t.checkpoint), Next(h, whole, 0, "", body);
    if t.recs == [] {
      assert whole[..n] == whole;
    }
    assert (whole + [next])[..n] == whole[..n];
    assert (whole + [next])[n..] == whole[n..] + [next];
  }

  lemma WithoutRemains(t: History, whole: seq<Record>, n: nat)
    requires Remains(t, whole) && n <= |t.recs|
    ensures Remains(Without(t, n), whole)
  {
    if n > 0 {
      var m := BaseSeq(t.checkpoint) + n;
      assert whole[..m][m - 1] == t.recs[n - 1];
      assert whole[m..] == t.recs[n..];
    }
  }

  /** Retention only forgets: whenever the prunes came, the log holds exactly the last records of
      the one chain the run's appends make without any prune, and its checkpoint stands for
      exactly the others. */
  lemma {:induction false} PruningOnlyForgets(h: Hasher, ops: seq<Op>)
    ensures var whole := Extended(h, [], 0, "", Bodies(ops));
      Remains(AfterOps(h, ops), whole) && |whole| == |Bodies(ops)|
  {
    if ops == [] {
      assert Bodies(ops) == [];
    } else {
      var init := ops[..|ops| - 1];
      PruningOnlyForgets(h, init);
      var t, whole := AfterOps(h, init), Extended(h, [], 0, "", Bodies(init));
      match ops[|ops| - 1]
      case Appended(body, _, fails, tombFails) =>
        ExtendedSplits(h, [], 0, "", Bodies(init), Written(body, FateOf(fails, tombFails)));
        ExtendedRemains(h, t, whole, Written(body, FateOf(fails, tombFails)));
      case Pruned(cutoff, fails) =>
        assert Bodies(ops) == Bodies(init);
        WithoutRemains(t, whole, if fails then 0 else Expired(t.recs, cutoff));
    }
  }

  /** `t` is what the log grew to when the queue met these fates. */
  ghost predicate Drained(h: Hasher, before: History, queue: seq<Body>, fates: seq<Fate>, t: History) {
    && |queue| == |fates| && t.checkpoint == before.checkpoint
    && t.recs == Extended(h, before.recs, BaseSeq(before.checkpoint), BaseHash(before.checkpoint), AllWritten(queue, fates))
  }

  lemma {:induction false} DrainedSnoc(h: Hasher, before: History, queue: seq<Body>, i: nat, fates: seq<Fate>, t: History, w: Codec, fails: bool, tombFails: bool)
    requires i < |queue| && Drained(h, before, queue[..i], fates, t)
    ensures Drained(h, before, queue[..i + 1], fates + [FateOf(fails, tombFails)], AfterOp(h, t, Appended(queue[i], w, fails, tombFails)))
  {
    var fate := FateOf(fails, tombFails);
    assert queue[..i + 1][..i] == queue[..i] && (fates + [fate])[..i] == fates;
    ExtendedSplits(h, before.recs, BaseSeq(before.checkpoint), BaseHash(before.checkpoint), AllWritten(queue[..i], fates), Written(queue[i], fate));
  }

  // ── The log ────────────────────────────────────────────────────────

  /** The rows hold the records, each as its writer wrote it. */
  ghost predicate Holds(rows: seq<Row>, t: History) {
    |rows| == |t.recs| && forall i :: 0 <= i < |rows| ==> HeldBy(rows[i], t.recs[i], t.writers)
  }

  ghost predicate HeldBy(row: Row, r: Record, writers: map<nat, Codec>) {
    r.number in writers && row == RowOf(writers[r.number], r)
  }

  /** The chain resumes where the checkpoint left off, and the checkpoint counts every record ever
      pruned: pruned and kept together are all there ever were. */
  ghost predicate Honest(h: Hasher, rows: seq<Row>, t: History) {
    && Holds(rows, t) && Chained(h, t.recs, BaseSeq(t.checkpoint), BaseHash(t.checkpoint))
    && (t.checkpoint.Some? ==> t.checkpoint.value.pruned == t.checkpoint.value.throughSeq)
  }

  function NextOf(h: Hasher, t: History, body: Body): Record {
    Next(h, t.recs, BaseSeq(t.checkpoint), BaseHash(t.checkpoint), body)
  }

  function WithNext(h: Hasher, t: History, body: Body, w: Codec): History {
    var next := NextOf(h, t, body);
    History(t.recs + [next], t.checkpoint, t.writers[next.number := w])
  }

  lemma AppendKeeps(h: Hasher, rows: seq<Row>, t: History, body: Body, w: Codec)
    requires Honest(h, rows, t)
    ensures Honest(h, rows + [RowOf(w, NextOf(h, t, body))], WithNext(h, t, body, w))
  {
    var base, from := BaseSeq(t.checkpoint), BaseHash(t.checkpoint);
    var next := Next(h, t.recs, base, from, body);
    NextChains(h, t.recs, base, from, body);
    forall i | 0 <= i < |rows| ensures HeldBy(rows[i], t.recs[i], t.writers[next.number := w]) {
      assert Held(h, t.recs, base, from, i) && HeldBy(rows[i], t.recs[i], t.writers);
    }
  }

  /** The rows kept hold the records kept, which resume after the last row taken. */
  lemma PruneKeeps(h: Hasher, rows: seq<Row>, t: History, n: nat)
    requires Honest(h, rows, t) && 0 < n <= |rows|
    ensures Honest(h, rows[n..], Without(t, n))
    ensures rows[n - 1].number == BaseSeq(t.checkpoint) + n && rows[n - 1].hash == t.recs[n - 1].hash
  {
    SuffixChains(h, t.recs, BaseSeq(t.checkpoint), BaseHash(t.checkpoint), n);
    assert HeldBy(rows[n - 1], t.recs[n - 1], t.writers);
    forall i | 0 <= i < |rows| - n ensures HeldBy(rows[n..][i], t.recs[n..][i], t.writers) {
      assert HeldBy(rows[n + i], t.recs[n + i], t.writers);
    }
  }

  /** The tail of the chain as an append reads it: the last row, or the checkpoint when retention
      has taken every row. */
  lemma TailIs(h: Hasher, rows: seq<Row>, t: History)
    requires Honest(h, rows, t)
    ensures var base, from := BaseSeq(t.checkpoint), BaseHash(t.checkpoint);
      if rows == [] then t.recs == []
      else rows[|rows| - 1].number == base + |t.recs| && rows[|rows| - 1].hash == Head(t.recs, from)
  {
    if rows != [] {
      assert HeldBy(rows[|rows| - 1], t.recs[|rows| - 1], t.writers);
      assert Held(h, t.recs, BaseSeq(t.checkpoint), BaseHash(t.checkpoint), |t.recs| - 1);
    }
  }

  lemma {:induction false} ExtendedByOne(h: Hasher, recs: seq<Record>, base: nat, from: string, body: Body)
    ensures Extended(h, recs, base, from, [body]) == recs + [Next(h, recs, base, from, body)]
    ensures Extended(h, recs, base, from, []) == recs
  {
    assert [body][..0] == [];
  }

  /** The table one log keeps, shared by every replica: each append and each prune is one locked
      transaction. */
  class PgLog {
    const hash: Hasher
    var rows: seq<Row>
    var checkpoint: Option<Checkpoint>
    ghost var now: History

    ghost predicate Valid()
      reads this
    {
      Honest(hash, rows, now) && checkpoint == now.checkpoint
    }

    constructor (h: Hasher)
      ensures Valid() && hash == h && rows == [] && now == History([], None, map[])
    {
      hash, rows, checkpoint, now := h, [], None, History([], None, map[]);
    }

    /** One append, by a process that writes as `w`; a failure at any point leaves no gap. */
    method Append(body: Body, w: Codec, fails: bool) returns (done: bool)
      requires Valid()
      modifies this
      ensures Valid() && done == !fails
      ensures now == if done then WithNext(hash, old(now), body, w) else old(now)
      ensures rows == old(rows) + if done then [RowOf(w, NextOf(hash, old(now), body))] else []
    {
      var rec := NextRecord(body);
      if fails {
        return false;
      }
      AppendKeeps(hash, rows, now, body, w);
      rows, now := rows + [RowOf(w, rec)], WithNext(hash, now, body, w);
      done := true;
    }

    /** Numbered and linked after the last row, or after the checkpoint when retention has taken
        every row. */
    method NextRecord(body: Body) returns (rec: Record)
      requires Valid()
      ensures rec == NextOf(hash, now, body)
    {
      var lastNumber, lastHash := BaseSeq(checkpoint), BaseHash(checkpoint);
      TailIs(hash, rows, now);
      if rows != [] {
        lastNumber, lastHash := rows[|rows| - 1].number, rows[|rows| - 1].hash;
      }
      rec := Record(lastNumber + 1, body, lastHash, hash(lastNumber + 1, body, lastHash));
    }

    /** The drainer's write: a record that cannot be appended leaves a tombstone, if that can. */
    method Write(body: Body, w: Codec, fails: bool, tombFails: bool) returns (fate: Fate)
      requires Valid()
      modifies this
      ensures Valid() && fate == FateOf(fails, tombFails) && now == AfterOp(hash, old(now), Appended(body, w, fails, tombFails))
    {
      ghost var t := now;
      ExtendedByOne(hash, t.recs, BaseSeq(t.checkpoint), BaseHash(t.checkpoint), body);
      ExtendedByOne(hash, t.recs, BaseSeq(t.checkpoint), BaseHash(t.checkpoint), Tombstone(body));
      var done := Append(body, w, fails);
      if done {
        return Stored;
      }
      done := Append(Tombstone(body), w, tombFails);
      fate := if done then Tombstoned else Lost;
    }

    /** The queue, drained in order. `fails` says which appends, and which tombstones, fail. */
    method Drain(queue: seq<Body>, w: Codec, fails: nat -> bool, tombFails: nat -> bool) returns (ghost fates: seq<Fate>)
      requires Valid()
      modifies this
      ensures Valid() && Fated(fates, |queue|, fails, tombFails) && Drained(hash, old(now), queue, fates, now)
    {
      fates := [];
      ghost var before := now;
      for i := 0 to |queue|
        invariant Valid() && Fated(fates, i, fails, tombFails) && Drained(hash, before, queue[..i], fates, now)
      {
        DrainedSnoc(hash, before, queue, i, fates, now, w, fails(i), tombFails(i));
        FatedSnoc(fates, i, fails, tombFails);
        var fate := Write(queue[i], w, fails(i), tombFails(i));
        fates := fates + [fate];
      }
      assert queue[..|queue|] == queue;
    }

    /** The newest row that is old enough, counted from the front. */
    method NewestExpired(cutoff: int) returns (n: nat)
      requires Valid()
      ensures n == Expired(now.recs, cutoff)
    {
      n := |rows|;
      while n > 0 && rows[n - 1].time >= cutoff
        invariant n <= |rows| && forall i :: n <= i < |rows| ==> rows[i].time >= cutoff
      {
        n := n - 1;
      }
      assert forall i :: 0 <= i < |rows| ==> HeldBy(rows[i], now.recs[i], now.writers) && rows[i].time == now.recs[i].body.time;
      ExpiredIs(now.recs, cutoff, n);
    }

    /** `PruneBefore` takes every row up to the newest that is old enough, whatever the times
        before it, and leaves a chain that resumes at the hash of the last one taken. */
    method PruneBefore(cutoff: int, fails: bool) returns (removed: nat)
      requires Valid()
      modifies this
      ensures Valid() && removed == (if fails then 0 else Expired(old(now.recs), cutoff))
      ensures removed <= |old(rows)| && rows == old(rows)[removed..] && now == Without(old(now), removed)
    {
      removed := NewestExpired(cutoff);
      if removed == 0 || fails {
        return 0;
      }
      PruneKeeps(hash, rows, now, removed);
      var last := rows[removed - 1];
      var pruned := (if checkpoint.None? then 0 else checkpoint.value.pruned) + removed;
      checkpoint, rows, now := Some(Checkpoint(last.number, last.hash, pruned)), rows[removed..], Without(now, removed);
    }

    method Perform(op: Op)
      requires Valid()
      modifies this
      ensures Valid() && now == AfterOp(hash, old(now), op)
    {
      match op
      case Appended(body, w, fails, tombFails) =>
        var fate := Write(body, w, fails, tombFails);
      case Pruned(cutoff, fails) =>
        var removed := PruneBefore(cutoff, fails);
    }
  }

  // ── What verifies ──────────────────────────────────────────────────

  /** The reader reads every row's fields back unchanged. */
  ghost predicate AllReadBack(c: Codec, rows: seq<Row>, recs: seq<Record>)
    requires |rows| == |recs|
  {
    forall i :: 0 <= i < |rows| ==> c.Load(rows[i].stored) == Some(recs[i].body.fields)
  }

  /** An honest table verifies for a reader if and only if the reader reads every row's fields back
      unchanged - whoever wrote them and however. */
  lemma HonestVerifies(h: Hasher, c: Codec, rows: seq<Row>, t: History)
    requires Injective(h) && Honest(h, rows, t)
    ensures Verifies(h, c, rows, t.checkpoint) <==> AllReadBack(c, rows, t.recs)
    ensures rows != [] ==> rows[|rows| - 1].number == BaseSeq(t.checkpoint) + |rows|
    ensures t.checkpoint.Some? ==> t.checkpoint.value.pruned == t.checkpoint.value.throughSeq
  {
    TailIs(h, rows, t);
    if AllReadBack(c, rows, t.recs) {
      forall i | 0 <= i < |rows| ensures Opened(c, rows[i]) == Some(t.recs[i]) {
        assert HeldBy(rows[i], t.recs[i], t.writers);
      }
      assert Opens(c, rows, t.recs);
    }
    forall recs, i | Opens(c, rows, recs) && Chained(h, recs, BaseSeq(t.checkpoint), BaseHash(t.checkpoint)) && 0 <= i < |rows|
      ensures c.Load(rows[i].stored) == Some(t.recs[i].body.fields)
    {
      HeldAlike(h, c, rows, t, recs, i);
    }
  }

  lemma HeldAlike(h: Hasher, c: Codec, rows: seq<Row>, t: History, recs: seq<Record>, i: nat)
    requires Injective(h) && Honest(h, rows, t) && i < |rows|
    requires Opens(c, rows, recs) && Chained(h, recs, BaseSeq(t.checkpoint), BaseHash(t.checkpoint))
    ensures c.Load(rows[i].stored) == Some(t.recs[i].body.fields)
  {
    assert HeldBy(rows[i], t.recs[i], t.writers) && Opened(c, rows[i]) == Some(recs[i]);
    assert Held(h, t.recs, BaseSeq(t.checkpoint), BaseHash(t.checkpoint), i);
    assert Held(h, recs, BaseSeq(t.checkpoint), BaseHash(t.checkpoint), i);
    var a, b := t.recs[i], recs[i];
    assert SameOrApart(h, a.number, a.body, a.prevHash, b.number, b.body, b.prevHash);
  }

  /** Any sequence of appends and prunes, in any order, by any writers and with any failures -
      retention may take every row, and appends follow it - leaves the log the operations say; a
      reader accepts it, with the exact count, if and only if it reads every kept row's fields
      back unchanged. */
  method HonestRun(h: Hasher, ops: seq<Op>, c: Codec) returns (log: PgLog, records: nat, ok: bool)
    requires Injective(h)
    ensures fresh(log) && log.Valid() && log.hash == h && log.now == AfterOps(h, ops)
    ensures Holds(log.rows, log.now) && (ok <==> AllReadBack(c, log.rows, log.now.recs))
    ensures ok ==> records == |log.rows|
  {
    log := new PgLog(h);
    for i := 0 to |ops|
      invariant fresh(log) && log.Valid() && log.hash == h && log.now == AfterOps(h, ops[..i])
    {
      log.Perform(ops[i]);
      assert ops[..i + 1][..i] == ops[..i];
    }
    assert ops[..|ops|] == ops;
    HonestVerifies(h, c, log.rows, log.now);
    records, ok := VerifyPG(h, c, log.rows, log.checkpoint);
  }

  // ── When a reader reads a row back ─────────────────────────────────

  /** What a record without fields is hashed as. */
  const NO_FIELDS: string := "null"

  /** `c` has the key `w` seals with. Sealed text is not itself fields, and a text of fields is not
      what sealed text is stored as - but for the absence of fields, which both read as such. */
  ghost predicate SharesKey(c: Codec, w: Codec) {
    && (forall t :: KeyServes(c, w, t))
    && c.again(NO_FIELDS) == Some(NO_FIELDS) && c.unseal(NO_FIELDS) == Some("") && c.again("") == Some(NO_FIELDS)
  }

  ghost predicate KeyServes(c: Codec, w: Codec, t: string) {
    && c.unseal(w.seal(t)) == Some(t) && c.again(w.seal(t)) == None
    && (c.again(t).Some? && t != NO_FIELDS ==> c.unseal(t) == None || t == "")
  }

  /** A row's fields are read back unchanged if and only if reader and writer both seal or neither
      does, and what the fields are hashed as survives being read; or a row without fields was
      written plain. */
  lemma ReadBackExactly(c: Codec, w: Codec, text: string)
    requires SharesKey(c, w) && c.again(text).Some? && text != ""
    ensures c.Load(w.Store(text)) == Some(text) <==>
      (c.sealing == w.sealing && c.again(text) == Some(text)) || (text == "null" && !w.sealing)
  {
    assert KeyServes(c, w, text);
  }

  /** Where every record is written as the reader reads, and its fields survive being read, every
      run leaves a table the reader accepts. */
  lemma {:induction false} OneSettingReadsBack(h: Hasher, ops: seq<Op>, c: Codec)
    requires forall i :: 0 <= i < |ops| && ops[i].Appended? ==> ops[i].writer == c && Survives(c, ops[i].body)
    requires c.Load(c.Store(TOMBSTONE)) == Some(TOMBSTONE)
    ensures AllWrittenBy(c, AfterOps(h, ops))
  {
    if ops != [] {
      var init, op := ops[..|ops| - 1], ops[|ops| - 1];
      OneSettingReadsBack(h, init, c);
      OneSettingStep(h, AfterOps(h, init), op, c);
    }
  }

  predicate Survives(c: Codec, b: Body) {
    c.Load(c.Store(b.fields)) == Some(b.fields)
  }

  /** Every record was written by `c`, and survives it. */
  ghost predicate AllWrittenBy(c: Codec, t: History) {
    && (forall n :: n in t.writers ==> t.writers[n] == c)
    && (forall i :: 0 <= i < |t.recs| ==> Survives(c, t.recs[i].body))
  }

  lemma OneSettingStep(h: Hasher, t: History, op: Op, c: Codec)
    requires AllWrittenBy(c, t) && (op.Appended? ==> op.writer == c && Survives(c, op.body)) && c.Load(c.Store(TOMBSTONE)) == Some(TOMBSTONE)
    ensures AllWrittenBy(c, AfterOp(h, t, op))
  {
    match op
    case Appended(body, w, fails, tombFails) =>
      ExtendedByOne(h, t.recs, BaseSeq(t.checkpoint), BaseHash(t.checkpoint), body);
      ExtendedByOne(h, t.recs, BaseSeq(t.checkpoint), BaseHash(t.checkpoint), Tombstone(body));
    case Pruned(_, _) =>
  }

  lemma WrittenByReadsBack(c: Codec, rows: seq<Row>, t: History)
    requires Holds(rows, t) && AllWrittenBy(c, t)
    ensures AllReadBack(c, rows, t.recs)
  {
    forall i | 0 <= i < |rows| ensures c.Load(rows[i].stored) == Some(t.recs[i].body.fields) {
      assert HeldBy(rows[i], t.recs[i], t.writers) && Survives(c, t.recs[i].body);
    }
  }

  // ── Two honest tables that are refused ─────────────────────────────

  /** One record, appended by `w`. */
  lemma OneRow(h: Hasher, body: Body, w: Codec, rows: seq<Row>)
    requires Holds(rows, AfterOps(h, [Appended(body, w, false, false)]))
    ensures |rows| == 1 && rows[0].stored == w.Store(body.fields) && AfterOps(h, [Appended(body, w, false, false)]).recs[0].body == body
  {
    var ops := [Appended(body, w, false, false)];
    var start := History([], None, map[]);
    assert ops[..0] == [];
    assert AfterOps(h, ops) == AfterOp(h, start, ops[0]);
    ExtendedByOne(h, [], 0, "", body);
    var t := AfterOp(h, start, ops[0]);
    assert Written(body, FateOf(false, false)) == [body];
    assert t.recs == [Next(h, [], 0, "", body)] && t.recs[0].number == 1 && t.writers == map[1 := w];
    assert HeldBy(rows[0], t.recs[0], t.writers);
  }

  /** Sealing turned on over a row written plain: the reader insists on sealed fields. */
  lemma SealingTurnedOnIsRefused(h: Hasher, body: Body, w: Codec, c: Codec, rows: seq<Row>)
    requires Injective(h) && Honest(h, rows, AfterOps(h, [Appended(body, w, false, false)]))
    requires SharesKey(c, w) && c.again(body.fields).Some? && body.fields != "" && body.fields != NO_FIELDS && c.sealing && !w.sealing
    ensures !Verifies(h, c, rows, None)
  {
    var t := AfterOps(h, [Appended(body, w, false, false)]);
    OneRow(h, body, w, rows);
    ReadBackExactly(c, w, body.fields);
    HonestVerifies(h, c, rows, t);
  }

  /** A path with a byte that is no character is hashed with an escape in its place. */
  const ESCAPED: string := "{\"path\":\"/x\\ufffd\"}"

  /** Read back, the escape is the replacement character itself. */
  const REPLACED: string := "{\"path\":\"/x\U{FFFD}\"}"

  /** Such a record is refused even by its own writer: what its fields are hashed as does not
      survive being read. */
  lemma InvalidByteIsRefused(h: Hasher, body: Body, c: Codec, rows: seq<Row>)
    requires Injective(h) && Honest(h, rows, AfterOps(h, [Appended(body, c, false, false)]))
    requires SharesKey(c, c) && body.fields == ESCAPED && c.again(ESCAPED) == Some(REPLACED)
    ensures !Verifies(h, c, rows, None)
  {
    var t := AfterOps(h, [Appended(body, c, false, false)]);
    OneRow(h, body, c, rows);
    ReadBackExactly(c, c, ESCAPED);
    assert |ESCAPED| == 19 && |REPLACED| == 14;
    HonestVerifies(h, c, rows, t);
  }
}
