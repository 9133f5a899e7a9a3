/** The window in which a signed request is accepted, and the memory of what was accepted in
    it. Times are in nanoseconds; a request names its own in seconds. */
module Replay {
  import opened Options

  const SECOND: int := 1000000000
  const WINDOW: int := 300 * SECOND
  const SWEEP_EVERY: int := 60 * SECOND

  /** The zero time, long before any clock. */
  const NEVER: int := -62135596800 * SECOND

  /** What a signature covers besides its time. */
  datatype Request = Request(verb: string, path: string, query: string, body: seq<bv8>)

  /** The message authentication code: no two signed contents share one. */
  type Signer = (string, int, Request) -> string

  ghost predicate Unforgeable(sign: Signer) {
    forall k, t, r, k', t', r' :: SameOrApart(sign, k, t, r, k', t', r')
  }

  ghost predicate SameOrApart(sign: Signer, k: string, t: int, r: Request, k': string, t': int, r': Request) {
    sign(k, t, r) == sign(k', t', r') ==> k == k' && t == t' && r == r'
  }

  datatype Verdict = Accepted | MissingTimestamp | StaleTimestamp | BadSignature | Replayed

  /** One call: the time it reads, the timestamp it could parse, and what it was sent. */
  datatype Call = Call(now: int, secret: string, sig: string, ts: Option<int>, request: Request)

  /** What is remembered: each accepted signature until its own window closes. */
  datatype Memory = Memory(seen: map<string, int>, swept: int)

  function Expiry(ts: int): int {
    ts * SECOND + WINDOW
  }

  predicate InWindow(now: int, ts: int) {
    -WINDOW <= now - ts * SECOND <= WINDOW
  }

  predicate Signed(sign: Signer, c: Call) {
    c.ts.Some? && c.sig == sign(c.secret, c.ts.value, c.request)
  }

  /** Past the sweep interval, what has expired is forgotten. */
  function Swept(m: Memory, now: int): Memory {
    if now - m.swept > SWEEP_EVERY then Memory(map k | k in m.seen && now <= m.seen[k] :: m.seen[k], now) else m
  }

  function Judge(sign: Signer, m: Memory, c: Call): (Verdict, Memory) {
    if c.ts.None? then (MissingTimestamp, m)
    else if !InWindow(c.now, c.ts.value) then (StaleTimestamp, m)
    else if !Signed(sign, c) then (BadSignature, m)
    else
      var s := Swept(m, c.now);
      if c.sig in s.seen then (Replayed, s) else (Accepted, s.(seen := s.seen[c.sig := Expiry(c.ts.value)]))
  }

  /** The verifier, one call at a time under its lock. */
  class Verifier {
    const sign: Signer
    var seen: map<string, int>
    var swept: int

    constructor (sign: Signer)
      ensures this.sign == sign && State() == Memory(map[], NEVER)
    {
      this.sign := sign;
      seen, swept := map[], NEVER;
    }

    function State(): Memory
      reads this
    {
      Memory(seen, swept)
    }

    /** `verifyV2`. */
    method VerifyV2(c: Call) returns (v: Verdict)
      modifies this
      ensures (v, State()) == Judge(sign, old(State()), c)
    {
      if c.ts.None? {
        return MissingTimestamp;
      }
      var d := c.now - c.ts.value * SECOND;
      if d > WINDOW || d < -WINDOW {
        return StaleTimestamp;
      }
      var want := sign(c.secret, c.ts.value, c.request);
      if c.sig != want {
        return BadSignature;
      }
      if c.now - swept > SWEEP_EVERY {
        seen := map k | k in seen && c.now <= seen[k] :: seen[k];
        swept := c.now;
      }
      if c.sig in seen {
        return Replayed;
      }
      seen := seen[c.sig := c.ts.value * SECOND + WINDOW];
      v := Accepted;
    }
  }

  // ── Runs ───────────────────────────────────────────────────────────

  function After(sign: Signer, m: Memory, calls: seq<Call>): Memory {
    if calls == [] then m else Judge(sign, After(sign, m, calls[..|calls| - 1]), calls[|calls| - 1]).1
  }

  /** The verdict on call `i` of a run from an empty memory. */
  function VerdictAt(sign: Signer, calls: seq<Call>, i: nat): Verdict
    requires i < |calls|
  {
    Judge(sign, After(sign, Memory(map[], NEVER), calls[..i]), calls[i]).0
  }

  /** Every call reads its time no earlier than the sweeps before it did; calls taken in clock
      order do. */
  ghost predicate InOrder(sign: Signer, calls: seq<Call>) {
    forall i :: 0 <= i < |calls| ==> After(sign, Memory(map[], NEVER), calls[..i]).swept <= calls[i].now
  }

  function Before(sign: Signer, calls: seq<Call>, n: nat): Memory
    requires n <= |calls|
  {
    After(sign, Memory(map[], NEVER), calls[..n])
  }

  lemma BeforeNext(sign: Signer, calls: seq<Call>, n: nat)
    requires n < |calls|
    ensures Before(sign, calls, n + 1) == Judge(sign, Before(sign, calls, n), calls[n]).1
  {
    assert calls[..n + 1][..n] == calls[..n];
  }

  /** The request's own time is within five minutes of the clock, either side. */
  predicate Timely(now: int, ts: int) {
    -300000000000 <= now - ts * 1000000000 <= 300000000000
  }

  /** Call `k` gets past its checks, comes more than a minute after the last sweep, and reads a
      clock past `expiry`. */
  predicate SweepsPast(sign: Signer, calls: seq<Call>, k: nat, expiry: int) {
    && k < |calls| && calls[k].ts.Some? && Timely(calls[k].now, calls[k].ts.value) && Signed(sign, calls[k])
    && calls[k].now - Before(sign, calls, k).swept > 60000000000 && calls[k].now > expiry
  }

  ghost predicate SweptPast(sign: Signer, calls: seq<Call>, i: nat, j: nat, expiry: int) {
    exists k :: i < k < j && SweepsPast(sign, calls, k, expiry)
  }

  /** Call `i` is the last before `j` to be accepted with its signature. */
  ghost predicate LastAccepted(sign: Signer, calls: seq<Call>, i: nat, j: nat) {
    && i < j <= |calls| && VerdictAt(sign, calls, i) == Accepted
    && forall k :: i < k < j && calls[k].sig == calls[i].sig ==> VerdictAt(sign, calls, k) != Accepted
  }

  /** What is remembered of a signature since it was last accepted: all of it, until a sweep has
      passed the end of its window. */
  lemma {:induction false} StillSeen(sign: Signer, calls: seq<Call>, i: nat, n: nat)
    requires LastAccepted(sign, calls, i, n)
    ensures Signed(sign, calls[i])
    ensures var m, expiry := Before(sign, calls, n), Expiry(calls[i].ts.value);
      && (calls[i].sig in m.seen <==> !SweptPast(sign, calls, i, n, expiry))
      && (calls[i].sig in m.seen ==> m.seen[calls[i].sig] == expiry)
    decreases n
  {
    BeforeNext(sign, calls, n - 1);
    if n > i + 1 {
      StillSeen(sign, calls, i, n - 1);
      SeenStep(sign, Before(sign, calls, n - 1), calls[n - 1], calls[i].sig, Expiry(calls[i].ts.value));
      SweptStep(sign, calls, i, n - 1, Expiry(calls[i].ts.value));
    }
  }

  lemma SweptStep(sign: Signer, calls: seq<Call>, i: nat, n: nat, expiry: int)
    requires i < n
    ensures SweptPast(sign, calls, i, n + 1, expiry) <==> SweptPast(sign, calls, i, n, expiry) || SweepsPast(sign, calls, n, expiry)
  {
  }

  /** One call forgets a signature exactly when it sweeps past its expiry. */
  lemma SeenStep(sign: Signer, m: Memory, c: Call, sig: string, expiry: int)
    requires sig in m.seen ==> m.seen[sig] == expiry
    requires c.sig == sig ==> Judge(sign, m, c).0 != Accepted
    ensures var t := Judge(sign, m, c).1;
      var sweeps := c.ts.Some? && InWindow(c.now, c.ts.value) && Signed(sign, c) && c.now - m.swept > SWEEP_EVERY && c.now > expiry;
      && (sig in t.seen <==> sig in m.seen && !sweeps) && (sig in t.seen ==> t.seen[sig] == expiry)
  {
  }

  /** Once accepted, a signature is accepted again - by a call signed and inside its window - if
      and only if some call in between swept with a clock reading past the end of that window. */
  lemma AcceptedAgainExactly(sign: Signer, calls: seq<Call>, i: nat, j: nat)
    requires Unforgeable(sign) && j < |calls| && LastAccepted(sign, calls, i, j)
    requires calls[j].sig == calls[i].sig && Signed(sign, calls[j]) && Timely(calls[j].now, calls[j].ts.value)
    ensures calls[i].ts == calls[j].ts
    ensures VerdictAt(sign, calls, j) == Accepted <==> SweptPast(sign, calls, i, j, calls[j].ts.value * 1000000000 + 300000000000)
  {
    StillSeen(sign, calls, i, j);
    var c, d := calls[i], calls[j];
    assert SameOrApart(sign, c.secret, c.ts.value, c.request, d.secret, d.ts.value, d.request);
  }

  /** The last acceptance of a signature accepted before. */
  lemma {:induction false} LastBefore(sign: Signer, calls: seq<Call>, i: nat, j: nat) returns (l: nat)
    requires i < j <= |calls| && VerdictAt(sign, calls, i) == Accepted
    ensures i <= l && LastAccepted(sign, calls, l, j) && calls[l].sig == calls[i].sig
    decreases j
  {
    if j == i + 1 || (calls[j - 1].sig == calls[i].sig && VerdictAt(sign, calls, j - 1) == Accepted) {
      return j - 1;
    }
    l := LastBefore(sign, calls, i, j - 1);
    LastLonger(sign, calls, l, j - 1);
  }

  lemma LastLonger(sign: Signer, calls: seq<Call>, l: nat, n: nat)
    requires n < |calls| && LastAccepted(sign, calls, l, n)
    requires calls[n].sig == calls[l].sig ==> VerdictAt(sign, calls, n) != Accepted
    ensures LastAccepted(sign, calls, l, n + 1)
  {
  }

  /** In order, what a sweep has passed no later call reads a clock before. */
  lemma {:induction false} SweptStays(sign: Signer, calls: seq<Call>, k: nat, j: nat, expiry: int)
    requires InOrder(sign, calls) && k < j < |calls| && SweepsPast(sign, calls, k, expiry)
    ensures expiry < Before(sign, calls, j).swept <= calls[j].now
    decreases j
  {
    BeforeNext(sign, calls, j - 1);
    if j > k + 1 {
      SweptStays(sign, calls, k, j - 1, expiry);
    }
  }

  /** Over any run of calls in clock order no signature is accepted twice, although the sweep
      forgets: what it has forgotten is outside the window for good. */
  lemma AcceptedAtMostOnce(sign: Signer, calls: seq<Call>, i: nat, j: nat)
    requires Unforgeable(sign) && InOrder(sign, calls) && i < j < |calls|
    requires VerdictAt(sign, calls, i) == Accepted && calls[j].sig == calls[i].sig
    ensures VerdictAt(sign, calls, j) != Accepted
  {
    var l := LastBefore(sign, calls, i, j);
    if Signed(sign, calls[j]) && InWindow(calls[j].now, calls[j].ts.value) {
      var expiry := Expiry(calls[j].ts.value);
      AcceptedAgainExactly(sign, calls, l, j);
      forall k | l < k < j ensures !SweepsPast(sign, calls, k, expiry) {
        NotSweptPast(sign, calls, k, j, expiry);
      }
    }
  }

  lemma NotSweptPast(sign: Signer, calls: seq<Call>, k: nat, j: nat, expiry: int)
    requires InOrder(sign, calls) && k < j < |calls| && calls[j].now <= expiry
    ensures !SweepsPast(sign, calls, k, expiry)
  {
    if SweepsPast(sign, calls, k, expiry) {
      SweptStays(sign, calls, k, j, expiry);
      assert false;
    }
  }

  /** Only signatures accepted before are remembered. */
  lemma {:induction false} SeenWereAccepted(sign: Signer, calls: seq<Call>, n: nat, sig: string)
    requires n <= |calls| && sig in After(sign, Memory(map[], NEVER), calls[..n]).seen
    ensures exists i :: 0 <= i < n && calls[i].sig == sig && VerdictAt(sign, calls, i) == Accepted
    decreases n
  {
    if n > 0 {
      assert calls[..n][..n - 1] == calls[..n - 1];
      if sig in After(sign, Memory(map[], NEVER), calls[..n - 1]).seen {
        SeenWereAccepted(sign, calls, n - 1, sig);
      } else {
        assert calls[n - 1].sig == sig && VerdictAt(sign, calls, n - 1) == Accepted;
      }
    }
  }

  /** In order, the verifier accepts exactly what is signed, timely and new. */
  lemma AcceptedExactly(sign: Signer, calls: seq<Call>, j: nat)
    requires Unforgeable(sign) && InOrder(sign, calls) && j < |calls|
    ensures VerdictAt(sign, calls, j) == Accepted <==>
      && Signed(sign, calls[j]) && Timely(calls[j].now, calls[j].ts.value)
      && forall i :: 0 <= i < j && calls[i].sig == calls[j].sig ==> VerdictAt(sign, calls, i) != Accepted
  {
    forall i | 0 <= i < j && calls[i].sig == calls[j].sig && VerdictAt(sign, calls, i) == Accepted
      ensures VerdictAt(sign, calls, j) != Accepted
    {
      AcceptedAtMostOnce(sign, calls, i, j);
    }
    var m := After(sign, Memory(map[], NEVER), calls[..j]);
    if calls[j].sig in m.seen {
      SeenWereAccepted(sign, calls, j, calls[j].sig);
    }
  }

  /** Calls whose times never go back, from the year 1 on, are in order. */
  lemma {:induction false} ClockOrderIsInOrder(sign: Signer, calls: seq<Call>, n: nat)
    requires n <= |calls| && forall i, j :: 0 <= i <= j < |calls| ==> -62135596800000000000 <= calls[i].now <= calls[j].now
    ensures n < |calls| ==> After(sign, Memory(map[], NEVER), calls[..n]).swept <= calls[n].now
    decreases n
  {
    if n > 0 {
      assert calls[..n][..n - 1] == calls[..n - 1];
      ClockOrderIsInOrder(sign, calls, n - 1);
    }
  }

  /** A call that read its time before waiting for the lock can be overtaken by a sweep: then a
      signature at the very end of its window is accepted twice. */
  lemma OvertakenCallReplays(sign: Signer, r: Request, other: Request)
    requires Unforgeable(sign) && r != other
    ensures var t := 1000;
      var first := Call(t * SECOND, "k", sign("k", t, r), Some(t), r);
      var sweep := Call(Expiry(t) + 1, "k", sign("k", t + 300, other), Some(t + 300), other);
      var late := Call(Expiry(t), "k", sign("k", t, r), Some(t), r);
      var calls := [first, sweep, late];
      VerdictAt(sign, calls, 0) == Accepted && VerdictAt(sign, calls, 2) == Accepted && !InOrder(sign, calls)
  {
    var t := 1000;
    var first := Call(t * SECOND, "k", sign("k", t, r), Some(t), r);
    var sweep := Call(Expiry(t) + 1, "k", sign("k", t + 300, other), Some(t + 300), other);
    var late := Call(Expiry(t), "k", sign("k", t, r), Some(t), r);
    var calls := [first, sweep, late];
    assert SameOrApart(sign, "k", t, r, "k", t + 300, other);
    assert calls[..0] == [] && calls[..1] == [first] && calls[..2] == [first, sweep];
    assert calls[..2][..1] == [first] && calls[..1][..0] == [];
    var m0 := Memory(map[], NEVER);
    var m1 := Judge(sign, m0, first).1;
    assert After(sign, m0, [first]) == m1 && m1.seen == map[first.sig := Expiry(t)];
    var m2 := Judge(sign, m1, sweep).1;
    assert After(sign, m0, [first, sweep]) == m2 && m2.swept == sweep.now;
    assert first.sig !in m2.seen;
  }
}
