/** The score of one route: the probability that every hop succeeds when hops resting on one
    weight cause stand or fall together, so that a cause counts once, at its weakest hop. */
module Chain {
  import opened Sequences

  datatype Hop = Hop(cause: string, p: real)

  function Hops(causes: seq<string>, p: seq<real>): (hs: seq<Hop>)
    requires |causes| == |p|
    ensures |hs| == |p| && forall i :: 0 <= i < |p| ==> hs[i] == Hop(causes[i], p[i])
  {
    seq(|p|, i requires 0 <= i < |p| => Hop(causes[i], p[i]))
  }

  function Mul(s: seq<real>): real {
    if s == [] then 1.0 else Mul(s[..|s| - 1]) * s[|s| - 1]
  }

  function Min(x: real, y: real): real {
    if x <= y then x else y
  }

  function MinOf(s: seq<real>): (m: real)
    requires s != []
    ensures m in s && forall x :: x in s ==> m <= x
  {
    if |s| == 1 then s[0]
    else
      assert s == s[..|s| - 1] + [s[|s| - 1]];
      Min(MinOf(s[..|s| - 1]), s[|s| - 1])
  }

  /** The probabilities of the hops resting on `c`, in order; on "" rest the hops that are
      their own cause. */
  function Group(hs: seq<Hop>, c: string): seq<real> {
    if hs == [] then []
    else Group(hs[..|hs| - 1], c) + if hs[|hs| - 1].cause == c then [hs[|hs| - 1].p] else []
  }

  lemma {:induction false} GroupHolds(hs: seq<Hop>, c: string, x: real)
    ensures x in Group(hs, c) <==> Hop(c, x) in hs
  {
    if hs != [] {
      assert hs == hs[..|hs| - 1] + [hs[|hs| - 1]];
      GroupHolds(hs[..|hs| - 1], c, x);
    }
  }

  /** The causes hops share, each once, in the order they first occur. */
  function CausesOf(hs: seq<Hop>): seq<string> {
    if hs == [] then []
    else
      var rest, c := CausesOf(hs[..|hs| - 1]), hs[|hs| - 1].cause;
      if c == "" || c in rest then rest else rest + [c]
  }

  lemma {:induction false} CausesHold(hs: seq<Hop>, c: string)
    ensures c in CausesOf(hs) <==> c != "" && exists k :: 0 <= k < |hs| && hs[k].cause == c
  {
    if hs != [] {
      var init := hs[..|hs| - 1];
      CausesHold(init, c);
      if c in CausesOf(init) {
        var k :| 0 <= k < |init| && init[k].cause == c;
        assert hs[k].cause == c;
      }
      if k :| 0 <= k < |hs| && hs[k].cause == c {
        assert k < |hs| - 1 ==> init[k].cause == c;
      }
    }
  }

  lemma {:induction false} CausesOnce(hs: seq<Hop>)
    ensures forall i, j :: 0 <= i < j < |CausesOf(hs)| ==> CausesOf(hs)[i] != CausesOf(hs)[j]
  {
    if hs != [] {
      CausesOnce(hs[..|hs| - 1]);
    }
  }

  /** The weakest hop resting on `c`; certain when none does. */
  function Least(hs: seq<Hop>, c: string): real {
    if Group(hs, c) == [] then 1.0 else MinOf(Group(hs, c))
  }

  function Weakest(hs: seq<Hop>, cs: seq<string>): seq<real> {
    seq(|cs|, i requires 0 <= i < |cs| => Least(hs, cs[i]))
  }

  /** The group-by form of the score: every uncaused hop, and every shared cause once at its
      weakest hop. */
  function Factors(hs: seq<Hop>): seq<real> {
    Group(hs, "") + Weakest(hs, CausesOf(hs))
  }

  function Score(hs: seq<Hop>): real {
    Mul(Factors(hs))
  }

  lemma MulAssoc(a: real, i: real, x: real, ai: real, b: real)
    requires ai == a * i && b == i * x
    ensures ai * x == a * b
  {
    assert a * i * x == a * (i * x);
  }

  lemma {:induction false} MulConcat(a: seq<real>, b: seq<real>)
    ensures Mul(a + b) == Mul(a) * Mul(b)
    decreases |b|
  {
    if b == [] {
      assert a + b == a;
    } else {
      var init, x := b[..|b| - 1], b[|b| - 1];
      assert (a + b)[..|a + b| - 1] == a + init;
      MulConcat(a, init);
      MulAssoc(Mul(a), Mul(init), x, Mul(a + init), Mul(b));
    }
  }

  lemma MulOne(x: real)
    ensures Mul([x]) == x
  {
    assert [x][..0] == [];
  }

  lemma {:induction false} MulSnoc(s: seq<real>, x: real)
    ensures Mul(s + [x]) == Mul(s) * x
  {
    assert (s + [x])[..|s|] == s;
  }

  lemma Swapped(m: real, x: real, l: real, mx: real, ml: real)
    requires mx == m * x && ml == m * l
    ensures mx * l == ml * x
  {
    assert m * x * l == m * l * x;
  }

  lemma {:induction false} MulInsert(a: seq<real>, x: real, b: seq<real>)
    ensures Mul(a + [x] + b) == Mul(a + b) * x
    decreases |b|
  {
    if b == [] {
      assert a + [x] + b == a + [x] && a + b == a;
      MulSnoc(a, x);
    } else {
      var init, l := b[..|b| - 1], b[|b| - 1];
      MulInsert(a, x, init);
      InsertSnoc(a, x, init, l, b);
      MulSnoc(a + [x] + init, l);
      MulSnoc(a + init, l);
      Swapped(Mul(a + init), x, l, Mul(a + [x] + init), Mul(a + b));
    }
  }

  lemma InsertSnoc(a: seq<real>, x: real, init: seq<real>, l: real, b: seq<real>)
    requires b == init + [l]
    ensures a + [x] + b == a + [x] + init + [l] && a + b == a + init + [l]
  {
  }

  lemma {:induction false} MulPermutes(a: seq<real>, b: seq<real>)
    requires multiset(a) == multiset(b)
    ensures Mul(a) == Mul(b)
    decreases |a|
  {
    SameSize(a, b);
    if a != [] {
      var i := TakeOut(a, b);
      MulPermutes(a[..|a| - 1], b[..i] + b[i + 1..]);
      MulInsert(b[..i], b[i], b[i + 1..]);
    }
  }

  // ── The nested loop computes the group-by form ─────────────────────

  lemma {:induction false} GroupSnoc(hs: seq<Hop>, h: Hop, c: string)
    ensures Group(hs + [h], c) == Group(hs, c) + if h.cause == c then [h.p] else []
  {
    assert (hs + [h])[..|hs|] == hs;
  }

  lemma {:induction false} CausesSnoc(hs: seq<Hop>, h: Hop)
    ensures CausesOf(hs + [h]) ==
      if h.cause == "" || h.cause in CausesOf(hs) then CausesOf(hs) else CausesOf(hs) + [h.cause]
  {
    assert (hs + [h])[..|hs|] == hs;
  }

  lemma LeastIs(hs: seq<Hop>, c: string, x: real)
    requires Hop(c, x) in hs
    requires forall k :: 0 <= k < |hs| && hs[k].cause == c ==> x <= hs[k].p
    ensures Least(hs, c) == x
  {
    GroupHolds(hs, c, x);
    GroupHolds(hs, c, MinOf(Group(hs, c)));
  }

  /** The factors the first `i` hops contribute to the score of all of `hs`. */
  function Counted(hs: seq<Hop>, i: nat): seq<real>
    requires i <= |hs|
  {
    Group(hs[..i], "") + Weakest(hs, CausesOf(hs[..i]))
  }

  lemma {:induction false} MulOfInsert(s: seq<real>, t: seq<real>, a: seq<real>, x: real, b: seq<real>, prod: real)
    requires s == a + b && t == a + [x] + b && prod == Mul(s)
    ensures Mul(t) == prod * x
  {
    MulInsert(a, x, b);
  }

  lemma CountedUncaused(hs: seq<Hop>, i: nat)
    requires i < |hs| && hs[i].cause == ""
    ensures var g, w := Group(hs[..i], ""), Weakest(hs, CausesOf(hs[..i]));
      Counted(hs, i) == g + w && Counted(hs, i + 1) == g + [hs[i].p] + w
  {
    assert hs[..i + 1] == hs[..i] + [hs[i]];
    CausesSnoc(hs[..i], hs[i]);
    GroupSnoc(hs[..i], hs[i], "");
  }

  lemma CountedSeen(hs: seq<Hop>, i: nat)
    requires i < |hs| && hs[i].cause != "" && hs[i].cause in CausesOf(hs[..i])
    ensures Counted(hs, i + 1) == Counted(hs, i)
  {
    assert hs[..i + 1] == hs[..i] + [hs[i]];
    CausesSnoc(hs[..i], hs[i]);
    GroupSnoc(hs[..i], hs[i], "");
  }

  lemma CountedFirst(hs: seq<Hop>, i: nat)
    requires i < |hs| && hs[i].cause != "" && hs[i].cause !in CausesOf(hs[..i])
    ensures Counted(hs, i + 1) == Counted(hs, i) + [Least(hs, hs[i].cause)]
  {
    assert hs[..i + 1] == hs[..i] + [hs[i]];
    CausesSnoc(hs[..i], hs[i]);
    GroupSnoc(hs[..i], hs[i], "");
    WeakestConcat(hs, CausesOf(hs[..i]), [hs[i].cause]);
    AppendLast(Group(hs[..i], ""), Weakest(hs, CausesOf(hs[..i])), Least(hs, hs[i].cause));
  }

  lemma AppendLast(a: seq<real>, b: seq<real>, x: real)
    ensures a + [] == a && a + (b + [x]) == a + b + [x]
  {
  }

  lemma {:induction false} MulAppend(s: seq<real>, t: seq<real>, x: real, prod: real)
    requires t == s + [x] && prod == Mul(s)
    ensures Mul(t) == prod * x
  {
    assert t[..|s|] == s;
  }

  lemma CountUncaused(hs: seq<Hop>, i: nat, prod: real, p: real, next: real)
    requires i < |hs| && hs[i] == Hop("", p) && prod == Mul(Counted(hs, i)) && next == prod * p
    ensures next == Mul(Counted(hs, i + 1))
  {
    CountedUncaused(hs, i);
    MulOfInsert(Counted(hs, i), Counted(hs, i + 1), Group(hs[..i], ""), p, Weakest(hs, CausesOf(hs[..i])), prod);
  }

  lemma CountFirst(hs: seq<Hop>, i: nat, prod: real, c: string, weakest: real, next: real)
    requires i < |hs| && hs[i].cause == c && c != "" && prod == Mul(Counted(hs, i)) && next == prod * weakest
    requires forall k :: 0 <= k < i ==> hs[k].cause != c
    requires weakest == Least(hs, c)
    ensures next == Mul(Counted(hs, i + 1))
  {
    CausesHold(hs[..i], c);
    CountedFirst(hs, i);
    MulAppend(Counted(hs, i), Counted(hs, i + 1), weakest, prod);
  }

  lemma CountSeen(hs: seq<Hop>, i: nat, c: string, k: nat)
    requires k < i < |hs| && c != "" && hs[i].cause == c && hs[k].cause == c
    ensures Counted(hs, i + 1) == Counted(hs, i)
  {
    CausesHold(hs[..i], c);
    assert hs[..i][k].cause == c;
    CountedSeen(hs, i);
  }

  /** `chainProbability`: hop by hop, a shared cause counted at its first hop, where the inner
      loop looks for its weakest. */
  method ChainProbability(causes: seq<string>, p: seq<real>) returns (prod: real)
    requires |causes| == |p|
    ensures prod == Score(Hops(causes, p))
  {
    ghost var hs := Hops(causes, p);
    prod := 1.0;
    for i := 0 to |causes|
      invariant prod == Mul(Counted(hs, i))
    {
      prod := CountHop(causes, p, i, prod);
    }
    assert hs[..|causes|] == hs;
  }

  /** The body of the outer loop: the product so far, with hop `i` taken into account. */
  method CountHop(causes: seq<string>, p: seq<real>, i: nat, prod: real) returns (next: real)
    requires |causes| == |p| && i < |p|
    requires prod == Mul(Counted(Hops(causes, p), i))
    ensures next == Mul(Counted(Hops(causes, p), i + 1))
  {
    if causes[i] == "" {
      next := CountOwn(causes, p, i, prod);
    } else {
      next := CountCause(causes, p, i, prod);
    }
  }

  method CountOwn(causes: seq<string>, p: seq<real>, i: nat, prod: real) returns (next: real)
    requires |causes| == |p| && i < |p| && causes[i] == ""
    requires prod == Mul(Counted(Hops(causes, p), i))
    ensures next == Mul(Counted(Hops(causes, p), i + 1))
  {
    var own := p[i];
    next := prod * own;
    CountUncaused(Hops(causes, p), i, prod, own, next);
  }

  method CountCause(causes: seq<string>, p: seq<real>, i: nat, prod: real) returns (next: real)
    requires |causes| == |p| && i < |p| && causes[i] != ""
    requires prod == Mul(Counted(Hops(causes, p), i))
    ensures next == Mul(Counted(Hops(causes, p), i + 1))
  {
    var first, weakest := FirstAndWeakest(causes, p, i);
    if first {
      next := prod * weakest;
      FirstCounts(causes, p, i, prod, weakest, next);
    } else {
      next := prod;
      ghost var k :| 0 <= k < i && causes[k] == causes[i];
      CountSeen(Hops(causes, p), i, causes[i], k);
    }
  }

  /** The first hop on a cause counts the weakest of them all. */
  lemma FirstCounts(causes: seq<string>, p: seq<real>, i: nat, prod: real, weakest: real, next: real)
    requires |causes| == |p| && i < |p|
    requires forall k :: 0 <= k < i ==> causes[k] != causes[i]
    requires Hop(causes[i], weakest) in Hops(causes, p)
    requires forall k :: 0 <= k < |p| && causes[k] == causes[i] ==> weakest <= p[k]
    requires causes[i] != "" && prod == Mul(Counted(Hops(causes, p), i)) && next == prod * weakest
    ensures next == Mul(Counted(Hops(causes, p), i + 1))
  {
    LeastIs(Hops(causes, p), causes[i], weakest);
    CountFirst(Hops(causes, p), i, prod, causes[i], weakest, next);
  }

  /** The inner loop: whether hop `i` is the first on its cause, and then the weakest on it. */
  method FirstAndWeakest(causes: seq<string>, p: seq<real>, i: nat) returns (first: bool, weakest: real)
    requires |causes| == |p| && i < |p|
    ensures first <==> forall k :: 0 <= k < i ==> causes[k] != causes[i]
    ensures first ==> Hop(causes[i], weakest) in Hops(causes, p)
    ensures first ==> forall k :: 0 <= k < |p| && causes[k] == causes[i] ==> weakest <= p[k]
  {
    ghost var hs := Hops(causes, p);
    assert hs[i] == Hop(causes[i], p[i]);
    first, weakest := true, p[i];
    for j := 0 to |causes|
      invariant first && forall k :: 0 <= k < j && k < i ==> causes[k] != causes[i]
      invariant Hop(causes[i], weakest) in hs
      invariant weakest <= p[i] && forall k :: 0 <= k < j && causes[k] == causes[i] ==> weakest <= p[k]
    {
      if causes[j] != causes[i] {
        continue;
      }
      if j < i {
        first := false;
        break;
      }
      assert hs[j] == Hop(causes[i], p[j]);
      weakest := Min(weakest, p[j]);
    }
  }

  // ── What the score means ───────────────────────────────────────────

  lemma {:induction false} GroupPermutes(a: seq<Hop>, b: seq<Hop>, c: string)
    requires multiset(a) == multiset(b)
    ensures multiset(Group(a, c)) == multiset(Group(b, c))
    decreases |a|
  {
    SameSize(a, b);
    if a != [] {
      var i := TakeOut(a, b);
      GroupPermutes(a[..|a| - 1], b[..i] + b[i + 1..], c);
      GroupConcat(b[..i] + [b[i]], b[i + 1..], c);
      GroupConcat(b[..i], b[i + 1..], c);
      GroupSnoc(b[..i], b[i], c);
    }
  }

  lemma {:induction false} GroupConcat(a: seq<Hop>, b: seq<Hop>, c: string)
    ensures Group(a + b, c) == Group(a, c) + Group(b, c)
    decreases |b|
  {
    if b == [] {
      assert a + b == a;
    } else {
      assert (a + b)[..|a + b| - 1] == a + b[..|b| - 1];
      GroupConcat(a, b[..|b| - 1], c);
    }
  }

  /** The score does not depend on the order of the hops. */
  lemma ScorePermutes(a: seq<Hop>, b: seq<Hop>)
    requires multiset(a) == multiset(b)
    ensures Score(a) == Score(b)
  {
    forall c ensures multiset(Group(a, c)) == multiset(Group(b, c)) && Least(a, c) == Least(b, c) {
      GroupPermutes(a, b, c);
      LeastPermutes(a, b, c);
    }
    var ca, cb := CausesOf(a), CausesOf(b);
    forall c ensures c in ca <==> c in cb {
      if c in ca {
        SameCauses(a, b, c);
      } else if c in cb {
        SameCauses(b, a, c);
      }
    }
    CausesOnce(a);
    CausesOnce(b);
    SameElementsPermute(ca, cb);
    assert Weakest(b, ca) == Weakest(a, ca);
    WeakestPermutes(b, ca, cb);
    MulPermutes(Factors(a), Factors(b));
  }

  lemma {:induction false} SameCauses(a: seq<Hop>, b: seq<Hop>, c: string)
    requires multiset(a) == multiset(b) && c in CausesOf(a)
    ensures c in CausesOf(b)
  {
    CausesHold(a, c);
    var k :| 0 <= k < |a| && a[k].cause == c;
    assert a[k] in multiset(b);
    CausesHold(b, c);
  }

  lemma {:induction false} LeastPermutes(a: seq<Hop>, b: seq<Hop>, c: string)
    requires multiset(Group(a, c)) == multiset(Group(b, c))
    ensures Least(a, c) == Least(b, c)
  {
    var ga, gb := Group(a, c), Group(b, c);
    assert |multiset(ga)| == |ga| && |multiset(gb)| == |gb|;
    if ga != [] {
      var x, y := MinOf(ga), MinOf(gb);
      assert x in multiset(gb) && y in multiset(ga);
      assert x in gb && y in ga;
    }
  }

  lemma WeakestConcat(hs: seq<Hop>, a: seq<string>, b: seq<string>)
    ensures Weakest(hs, a + b) == Weakest(hs, a) + Weakest(hs, b)
  {
  }

  lemma WeakestPermutes(hs: seq<Hop>, a: seq<string>, b: seq<string>)
    requires multiset(a) == multiset(b)
    ensures multiset(Weakest(hs, a)) == multiset(Weakest(hs, b))
  {
    var f := c => Least(hs, c);
    assert Weakest(hs, a) == Map(f, a) && Weakest(hs, b) == Map(f, b);
    MapPermutes(f, a, b);
  }

  ghost predicate Unit(s: seq<real>) {
    forall i :: 0 <= i < |s| ==> 0.0 <= s[i] <= 1.0
  }

  ghost predicate UnitHops(hs: seq<Hop>) {
    forall i :: 0 <= i < |hs| ==> 0.0 <= hs[i].p <= 1.0
  }

  ghost predicate Below(a: seq<real>, b: seq<real>) {
    |a| == |b| && forall i :: 0 <= i < |a| ==> 0.0 <= a[i] <= b[i]
  }

  lemma TimesMonotone(x: real, y: real, x': real, y': real)
    requires 0.0 <= x <= x' && 0.0 <= y <= y'
    ensures 0.0 <= x * y <= x' * y'
  {
    assert x' * y' - x * y == (x' - x) * y' + x * (y' - y);
  }

  lemma {:induction false} MulMonotone(a: seq<real>, b: seq<real>)
    requires Below(a, b)
    ensures 0.0 <= Mul(a) <= Mul(b)
    decreases |a|
  {
    if a != [] {
      var n := |a| - 1;
      MulMonotone(a[..n], b[..n]);
      TimesMonotone(Mul(a[..n]), a[n], Mul(b[..n]), b[n]);
    }
  }

  lemma {:induction false} MulUnit(s: seq<real>, k: nat)
    requires Unit(s) && k < |s|
    ensures 0.0 <= Mul(s) <= s[k]
    decreases |s|
  {
    var n := |s| - 1;
    MulAtMostOne(s[..n]);
    if k < n {
      MulUnit(s[..n], k);
      TimesMonotone(Mul(s[..n]), s[n], s[k], 1.0);
    } else {
      TimesMonotone(Mul(s[..n]), s[n], 1.0, s[n]);
    }
  }

  lemma {:induction false} MulAtMostOne(s: seq<real>)
    requires Unit(s)
    ensures 0.0 <= Mul(s) <= 1.0
    decreases |s|
  {
    if s != [] {
      var n := |s| - 1;
      MulAtMostOne(s[..n]);
      TimesMonotone(Mul(s[..n]), s[n], 1.0, 1.0);
    }
  }

  /** The same route, hop by hop no likelier. */
  ghost predicate NoLikelier(a: seq<Hop>, b: seq<Hop>) {
    |a| == |b| && forall i :: 0 <= i < |a| ==> a[i].cause == b[i].cause && 0.0 <= a[i].p <= b[i].p
  }

  lemma {:induction false} GroupMonotone(a: seq<Hop>, b: seq<Hop>, c: string)
    requires NoLikelier(a, b)
    ensures Below(Group(a, c), Group(b, c))
    decreases |a|
  {
    if a != [] {
      GroupMonotone(a[..|a| - 1], b[..|a| - 1], c);
    }
  }

  lemma LeastMonotone(a: seq<Hop>, b: seq<Hop>, c: string)
    requires NoLikelier(a, b)
    ensures 0.0 <= Least(a, c) <= Least(b, c)
  {
    GroupMonotone(a, b, c);
    var ga, gb := Group(a, c), Group(b, c);
    if ga != [] {
      var j :| 0 <= j < |gb| && gb[j] == MinOf(gb);
      assert ga[j] in ga;
      var i :| 0 <= i < |ga| && ga[i] == MinOf(ga);
    }
  }

  lemma {:induction false} CausesSame(a: seq<Hop>, b: seq<Hop>)
    requires NoLikelier(a, b)
    ensures CausesOf(a) == CausesOf(b)
    decreases |a|
  {
    if a != [] {
      CausesSame(a[..|a| - 1], b[..|a| - 1]);
    }
  }

  /** The score never falls when a hop gets likelier. */
  lemma ScoreMonotone(a: seq<Hop>, b: seq<Hop>)
    requires NoLikelier(a, b)
    ensures 0.0 <= Score(a) <= Score(b)
  {
    GroupMonotone(a, b, "");
    CausesSame(a, b);
    var cs := CausesOf(a);
    forall i | 0 <= i < |cs| ensures 0.0 <= Weakest(a, cs)[i] <= Weakest(b, cs)[i] {
      LeastMonotone(a, b, cs[i]);
    }
    MulMonotone(Factors(a), Factors(b));
  }

  lemma {:induction false} LeastInGroup(hs: seq<Hop>, c: string)
    requires UnitHops(hs)
    ensures 0.0 <= Least(hs, c) <= 1.0
    ensures Group(hs, c) != [] ==> Hop(c, Least(hs, c)) in hs
    ensures forall h :: h in hs && h.cause == c ==> Least(hs, c) <= h.p
  {
    if Group(hs, c) != [] {
      GroupHolds(hs, c, Least(hs, c));
    }
    forall h | h in hs && h.cause == c ensures Least(hs, c) <= h.p {
      GroupHolds(hs, c, h.p);
    }
  }

  lemma FactorsUnit(hs: seq<Hop>)
    requires UnitHops(hs)
    ensures Unit(Factors(hs))
  {
    var g, cs := Group(hs, ""), CausesOf(hs);
    forall i | 0 <= i < |g| ensures 0.0 <= g[i] <= 1.0 {
      GroupHolds(hs, "", g[i]);
    }
    forall i | 0 <= i < |cs| ensures 0.0 <= Weakest(hs, cs)[i] <= 1.0 {
      LeastInGroup(hs, cs[i]);
    }
  }

  lemma HopHasFactor(hs: seq<Hop>, k: nat) returns (i: nat)
    requires UnitHops(hs) && k < |hs|
    ensures i < |Factors(hs)| && Factors(hs)[i] <= hs[k].p
  {
    var h := hs[k];
    if h.cause == "" {
      GroupHolds(hs, "", h.p);
      i :| 0 <= i < |Group(hs, "")| && Group(hs, "")[i] == h.p;
    } else {
      CausesHold(hs, h.cause);
      i :| 0 <= i < |CausesOf(hs)| && CausesOf(hs)[i] == h.cause;
      LeastInGroup(hs, h.cause);
      i := |Group(hs, "")| + i;
    }
  }

  /** No route is likelier than its weakest hop. */
  lemma ScoreAtMostHop(hs: seq<Hop>, k: nat)
    requires UnitHops(hs) && k < |hs|
    ensures 0.0 <= Score(hs) <= hs[k].p
  {
    FactorsUnit(hs);
    var i := HopHasFactor(hs, k);
    MulUnit(Factors(hs), i);
  }

  /** The hops' probabilities, causes ignored. */
  function Ps(hs: seq<Hop>): seq<real> {
    seq(|hs|, i requires 0 <= i < |hs| => hs[i].p)
  }

  lemma Shrinks(x: real, p: real)
    requires 0.0 <= x && 0.0 <= p <= 1.0
    ensures 0.0 <= x * p <= x
  {
    assert x - x * p == x * (1.0 - p);
  }

  lemma Weaken(m: real, x: real, y: real, p: real, mx: real, my: real)
    requires 0.0 <= m && 0.0 <= x <= 1.0 && 0.0 <= p <= 1.0 && (y == x || y == p)
    requires mx == m * x && my == m * y
    ensures mx * p <= my
  {
    var xp := x * p;
    Shrinks(x, p);
    Shrinks(p, x);
    TimesMonotone(m, xp, m, y);
    assert m * x * p == m * (x * p);
  }

  /** Weakening one factor by a hop costs at most that hop. */
  lemma {:induction false} MulWeakened(s: seq<real>, t: seq<real>, a: seq<real>, x: real, y: real, b: seq<real>, p: real, prod: real)
    requires s == a + [x] + b && t == a + [y] + b && Unit(s) && prod == Mul(s)
    requires 0.0 <= p <= 1.0 && (y == x || y == p)
    ensures prod * p <= Mul(t)
  {
    var m := Mul(a + b);
    MulOfInsert(a + b, s, a, x, b, m);
    MulOfInsert(a + b, t, a, y, b, m);
    UnitWithout(s, a, x, b);
    Weaken(m, x, y, p, prod, Mul(t));
  }

  lemma {:induction false} UnitWithout(s: seq<real>, a: seq<real>, x: real, b: seq<real>)
    requires s == a + [x] + b && Unit(s)
    ensures 0.0 <= x <= 1.0 && 0.0 <= Mul(a + b) <= 1.0
  {
    assert s[|a|] == x;
    forall i | 0 <= i < |a + b| ensures 0.0 <= (a + b)[i] <= 1.0 {
      assert (a + b)[i] == s[if i < |a| then i else i + 1];
    }
    MulAtMostOne(a + b);
  }

  lemma {:induction false} NoneYet(hs: seq<Hop>, c: string)
    requires c != "" && c !in CausesOf(hs)
    ensures Group(hs, c) == []
  {
    CausesHold(hs, c);
    if Group(hs, c) != [] {
      GroupHolds(hs, c, Group(hs, c)[0]);
      assert false;
    }
  }

  lemma {:induction false} LeastSnoc(hs: seq<Hop>, h: Hop, c: string)
    ensures Least(hs + [h], c) ==
      if c != h.cause then Least(hs, c) else if Group(hs, c) == [] then h.p else Min(Least(hs, c), h.p)
  {
    GroupSnoc(hs, h, c);
    var g := Group(hs, c);
    if c != h.cause {
      assert g + [] == g;
    } else {
      assert (g + [h.p])[..|g|] == g;
    }
  }

  lemma WeakestUntouched(hs: seq<Hop>, h: Hop, cs: seq<string>)
    requires h.cause !in cs
    ensures Weakest(hs + [h], cs) == Weakest(hs, cs)
  {
    forall i | 0 <= i < |cs| ensures Least(hs + [h], cs[i]) == Least(hs, cs[i]) {
      LeastSnoc(hs, h, cs[i]);
    }
  }

  lemma {:induction false} FactorsSnocNew(hs: seq<Hop>, h: Hop)
    requires h.cause != "" && h.cause !in CausesOf(hs)
    ensures Factors(hs + [h]) == Factors(hs) + [h.p]
  {
    CausesSnoc(hs, h);
    GroupSnoc(hs, h, "");
    WeakestSnocNew(hs, h, CausesOf(hs));
    assert Group(hs, "") + [] == Group(hs, "");
  }

  lemma {:induction false} WeakestSnocNew(hs: seq<Hop>, h: Hop, cs: seq<string>)
    requires h.cause != "" && h.cause !in CausesOf(hs) && h.cause !in cs
    ensures Weakest(hs + [h], cs + [h.cause]) == Weakest(hs, cs) + [h.p]
  {
    WeakestUntouched(hs, h, cs);
    WeakestConcat(hs + [h], cs, [h.cause]);
    NoneYet(hs, h.cause);
    LeastSnoc(hs, h, h.cause);
  }

  lemma {:induction false} FactorsSnocOwn(hs: seq<Hop>, h: Hop)
    requires h.cause == ""
    ensures Factors(hs + [h]) == Group(hs, "") + [h.p] + Weakest(hs, CausesOf(hs))
  {
    CausesSnoc(hs, h);
    GroupSnoc(hs, h, "");
    CausesHold(hs, "");
    WeakestUntouched(hs, h, CausesOf(hs));
  }

  lemma {:induction false} WeakestSnocShared(hs: seq<Hop>, h: Hop, cs: seq<string>, k: nat)
    requires k < |cs| && cs[k] == h.cause && Group(hs, h.cause) != []
    requires h.cause !in cs[..k] && h.cause !in cs[k + 1..]
    ensures var w := Weakest(hs, cs);
      Weakest(hs + [h], cs) == w[..k] + [Min(w[k], h.p)] + w[k + 1..]
  {
    var w, w' := Weakest(hs, cs), Weakest(hs + [h], cs);
    LeastSnoc(hs, h, h.cause);
    forall i | 0 <= i < |cs| && i != k ensures w'[i] == w[i] {
      assert cs[i] in if i < k then cs[..k] else cs[k + 1..];
      LeastSnoc(hs, h, cs[i]);
    }
    PointUpdate(w, w', k, Min(w[k], h.p));
  }

  lemma PointUpdate(w: seq<real>, w': seq<real>, k: nat, x: real)
    requires |w'| == |w| && k < |w| && w'[k] == x && forall i :: 0 <= i < |w| && i != k ==> w'[i] == w[i]
    ensures w' == w[..k] + [x] + w[k + 1..]
  {
  }

  lemma FactorsSnocShared(hs: seq<Hop>, h: Hop) returns (a: seq<real>, b: seq<real>)
    requires h.cause != "" && h.cause in CausesOf(hs)
    ensures b != [] && Factors(hs) == a + [b[0]] + b[1..]
    ensures Factors(hs + [h]) == a + [Min(b[0], h.p)] + b[1..]
  {
    CausesSnoc(hs, h);
    GroupSnoc(hs, h, "");
    SharedHasHops(hs, h.cause);
    CausesOnce(hs);
    var cs := CausesOf(hs);
    var k :| 0 <= k < |cs| && cs[k] == h.cause;
    WeakestSnocShared(hs, h, cs, k);
    assert Group(hs, "") + [] == Group(hs, "");
    a, b := Regroup(Group(hs, ""), Weakest(hs, cs), k, Min(Weakest(hs, cs)[k], h.p), Weakest(hs + [h], cs));
  }

  lemma Regroup(g: seq<real>, w: seq<real>, k: nat, x: real, w': seq<real>) returns (a: seq<real>, b: seq<real>)
    requires k < |w| && w' == w[..k] + [x] + w[k + 1..]
    ensures b != [] && b[0] == w[k] && g + w == a + [b[0]] + b[1..] && g + w' == a + [x] + b[1..]
  {
    a, b := g + w[..k], w[k..];
  }

  /** Appending a hop inserts a factor of its own, or weakens the factor of its cause. */
  lemma FactorsSnoc(hs: seq<Hop>, h: Hop) returns (a: seq<real>, b: seq<real>)
    ensures h.cause == "" || h.cause !in CausesOf(hs) ==>
      Factors(hs) == a + b && Factors(hs + [h]) == a + [h.p] + b
    ensures h.cause != "" && h.cause in CausesOf(hs) ==>
      && b != [] && Factors(hs) == a + [b[0]] + b[1..]
      && Factors(hs + [h]) == a + [Min(b[0], h.p)] + b[1..]
  {
    if h.cause == "" {
      FactorsSnocOwn(hs, h);
      a, b := Group(hs, ""), Weakest(hs, CausesOf(hs));
    } else if h.cause !in CausesOf(hs) {
      FactorsSnocNew(hs, h);
      a, b := Factors(hs), [];
    } else {
      a, b := FactorsSnocShared(hs, h);
    }
  }

  lemma {:induction false} SharedHasHops(hs: seq<Hop>, c: string)
    requires c in CausesOf(hs)
    ensures Group(hs, c) != []
  {
    CausesHold(hs, c);
    var k :| 0 <= k < |hs| && hs[k].cause == c;
    assert hs[k] == Hop(c, hs[k].p);
    GroupHolds(hs, c, hs[k].p);
  }

  /** Appending a hop multiplies the score by no less than the hop's probability. */
  lemma ScoreSnoc(hs: seq<Hop>, c: string, p: real, score: real)
    requires UnitHops(hs) && 0.0 <= p <= 1.0 && score == Score(hs)
    ensures score * p <= Score(hs + [Hop(c, p)])
  {
    FactorsUnit(hs);
    var s, t := Factors(hs), Factors(hs + [Hop(c, p)]);
    var a, b := FactorsSnoc(hs, Hop(c, p));
    if c != "" && c in CausesOf(hs) {
      MulWeakened(s, t, a, b[0], Min(b[0], p), b[1..], p, score);
    } else {
      MulOfInsert(s, t, a, p, b, score);
    }
  }

  lemma PsSnoc(hs: seq<Hop>, c: string, p: real, product: real)
    requires product == Mul(Ps(hs))
    ensures Mul(Ps(hs + [Hop(c, p)])) == product * p
  {
    assert Ps(hs) == Ps(hs) + [];
    MulOfInsert(Ps(hs), Ps(hs + [Hop(c, p)]), Ps(hs), p, [], product);
  }

  lemma ProductSnoc(p: real, x: real, s: real, t: real, q: real)
    requires 0.0 <= p <= s && 0.0 <= x && s * x <= t && q == p * x
    ensures 0.0 <= q <= t
  {
    TimesMonotone(p, x, s, x);
  }

  lemma ProductStep(hs: seq<Hop>, c: string, p: real)
    requires UnitHops(hs) && 0.0 <= p <= 1.0
    requires 0.0 <= Mul(Ps(hs)) <= Score(hs)
    ensures 0.0 <= Mul(Ps(hs + [Hop(c, p)])) <= Score(hs + [Hop(c, p)])
  {
    var score, product := Score(hs), Mul(Ps(hs));
    ScoreSnoc(hs, c, p, score);
    PsSnoc(hs, c, p, product);
    ProductSnoc(product, p, score, Score(hs + [Hop(c, p)]), Mul(Ps(hs + [Hop(c, p)])));
  }

  /** The score is never below the plain product of the hops, the search's own measure. */
  lemma {:induction false} ProductAtMostScore(hs: seq<Hop>)
    requires UnitHops(hs)
    ensures 0.0 <= Mul(Ps(hs)) <= Score(hs)
    decreases |hs|
  {
    if hs == [] {
      assert Factors(hs) == [];
    } else {
      var init, h := hs[..|hs| - 1], hs[|hs| - 1];
      assert hs == init + [Hop(h.cause, h.p)];
      ProductAtMostScore(init);
      ProductStep(init, h.cause, h.p);
    }
  }
}
