/** A root search on a bracket: Newton's step where it stays inside, bisection where it does
    not. Nothing here depends on what the equation is. */
module Newton {

  const RESIDUAL: real := 0.0000000000001
  const WIDTH: real := 0.000000000000001
  const LAST: nat := 60

  /** A value to bring to zero; whether it falls at a point, and where Newton's step from there
      leads. */
  datatype Equation = Equation(excess: real -> real, falls: real -> bool, newton: real -> real)

  datatype Iterate = Iterate(lo: real, hi: real, x: real)

  predicate Usable(s: Iterate) {
    0.0 < s.lo <= s.x <= s.hi
  }

  /** The bracket holds the iterate, and the excess changes sign over it. */
  predicate Bracketing(eq: Equation, s: Iterate) {
    Usable(s) && eq.excess(s.lo) >= 0.0 >= eq.excess(s.hi)
  }

  function Abs(x: real): real {
    if x < 0.0 then -x else x
  }

  /** A Newton step that would leave the bracket, or has no slope to follow, bisects. */
  function Next(falls: bool, newton: real, lo: real, hi: real): (next: real)
    requires lo <= hi
    ensures lo <= next <= hi
  {
    if falls && lo < newton < hi then newton else (lo + hi) / 2.0
  }

  /** The bracket narrowed to the side the root lies on, and the next iterate. */
  function Step(eq: Equation, s: Iterate): (t: Iterate)
    requires Usable(s)
    ensures Usable(t) && s.lo <= t.lo && t.hi <= s.hi
  {
    var f := eq.excess(s.x);
    var lo, hi := if f > 0.0 then s.x else s.lo, if f > 0.0 then s.hi else s.x;
    Iterate(lo, hi, Next(eq.falls(s.x), eq.newton(s.x), lo, hi))
  }

  predicate Stops(eq: Equation, s: Iterate, i: nat) {
    Abs(eq.excess(s.x)) < RESIDUAL || s.hi - s.lo <= WIDTH * s.hi || i >= LAST
  }

  /** The search from the iterate `s`, having evaluated `i` times before. */
  function Search(eq: Equation, s: Iterate, i: nat): (x: real)
    requires Usable(s)
    ensures s.lo <= x <= s.hi
    decreases LAST - i
  {
    if Stops(eq, s, i) then s.x
    else
      var t := Step(eq, s);
      if t.x == s.x then s.x else Search(eq, t, i + 1)
  }

  /** The search goes on from `r`, its `i`-th iterate, to `s`. */
  ghost predicate Continues(eq: Equation, r: Iterate, i: nat, s: Iterate) {
    Usable(r) && !Stops(eq, r, i) && s == Step(eq, r) && s.x != r.x
  }

  /** `s` is the `i`-th iterate of the search from `begun`. */
  ghost predicate IsIterate(eq: Equation, begun: Iterate, s: Iterate, i: nat)
    decreases i
  {
    if i == 0 then s == begun
    else
      var k := i - 1;
      exists r :: IsIterate(eq, begun, r, k) && Continues(eq, r, k, s)
  }

  /** Every step keeps the sign change inside the bracket. */
  lemma StepKeeps(eq: Equation, s: Iterate)
    requires Bracketing(eq, s)
    ensures Bracketing(eq, Step(eq, s))
  {
  }

  lemma StepNarrows(eq: Equation, r: Iterate, i: nat, s: Iterate)
    requires Bracketing(eq, r) && Continues(eq, r, i, s)
    ensures Bracketing(eq, s) && r.lo <= s.lo && s.hi <= r.hi && i < LAST
  {
    StepKeeps(eq, r);
  }

  /** Every iterate lies inside the initial bracket, and the excess changes sign over its own. */
  lemma {:induction false} IteratesBracket(eq: Equation, begun: Iterate, s: Iterate, i: nat)
    requires Bracketing(eq, begun) && IsIterate(eq, begun, s, i)
    ensures Bracketing(eq, s) && begun.lo <= s.lo && s.hi <= begun.hi && i <= LAST
    decreases i
  {
    if i > 0 {
      var r :| IsIterate(eq, begun, r, i - 1) && Continues(eq, r, i - 1, s);
      IteratesBracket(eq, begun, r, i - 1);
      StepNarrows(eq, r, i - 1, s);
    }
  }

  /** One turn of the search. */
  lemma SearchTurns(eq: Equation, s: Iterate, i: nat)
    requires Usable(s)
    ensures if Stops(eq, s, i) || Step(eq, s).x == s.x then Search(eq, s, i) == s.x
      else i < LAST && Search(eq, s, i) == Search(eq, Step(eq, s), i + 1)
  {
  }

  /** From every iterate the search goes on to the same end. */
  lemma {:induction false} IteratesEnd(eq: Equation, begun: Iterate, s: Iterate, i: nat)
    requires Usable(begun) && IsIterate(eq, begun, s, i)
    ensures Usable(s) && Search(eq, s, i) == Search(eq, begun, 0)
    decreases i
  {
    if i > 0 {
      var r :| IsIterate(eq, begun, r, i - 1) && Continues(eq, r, i - 1, s);
      IteratesEnd(eq, begun, r, i - 1);
    }
  }

  /** The search ends at its `i`-th iterate `s`. */
  ghost predicate Ends(eq: Equation, s: Iterate, i: nat) {
    Usable(s) && (Stops(eq, s, i) || Step(eq, s).x == s.x)
  }

  /** The iterate it ends at is what it finds, at the 61st evaluation at the latest. */
  lemma {:induction false} EndIsFound(eq: Equation, begun: Iterate, s: Iterate, i: nat)
    requires Bracketing(eq, begun) && IsIterate(eq, begun, s, i) && Ends(eq, s, i)
    ensures s.x == Search(eq, begun, 0) && i <= LAST
  {
    IteratesBracket(eq, begun, s, i);
    IteratesEnd(eq, begun, s, i);
  }

  // ── What the search finds solves the equation ──────────────────────

  /** How many times the search from `s` evaluates the equation. */
  ghost function Evaluations(eq: Equation, s: Iterate, i: nat): nat
    requires Usable(s)
    decreases LAST - i
  {
    if Stops(eq, s, i) || Step(eq, s).x == s.x then 1 else 1 + Evaluations(eq, Step(eq, s), i + 1)
  }

  /** A root lies between `lo` and `hi`, hardly apart, and so does `x`. */
  ghost predicate Pinched(eq: Equation, lo: real, x: real, hi: real) {
    0.0 < lo <= x <= hi && hi - lo <= 0.000000000000001 * hi && eq.excess(lo) >= 0.0 >= eq.excess(hi)
  }

  /** The equation holds at `x` but for a residual, or all but at the root. */
  ghost predicate SolvedAt(eq: Equation, x: real) {
    -0.0000000000001 < eq.excess(x) < 0.0000000000001 || exists lo, hi :: Pinched(eq, lo, x, hi)
  }

  /** The search never stalls: while the excess has a sign, the next point lies to its side. */
  lemma NeverStalls(eq: Equation, s: Iterate, i: nat)
    requires Bracketing(eq, s) && !Stops(eq, s, i)
    ensures Step(eq, s).x != s.x
  {
  }

  /** A search evaluates the equation at most 61 times, and when it ends sooner it has solved it. */
  lemma {:induction false} SearchSolves(eq: Equation, s: Iterate, i: nat)
    requires Bracketing(eq, s) && i <= 60
    ensures i + Evaluations(eq, s, i) <= 61
    ensures i + Evaluations(eq, s, i) < 61 ==> SolvedAt(eq, Search(eq, s, i))
    decreases 60 - i
  {
    if Stops(eq, s, i) {
      if i < 60 {
        StopsSolved(eq, s, i);
      }
    } else {
      NeverStalls(eq, s, i);
      StepKeeps(eq, s);
      SearchSolves(eq, Step(eq, s), i + 1);
    }
  }

  lemma StopsSolved(eq: Equation, s: Iterate, i: nat)
    requires Bracketing(eq, s) && Stops(eq, s, i) && i < 60
    ensures SolvedAt(eq, s.x)
  {
    if s.hi - s.lo <= WIDTH * s.hi {
      assert Pinched(eq, s.lo, s.x, s.hi);
    }
  }

  /** The geometric middle of a bracket, of which only its place inside is used. */
  ghost predicate IsMiddle(mid: (real, real) -> real) {
    forall lo, hi :: 0.0 < lo <= hi ==> lo <= mid(lo, hi) <= hi
  }

  /** Where the search starts: at the hint when it lies inside the bracket, else at its
      geometric middle; at the bracket's end when there is nothing to solve. */
  function BeginIn(lo: real, hi: real, hint: real, mid: (real, real) -> real): Iterate {
    var hinted := if lo < hint < hi then hint else mid(lo, hi);
    Iterate(lo, hi, if hi - lo <= WIDTH * hi then lo else hinted)
  }

  /** A bracket that is narrow already is answered by its lower end, at once. */
  lemma {:induction false} NarrowIsAnswered(eq: Equation, lo: real, hi: real, hint: real, mid: (real, real) -> real)
    requires 0.0 < lo <= hi && hi - lo <= 0.000000000000001 * hi
    ensures var begun := BeginIn(lo, hi, hint, mid);
      Usable(begun) && Search(eq, begun, 0) == lo && Evaluations(eq, begun, 0) == 1
  {
  }

  /** A hint that solves the equation is kept, after one evaluation. */
  lemma {:induction false} GoodHintIsKept(eq: Equation, lo: real, hi: real, hint: real, mid: (real, real) -> real)
    requires 0.0 < lo < hint < hi && hi - lo > 0.000000000000001 * hi && -0.0000000000001 < eq.excess(hint) < 0.0000000000001
    ensures var begun := BeginIn(lo, hi, hint, mid);
      Usable(begun) && Search(eq, begun, 0) == hint && Evaluations(eq, begun, 0) == 1
  {
  }

  lemma BeginsInside(lo: real, hi: real, hint: real, mid: (real, real) -> real)
    requires 0.0 < lo <= hi && IsMiddle(mid)
    ensures lo <= BeginIn(lo, hi, hint, mid).x <= hi
  {
  }
}
