// Loops that move a cursor over a buffer, and when they end. The cursor may be
// moved backwards, so a loop need not end; a decoder's outcome says so.

module Cursor {
  import opened Prelude
  import opened Varint

  /** One iteration: on to another offset, or out of the loop with a result or an exception. */
  datatype Turn<+S> = Next(at: int, state: S) | Stop(result: Result<S>)

  datatype Outcome<+S> = Ended(result: Result<S>) | Loops

  /** `while (at < len) step`, for at most `fuel` iterations. */
  function Run<S>(len: nat, step: (int, S) -> Turn<S>, at: int, s: S, fuel: nat): Outcome<S>
    decreases fuel
  {
    if at >= len then Ended(Ok(s))
    else if fuel == 0 then Loops
    else match step(at, s)
      case Stop(r) => Ended(r)
      case Next(next, s') => Run(len, step, next, s', fuel - 1)
  }

  /** The loop itself. By RunsOut, an iteration more than there are offsets decides it. */
  function Loop<S>(len: nat, step: (int, S) -> Turn<S>, at: int, s: S): Outcome<S> {
    Run(len, step, at, s, len + 1)
  }

  // ----- where the cursor goes -----

  /** The next offset from each offset of the buffer; None ends the loop there. */
  type Jumps = seq<Option<int>>

  predicate Inside(jumps: Jumps, at: int) {
    0 <= at < |jumps| && jumps[at].Some?
  }

  /** The offset after n iterations, if the loop gets that far. */
  function Visit(jumps: Jumps, at: int, n: nat): Option<int>
    decreases n
  {
    if n == 0 then Some(at)
    else if Inside(jumps, at) then Visit(jumps, jumps[at].value, n - 1)
    else None
  }

  ghost predicate Endless(jumps: Jumps, at: int) {
    forall n: nat :: Visit(jumps, at, n).Some?
  }

  /** Every offset the loop can go on from leads further on. */
  ghost predicate Forward(jumps: Jumps) {
    forall at | Inside(jumps, at) :: jumps[at].value > at
  }

  lemma {:induction false} VisitSplit(jumps: Jumps, at: int, i: nat, n: nat)
    requires Visit(jumps, at, i).Some?
    ensures Visit(jumps, at, i + n) == Visit(jumps, Visit(jumps, at, i).value, n)
    decreases i
  {
    if i > 0 {
      VisitSplit(jumps, jumps[at].value, i - 1, n);
    }
  }

  lemma {:induction false} VisitEarlier(jumps: Jumps, at: int, i: nat, n: nat)
    requires Visit(jumps, at, n).Some? && i <= n
    ensures Visit(jumps, at, i).Some? && (i < n ==> Inside(jumps, Visit(jumps, at, i).value))
    decreases i
  {
    if i > 0 {
      VisitEarlier(jumps, jumps[at].value, i - 1, n - 1);
    }
  }

  /** A cursor that comes back once comes back for ever. */
  lemma {:induction false} Period(jumps: Jumps, at: int, p: nat, n: nat)
    requires p > 0 && Visit(jumps, at, p) == Some(at)
    ensures Visit(jumps, at, n).Some?
  {
    if n <= p {
      VisitEarlier(jumps, at, n, p);
    } else {
      Period(jumps, at, p, n - p);
      VisitSplit(jumps, at, p, n - p);
    }
  }

  lemma RevisitEndless(jumps: Jumps, at: int, i: nat, j: nat)
    requires i < j && Visit(jumps, at, i).Some? && Visit(jumps, at, j) == Visit(jumps, at, i)
    ensures Endless(jumps, at)
  {
    var o := Visit(jumps, at, i).value;
    VisitSplit(jumps, at, i, j - i);
    forall n: nat ensures Visit(jumps, at, n).Some? {
      if n <= i {
        VisitEarlier(jumps, at, n, i);
      } else {
        Period(jumps, o, j - i, n - i);
        VisitSplit(jumps, at, i, n - i);
      }
    }
  }

  function Below(n: nat): (r: set<int>)
    ensures |r| == n && forall k :: k in r <==> 0 <= k < n
  {
    if n == 0 then {} else Below(n - 1) + {n - 1}
  }

  function Elements(xs: seq<int>): set<int> {
    set x <- xs
  }

  lemma {:induction false} DistinctSize(xs: seq<int>)
    requires Distinct(xs)
    ensures |Elements(xs)| == |xs|
  {
    if xs != [] {
      var n := |xs| - 1;
      DistinctSize(xs[..n]);
      assert xs == xs[..n] + [xs[n]];
      assert Elements(xs) == Elements(xs[..n]) + {xs[n]};
    }
  }

  lemma SubsetSize(a: set<int>, b: set<int>)
    requires a <= b
    ensures |a| <= |b|
  {
    assert b == a + (b - a);
  }

  /** More offsets than the buffer has cannot all differ. */
  lemma Pigeonhole(xs: seq<int>, n: nat)
    requires |xs| > n && forall x <- xs :: 0 <= x < n
    ensures !Distinct(xs)
  {
    if Distinct(xs) {
      DistinctSize(xs);
      SubsetSize(Elements(xs), Below(n));
    }
  }

  /** A loop never ends if and only if its cursor comes back to an offset, and that shows within one
      iteration more than there are offsets. */
  lemma EndlessExact(jumps: Jumps, at: int)
    ensures Endless(jumps, at) <==> Visit(jumps, at, |jumps| + 1).Some?
    ensures Endless(jumps, at) <==>
      exists i: nat, j: nat :: i < j && Visit(jumps, at, i).Some? && Visit(jumps, at, j) == Visit(jumps, at, i)
  {
    var n := |jumps| + 1;
    if Visit(jumps, at, n).Some? {
      forall i | 0 <= i < n ensures Visit(jumps, at, i).Some? && Inside(jumps, Visit(jumps, at, i).value) {
        VisitEarlier(jumps, at, i, n);
      }
      var xs := seq(n, i requires 0 <= i < n => Visit(jumps, at, i).value);
      Pigeonhole(xs, |jumps|);
      var i, j :| 0 <= i < j < n && xs[i] == xs[j];
      RevisitEndless(jumps, at, i, j);
    }
    if i: nat, j: nat :| i < j && Visit(jumps, at, i).Some? && Visit(jumps, at, j) == Visit(jumps, at, i) {
      RevisitEndless(jumps, at, i, j);
    }
  }

  lemma {:induction false} ForwardBound(jumps: Jumps, at: int, n: nat)
    requires Forward(jumps)
    ensures Visit(jumps, at, n).Some? ==> Visit(jumps, at, n).value >= at + n
    ensures Visit(jumps, at, n).Some? && n > 0 ==> at >= 0
    decreases n
  {
    if n > 0 && Inside(jumps, at) {
      ForwardBound(jumps, jumps[at].value, n - 1);
    }
  }

  /** A cursor that only moves forward reaches the end. */
  lemma ForwardEnds(jumps: Jumps, at: int)
    requires Forward(jumps)
    ensures !Endless(jumps, at)
  {
    var n := |jumps| + 1;
    if Visit(jumps, at, n).Some? {
      ForwardBound(jumps, at, |jumps|);
      ForwardBound(jumps, at, n);
      VisitEarlier(jumps, at, |jumps|, n);
    }
  }

  // ----- the loop -----

  /** Where the step goes does not depend on what has been decoded. */
  ghost predicate Follows<S(!new)>(jumps: Jumps, step: (int, S) -> Turn<S>) {
    forall at, s: S | at < |jumps| :: Goes(jumps, at, step(at, s))
  }

  predicate Goes<S>(jumps: Jumps, at: int, turn: Turn<S>)
    requires at < |jumps|
  {
    if Inside(jumps, at) then turn.Next? && turn.at == jumps[at].value else turn.Stop?
  }

  lemma {:induction false} RunVisits<S(!new)>(jumps: Jumps, step: (int, S) -> Turn<S>, at: int, s: S, fuel: nat)
    requires Follows(jumps, step)
    ensures Run(|jumps|, step, at, s, fuel).Loops?
      <==> Visit(jumps, at, fuel).Some? && Visit(jumps, at, fuel).value < |jumps|
    decreases fuel
  {
    if at < |jumps| && fuel > 0 {
      assert Goes(jumps, at, step(at, s));
      if Inside(jumps, at) {
        RunVisits(jumps, step, jumps[at].value, step(at, s).state, fuel - 1);
      }
    }
  }

  /** The loop is endless exactly when its cursor is; no number of iterations ends it then. */
  lemma RunsOut<S(!new)>(jumps: Jumps, step: (int, S) -> Turn<S>, at: int, s: S)
    requires Follows(jumps, step)
    ensures Loop(|jumps|, step, at, s).Loops? <==> Endless(jumps, at)
    ensures Loop(|jumps|, step, at, s).Loops? <==> forall fuel: nat :: Run(|jumps|, step, at, s, fuel).Loops?
  {
    var n := |jumps| + 1;
    RunVisits(jumps, step, at, s, n);
    EndlessExact(jumps, at);
    if Endless(jumps, at) {
      forall fuel: nat ensures Run(|jumps|, step, at, s, fuel).Loops? {
        VisitEarlier(jumps, at, fuel, fuel + 1);
        RunVisits(jumps, step, at, s, fuel);
      }
    }
  }

  lemma {:induction false} MoreFuel<S>(len: nat, step: (int, S) -> Turn<S>, at: int, s: S, fuel: nat, more: nat)
    requires fuel <= more && !Run(len, step, at, s, fuel).Loops?
    ensures Run(len, step, at, s, more) == Run(len, step, at, s, fuel)
    decreases fuel
  {
    if at < len {
      match step(at, s) {
        case Stop(_) =>
        case Next(next, s') => MoreFuel(len, step, next, s', fuel - 1, more - 1);
      }
    }
  }

  /** One iteration of the loop. */
  lemma LoopStep<S(!new)>(jumps: Jumps, step: (int, S) -> Turn<S>, at: int, s: S)
    requires Follows(jumps, step) && at < |jumps|
    ensures Loop(|jumps|, step, at, s) == match step(at, s) {
      case Stop(r) => Ended(r)
      case Next(next, s') => Loop(|jumps|, step, next, s') }
  {
    var n := |jumps|;
    var turn := step(at, s);
    if turn.Next? {
      RunsOut(jumps, step, at, s);
      if Run(n, step, turn.at, turn.state, n).Loops? {
        assert Run(n, step, at, s, n + 2).Loops?;
      } else {
        MoreFuel(n, step, turn.at, turn.state, n, n + 1);
      }
    }
  }

  /** A step that changes nothing is taken for ever. */
  lemma {:induction false} Stuck<S>(len: nat, step: (int, S) -> Turn<S>, at: int, s: S, fuel: nat)
    requires at < len && step(at, s) == Next(at, s)
    ensures Run(len, step, at, s, fuel).Loops?
    decreases fuel
  {
    if fuel > 0 {
      Stuck(len, step, at, s, fuel - 1);
    }
  }
}
