// Runs of a step system: sequences of events, each taken only where it is
// enabled, and what every run keeps.

module Runs {
  import opened Prelude

  /** A run: None when some event was not enabled. */
  ghost function Exec<S, E>(step: (S, E) -> Option<S>, s: S, es: seq<E>): Option<S>
    decreases |es|
  {
    if es == [] then Some(s)
    else match step(s, es[0])
      case None => None
      case Some(t) => Exec(step, t, es[1..])
  }

  lemma {:induction false} ExecSnoc<S, E>(step: (S, E) -> Option<S>, s: S, es: seq<E>, t: S, e: E)
    requires Exec(step, s, es) == Some(t)
    ensures Exec(step, s, es + [e]) == step(t, e)
    decreases |es|
  {
    if es == [] {
      assert es + [e] == [e] && [e][1..] == [];
    } else {
      assert (es + [e])[1..] == es[1..] + [e];
      ExecSnoc(step, step(s, es[0]).value, es[1..], t, e);
    }
  }

  lemma {:induction false} ExecJoin<S, E>(step: (S, E) -> Option<S>, s: S, es: seq<E>, t: S, fs: seq<E>)
    requires Exec(step, s, es) == Some(t)
    ensures Exec(step, s, es + fs) == Exec(step, t, fs)
    decreases |es|
  {
    if es == [] {
      assert es + fs == fs;
    } else {
      assert (es + fs)[1..] == es[1..] + fs;
      ExecJoin(step, step(s, es[0]).value, es[1..], t, fs);
    }
  }

  ghost predicate Reaches<S, E(!new)>(step: (S, E) -> Option<S>, s: S, t: S) {
    exists es :: Exec(step, s, es) == Some(t)
  }

  lemma ReachesItself<S, E(!new)>(step: (S, E) -> Option<S>, s: S)
    ensures Reaches(step, s, s)
  {
    assert Exec(step, s, []) == Some(s);
  }

  lemma ReachesStep<S, E(!new)>(step: (S, E) -> Option<S>, s: S, t: S, e: E)
    requires Reaches(step, s, t) && step(t, e).Some?
    ensures Reaches(step, s, step(t, e).value)
  {
    var es :| Exec(step, s, es) == Some(t);
    ExecSnoc(step, s, es, t, e);
  }

  ghost predicate Keeps<S(!new), E(!new)>(step: (S, E) -> Option<S>, inv: S -> bool) {
    forall s: S, e: E :: inv(s) && step(s, e).Some? ==> inv(step(s, e).value)
  }

  /** What every enabled event keeps, every run keeps. */
  lemma {:induction false} Always<S(!new), E(!new)>(step: (S, E) -> Option<S>, inv: S -> bool, s: S, es: seq<E>)
    requires Keeps(step, inv) && inv(s)
    ensures Exec(step, s, es).Some? ==> inv(Exec(step, s, es).value)
    decreases |es|
  {
    if es != [] && step(s, es[0]).Some? {
      Always(step, inv, step(s, es[0]).value, es[1..]);
    }
  }

  lemma ReachesKeeps<S(!new), E(!new)>(step: (S, E) -> Option<S>, inv: S -> bool, s: S, t: S)
    requires Keeps(step, inv) && inv(s) && Reaches(step, s, t)
    ensures inv(t)
  {
    var es :| Exec(step, s, es) == Some(t);
    Always(step, inv, s, es);
  }
}
