/** Runs of a transition system.

    A system is a partial step function: `next(s, step)` is `None` when `step` cannot be taken in `s`.
    A run is a list of steps, which is one interleaving of everything the system consists of. */
module Runs {
  import opened Wrappers

  function After<S, T>(next: (S, T) -> Option<S>, s: S, steps: seq<T>): Option<S> {
    if steps == [] then
      Some(s)
    else
      match After(next, s, steps[..|steps| - 1])
      case None => None
      case Some(t) => next(t, steps[|steps| - 1])
  }

  ghost predicate Inductive<S(!new), T(!new)>(next: (S, T) -> Option<S>, inv: S -> bool) {
    forall s, step :: inv(s) && next(s, step).Some? ==> inv(next(s, step).value)
  }

  /** What the initial state satisfies and every step keeps, every run satisfies. */
  lemma {:induction false} RunKeeps<S(!new), T(!new)>(
    next: (S, T) -> Option<S>, inv: S -> bool, s: S, steps: seq<T>)
    requires Inductive(next, inv)
    requires inv(s)
    ensures After(next, s, steps).Some? ==> inv(After(next, s, steps).value)
  {
    if steps != [] {
      RunKeeps(next, inv, s, steps[..|steps| - 1]);
    }
  }

  /** The same, when only some steps keep it and a run has no others. */
  lemma {:induction false} AllowedRunKeeps<S(!new), T(!new)>(
    next: (S, T) -> Option<S>, inv: S -> bool, allowed: T -> bool, s: S, steps: seq<T>)
    requires forall t, step :: inv(t) && allowed(step) && next(t, step).Some? ==> inv(next(t, step).value)
    requires inv(s) && forall i :: 0 <= i < |steps| ==> allowed(steps[i])
    ensures After(next, s, steps).Some? ==> inv(After(next, s, steps).value)
  {
    if steps != [] {
      AllowedRunKeeps(next, inv, allowed, s, steps[..|steps| - 1]);
    }
  }

  /** A run can be extended by one step. */
  lemma Extend<S, T>(next: (S, T) -> Option<S>, s: S, steps: seq<T>, step: T)
    requires After(next, s, steps).Some?
    ensures After(next, s, steps + [step]) == next(After(next, s, steps).value, step)
  {
    assert (steps + [step])[..|steps + [step]| - 1] == steps;
  }

  lemma Three<S, T>(next: (S, T) -> Option<S>, s: S, a: T, s1: S, b: T, s2: S, c: T, s3: S)
    requires next(s, a) == Some(s1) && next(s1, b) == Some(s2) && next(s2, c) == Some(s3)
    ensures After(next, s, [a, b, c]) == Some(s3)
  {
    Extend(next, s, [], a);
    assert [] + [a] == [a];
    Extend(next, s, [a], b);
    assert [a] + [b] == [a, b];
    Extend(next, s, [a, b], c);
    assert [a, b] + [c] == [a, b, c];
  }

  /** A run followed by a run is a run. */
  lemma {:induction false} Concat<S, T>(next: (S, T) -> Option<S>, s: S, steps: seq<T>, later: seq<T>)
    requires After(next, s, steps).Some?
    ensures After(next, s, steps + later) == After(next, After(next, s, steps).value, later)
    decreases |later|
  {
    if later == [] {
      assert steps + later == steps;
    } else {
      Concat(next, s, steps, later[..|later| - 1]);
      assert (steps + later)[..|steps + later| - 1] == steps + later[..|later| - 1];
    }
  }

  /** A step followed by a run is a run. */
  lemma {:induction false} Prepend<S, T>(next: (S, T) -> Option<S>, s: S, step: T, later: seq<T>)
    requires next(s, step).Some?
    ensures After(next, s, [step] + later) == After(next, next(s, step).value, later)
    decreases |later|
  {
    var steps := [step] + later;
    if later == [] {
      assert steps[..|steps| - 1] == [];
    } else {
      Prepend(next, s, step, later[..|later| - 1]);
      assert steps[..|steps| - 1] == [step] + later[..|later| - 1];
    }
  }
}
