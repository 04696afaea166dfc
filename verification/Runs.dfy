/** Runs of a machine whose step is a partial function: enabled where it is defined. */
module Runs {

  ghost predicate IsRun<S, A>(step: (S, A) --> S, s: S, actions: seq<A>)
    decreases |actions|
  {
    actions == [] || (step.requires(s, actions[0]) && IsRun(step, step(s, actions[0]), actions[1..]))
  }

  ghost function EndOf<S, A>(step: (S, A) --> S, s: S, actions: seq<A>): S
    requires IsRun(step, s, actions)
    decreases |actions|
  {
    if actions == [] then s else EndOf(step, step(s, actions[0]), actions[1..])
  }

  /** What every step keeps, every run keeps. */
  lemma {:induction false} InvariantHolds<S(!new), A(!new)>(
    step: (S, A) --> S, inv: S -> bool, s: S, actions: seq<A>)
    requires forall t, a :: inv(t) && step.requires(t, a) ==> inv(step(t, a))
    requires inv(s) && IsRun(step, s, actions)
    ensures inv(EndOf(step, s, actions))
    decreases |actions|
  {
    if actions != [] {
      InvariantHolds(step, inv, step(s, actions[0]), actions[1..]);
    }
  }
}
