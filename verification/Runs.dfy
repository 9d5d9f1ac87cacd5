/** Runs of a transition system, and what holds in every state of one. */
module Runs {

  /** Consecutive states of a system, from an initial one on. */
  ghost predicate Run<S(!new)>(states: seq<S>, init: S -> bool, next: (S, S) -> bool) {
    && states != [] && init(states[0])
    && forall k: nat :: 0 < k < |states| ==> Enters(states, next, k)
  }

  ghost predicate Enters<S(!new)>(states: seq<S>, next: (S, S) -> bool, k: nat)
    requires 0 < k < |states|
  {
    next(states[k - 1], states[k])
  }

  /** What holds at the start and survives every step holds throughout. */
  lemma {:induction false} Throughout<S(!new)>(
      states: seq<S>, init: S -> bool, next: (S, S) -> bool, inv: S -> bool, k: nat)
    requires Run(states, init, next) && k < |states|
    requires forall s :: init(s) ==> inv(s)
    requires forall s, t :: inv(s) && next(s, t) ==> inv(t)
    ensures inv(states[k])
    decreases k
  {
    if k > 0 {
      Throughout(states, init, next, inv, k - 1);
      assert Enters(states, next, k);
    }
  }

  /** What an invariant step never takes back holds from some state on. */
  lemma {:induction false} FromThenOn<S(!new)>(
      states: seq<S>, init: S -> bool, next: (S, S) -> bool, inv: S -> bool, stays: S -> bool, k: nat, m: nat)
    requires Run(states, init, next) && k <= m < |states| && stays(states[k])
    requires forall s :: init(s) ==> inv(s)
    requires forall s, t :: inv(s) && next(s, t) ==> inv(t)
    requires forall s, t :: inv(s) && stays(s) && next(s, t) ==> stays(t)
    ensures stays(states[m])
    decreases m
  {
    if k < m {
      FromThenOn(states, init, next, inv, stays, k, m - 1);
      Throughout(states, init, next, inv, m - 1);
      assert Enters(states, next, m);
    }
  }
}
