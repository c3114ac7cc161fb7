/**
 Lists without repetition, and runs of a state machine.
 */
module Sequences {
  predicate Distinct<T(==)>(s: seq<T>) {
    forall i, j :: 0 <= i < j < |s| ==> s[i] != s[j]
  }

  /** The state after the first `n` steps. */
  function Run<S, A>(next: (S, A) -> S, s: S, steps: seq<A>, n: nat): (r: S)
    requires n <= |steps|
  {
    if n == 0 then s else next(Run(next, s, steps, n - 1), steps[n - 1])
  }

  ghost predicate StableAt<S, A>(next: (S, A) -> S, inv: S -> bool, s: S, a: A) {
    inv(s) ==> inv(next(s, a))
  }

  /** An invariant that every step keeps holds along every run. */
  lemma {:induction false} RunKeeps<S(!new), A(!new)>(next: (S, A) -> S, inv: S -> bool, s: S, steps: seq<A>, n: nat)
    requires n <= |steps| && inv(s) && forall x, a :: StableAt(next, inv, x, a)
    ensures inv(Run(next, s, steps, n))
  {
    if n > 0 {
      RunKeeps(next, inv, s, steps, n - 1);
      assert StableAt(next, inv, Run(next, s, steps, n - 1), steps[n - 1]);
    }
  }
}
