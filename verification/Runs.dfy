/** Executions of a transition system, and the number of threads with a property.  Shared by the concurrency modules. */
module Runs {

  /** Any finite execution: each state follows from the one before by one step. */
  ghost predicate IsRun<S(!new)>(step: (S, S) -> bool, run: seq<S>) {
    |run| > 0 && forall i :: 0 < i < |run| ==> step(run[i - 1], run[i])
  }

  lemma {:induction false} RunKeeps<S(!new)>(step: (S, S) -> bool, inv: S -> bool, run: seq<S>, i: nat)
    requires IsRun(step, run) && inv(run[0]) && i < |run|
    requires forall s, s' :: inv(s) && step(s, s') ==> inv(s')
    ensures inv(run[i])
  {
    if i > 0 {
      RunKeeps(step, inv, run, i - 1);
      assert step(run[i - 1], run[i]);
    }
  }

  lemma RunPrepend<S(!new)>(step: (S, S) -> bool, s: S, run: seq<S>)
    requires IsRun(step, run) && step(s, run[0])
    ensures IsRun(step, [s] + run)
  {
    var r := [s] + run;
    forall i | 0 < i < |r| ensures step(r[i - 1], r[i]) {
      assert i > 1 ==> step(run[i - 2], run[i - 1]);
    }
  }

  /** How many threads a property holds of, given it for each thread. */
  function Tally(flags: seq<bool>): nat { multiset(flags)[true] }

  /** Changing one thread changes a tally by at most one. */
  lemma TallyMove(flags: seq<bool>, t: nat, b: bool)
    requires t < |flags|
    ensures Tally(flags[t := b]) + (if flags[t] then 1 else 0) == Tally(flags) + (if b then 1 else 0)
    ensures flags[t] ==> Tally(flags) > 0
  {
  }

  lemma TallyBound(flags: seq<bool>)
    ensures Tally(flags) <= |flags|
  {
    assert |multiset(flags)| == |flags|;
    var rest := multiset(flags)[true := 0];
    assert |multiset(flags)| == |rest| + Tally(flags);
  }

  /** Who holds a mutex that the layers above it treat as atomic. */
  datatype Holder = Nobody | Thread(t: nat)
}
