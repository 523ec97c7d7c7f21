/** The recursive mutex of kernel/mutex.c, with the wait of runtime/c11-threads.c
    (__cnd_timedwait) that gives it up and takes it back.  `thread_tag` is read
    without the inner lock, so every statement is a step of its own.

    A client unlocks and waits only while it is inside, and nests fewer than 2^32
    calls, as `counter` is a u32. */
module RecursiveMutex {
  import opened Runs

  const U32_RANGE := 0x1_0000_0000

  datatype Pc =
    | Client
    | LkTest(blocking: bool)     // if (m->thread_tag != _GetTag())
    | LkInner(blocking: bool)    // mutexLock or mutexTryLock on the inner lock
    | LkTag                      // m->thread_tag = _GetTag()
    | LkCount                    // m->counter++
    | UnCount                    // if (--m->counter == 0)
    | UnTag                      // m->thread_tag = 0
    | UnInner                    // mutexUnlock on the inner lock
    | CwTest                     // if (mtx->rmutex.counter != 1) return thrd_error
    | CwSave                     // thread_tag_backup = thread_tag; thread_tag = 0
    | CwZero(backup: nat)        // counter = 0
    | CwWait(backup: nat)        // condvarWaitTimeout: give up the inner lock and sleep
    | CwAsleep(backup: nat)
    | CwRelock(backup: nat)      // signalled or timed out: the inner lock is taken again
    | CwTagBack(backup: nat)     // thread_tag = thread_tag_backup
    | CwCountBack                // counter = 1

  /** `inner` holds the inner lock, a thread's tag is its number plus one, and depth
      is a proof variable: each thread's nested calls that have returned. */
  datatype State = State(inner: Holder, tag: nat, counter: nat, pc: seq<Pc>, depth: seq<nat>)

  function Tag(t: nat): nat { t + 1 }

  /** rmutexInit */
  ghost predicate Init(s: State) {
    && s.inner == Nobody && s.tag == 0 && s.counter == 0 && |s.pc| == |s.depth|
    && forall t :: 0 <= t < |s.pc| ==> s.pc[t] == Client && s.depth[t] == 0
  }

  function Effect(s: State, t: nat, p: Pc): State
    requires t < |s.depth|
  {
    match p
    case LkInner(_) => if s.inner == Nobody then s.(inner := Thread(t)) else s
    case LkTag => s.(tag := Tag(t))
    case LkCount =>
      s.(counter := if s.counter + 1 == U32_RANGE then 0 else s.counter + 1, depth := s.depth[t := s.depth[t] + 1])
    case UnCount =>
      s.(counter := if s.counter == 0 then U32_RANGE - 1 else s.counter - 1,
         depth := s.depth[t := if s.depth[t] == 0 then 0 else s.depth[t] - 1])
    case UnTag => s.(tag := 0)
    case UnInner => s.(inner := Nobody)
    case CwSave => s.(tag := 0)
    case CwZero(_) => s.(counter := 0)
    case CwWait(_) => s.(inner := Nobody)
    case CwRelock(_) => if s.inner == Nobody then s.(inner := Thread(t)) else s
    case CwTagBack(backup) => s.(tag := backup)
    case CwCountBack => s.(counter := 1)
    case _ => s
  }

  /** Where control may go from p; s is the state before the effect and e after. */
  ghost predicate Edge(s: State, e: State, t: nat, p: Pc, to: Pc)
    requires t < |s.depth|
  {
    match p
    case Client =>
      || (s.depth[t] < U32_RANGE - 1 && (to == LkTest(true) || to == LkTest(false)))
      || (s.depth[t] > 0 && (to == UnCount || to == CwTest))
    case LkTest(blocking) => to == if s.tag != Tag(t) then LkInner(blocking) else LkCount
    case LkInner(blocking) => if s.inner == Nobody then to == LkTag else !blocking && to == Client
    case LkTag => to == LkCount
    case LkCount => to == Client
    case UnCount => to == if e.counter == 0 then UnTag else Client
    case UnTag => to == UnInner
    case UnInner => to == Client
    case CwTest => to == if s.counter != 1 then Client else CwSave
    case CwSave => to == CwZero(s.tag)
    case CwZero(backup) => to == CwWait(backup)
    case CwWait(backup) => to == CwAsleep(backup)
    case CwAsleep(backup) => to == CwRelock(backup)
    case CwRelock(backup) => s.inner == Nobody && to == CwTagBack(backup)
    case CwTagBack(_) => to == CwCountBack
    case CwCountBack => to == Client
  }

  ghost predicate StepOf(s: State, s': State, t: nat, to: Pc) {
    && t < |s.pc| == |s.depth|
    && var e := Effect(s, t, s.pc[t]);
    && Edge(s, e, t, s.pc[t], to)
    && s' == e.(pc := s.pc[t := to])
  }

  ghost predicate Step(s: State, s': State) { exists t, to :: StepOf(s, s', t, to) }

  // ---------------------------------------------------------------- invariant

  /** Program points inside the inner lock, whatever the depth. */
  predicate Transit(p: Pc) {
    p.LkTag? || p.UnTag? || p.UnInner? || p.CwSave? || p.CwZero? || p.CwWait? || p.CwTagBack? || p.CwCountBack?
  }

  /** Program points that have given up the inner lock for a wait. */
  predicate Waiting(p: Pc) { p.CwAsleep? || p.CwRelock? }

  ghost predicate Owns(s: State, t: nat)
    requires t < |s.pc| == |s.depth|
  {
    Transit(s.pc[t]) || (!Waiting(s.pc[t]) && s.depth[t] > 0) || s.pc[t].LkCount?
  }

  /** Program points of the owner at which its tag is not in place. */
  predicate Untagged(p: Pc) { p.LkTag? || p.UnInner? || p.CwZero? || p.CwWait? || p.CwTagBack? }

  /** Program points of the owner at which the counter is cleared for a wait. */
  predicate Cleared(p: Pc) { p.CwWait? || p.CwTagBack? || p.CwCountBack? }

  ghost predicate LocalInv(s: State, t: nat)
    requires t < |s.pc| == |s.depth|
  {
    var p := s.pc[t];
    && (s.inner == Thread(t) <==> Owns(s, t))
    && (s.tag == Tag(t) <==> Owns(s, t) && !Untagged(p))
    && (Owns(s, t) ==> s.counter == if Cleared(p) then 0 else s.depth[t])
    && s.depth[t] < U32_RANGE
    && (p.LkTest? || p.LkInner? || p.LkCount? ==> s.depth[t] < U32_RANGE - 1)
    && (p.LkInner? || p.LkTag? || p.UnTag? || p.UnInner? ==> s.depth[t] == 0)
    && (p.UnCount? || p.CwTest? ==> s.depth[t] > 0)
    && (p.CwSave? || p.CwZero? || Waiting(p) || Cleared(p) ==> s.depth[t] == 1)
    && (p.CwZero? || p.CwWait? || Waiting(p) || p.CwTagBack? ==> p.backup == Tag(t))
  }

  ghost predicate Inv(s: State) {
    && |s.pc| == |s.depth|
    && (s.inner.Thread? ==> s.inner.t < |s.pc|)
    && (s.inner == Nobody ==> s.counter == 0)
    && s.tag <= |s.pc|
    && forall t :: 0 <= t < |s.pc| ==> LocalInv(s, t)
  }

  lemma SelfStep(s: State, s': State, t: nat, to: Pc)
    requires Inv(s) && StepOf(s, s', t, to)
    ensures LocalInv(s', t)
    ensures s'.inner == Nobody ==> s'.counter == 0
    ensures s'.tag <= |s'.pc| && (s'.inner.Thread? ==> s'.inner.t < |s'.pc|)
  {
    assert LocalInv(s, t);
  }

  lemma OtherStep(s: State, s': State, t: nat, to: Pc, u: nat)
    requires Inv(s) && StepOf(s, s', t, to) && u < |s.pc| && u != t
    ensures LocalInv(s', u)
  {
    assert LocalInv(s, t) && LocalInv(s, u);
  }

  lemma StepInv(s: State, s': State, t: nat, to: Pc)
    requires Inv(s) && StepOf(s, s', t, to)
    ensures Inv(s')
  {
    SelfStep(s, s', t, to);
    forall u | 0 <= u < |s'.pc| && u != t ensures LocalInv(s', u) {
      OtherStep(s, s', t, to, u);
    }
  }

  lemma RunInv(run: seq<State>, i: nat)
    requires IsRun(Step, run) && Init(run[0]) && i < |run|
    ensures Inv(run[i])
  {
    forall s, s' | Inv(s) && Step(s, s') ensures Inv(s') {
      var t, to :| StepOf(s, s', t, to);
      StepInv(s, s', t, to);
    }
    RunKeeps(Step, Inv, run, i);
  }

  // ---------------------------------------------------------------- theorems

  /** A non-zero tag always names the thread that holds the inner lock. */
  lemma TagNamesHolder(run: seq<State>, i: nat)
    requires IsRun(Step, run) && Init(run[0]) && i < |run|
    ensures run[i].tag != 0 ==> run[i].inner == Thread(run[i].tag - 1)
  {
    RunInv(run, i);
    if run[i].tag != 0 {
      assert LocalInv(run[i], run[i].tag - 1);
    }
  }

  /** While a thread has the inner lock, the counter is its depth, except between the
      two assignments around a wait; a nested thread has the lock unless it waits; and
      one that is back in its own code and not nested has neither lock nor tag. */
  lemma CounterIsDepth(run: seq<State>, i: nat, t: nat)
    requires IsRun(Step, run) && Init(run[0]) && i < |run| && t < |run[i].pc|
    ensures t < |run[i].depth|
    ensures run[i].inner == Thread(t) ==> run[i].counter == if Cleared(run[i].pc[t]) then 0 else run[i].depth[t]
    ensures run[i].depth[t] > 0 && !Waiting(run[i].pc[t]) ==> run[i].inner == Thread(t)
    ensures run[i].depth[t] > 0 && run[i].pc[t].Client? ==> run[i].tag == Tag(t)
    ensures run[i].depth[t] == 0 && run[i].pc[t].Client? ==> run[i].inner != Thread(t) && run[i].tag != Tag(t)
  {
    RunInv(run, i);
    assert LocalInv(run[i], t);
  }

  /** Two threads are never nested together, except one that sleeps in a wait. */
  lemma NestingExcludes(run: seq<State>, i: nat, t: nat, u: nat)
    requires IsRun(Step, run) && Init(run[0]) && i < |run|
    requires t < |run[i].pc| == |run[i].depth| && run[i].depth[t] > 0 && !Waiting(run[i].pc[t])
    requires u < |run[i].pc| && run[i].depth[u] > 0 && !Waiting(run[i].pc[u])
    ensures t == u
  {
    RunInv(run, i);
    assert LocalInv(run[i], t) && LocalInv(run[i], u);
  }

  /** The inner lock is released by rmutexUnlock exactly when it takes the depth to
      0, and otherwise only to wait at depth 1. */
  lemma ReleasedAtDepthZero(run: seq<State>, i: nat, t: nat, to: Pc)
    requires IsRun(Step, run) && Init(run[0]) && i + 1 < |run| && StepOf(run[i], run[i + 1], t, to)
    ensures run[i].inner == Thread(t) && run[i + 1].inner != Thread(t) ==>
              (to == Client && run[i + 1].depth[t] == 0) || (to.CwAsleep? && run[i + 1].depth[t] == 1)
    ensures run[i].pc[t].UnCount? ==> (to == UnTag <==> run[i + 1].depth[t] == 0)
  {
    RunInv(run, i);
    assert LocalInv(run[i], t);
  }

  /** Inside rmutexLock or rmutexTryLock. */
  predicate InLock(p: Pc) { p.LkTest? || p.LkInner? || p.LkTag? || p.LkCount? }

  /** A locking call comes back one level deeper, with the lock and its tag; or it is a
      try-lock that failed on a lock some other thread has, and then nothing has changed. */
  lemma LockReturnsDeeper(run: seq<State>, i: nat, t: nat)
    requires IsRun(Step, run) && Init(run[0]) && i + 1 < |run| && t < |run[i].pc| && InLock(run[i].pc[t])
    ensures t < |run[i + 1].pc| && |run[i].depth| == |run[i].pc| && |run[i + 1].depth| == |run[i + 1].pc|
    ensures InLock(run[i + 1].pc[t]) ==> run[i + 1].depth[t] == run[i].depth[t]
    ensures !InLock(run[i + 1].pc[t]) ==> run[i + 1].pc[t] == Client
    ensures !InLock(run[i + 1].pc[t]) && run[i + 1].depth[t] > 0 ==>
              && run[i + 1].depth[t] == run[i].depth[t] + 1 == run[i + 1].counter
              && run[i + 1].inner == Thread(t) && run[i + 1].tag == Tag(t)
    ensures !InLock(run[i + 1].pc[t]) && run[i + 1].depth[t] == 0 ==>
              && run[i].pc[t] == LkInner(false) && run[i].inner.Thread? && run[i].inner.t != t
              && run[i + 1] == run[i].(pc := run[i].pc[t := Client])
  {
    assert Step(run[i], run[i + 1]);
    var u, to :| StepOf(run[i], run[i + 1], u, to);
    RunInv(run, i);
    RunInv(run, i + 1);
    assert LocalInv(run[i], t) && LocalInv(run[i + 1], t);
  }

  /** A wait is refused, with everything left alone, unless the depth is 1. */
  lemma WaitNeedsDepthOne(run: seq<State>, i: nat, t: nat, to: Pc)
    requires IsRun(Step, run) && Init(run[0]) && i + 1 < |run| && StepOf(run[i], run[i + 1], t, to)
    requires run[i].pc[t].CwTest?
    ensures run[i + 1] == run[i].(pc := run[i].pc[t := if run[i].depth[t] == 1 then CwSave else Client])
  {
    RunInv(run, i);
    assert LocalInv(run[i], t);
  }

  /** Inside __cnd_timedwait. */
  predicate InWait(p: Pc) {
    p.CwTest? || p.CwSave? || p.CwZero? || p.CwWait? || p.CwAsleep? || p.CwRelock? || p.CwTagBack? || p.CwCountBack?
  }

  lemma WaitStepKeepsDepth(s: State, s': State, u: nat, to: Pc, t: nat)
    requires StepOf(s, s', u, to) && t < |s.pc| && InWait(s.pc[t])
    ensures |s'.pc| == |s.pc| && |s'.depth| == |s.depth| && s'.depth[t] == s.depth[t]
    ensures InWait(s'.pc[t]) || s'.pc[t].Client?
  {
  }

  lemma RunStepKeepsDepth(run: seq<State>, k: nat, t: nat)
    requires IsRun(Step, run) && 0 < k < |run| && t < |run[k - 1].pc| && InWait(run[k - 1].pc[t])
    ensures t < |run[k].pc| == |run[k - 1].pc| && |run[k].depth| == |run[k - 1].depth| == |run[k].pc|
    ensures run[k].depth[t] == run[k - 1].depth[t] && (InWait(run[k].pc[t]) || run[k].pc[t].Client?)
  {
    assert Step(run[k - 1], run[k]);
    var u, to :| StepOf(run[k - 1], run[k], u, to);
    WaitStepKeepsDepth(run[k - 1], run[k], u, to, t);
  }

  lemma {:induction false} WaitKeepsDepth(run: seq<State>, i: nat, j: nat, t: nat)
    requires IsRun(Step, run) && i < j < |run| && t < |run[i].pc| && InWait(run[i].pc[t])
    requires forall k :: i <= k < j ==> t < |run[k].pc| && InWait(run[k].pc[t])
    ensures |run[j].pc| == |run[j].depth| == |run[i].pc| == |run[i].depth| && run[j].depth[t] == run[i].depth[t]
    ensures InWait(run[j].pc[t]) || run[j].pc[t].Client?
  {
    hide *;
    RunStepKeepsDepth(run, j, t);
    if i < j - 1 {
      WaitKeepsDepth(run, i, j - 1, t);
    }
  }

  /** A wait that was entered at depth 1 returns, signalled or timed out, with the lock,
      the tag and the depth it came with; any other returns with its depth unchanged. */
  lemma WaitReturnsAsItCame(run: seq<State>, i: nat, j: nat, t: nat)
    requires IsRun(Step, run) && Init(run[0]) && i < j < |run| && t < |run[i].pc| && run[i].pc[t].CwTest?
    requires forall k :: i <= k < j ==> t < |run[k].pc| && InWait(run[k].pc[t])
    requires t < |run[j].pc| && !InWait(run[j].pc[t])
    ensures |run[i].depth| == |run[j].depth| == |run[i].pc| && run[j].pc[t].Client? && run[j].depth[t] == run[i].depth[t]
    ensures run[j].inner == run[i].inner == Thread(t) && run[j].tag == run[i].tag == Tag(t)
    ensures run[j].counter == run[i].counter == run[i].depth[t]
  {
    WaitKeepsDepth(run, i, j, t);
    RunInv(run, i);
    RunInv(run, j);
    assert LocalInv(run[i], t) && LocalInv(run[j], t);
  }
}
