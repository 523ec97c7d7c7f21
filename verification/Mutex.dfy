/** kernel/mutex.c and kernel/condvar.c: the futex-style lock word, as a state
    machine whose steps are the single compare-and-swaps and system calls.

    A thread is named by its tag, its kernel handle.  The kernel is modelled by
    what its four calls do to the word and to the threads parked on it:
      - svcArbitrateLock(owner, word, self) parks self only if the word still
        is owner | HAS_LISTENERS, and returns at once otherwise;
      - svcArbitrateUnlock gives the word to one parked thread, keeping the flag
        iff others stay parked, and writes 0 if nobody is parked;
      - svcWaitProcessWideKeyAtomic releases the word in the same way and puts
        the caller to sleep on the condition variable, in one atomic step;
      - svcSignalProcessWideKey takes a sleeper off the condition variable and
        makes it owner of a free word, or parks it on a taken one. */
module KernelMutex {
  import opened Runs

  const HAS_LISTENERS := 0x4000_0000
  /** Handles have 30 bits, so the lock word, a u32, never uses its top bit. */
  type Word = w: int | 0 <= w < 2 * HAS_LISTENERS

  /** A thread handle: not 0, and below the flag bit. */
  type Tag = w: int | 0 < w < HAS_LISTENERS witness 1

  // The masks by HAS_LISTENERS, as arithmetic on the single bit.
  predicate Flagged(w: Word) { HAS_LISTENERS <= w }  // w & HAS_LISTENERS
  function Owner(w: Word): Word { if Flagged(w) then w - HAS_LISTENERS else w }    // w & ~HAS_LISTENERS
  function Mark(w: Word): Word { if Flagged(w) then w else w + HAS_LISTENERS }     // w | HAS_LISTENERS

  /** The next instruction of a thread. */
  datatype Pc =
    | Outside                        // between calls, not holding the lock
    | LockCas                        // mutexLock: cas(word, 0, self)
    | LockMark(cur: Word)            // mutexLock: cas(word, cur, cur | HAS_LISTENERS)
    | LockArbitrate(wait: Word)      // mutexLock: svcArbitrateLock(wait, word, self)
    | Parked(signalled: bool)        // in the kernel, queued on the word
    | TryCas                         // mutexTryLock: cas(word, 0, self)
    | Inside                         // the lock call or condvarWait has returned
    | UnlockCas                      // mutexUnlock: cas(word, self, 0)
    | UnlockArbitrate                // mutexUnlock: svcArbitrateUnlock(word)
    | Asleep                         // in the kernel, queued on the condition variable

  datatype State = State(word: Word, pc: map<Tag, Pc>) {
    predicate Has(t: Tag, p: Pc) { t in pc && pc[t] == p }
    function Goto(t: Tag, p: Pc): State { State(word, pc[t := p]) }
    function Write(w: Word): State { State(w, pc) }
    ghost function ParkedThreads(): set<Tag> { set t | t in pc && pc[t].Parked? }
  }

  ghost predicate Init(s: State) {
    s.word == 0 && forall t :: t in s.pc ==> s.pc[t] == Outside
  }

  // ---------------------------------------------------------------- client calls

  /** A thread may start locking even while it holds the lock. */
  ghost predicate CallLock(s: State, s': State, t: Tag) {
    (s.Has(t, Outside) || s.Has(t, Inside)) && (s' == s.Goto(t, LockCas) || s' == s.Goto(t, TryCas))
  }

  ghost predicate CallUnlock(s: State, s': State, t: Tag) {
    s.Has(t, Inside) && s' == s.Goto(t, UnlockCas)
  }

  // ---------------------------------------------------------------- mutexLock, mutexTryLock

  ghost predicate LockCasStep(s: State, s': State, t: Tag) {
    && s.Has(t, LockCas)
    && if s.word == 0 then s' == s.Write(t).Goto(t, Inside)
       else if Owner(s.word) == t then s' == s.Goto(t, Inside)
       else if Flagged(s.word) then s' == s.Goto(t, LockArbitrate(Owner(s.word)))
       else s' == s.Goto(t, LockMark(s.word))
  }

  ghost predicate LockMarkStep(s: State, s': State, t: Tag) {
    && t in s.pc && s.pc[t].LockMark?
    && var cur := s.pc[t].cur;
       if s.word == cur then s' == s.Write(Mark(cur)).Goto(t, LockArbitrate(cur))
       else s' == s.Goto(t, LockCas)
  }

  ghost predicate LockArbitrateStep(s: State, s': State, t: Tag) {
    && t in s.pc && s.pc[t].LockArbitrate?
    && if s.word == Mark(s.pc[t].wait) then s' == s.Goto(t, Parked(false))
       else s' == s.Goto(t, LockCas)
  }

  ghost predicate TryCasStep(s: State, s': State, t: Tag) {
    && s.Has(t, TryCas)
    && if s.word == 0 then s' == s.Write(t).Goto(t, Inside)
       else if Owner(s.word) == t then s' == s.Goto(t, Inside)
       else s' == s.Goto(t, Outside)
  }

  // ---------------------------------------------------------------- mutexUnlock

  ghost predicate UnlockCasStep(s: State, s': State, t: Tag) {
    && s.Has(t, UnlockCas)
    && var after := if s.word == t then s.Write(0) else s;
       s' == after.Goto(t, if Flagged(s.word) then UnlockArbitrate else Outside)
  }

  /** The kernel's release: the word goes to `next`, one of the parked threads.
      A thread that locked by mutexLock returns to its loop; one that was
      signalled returns from condvarWait with the lock. */
  ghost predicate HandTo(s: State, s': State, next: Tag) {
    && next in s.ParkedThreads()
    && s' == s.Write(if s.ParkedThreads() == {next} then next else Mark(next))
              .Goto(next, if s.pc[next].signalled then Inside else LockCas)
  }

  ghost predicate Release(s: State, s': State) {
    if s.ParkedThreads() == {} then s' == s.Write(0) else exists next :: HandTo(s, s', next)
  }

  ghost predicate UnlockArbitrateStep(s: State, s': State, t: Tag) {
    s.Has(t, UnlockArbitrate) && Release(s.Goto(t, Outside), s')
  }

  // ---------------------------------------------------------------- condvarWaitTimeout and signals

  ghost predicate WaitStep(s: State, s': State, t: Tag) {
    s.Has(t, Inside) && Release(s.Goto(t, Asleep), s')
  }

  ghost predicate SignalStep(s: State, s': State, t: Tag) {
    && s.Has(t, Asleep)
    && if s.word == 0 then s' == s.Write(t).Goto(t, Inside)
       else s' == s.Write(Mark(s.word)).Goto(t, Parked(true))
  }

  /** A timed-out wait leaves the kernel's queues and calls mutexLock. */
  ghost predicate TimeoutStep(s: State, s': State, t: Tag) {
    (s.Has(t, Asleep) || s.Has(t, Parked(true))) && s' == s.Goto(t, LockCas)
  }

  ghost predicate StepOf(s: State, s': State, t: Tag) {
    || CallLock(s, s', t) || CallUnlock(s, s', t)
    || LockCasStep(s, s', t) || LockMarkStep(s, s', t) || LockArbitrateStep(s, s', t)
    || TryCasStep(s, s', t)
    || UnlockCasStep(s, s', t) || UnlockArbitrateStep(s, s', t)
    || WaitStep(s, s', t) || SignalStep(s, s', t) || TimeoutStep(s, s', t)
  }

  ghost predicate Step(s: State, s': State) { exists t :: StepOf(s, s', t) }

  // ---------------------------------------------------------------- invariant

  /** Program points at which a thread has the lock, whatever the word says. */
  predicate Holds(p: Pc) { p.Inside? || p.UnlockCas? || p.UnlockArbitrate? }

  /** Program points of the thread named by the word: it holds the lock, or the
      kernel assigned it and its next compare-and-swap will tell. */
  predicate MayOwn(p: Pc) { Holds(p) || p.LockCas? || p.TryCas? }

  ghost predicate LocalInv(s: State, t: Tag)
    requires t in s.pc
  {
    var p := s.pc[t];
    && (Holds(p) ==> Owner(s.word) == t)
    && (p.UnlockArbitrate? ==> Flagged(s.word))
    && (p.Parked? ==> Flagged(s.word))
    && (p.LockMark? ==> 0 < p.cur < HAS_LISTENERS && p.cur != t)
    && (p.LockArbitrate? ==> 0 < p.wait < HAS_LISTENERS && p.wait != t)
  }

  ghost predicate WordInv(s: State) {
    s.word == 0 || (0 < Owner(s.word) < HAS_LISTENERS && Owner(s.word) in s.pc && MayOwn(s.pc[Owner(s.word)]))
  }

  ghost predicate Inv(s: State) {
    WordInv(s) && forall t :: t in s.pc ==> LocalInv(s, t)
  }

  lemma InitInv(s: State)
    requires Init(s)
    ensures Inv(s)
  {
  }

  lemma ReleaseInv(m: State, s': State, t: Tag)
    requires m.Has(t, Outside) || m.Has(t, Asleep)
    requires Owner(m.word) == t
    requires forall u :: u in m.pc ==> LocalInv(m, u)
    requires Release(m, s')
    ensures Inv(s')
  {
    if m.ParkedThreads() != {} {
      var next: Tag :| HandTo(m, s', next);
      assert Owner(s'.word) == next;
      forall u | u in s'.pc ensures LocalInv(s', u) {
        assert LocalInv(m, u);
        if s'.pc[u].Parked? {
          assert u in m.ParkedThreads();
        }
      }
    } else {
      forall u | u in s'.pc ensures LocalInv(s', u) {
        assert LocalInv(m, u) && u !in m.ParkedThreads();
      }
    }
  }

  /** A step of t that moves t, and may set the flag of a taken word. */
  lemma FrameInv(s: State, s': State, t: Tag, w: Word, p: Pc)
    requires Inv(s) && t in s.pc && s' == s.Write(w).Goto(t, p)
    requires w == s.word || (s.word != 0 && w == Mark(s.word))
    requires LocalInv(s', t) && (Owner(s.word) == t ==> MayOwn(p))
    ensures Inv(s')
  {
    forall u | u in s'.pc ensures LocalInv(s', u) {
      assert LocalInv(s, u);
    }
  }

  /** A step of t that takes a free word, or frees its own unflagged word. */
  lemma TakeInv(s: State, s': State, t: Tag)
    requires Inv(s) && t in s.pc
    requires (s.word == 0 && s' == s.Write(t).Goto(t, Inside)) || (s.word == t && s' == s.Write(0).Goto(t, Outside))
    ensures Inv(s')
  {
    forall u | u in s'.pc ensures LocalInv(s', u) {
      assert LocalInv(s, u);
    }
  }

  lemma LockStepInv(s: State, s': State, t: Tag)
    requires Inv(s)
    requires LockCasStep(s, s', t) || LockMarkStep(s, s', t) || LockArbitrateStep(s, s', t) || TryCasStep(s, s', t)
    ensures Inv(s')
  {
    assert LocalInv(s, t);
    if s.word == 0 && (LockCasStep(s, s', t) || TryCasStep(s, s', t)) {
      TakeInv(s, s', t);
    } else {
      FrameInv(s, s', t, s'.word, s'.pc[t]);
    }
  }

  lemma StepInv(s: State, s': State, t: Tag)
    requires Inv(s) && StepOf(s, s', t)
    ensures Inv(s')
  {
    assert LocalInv(s, t);
    if LockCasStep(s, s', t) || LockMarkStep(s, s', t) || LockArbitrateStep(s, s', t) || TryCasStep(s, s', t) {
      LockStepInv(s, s', t);
    } else if UnlockArbitrateStep(s, s', t) {
      ReleaseInv(s.Goto(t, Outside), s', t);
    } else if WaitStep(s, s', t) {
      ReleaseInv(s.Goto(t, Asleep), s', t);
    } else if (SignalStep(s, s', t) && s.word == 0) || (UnlockCasStep(s, s', t) && s.word == t) {
      TakeInv(s, s', t);
    } else {
      FrameInv(s, s', t, s'.word, s'.pc[t]);
    }
  }

  lemma RunInv(run: seq<State>, i: nat)
    requires IsRun(Step, run) && Init(run[0]) && i < |run|
    ensures Inv(run[i])
  {
    forall s, s' | Inv(s) && Step(s, s') ensures Inv(s') {
      var t :| StepOf(s, s', t);
      StepInv(s, s', t);
    }
    RunKeeps(Step, Inv, run, i);
  }

  // ---------------------------------------------------------------- theorems

  /** Whatever the interleaving, two threads are never inside the lock together,
      and the word names the one that is. */
  lemma MutualExclusion(run: seq<State>, i: nat, t: Tag, u: Tag)
    requires IsRun(Step, run) && Init(run[0]) && i < |run|
    requires t in run[i].pc && Holds(run[i].pc[t])
    requires u in run[i].pc && Holds(run[i].pc[u])
    ensures t == u && Owner(run[i].word) == t
  {
    RunInv(run, i);
    assert LocalInv(run[i], t) && LocalInv(run[i], u);
  }

  /** A thread parked in the kernel is never left on a free lock: the word carries
      the flag and names another thread, which holds the lock or is about to find
      that the kernel assigned it. */
  lemma NoForgottenSleeper(run: seq<State>, i: nat, t: Tag)
    requires IsRun(Step, run) && Init(run[0]) && i < |run|
    requires t in run[i].pc && run[i].pc[t].Parked?
    ensures Flagged(run[i].word)
    ensures var o := Owner(run[i].word); o in run[i].pc && o != t && MayOwn(run[i].pc[o])
  {
    RunInv(run, i);
    assert LocalInv(run[i], t);
  }

  /** A zero word means that nobody is inside and nobody is parked. */
  lemma FreeWordIsFree(run: seq<State>, i: nat, t: Tag)
    requires IsRun(Step, run) && Init(run[0]) && i < |run|
    requires run[i].word == 0 && t in run[i].pc
    ensures !Holds(run[i].pc[t]) && !run[i].pc[t].Parked?
  {
    RunInv(run, i);
    assert LocalInv(run[i], t);
  }

  /** Every step of a run is one of these two threads'. */
  ghost predicate StepsOnlyOf(run: seq<State>, t: Tag, u: Tag) {
    forall i :: 0 < i < |run| ==> StepOf(run[i - 1], run[i], t) || StepOf(run[i - 1], run[i], u)
  }

  /** From every reachable state a parked thread can still get the lock, by steps
      of the present owner and of itself alone. */
  lemma SleeperCanBeServed(run: seq<State>, i: nat, t: Tag) returns (onward: seq<State>)
    requires IsRun(Step, run) && Init(run[0]) && i < |run|
    requires t in run[i].pc && run[i].pc[t].Parked?
    ensures IsRun(Step, onward) && onward[0] == run[i] && onward[|onward| - 1].Has(t, Inside)
    ensures 0 < Owner(run[i].word) < HAS_LISTENERS && StepsOnlyOf(onward, Owner(run[i].word), t)
  {
    RunInv(run, i);
    onward := ServeRun(run[i], t);
  }

  /** How far the owner is from handing the lock on. */
  ghost function Distance(p: Pc): nat {
    match p
    case LockCas | TryCas => 3
    case Inside => 2
    case UnlockCas => 1
    case _ => 0
  }

  /** The owner in its unlocking call gives the lock to the parked thread. */
  lemma HandOver(s: State, o: Tag, t: Tag) returns (onward: seq<State>)
    requires t in s.pc && s.pc[t].Parked? && s.Has(o, UnlockArbitrate)
    ensures IsRun(Step, onward) && onward[0] == s && onward[|onward| - 1].Has(t, Inside) && StepsOnlyOf(onward, o, t)
  {
    var m := s.Goto(o, Outside);
    var w: Word := if m.ParkedThreads() == {t} then t else Mark(t);
    var s1 := m.Write(w).Goto(t, if s.pc[t].signalled then Inside else LockCas);
    assert t in m.ParkedThreads();
    assert HandTo(m, s1, t);
    assert StepOf(s, s1, o);
    onward := [s, s1];
    if !s.pc[t].signalled {
      var s2 := s1.Goto(t, Inside);
      assert StepOf(s1, s2, t);
      onward := [s, s1, s2];
    }
  }

  lemma {:induction false} ServeRun(s: State, t: Tag) returns (onward: seq<State>)
    requires Inv(s) && t in s.pc && s.pc[t].Parked?
    ensures IsRun(Step, onward) && onward[0] == s && onward[|onward| - 1].Has(t, Inside)
    ensures 0 < Owner(s.word) < HAS_LISTENERS && StepsOnlyOf(onward, Owner(s.word), t)
    decreases var o := Owner(s.word); if o in s.pc then Distance(s.pc[o]) else 0
  {
    assert LocalInv(s, t);
    var o: Tag := Owner(s.word);
    if s.pc[o].UnlockArbitrate? {
      onward := HandOver(s, o, t);
    } else {
      var s1 := s.Goto(o, match s.pc[o] case Inside => UnlockCas case UnlockCas => UnlockArbitrate case _ => Inside);
      assert StepOf(s, s1, o);
      StepInv(s, s1, o);
      onward := ServeRun(s1, t);
      RunPrepend(Step, s, onward);
      StepsPrepend(s, onward, o, t);
      onward := [s] + onward;
    }
  }

  lemma StepsPrepend(s: State, run: seq<State>, t: Tag, u: Tag)
    requires |run| > 0 && StepOf(s, run[0], t) && StepsOnlyOf(run, t, u)
    ensures StepsOnlyOf([s] + run, t, u)
  {
    var r := [s] + run;
    forall i | 0 < i < |r| ensures StepOf(r[i - 1], r[i], t) || StepOf(r[i - 1], r[i], u) {
      assert i > 1 ==> StepOf(run[i - 2], run[i - 1], t) || StepOf(run[i - 2], run[i - 1], u);
    }
  }

  ghost predicate NobodyInsideBut(s: State, u: Tag) {
    forall t :: t in s.pc && Holds(s.pc[t]) ==> t == u
  }

  /** The holder that gives the lock to `next` was the only one inside, and named by
      a flagged word. */
  lemma GivenByOwner(s: State, m: State, s': State, t: Tag, next: Tag)
    requires Inv(s) && t in s.pc && (s.pc[t].UnlockArbitrate? || s.pc[t].Inside?)
    requires (m == s.Goto(t, Outside) || m == s.Goto(t, Asleep)) && HandTo(m, s', next)
    ensures Owner(s.word) == t != next && Flagged(s.word) && NobodyInsideBut(s', next)
  {
    assert LocalInv(s, t) && LocalInv(s, next);
    forall v | v in s.pc ensures Holds(s.pc[v]) ==> v == t {
      assert LocalInv(s, v);
    }
  }

  /** Whatever step is taken, a parked thread leaves the kernel in one of two ways: its
      wait times out, or the holder, which the word named before, hands it the lock: then
      the word names it, nobody else is inside or has left, and the flag is set iff some
      thread is still parked. */
  lemma UnparkedIsOwner(run: seq<State>, i: nat, t: Tag, u: Tag)
    requires IsRun(Step, run) && Init(run[0]) && i + 1 < |run| && StepOf(run[i], run[i + 1], t)
    requires u in run[i].ParkedThreads() && u !in run[i + 1].ParkedThreads()
    ensures TimeoutStep(run[i], run[i + 1], t) || (t in run[i].pc && Holds(run[i].pc[t]))
    ensures TimeoutStep(run[i], run[i + 1], t) ==> t == u && run[i + 1].word == run[i].word
    ensures !TimeoutStep(run[i], run[i + 1], t) ==>
              && Owner(run[i].word) == t != u && Flagged(run[i].word)
              && NobodyInsideBut(run[i + 1], u)
              && Owner(run[i + 1].word) == u && run[i + 1].ParkedThreads() == run[i].ParkedThreads() - {u}
              && (Flagged(run[i + 1].word) <==> run[i + 1].ParkedThreads() != {})
  {
    var s, s' := run[i], run[i + 1];
    RunInv(run, i);
    assert LocalInv(s, t) && LocalInv(s, u);
    if UnlockArbitrateStep(s, s', t) || WaitStep(s, s', t) {
      var m := s.Goto(t, if WaitStep(s, s', t) then Asleep else Outside);
      assert m.ParkedThreads() == s.ParkedThreads();
      var next: Tag :| HandTo(m, s', next);
      GivenByOwner(s, m, s', t, next);
      hide NobodyInsideBut;
      assert s'.ParkedThreads() == s.ParkedThreads() - {next};
      assert u in s.ParkedThreads() && u !in s'.ParkedThreads();
      assert s.ParkedThreads() == {next} <==> s'.ParkedThreads() == {};
    }
  }

  /** While a thread is parked, no compare-and-swap of a newcomer wins: a thread that
      gets the lock was named by the word already, and leaves it untouched. */
  lemma NoBarging(run: seq<State>, i: nat, t: Tag, u: Tag)
    requires IsRun(Step, run) && Init(run[0]) && i + 1 < |run| && StepOf(run[i], run[i + 1], t)
    requires u in run[i].pc && run[i].pc[u].Parked?
    requires t in run[i].pc && !Holds(run[i].pc[t]) && t in run[i + 1].pc && Holds(run[i + 1].pc[t])
    ensures Owner(run[i].word) == t && run[i + 1].word == run[i].word
  {
    RunInv(run, i);
    assert LocalInv(run[i], t) && LocalInv(run[i], u);
  }

  // ---------------------------------------------------------------- what the calls return

  /** mutexTryLock returns false only while another thread has the lock, or is about to
      find that the kernel assigned it. */
  lemma RefusedTryIsTaken(run: seq<State>, i: nat, t: Tag)
    requires IsRun(Step, run) && Init(run[0]) && i + 1 < |run|
    requires run[i].Has(t, TryCas) && run[i + 1].Has(t, Outside)
    ensures run[i + 1].word == run[i].word
    ensures var o := Owner(run[i].word); o != t && o in run[i].pc && MayOwn(run[i].pc[o])
  {
    assert Step(run[i], run[i + 1]);
    RunInv(run, i);
  }

  /** Inside mutexLock, or in condvarWait after it has given up the lock. */
  predicate InCall(p: Pc) { p.LockCas? || p.LockMark? || p.LockArbitrate? || p.Parked? || p.Asleep? }

  lemma CallStep(s: State, s': State, u: Tag, t: Tag)
    requires StepOf(s, s', u) && t in s.pc && InCall(s.pc[t])
    ensures t in s'.pc && (InCall(s'.pc[t]) || s'.pc[t] == Inside)
  {
  }

  /** mutexLock and condvarWait come back in one way: with the lock, and named by the word. */
  lemma CallsReturnInside(run: seq<State>, i: nat, t: Tag)
    requires IsRun(Step, run) && Init(run[0]) && i + 1 < |run|
    requires t in run[i].pc && InCall(run[i].pc[t])
    ensures t in run[i + 1].pc
    ensures !InCall(run[i + 1].pc[t]) ==> run[i + 1].pc[t] == Inside && Owner(run[i + 1].word) == t
  {
    assert Step(run[i], run[i + 1]);
    hide StepOf;
    var u :| StepOf(run[i], run[i + 1], u);
    CallStep(run[i], run[i + 1], u, t);
    RunInv(run, i + 1);
    assert LocalInv(run[i + 1], t);
  }

  /** A thread that finds the lock taken does not spin: left to itself it sets the flag,
      if need be, and goes to sleep on the word, within three steps. */
  lemma ContenderParks(run: seq<State>, t: Tag)
    requires IsRun(Step, run) && StepsOnlyOf(run, t, t) && run[0].Has(t, LockCas)
    requires run[0].word != 0 && Owner(run[0].word) != t && |run| == if Flagged(run[0].word) then 3 else 4
    ensures run[|run| - 1].Has(t, Parked(false)) && run[|run| - 1].word == Mark(run[0].word)
  {
    assert StepOf(run[1 - 1], run[1], t) && StepOf(run[2 - 1], run[2], t);
    assert |run| == 4 ==> StepOf(run[3 - 1], run[3], t);
  }

  /** Without contention, mutexLock or mutexTryLock gets the lock with one compare-and-swap,
      and mutexUnlock puts everything back. */
  lemma LockUnlockAlone(s: State, t: Tag, a: State, b: State, c: State, d: State)
    requires s.word == 0 && s.Has(t, Outside)
    requires a == s.Goto(t, LockCas) || a == s.Goto(t, TryCas)
    requires StepOf(a, b, t) && CallUnlock(b, c, t) && StepOf(c, d, t)
    ensures b.Has(t, Inside) && b.word == t && d == s
  {
    assert d.pc == s.pc;
  }
}
