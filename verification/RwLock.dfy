/** kernel/rwlock.c, one step a statement over an atomic mutex. */
module RwLock {
  import opened Runs

  /** `readers` is a 31-bit field. */
  const READERS_RANGE := 0x8000_0000

  datatype Point =
    | Idle | Reading | Writing                     // the client's sections
    | RdTest | RdCount | RdLeave                   // rwlockReadLock
    | RuCount | RuWake | RuLeave                   // rwlockReadUnlock
    | WrTest | WrSet | DrTest | WrLeave            // rwlockWriteLock: entry loop, drain loop
    | WuClear | WuWake | WuLeave                   // rwlockWriteUnlock

  /** Between calls; about to take the mutex; holding it; or on a condition
      variable, from which condvarWait goes on at `next` with the mutex. */
  datatype Pc = Client(section: Point) | Wanting(next: Point) | Critical(at: Point) | Sleeping(next: Point)

  /** `owner` is a proof variable: the thread that set `writer`. */
  datatype State = State(mutex: Holder, readers: nat, writer: bool, pc: seq<Pc>, owner: Holder)

  ghost predicate Init(s: State) {
    && s.mutex == Nobody && s.readers == 0 && !s.writer && s.owner == Nobody
    && |s.pc| < READERS_RANGE
    && forall t :: 0 <= t < |s.pc| ==> s.pc[t] == Client(Idle)
  }

  /** Who sleeps on condvar_writer, and who on condvar_readers. */
  predicate OnWriter(p: Point) { p == RdTest || p == WrTest }
  predicate OnReaders(p: Point) { p == DrTest }

  /** condvarWakeAll on each of them: a woken thread must take the mutex again. */
  function WakeWriters(pc: seq<Pc>): seq<Pc> {
    seq(|pc|, t requires 0 <= t < |pc| =>
      if pc[t].Sleeping? && OnWriter(pc[t].next) then Wanting(pc[t].next) else pc[t])
  }

  function WakeReaders(pc: seq<Pc>): seq<Pc> {
    seq(|pc|, t requires 0 <= t < |pc| =>
      if pc[t].Sleeping? && OnReaders(pc[t].next) then Wanting(pc[t].next) else pc[t])
  }

  /** What the statement at p does to the shared state. */
  function Effect(s: State, t: nat, p: Pc): State {
    match p
    case Critical(RdCount) => s.(readers := if s.readers + 1 == READERS_RANGE then 0 else s.readers + 1)
    case Critical(RuCount) => s.(readers := if s.readers == 0 then READERS_RANGE - 1 else s.readers - 1)
    case Critical(RuWake) => s.(pc := WakeReaders(s.pc))
    case Critical(WrSet) => s.(writer := true, owner := Thread(t))
    case Critical(WuClear) => s.(writer := false, owner := Nobody)
    case Critical(WuWake) => s.(pc := WakeWriters(s.pc))
    case _ => s
  }

  /** Where control goes from p, the effect having led to s; an idle client chooses
      which lock it calls for.  A thread that cannot move stays where it is. */
  function Next(s: State, p: Pc, forWriting: bool): Pc {
    match p
    case Client(Idle) => if forWriting then Wanting(WrTest) else Wanting(RdTest)
    case Client(Reading) => Wanting(RuCount)
    case Client(Writing) => Wanting(WuClear)
    case Wanting(next) => if s.mutex == Nobody then Critical(next) else p
    case Critical(RdTest) => if s.writer then Sleeping(RdTest) else Critical(RdCount)
    case Critical(RdCount) => Critical(RdLeave)
    case Critical(RdLeave) => Client(Reading)
    case Critical(RuCount) => if s.readers == 0 then Critical(RuWake) else Critical(RuLeave)
    case Critical(RuWake) => Critical(RuLeave)
    case Critical(RuLeave) => Client(Idle)
    case Critical(WrTest) => if s.writer then Sleeping(WrTest) else Critical(WrSet)
    case Critical(WrSet) => Critical(DrTest)
    case Critical(DrTest) => if s.readers > 0 then Sleeping(DrTest) else Critical(WrLeave)
    case Critical(WrLeave) => Client(Writing)
    case Critical(WuClear) => Critical(WuWake)
    case Critical(WuWake) => Critical(WuLeave)
    case Critical(WuLeave) => Client(Idle)
    case _ => p
  }

  ghost predicate Edge(s: State, p: Pc, to: Pc) {
    to != p && (to == Next(s, p, false) || to == Next(s, p, true))
  }

  /** A step of t: the effect, and the mutex follows the program point. */
  ghost predicate StepOf(s: State, s': State, t: nat, to: Pc) {
    && t < |s.pc|
    && var e := Effect(s, t, s.pc[t]);
    && Edge(e, s.pc[t], to)
    && s'.readers == e.readers && s'.writer == e.writer && s'.owner == e.owner
    && s'.pc == e.pc[t := to]
    && s'.mutex == if to.Critical? then Thread(t) else if s.pc[t].Critical? then Nobody else s.mutex
  }

  ghost predicate Step(s: State, s': State) { exists t, to :: StepOf(s, s', t, to) }

  // ---------------------------------------------------------------- invariant

  /** Counted in `readers`: from the increment to the decrement. */
  predicate IsReader(p: Pc) {
    p == Critical(RdLeave) || p == Client(Reading) || p == Wanting(RuCount) || p == Critical(RuCount)
  }

  function ReaderFlags(pc: seq<Pc>): seq<bool> { seq(|pc|, t requires 0 <= t < |pc| => IsReader(pc[t])) }

  /** Past the drain loop, and `writer` not cleared yet. */
  predicate OwnsAll(p: Pc) {
    p == Critical(WrLeave) || p == Client(Writing) || p == Wanting(WuClear) || p == Critical(WuClear)
  }

  predicate Draining(p: Pc) {
    p == Critical(DrTest) || p == Sleeping(DrTest) || p == Wanting(DrTest)
  }

  predicate IsSection(p: Point) { p == Idle || p == Reading || p == Writing }
  predicate IsEntry(p: Point) { p == RdTest || p == RuCount || p == WrTest || p == DrTest || p == WuClear }

  ghost predicate AboutTo(s: State, p: Point) {
    s.mutex.Thread? && s.mutex.t < |s.pc| && s.pc[s.mutex.t] == Critical(p)
  }

  ghost predicate LocalInv(s: State, t: nat)
    requires t < |s.pc|
  {
    var p := s.pc[t];
    && (p.Critical? <==> s.mutex == Thread(t))
    && (Draining(p) || OwnsAll(p) <==> s.owner == Thread(t))
    && (OwnsAll(p) || p == Critical(RuWake) ==> s.readers == 0)
    && (p == Critical(RdCount) || p == Critical(WrSet) || p == Critical(WuWake) ==> !s.writer)
    && (p.Client? ==> IsSection(p.section)) && (p.Critical? ==> !IsSection(p.at))
    && (p.Wanting? ==> IsEntry(p.next))
    && (p.Sleeping? ==> (OnWriter(p.next) || OnReaders(p.next)))
    && (p.Sleeping? && OnWriter(p.next) ==> s.writer || AboutTo(s, WuWake))
    && (p.Sleeping? && OnReaders(p.next) ==> s.readers > 0 || AboutTo(s, RuWake))
  }

  ghost predicate Inv(s: State) {
    && |s.pc| < READERS_RANGE
    && s.readers == Tally(ReaderFlags(s.pc))
    && (s.writer <==> s.owner.Thread?)
    && (s.owner.Thread? ==> s.owner.t < |s.pc|)
    && (s.mutex.Thread? ==> s.mutex.t < |s.pc|)
    && forall t :: 0 <= t < |s.pc| ==> LocalInv(s, t)
  }

  lemma InitInv(s: State)
    requires Init(s)
    ensures Inv(s)
  {
    assert true !in ReaderFlags(s.pc);
  }

  /** A thread becomes a reader at RdCount, and stops being one at RuCount. */
  lemma ReaderEdge(s: State, p: Pc, to: Pc)
    requires Edge(s, p, to) && (p.Wanting? ==> IsEntry(p.next))
    ensures IsReader(to) <==> (p == Critical(RdCount) || (IsReader(p) && p != Critical(RuCount)))
  {
  }

  lemma ReadersInv(s: State, s': State, t: nat, to: Pc)
    requires Inv(s) && StepOf(s, s', t, to)
    ensures s'.readers == Tally(ReaderFlags(s'.pc))
    ensures IsReader(s.pc[t]) ==> s.readers > 0
  {
    assert LocalInv(s, t);
    var e := Effect(s, t, s.pc[t]);
    ReaderEdge(e, s.pc[t], to);
    TallyMove(ReaderFlags(s.pc), t, IsReader(to));
    TallyBound(ReaderFlags(s'.pc));
    assert ReaderFlags(e.pc) == ReaderFlags(s.pc);
    assert ReaderFlags(s'.pc) == ReaderFlags(s.pc)[t := IsReader(to)];
  }

  lemma SelfInv(s: State, s': State, t: nat, to: Pc)
    requires Inv(s) && StepOf(s, s', t, to)
    requires IsReader(s.pc[t]) ==> s.readers > 0
    ensures LocalInv(s', t)
  {
    assert LocalInv(s, t);
  }

  lemma OtherInv(s: State, s': State, t: nat, to: Pc, u: nat)
    requires Inv(s) && StepOf(s, s', t, to) && u < |s.pc| && u != t
    requires IsReader(s.pc[t]) ==> s.readers > 0
    ensures LocalInv(s', u)
  {
    assert LocalInv(s, t) && LocalInv(s, u);
  }

  lemma FieldsInv(s: State, s': State, t: nat, to: Pc)
    requires Inv(s) && StepOf(s, s', t, to)
    ensures |s'.pc| == |s.pc| && (s'.writer <==> s'.owner.Thread?)
    ensures (s'.owner.Thread? ==> s'.owner.t < |s'.pc|) && (s'.mutex.Thread? ==> s'.mutex.t < |s'.pc|)
  {
    assert LocalInv(s, t);
    assert s.owner.Thread? ==> LocalInv(s, s.owner.t);
  }

  lemma StepInv(s: State, s': State, t: nat, to: Pc)
    requires Inv(s) && StepOf(s, s', t, to)
    ensures Inv(s')
  {
    hide LocalInv, StepOf, ReaderFlags, Tally;
    FieldsInv(s, s', t, to);
    ReadersInv(s, s', t, to);
    SelfInv(s, s', t, to);
    forall u | 0 <= u < |s'.pc| && u != t ensures LocalInv(s', u) {
      OtherInv(s, s', t, to, u);
    }
  }

  lemma RunInv(run: seq<State>, i: nat)
    requires IsRun(Step, run) && Init(run[0]) && i < |run|
    ensures Inv(run[i])
  {
    InitInv(run[0]);
    forall s, s' | Inv(s) && Step(s, s') ensures Inv(s') {
      var t, to :| StepOf(s, s', t, to);
      StepInv(s, s', t, to);
    }
    RunKeeps(Step, Inv, run, i);
  }

  // ---------------------------------------------------------------- theorems

  /** A writer, from the end of its drain loop until it gives the lock back,
      excludes every reader and every other writer. */
  lemma WriterExcludesAll(run: seq<State>, i: nat, t: nat, u: nat)
    requires IsRun(Step, run) && Init(run[0]) && i < |run|
    requires t < |run[i].pc| && OwnsAll(run[i].pc[t])
    requires u < |run[i].pc| && u != t
    ensures !IsReader(run[i].pc[u]) && !OwnsAll(run[i].pc[u]) && !Draining(run[i].pc[u])
  {
    RunInv(run, i);
    assert LocalInv(run[i], t) && LocalInv(run[i], u);
    assert ReaderFlags(run[i].pc)[u] == IsReader(run[i].pc[u]);
    assert true in ReaderFlags(run[i].pc) ==> Tally(ReaderFlags(run[i].pc)) > 0;
  }

  /** `readers` counts the threads in their read sections, and `writer` is set iff
      exactly one thread has claimed the lock for writing. */
  lemma FieldsCountSections(run: seq<State>, i: nat)
    requires IsRun(Step, run) && Init(run[0]) && i < |run|
    ensures run[i].readers == Tally(ReaderFlags(run[i].pc))
    ensures run[i].writer <==> exists t :: 0 <= t < |run[i].pc| && (Draining(run[i].pc[t]) || OwnsAll(run[i].pc[t]))
  {
    RunInv(run, i);
    var s := run[i];
    if s.writer {
      assert LocalInv(s, s.owner.t);
    }
    forall t | 0 <= t < |s.pc| && (Draining(s.pc[t]) || OwnsAll(s.pc[t])) ensures s.writer {
      assert LocalInv(s, t);
    }
  }

  /** Nobody oversleeps: while the mutex is free, a sleeper on condvar_writer
      means that a writer has the lock claimed, and one on condvar_readers that
      readers are still inside. */
  lemma SleepersHaveCause(run: seq<State>, i: nat, t: nat)
    requires IsRun(Step, run) && Init(run[0]) && i < |run|
    requires run[i].mutex == Nobody
    requires t < |run[i].pc| && run[i].pc[t].Sleeping?
    ensures if run[i].pc[t].next == DrTest then run[i].readers > 0 else run[i].writer
  {
    RunInv(run, i);
    assert LocalInv(run[i], t);
  }

  /** From the moment a writer has claimed the lock, the readers only get fewer,
      and each rwlockReadUnlock makes them exactly one fewer. */
  lemma DrainNeverGrows(run: seq<State>, i: nat, t: nat, to: Pc)
    requires IsRun(Step, run) && Init(run[0]) && i + 1 < |run|
    requires run[i].writer && StepOf(run[i], run[i + 1], t, to)
    ensures run[i + 1].readers == run[i].readers - (if run[i].pc[t] == Critical(RuCount) then 1 else 0)
  {
    RunInv(run, i);
    assert LocalInv(run[i], t);
    ReadersInv(run[i], run[i + 1], t, to);
  }

  /** Inside rwlockReadLock, and inside rwlockWriteLock. */
  predicate InReadLock(p: Pc) {
    p == Wanting(RdTest) || p == Critical(RdTest) || p == Sleeping(RdTest) || p == Critical(RdCount) || p == Critical(RdLeave)
  }

  predicate InWriteLock(p: Pc) {
    p == Wanting(WrTest) || p == Critical(WrTest) || p == Sleeping(WrTest) || p == Critical(WrSet) || Draining(p) || p == Critical(WrLeave)
  }

  lemma LockingStep(s: State, s': State, u: nat, to: Pc, t: nat)
    requires StepOf(s, s', u, to) && t < |s.pc|
    ensures |s'.pc| == |s.pc|
    ensures InReadLock(s.pc[t]) && !InReadLock(s'.pc[t]) ==> s'.pc[t] == Client(Reading)
    ensures InWriteLock(s.pc[t]) && !InWriteLock(s'.pc[t]) ==> s'.pc[t] == Client(Writing)
  {
  }

  lemma InsideMeans(s: State, t: nat)
    requires Inv(s) && t < |s.pc|
    ensures s.pc[t] == Client(Reading) ==> s.readers > 0
    ensures s.pc[t] == Client(Writing) ==> s.writer && s.readers == 0
  {
    assert LocalInv(s, t);
    assert ReaderFlags(s.pc)[t] == IsReader(s.pc[t]);
    assert true in ReaderFlags(s.pc) ==> Tally(ReaderFlags(s.pc)) > 0;
  }

  /** The locking calls come back in one way only: a reader counted, with no writer past
      its drain, and a writer as the owner with no readers left. */
  lemma LocksReturnLocked(run: seq<State>, i: nat, t: nat)
    requires IsRun(Step, run) && Init(run[0]) && i + 1 < |run| && t < |run[i].pc|
    ensures t < |run[i + 1].pc|
    ensures InReadLock(run[i].pc[t]) && !InReadLock(run[i + 1].pc[t]) ==>
              run[i + 1].pc[t] == Client(Reading) && run[i + 1].readers > 0
    ensures InWriteLock(run[i].pc[t]) && !InWriteLock(run[i + 1].pc[t]) ==>
              run[i + 1].pc[t] == Client(Writing) && run[i + 1].writer && run[i + 1].readers == 0
  {
    assert Step(run[i], run[i + 1]);
    hide StepOf, Inv, InReadLock, InWriteLock;
    var u, to :| StepOf(run[i], run[i + 1], u, to);
    LockingStep(run[i], run[i + 1], u, to, t);
    RunInv(run, i + 1);
    InsideMeans(run[i + 1], t);
  }

  /** The lock never gets stuck by itself: if a thread is waiting anywhere in the
      primitive, then some thread inside it can take a step, or some client is in
      its read or write section. */
  lemma NeverStuck(run: seq<State>, i: nat, t: nat)
    requires IsRun(Step, run) && Init(run[0]) && i < |run|
    requires t < |run[i].pc| && !run[i].pc[t].Client?
    ensures
      || (exists u, to, s' :: 0 <= u < |run[i].pc| && !run[i].pc[u].Client? && StepOf(run[i], s', u, to))
      || (exists u :: 0 <= u < |run[i].pc| && (run[i].pc[u] == Client(Reading) || run[i].pc[u] == Client(Writing)))
  {
    RunInv(run, i);
    var s := run[i];
    assert LocalInv(s, t);
    if s.mutex.Thread? {
      assert LocalInv(s, s.mutex.t);
      CanStep(s, s.mutex.t);
    } else if u :| 0 <= u < |s.pc| && s.pc[u].Wanting? {
      assert LocalInv(s, u);
      CanStep(s, u);
    } else if s.pc[t].next == DrTest {
      StuckDrain(s);
    } else {
      var o := s.owner.t;
      assert LocalInv(s, o);
      if s.pc[o] != Client(Writing) {
        StuckDrain(s);
      }
    }
  }

  lemma StuckDrain(s: State)
    requires Inv(s) && s.mutex == Nobody && s.readers > 0
    requires forall u :: 0 <= u < |s.pc| ==> !s.pc[u].Wanting?
    ensures exists u :: 0 <= u < |s.pc| && s.pc[u] == Client(Reading)
  {
    assert true in ReaderFlags(s.pc);
    var u :| 0 <= u < |s.pc| && ReaderFlags(s.pc)[u];
    assert LocalInv(s, u);
  }

  lemma CanStep(s: State, u: nat)
    requires u < |s.pc| && LocalInv(s, u)
    requires s.pc[u].Critical? || (s.pc[u].Wanting? && s.mutex == Nobody)
    ensures exists to, s' :: StepOf(s, s', u, to)
  {
    var p := s.pc[u];
    var e := Effect(s, u, p);
    var to := Next(e, p, false);
    var s' := e.(pc := e.pc[u := to], mutex := if to.Critical? then Thread(u) else if p.Critical? then Nobody else s.mutex);
    assert StepOf(s, s', u, to);
  }
}
