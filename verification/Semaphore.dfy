/** kernel/semaphore.c: a counting semaphore over an atomic mutex and one condition
    variable.  A woken waiter takes the mutex again and re-tests the count, so a
    newcomer or a semaphoreTryWait may take the permit it was woken for. */
module Semaphore {
  import opened Runs

  const U64_RANGE := 0x1_0000_0000_0000_0000

  datatype Point =
    | SgCount | SgWake | SgLeave                 // semaphoreSignal
    | SwTest | SwTake | SwLeave                  // semaphoreWait
    | TrTest | TrTake | TrLeave(success: bool)   // semaphoreTryWait

  /** Awake: signalled by the kernel, and about to take the mutex and re-test. */
  datatype Pc = Client | Wanting(next: Point) | Critical(at: Point) | Sleeping | Awake

  /** Proof variables: the signals that have returned, and the waits and successful
      try-waits that have returned. */
  datatype State = State(mutex: Holder, count: nat, pc: seq<Pc>, signals: nat, waits: nat)

  ghost predicate Init(s: State, initial: nat) {
    && initial < U64_RANGE
    && s.mutex == Nobody && s.count == initial && s.signals == 0 && s.waits == 0
    && forall t :: 0 <= t < |s.pc| ==> s.pc[t] == Client
  }

  function SleeperFlags(pc: seq<Pc>): seq<bool> { seq(|pc|, t requires 0 <= t < |pc| => pc[t].Sleeping?) }
  function Sleepers(pc: seq<Pc>): nat { Tally(SleeperFlags(pc)) }
  function AwakeFlags(pc: seq<Pc>): seq<bool> { seq(|pc|, t requires 0 <= t < |pc| => pc[t].Awake?) }
  function Awakened(pc: seq<Pc>): nat { Tally(AwakeFlags(pc)) }

  /** condvarWakeOne: the kernel wakes some sleeper, if there is one. */
  ghost predicate WakeOne(pc: seq<Pc>, pc': seq<Pc>) {
    if Sleepers(pc) == 0 then pc' == pc
    else exists u :: 0 <= u < |pc| && pc[u].Sleeping? && pc' == pc[u := Awake]
  }

  function Effect(s: State, p: Pc): State {
    match p
    case Critical(SgCount) => s.(count := if s.count + 1 == U64_RANGE then 0 else s.count + 1)
    case Critical(SgLeave) => s.(signals := s.signals + 1)
    case Critical(SwTake) => s.(count := if s.count == 0 then U64_RANGE - 1 else s.count - 1)
    case Critical(SwLeave) => s.(waits := s.waits + 1)
    case Critical(TrTake) => s.(count := if s.count == 0 then U64_RANGE - 1 else s.count - 1)
    case Critical(TrLeave(success)) => s.(waits := if success then s.waits + 1 else s.waits)
    case _ => s
  }

  /** Where control goes from p; a client calls any of the three operations. */
  ghost predicate Edge(s: State, p: Pc, to: Pc) {
    match p
    case Client => to == Wanting(SgCount) || to == Wanting(SwTest) || to == Wanting(TrTest)
    case Wanting(next) => s.mutex == Nobody && to == Critical(next)
    case Awake => s.mutex == Nobody && to == Critical(SwTest)
    case Sleeping => false
    case Critical(SgCount) => to == Critical(SgWake)
    case Critical(SgWake) => to == Critical(SgLeave)
    case Critical(SgLeave) => to == Client
    case Critical(SwTest) => to == if s.count == 0 then Sleeping else Critical(SwTake)
    case Critical(SwTake) => to == Critical(SwLeave)
    case Critical(SwLeave) => to == Client
    case Critical(TrTest) => to == if s.count == 0 then Critical(TrLeave(false)) else Critical(TrTake)
    case Critical(TrTake) => to == Critical(TrLeave(true))
    case Critical(TrLeave(_)) => to == Client
  }

  ghost predicate Signals(s: State, p: Pc, pc: seq<Pc>) {
    if p == Critical(SgWake) then WakeOne(s.pc, pc) else pc == s.pc
  }

  ghost predicate StepOf(s: State, s': State, t: nat, to: Pc) {
    && t < |s.pc|
    && var p, e := s.pc[t], Effect(s, s.pc[t]);
    && Edge(s, p, to)
    && s' == e.(pc := s'.pc, mutex := if to.Critical? then Thread(t) else if p.Critical? then Nobody else s.mutex)
    && exists pc :: Signals(s, p, pc) && s'.pc == pc[t := to]
  }

  ghost predicate Step(s: State, s': State) { exists t, to :: StepOf(s, s', t, to) }

  // ---------------------------------------------------------------- invariant

  ghost predicate At(s: State, p: Point) {
    s.mutex.Thread? && s.mutex.t < |s.pc| && s.pc[s.mutex.t] == Critical(p)
  }

  ghost predicate LocalInv(s: State, t: nat)
    requires t < |s.pc|
  {
    var p := s.pc[t];
    && (p.Critical? <==> s.mutex == Thread(t))
    && (p.Wanting? ==> p.next == SgCount || p.next == SwTest || p.next == TrTest)
  }

  /** Permits put in, and taken out, by the calls that are still running. */
  ghost function PendingIn(s: State): nat { if At(s, SgWake) || At(s, SgLeave) then 1 else 0 }
  ghost function PendingOut(s: State): nat { if At(s, SwLeave) || At(s, TrLeave(true)) then 1 else 0 }

  /** The balance of a run: the permits put in less those taken out. */
  ghost function Balance(s: State, initial: nat): int {
    initial + s.signals + PendingIn(s) - s.waits - PendingOut(s)
  }

  ghost predicate Conserved(s: State, initial: nat) {
    Balance(s, initial) >= 0 && s.count == Balance(s, initial) % U64_RANGE
  }

  /** A sleeper only stays beside permits that a woken waiter, or the caller inside
      the mutex, is about to see. */
  ghost predicate NotStranded(s: State) {
    Sleepers(s.pc) > 0 ==>
      s.count <= Awakened(s.pc) + (if At(s, SgWake) || At(s, SwTest) || At(s, SwTake) then 1 else 0)
  }

  ghost predicate ControlInv(s: State) {
    && s.count < U64_RANGE
    && (s.mutex.Thread? ==> s.mutex.t < |s.pc|)
    && (At(s, SwTake) || At(s, TrTake) ==> s.count > 0)
    && (At(s, TrLeave(false)) ==> s.count == 0)
    && forall t :: 0 <= t < |s.pc| ==> LocalInv(s, t)
  }

  ghost predicate Inv(s: State, initial: nat) {
    ControlInv(s) && NotStranded(s) && Conserved(s, initial)
  }

  lemma InitInv(s: State, initial: nat)
    requires Init(s, initial)
    ensures Inv(s, initial)
  {
    assert true !in SleeperFlags(s.pc);
  }

  lemma BalanceStep(s: State, s': State, t: nat, to: Pc, initial: nat)
    requires ControlInv(s) && StepOf(s, s', t, to) && s'.pc[t] == to && |s'.pc| == |s.pc|
    ensures
      || (Balance(s', initial) == Balance(s, initial) && s'.count == s.count)
      || (Balance(s', initial) == Balance(s, initial) + 1 && s'.count == if s.count + 1 == U64_RANGE then 0 else s.count + 1)
      || (Balance(s', initial) == Balance(s, initial) - 1 && s.count > 0 && s'.count == s.count - 1)
  {
    assert LocalInv(s, t);
  }

  lemma ConservedArith(b: int, count: nat, b': int, count': nat)
    requires b >= 0 && count == b % U64_RANGE
    requires
      || (b' == b && count' == count)
      || (b' == b + 1 && count' == if count + 1 == U64_RANGE then 0 else count + 1)
      || (b' == b - 1 && count > 0 && count' == count - 1)
    ensures b' >= 0 && count' == b' % U64_RANGE
  {
  }

  lemma WakeTally(pc: seq<Pc>, pc': seq<Pc>)
    requires WakeOne(pc, pc')
    ensures |pc'| == |pc| && (forall u :: 0 <= u < |pc| ==> pc'[u] == pc[u] || (pc[u].Sleeping? && pc'[u].Awake?))
    ensures Sleepers(pc) == 0 ==> Sleepers(pc') == 0
    ensures Sleepers(pc) > 0 ==> Sleepers(pc') == Sleepers(pc) - 1 && Awakened(pc') == Awakened(pc) + 1
  {
    if Sleepers(pc) > 0 {
      var u :| 0 <= u < |pc| && pc[u].Sleeping? && pc' == pc[u := Awake];
      MoveTally(pc, u, Awake);
    }
  }

  lemma MoveTally(pc: seq<Pc>, t: nat, to: Pc)
    requires t < |pc|
    ensures Sleepers(pc[t := to]) + (if pc[t].Sleeping? then 1 else 0) == Sleepers(pc) + (if to.Sleeping? then 1 else 0)
    ensures Awakened(pc[t := to]) + (if pc[t].Awake? then 1 else 0) == Awakened(pc) + (if to.Awake? then 1 else 0)
  {
    TallyMove(SleeperFlags(pc), t, to.Sleeping?);
    TallyMove(AwakeFlags(pc), t, to.Awake?);
    assert SleeperFlags(pc[t := to]) == SleeperFlags(pc)[t := to.Sleeping?];
    assert AwakeFlags(pc[t := to]) == AwakeFlags(pc)[t := to.Awake?];
  }

  lemma WakeStep(s: State, s': State, t: nat, to: Pc)
    requires ControlInv(s) && StepOf(s, s', t, to) && s.pc[t] == Critical(SgWake)
    ensures |s'.pc| == |s.pc| && s'.pc[t] == to
    ensures forall u :: 0 <= u < |s.pc| && u != t ==> s'.pc[u] == s.pc[u] || (s.pc[u].Sleeping? && s'.pc[u].Awake?)
    ensures Sleepers(s.pc) == 0 ==> Sleepers(s'.pc) == 0
    ensures Sleepers(s.pc) > 0 ==> Sleepers(s'.pc) == Sleepers(s.pc) - 1 && Awakened(s'.pc) == Awakened(s.pc) + 1
  {
    var pc :| Signals(s, Critical(SgWake), pc) && s'.pc == pc[t := to];
    WakeTally(s.pc, pc);
    assert pc[t] == s.pc[t];
    MoveTally(pc, t, to);
  }

  lemma MoveStep(s: State, s': State, t: nat, to: Pc)
    requires StepOf(s, s', t, to) && s.pc[t] != Critical(SgWake)
    ensures s'.pc == s.pc[t := to]
    ensures Sleepers(s'.pc) == Sleepers(s.pc) + (if to.Sleeping? then 1 else 0)
    ensures Awakened(s'.pc) == Awakened(s.pc) - (if s.pc[t].Awake? then 1 else 0)
  {
    MoveTally(s.pc, t, to);
  }

  lemma NotStrandedStep(s: State, s': State, t: nat, to: Pc)
    requires ControlInv(s) && NotStranded(s) && StepOf(s, s', t, to)
    ensures NotStranded(s')
  {
    assert LocalInv(s, t);
    if s.pc[t] == Critical(SgWake) {
      WakeStep(s, s', t, to);
    } else {
      MoveStep(s, s', t, to);
    }
  }

  lemma StepInv(s: State, s': State, t: nat, to: Pc, initial: nat)
    requires Inv(s, initial) && StepOf(s, s', t, to)
    ensures Inv(s', initial)
  {
    NotStrandedStep(s, s', t, to);
    if s.pc[t] == Critical(SgWake) {
      WakeStep(s, s', t, to);
    } else {
      MoveStep(s, s', t, to);
    }
    BalanceStep(s, s', t, to, initial);
    ConservedArith(Balance(s, initial), s.count, Balance(s', initial), s'.count);
    assert LocalInv(s, t);
    forall u | 0 <= u < |s'.pc| ensures LocalInv(s', u) {
      assert LocalInv(s, u);
    }
  }

  lemma RunInv(run: seq<State>, initial: nat, i: nat)
    requires IsRun(Step, run) && Init(run[0], initial) && i < |run|
    ensures Inv(run[i], initial)
  {
    InitInv(run[0], initial);
    forall s, s' | Inv(s, initial) && Step(s, s') ensures Inv(s', initial) {
      var t, to :| StepOf(s, s', t, to);
      StepInv(s, s', t, to, initial);
    }
    RunKeeps(Step, s => Inv(s, initial), run, i);
  }

  // ---------------------------------------------------------------- theorems

  /** Permits are conserved: while the mutex is free, the count is what was put in
      less what was taken out (as a u64), and no more was taken than put in. */
  lemma PermitsConserved(run: seq<State>, initial: nat, i: nat)
    requires IsRun(Step, run) && Init(run[0], initial) && i < |run| && run[i].mutex == Nobody
    ensures var s := run[i]; s.waits <= initial + s.signals && s.count == (initial + s.signals - s.waits) % U64_RANGE
  {
    RunInv(run, initial, i);
  }

  /** While any thread sleeps, every permit in the count belongs to a woken thread that
      has not resumed yet, but for one that the holder of the mutex is about to signal,
      or to take; while the mutex is free there is no such one. */
  lemma NoPermitBesideSleeper(run: seq<State>, initial: nat, i: nat, t: nat)
    requires IsRun(Step, run) && Init(run[0], initial) && i < |run|
    requires t < |run[i].pc| && run[i].pc[t].Sleeping?
    ensures run[i].count <= Awakened(run[i].pc) + (if At(run[i], SgWake) || At(run[i], SwTest) || At(run[i], SwTake) then 1 else 0)
    ensures run[i].mutex == Nobody ==> run[i].count <= Awakened(run[i].pc)
  {
    RunInv(run, initial, i);
    TallyMove(SleeperFlags(run[i].pc), t, false);
  }

  /** Inside semaphoreWait, and inside semaphoreTryWait. */
  predicate InWait(p: Pc) {
    p == Wanting(SwTest) || p == Critical(SwTest) || p.Sleeping? || p.Awake? || p == Critical(SwTake) || p == Critical(SwLeave)
  }

  predicate InTryWait(p: Pc) {
    p == Wanting(TrTest) || p == Critical(TrTest) || p == Critical(TrTake) || (p.Critical? && p.at.TrLeave?)
  }

  lemma PointMoves(s: State, s': State, u: nat, to: Pc, t: nat)
    requires ControlInv(s) && StepOf(s, s', u, to) && t < |s.pc|
    ensures |s'.pc| == |s.pc| && (u == t ==> s'.pc[t] == to)
    ensures u != t ==> s'.pc[t] == s.pc[t] || (s.pc[t].Sleeping? && s'.pc[t].Awake?)
  {
    if s.pc[u] == Critical(SgWake) {
      WakeStep(s, s', u, to);
    } else {
      MoveStep(s, s', u, to);
    }
  }

  lemma WaitingStep(s: State, s': State, t: nat, to: Pc)
    requires ControlInv(s) && StepOf(s, s', t, to)
    ensures InWait(s.pc[t]) && !InWait(to) ==> to == Client && s'.waits == s.waits + 1
    ensures InTryWait(s.pc[t]) && !InTryWait(to) ==>
              && to == Client && s'.count == s.count
              && if s.pc[t] == Critical(TrLeave(true)) then s'.waits == s.waits + 1
                 else s.pc[t] == Critical(TrLeave(false)) && s'.waits == s.waits && s.count == 0
  {
    assert LocalInv(s, t);
  }

  /** A wait comes back in one way, with a permit counted as taken; a try-wait comes back
      with one, or reports failure while the count is 0. */
  lemma WaitsReturnPermits(run: seq<State>, initial: nat, i: nat, t: nat)
    requires IsRun(Step, run) && Init(run[0], initial) && i + 1 < |run| && t < |run[i].pc|
    ensures t < |run[i + 1].pc|
    ensures InWait(run[i].pc[t]) && !InWait(run[i + 1].pc[t]) ==>
              run[i + 1].pc[t] == Client && run[i + 1].waits == run[i].waits + 1
    ensures InTryWait(run[i].pc[t]) && !InTryWait(run[i + 1].pc[t]) ==>
              && run[i + 1].pc[t] == Client && run[i + 1].count == run[i].count
              && if run[i].pc[t] == Critical(TrLeave(true)) then run[i + 1].waits == run[i].waits + 1
                 else run[i].pc[t] == Critical(TrLeave(false)) && run[i + 1].waits == run[i].waits && run[i].count == 0
  {
    assert Step(run[i], run[i + 1]);
    var u: nat, to :| StepOf(run[i], run[i + 1], u, to);
    RunInv(run, initial, i);
    PointMoves(run[i], run[i + 1], u, to, t);
    if u == t {
      WaitingStep(run[i], run[i + 1], t, to);
    }
    hide StepOf, ControlInv, NotStranded, Conserved;
  }

  /** So if a thread sleeps and no thread can take a step except to start a new
      call, there is no permit at all. */
  lemma StuckMeansEmpty(run: seq<State>, initial: nat, i: nat, t: nat)
    requires IsRun(Step, run) && Init(run[0], initial) && i < |run|
    requires t < |run[i].pc| && run[i].pc[t].Sleeping?
    requires forall u, to, s' :: 0 <= u < |run[i].pc| && run[i].pc[u] != Client ==> !StepOf(run[i], s', u, to)
    ensures run[i].count == 0
  {
    RunInv(run, initial, i);
    var s := run[i];
    if s.mutex.Thread? {
      assert LocalInv(s, s.mutex.t);
      CanStep(s, s.mutex.t);
    } else if u :| 0 <= u < |s.pc| && s.pc[u].Awake? {
      assert LocalInv(s, u);
      CanStep(s, u);
    } else {
      assert true !in AwakeFlags(s.pc);
      NoPermitBesideSleeper(run, initial, i, t);
    }
  }

  lemma CanStep(s: State, u: nat)
    requires u < |s.pc| && LocalInv(s, u)
    requires s.pc[u].Critical? || (s.pc[u].Awake? && s.mutex == Nobody)
    ensures exists to, s' :: StepOf(s, s', u, to)
  {
    var p := s.pc[u];
    var to := match p
      case Critical(SgCount) => Critical(SgWake)
      case Critical(SgWake) => Critical(SgLeave)
      case Critical(SwTest) => if s.count == 0 then Sleeping else Critical(SwTake)
      case Critical(SwTake) => Critical(SwLeave)
      case Critical(TrTest) => if s.count == 0 then Critical(TrLeave(false)) else Critical(TrTake)
      case Critical(TrTake) => Critical(TrLeave(true))
      case Critical(_) => Client
      case _ => Critical(SwTest);
    assert Edge(s, p, to);
    var pc := s.pc;
    if p == Critical(SgWake) && Sleepers(s.pc) > 0 {
      assert true in SleeperFlags(s.pc);
      var v :| 0 <= v < |s.pc| && SleeperFlags(s.pc)[v];
      pc := s.pc[v := Awake];
    }
    assert Signals(s, p, pc);
    var s' := Effect(s, p).(pc := pc[u := to], mutex := if to.Critical? then Thread(u) else if p.Critical? then Nobody else s.mutex);
    assert StepOf(s, s', u, to);
  }
}
