/** runtime/c11-threads.c, call_once: the flag's mutex and condition variable make
    any number of callers run the function once and wait for it. */
module CallOnce {
  import opened Runs

  datatype Point =
    | Test     // if (flag->status == 0)
    | Claim    // flag->status = 1
    | Unlock   // mtx_unlock, then func() is called without the mutex
    | Finish   // flag->status = 2, with the mutex again
    | Wake     // cnd_broadcast
    | Loop     // while (flag->status == 1)
    | Leave    // mtx_unlock

  datatype Pc =
    | Outside(returned: bool)   // has call_once returned to this thread?
    | InFunc
    | Wanting(next: Point) | Critical(at: Point) | Sleeping

  /** Proof variables: how often func was entered, and how often it returned. */
  datatype State = State(mutex: Holder, status: nat, pc: seq<Pc>, started: nat, finished: nat)

  ghost predicate Init(s: State) {
    && s.mutex == Nobody && s.status == 0 && s.started == 0 && s.finished == 0
    && forall t :: 0 <= t < |s.pc| ==> s.pc[t] == Outside(false)
  }

  /** cnd_broadcast: every sleeper takes the mutex again and re-tests the status. */
  function WakeAll(pc: seq<Pc>): seq<Pc> {
    seq(|pc|, t requires 0 <= t < |pc| => if pc[t].Sleeping? then Wanting(Loop) else pc[t])
  }

  function Effect(s: State, p: Pc): State {
    match p
    case Critical(Claim) => s.(status := 1)
    case Critical(Unlock) => s.(started := s.started + 1)
    case InFunc => s.(finished := s.finished + 1)
    case Critical(Finish) => s.(status := 2)
    case Critical(Wake) => s.(pc := WakeAll(s.pc))
    case _ => s
  }

  function Next(s: State, p: Pc): Pc {
    match p
    case Outside(_) => Wanting(Test)
    case InFunc => Wanting(Finish)
    case Wanting(next) => if s.mutex == Nobody then Critical(next) else p
    case Sleeping => p
    case Critical(Test) => if s.status == 0 then Critical(Claim) else Critical(Loop)
    case Critical(Claim) => Critical(Unlock)
    case Critical(Unlock) => InFunc
    case Critical(Finish) => Critical(Wake)
    case Critical(Wake) => Critical(Leave)
    case Critical(Loop) => if s.status == 1 then Sleeping else Critical(Leave)
    case Critical(Leave) => Outside(true)
  }

  ghost predicate StepOf(s: State, s': State, t: nat) {
    && t < |s.pc|
    && var p, to, e := s.pc[t], Next(s, s.pc[t]), Effect(s, s.pc[t]);
    && to != p
    && s' == e.(pc := e.pc[t := to], mutex := if to.Critical? then Thread(t) else if p.Critical? then Nobody else s.mutex)
  }

  ghost predicate Step(s: State, s': State) { exists t :: StepOf(s, s', t) }

  // ---------------------------------------------------------------- invariant

  ghost predicate At(s: State, p: Point) {
    s.mutex.Thread? && s.mutex.t < |s.pc| && s.pc[s.mutex.t] == Critical(p)
  }

  /** The thread that claimed the flag and has not set it to 2 yet. */
  predicate IsRunner(p: Pc) {
    p == Critical(Unlock) || p == InFunc || p == Wanting(Finish) || p == Critical(Finish)
  }

  function RunnerFlags(pc: seq<Pc>): seq<bool> { seq(|pc|, t requires 0 <= t < |pc| => IsRunner(pc[t])) }

  ghost predicate LocalInv(s: State, t: nat)
    requires t < |s.pc|
  {
    var p := s.pc[t];
    && (p.Critical? <==> s.mutex == Thread(t))
    && (p.Wanting? ==> p.next == Test || p.next == Finish || p.next == Loop)
    && (p == Critical(Claim) ==> s.status == 0)
    && (IsRunner(p) ==> s.status == 1)
    && (p == Critical(Unlock) ==> s.started == s.finished == 0)
    && (p == InFunc ==> s.started == 1 && s.finished == 0)
    && (p == Wanting(Finish) || p == Critical(Finish) ==> s.started == s.finished == 1)
    && (p.Sleeping? ==> s.status == 1 || At(s, Wake))
    && (p == Wanting(Loop) || p == Critical(Loop) ==> s.status != 0)
    && (p == Critical(Wake) || p == Critical(Leave) || p == Outside(true) ==> s.status == 2)
  }

  ghost predicate Inv(s: State) {
    && s.status <= 2
    && (s.mutex.Thread? ==> s.mutex.t < |s.pc|)
    && Tally(RunnerFlags(s.pc)) == (if s.status == 1 then 1 else 0)
    && (s.status == 0 ==> s.started == s.finished == 0)
    && (s.status == 2 ==> s.started == s.finished == 1)
    && forall t :: 0 <= t < |s.pc| ==> LocalInv(s, t)
  }

  lemma InitInv(s: State)
    requires Init(s)
    ensures Inv(s)
  {
    assert true !in RunnerFlags(s.pc);
  }

  lemma RunnerStep(s: State, s': State, t: nat)
    requires Inv(s) && StepOf(s, s', t)
    ensures Tally(RunnerFlags(s'.pc)) == (if s'.status == 1 then 1 else 0)
    ensures IsRunner(s.pc[t]) ==> forall u :: 0 <= u < |s.pc| && u != t ==> !IsRunner(s.pc[u])
  {
    assert LocalInv(s, t);
    var to := Next(s, s.pc[t]);
    TallyMove(RunnerFlags(s.pc), t, IsRunner(to));
    assert RunnerFlags(s'.pc) == RunnerFlags(s.pc)[t := IsRunner(to)];
    forall u | 0 <= u < |s.pc| && u != t && IsRunner(s.pc[t]) ensures !IsRunner(s.pc[u]) {
      TallyMove(RunnerFlags(s.pc), t, false);
      TallyMove(RunnerFlags(s.pc)[t := false], u, false);
    }
  }

  lemma LocalStep(s: State, s': State, t: nat, u: nat)
    requires Inv(s) && StepOf(s, s', t) && u < |s.pc|
    requires IsRunner(s.pc[t]) && u != t ==> !IsRunner(s.pc[u])
    ensures LocalInv(s', u)
  {
    assert LocalInv(s, t) && LocalInv(s, u);
  }

  lemma StepInv(s: State, s': State, t: nat)
    requires Inv(s) && StepOf(s, s', t)
    ensures Inv(s')
  {
    RunnerStep(s, s', t);
    assert LocalInv(s, t);
    forall u | 0 <= u < |s'.pc| ensures LocalInv(s', u) {
      LocalStep(s, s', t, u);
    }
  }

  lemma RunInv(run: seq<State>, i: nat)
    requires IsRun(Step, run) && Init(run[0]) && i < |run|
    ensures Inv(run[i])
  {
    InitInv(run[0]);
    forall s, s' | Inv(s) && Step(s, s') ensures Inv(s') {
      var t :| StepOf(s, s', t);
      StepInv(s, s', t);
    }
    RunKeeps(Step, Inv, run, i);
  }

  // ---------------------------------------------------------------- theorems

  /** However many threads call, the function is entered at most once, and a call
      only returns after that run of the function has finished. */
  lemma RunsOnceBeforeReturning(run: seq<State>, i: nat)
    requires IsRun(Step, run) && Init(run[0]) && i < |run|
    ensures run[i].finished <= run[i].started <= 1
    ensures (exists t :: 0 <= t < |run[i].pc| && run[i].pc[t] == Outside(true)) ==> run[i].finished == 1
  {
    RunInv(run, i);
    var s := run[i];
    if s.status == 1 {
      assert true in RunnerFlags(s.pc);
      var t :| 0 <= t < |s.pc| && RunnerFlags(s.pc)[t];
      assert LocalInv(s, t);
    }
    forall t | 0 <= t < |s.pc| && s.pc[t] == Outside(true) ensures s.finished == 1 {
      assert LocalInv(s, t);
    }
  }

  /** While the mutex is free, a sleeper means that the function is being run, by
      exactly one thread. */
  lemma SleepersWaitForTheRun(run: seq<State>, i: nat, t: nat)
    requires IsRun(Step, run) && Init(run[0]) && i < |run|
    requires run[i].mutex == Nobody && t < |run[i].pc| && run[i].pc[t].Sleeping?
    ensures run[i].status == 1 && Tally(RunnerFlags(run[i].pc)) == 1
  {
    RunInv(run, i);
    assert LocalInv(run[i], t);
  }

  /** No caller is stuck unless the function itself is still running. */
  lemma NeverStuck(run: seq<State>, i: nat, t: nat)
    requires IsRun(Step, run) && Init(run[0]) && i < |run|
    requires t < |run[i].pc| && (run[i].pc[t].Sleeping? || run[i].pc[t].Wanting?)
    ensures
      || (exists u, s' :: 0 <= u < |run[i].pc| && (run[i].pc[u].Wanting? || run[i].pc[u].Critical?) && StepOf(run[i], s', u))
      || (exists u :: 0 <= u < |run[i].pc| && run[i].pc[u] == InFunc)
  {
    RunInv(run, i);
    var s := run[i];
    if s.mutex.Thread? {
      assert LocalInv(s, s.mutex.t);
      CanStep(s, s.mutex.t);
    } else if u :| 0 <= u < |s.pc| && s.pc[u].Wanting? {
      CanStep(s, u);
    } else {
      assert LocalInv(s, t);
      assert true in RunnerFlags(s.pc);
      var u :| 0 <= u < |s.pc| && RunnerFlags(s.pc)[u];
      assert LocalInv(s, u) && s.pc[u] == InFunc;
    }
  }

  lemma CanStep(s: State, u: nat)
    requires u < |s.pc| && (s.pc[u].Critical? || (s.pc[u].Wanting? && s.mutex == Nobody))
    ensures exists s' :: StepOf(s, s', u)
  {
    var p, to, e := s.pc[u], Next(s, s.pc[u]), Effect(s, s.pc[u]);
    var s' := e.(pc := e.pc[u := to], mutex := if to.Critical? then Thread(u) else if p.Critical? then Nobody else s.mutex);
    assert StepOf(s, s', u);
  }
}
