/** kernel/barrier.c: a reusable barrier whose waiters do not re-test anything. */
module Barrier {
  import opened Arithmetic
  import opened Runs

  const U64_RANGE := 0x1_0000_0000_0000_0000

  datatype Point =
    | Outside
    | Count    // if (b->count++ == b->total)
    | Reset    // b->count = 0
    | Signal   // condvarWake(&b->condvar, b->total)
    | Wait     // condvarWait
    | Leave    // mutexUnlock

  datatype Pc = Client | Wanting(next: Point) | Critical(at: Point) | Sleeping

  /** Proof variables: all arrivals, the generations completed, and for each thread
      the generation in which it last arrived. */
  datatype State = State(mutex: Holder, count: nat, total: nat, pc: seq<Pc>,
                         arrivals: nat, generation: nat, ticket: seq<nat>)

  /** barrierInit; a thread count of 0 wraps `total` around. */
  ghost predicate Init(s: State, threadCount: nat) {
    && threadCount < U64_RANGE
    && s.mutex == Nobody && s.count == 0
    && s.total == (if threadCount == 0 then U64_RANGE - 1 else threadCount - 1)
    && s.arrivals == 0 && s.generation == 0
    && |s.pc| == |s.ticket| < 0x8000_0000
    && forall t :: 0 <= t < |s.pc| ==> s.pc[t] == Client
  }

  /** The conversion of `total`, a u64, to the signed 32-bit argument of the signal. */
  function AsInt(x: nat): int {
    var low := x % 0x1_0000_0000;
    if low < 0x8000_0000 then low else low - 0x1_0000_0000
  }

  function SleeperFlags(pc: seq<Pc>): seq<bool> { seq(|pc|, t requires 0 <= t < |pc| => pc[t].Sleeping?) }
  function Sleepers(pc: seq<Pc>): nat { Tally(SleeperFlags(pc)) }

  /** svcSignalProcessWideKey: the kernel picks num sleepers, or all of them if
      there are fewer or if num is not positive. */
  ghost predicate Signalled(pc: seq<Pc>, pc': seq<Pc>, num: int) {
    && |pc'| == |pc|
    && (forall t :: 0 <= t < |pc| ==> pc'[t] == pc[t] || (pc[t] == Sleeping && pc'[t] == Wanting(Leave)))
    && Sleepers(pc') == if num <= 0 || Sleepers(pc) <= num then 0 else Sleepers(pc) - num
  }

  /** What the statement at p does, apart from the signal. */
  function Effect(s: State, t: nat, p: Pc): State
    requires t < |s.ticket|
  {
    match p
    case Critical(Count) =>
      s.(count := if s.count + 1 == U64_RANGE then 0 else s.count + 1,
         arrivals := s.arrivals + 1, ticket := s.ticket[t := s.generation])
    case Critical(Reset) => s.(count := 0, generation := s.generation + 1)
    case _ => s
  }

  /** Where control goes from p; the test at Count is on the old count. */
  function Next(s: State, p: Pc): Pc {
    match p
    case Client => Wanting(Count)
    case Wanting(next) => if s.mutex == Nobody then Critical(next) else p
    case Critical(Count) => if s.count == s.total then Critical(Reset) else Critical(Wait)
    case Critical(Reset) => Critical(Signal)
    case Critical(Signal) => Critical(Leave)
    case Critical(Wait) => Sleeping
    case Critical(Leave) => Client
    case _ => p
  }

  ghost predicate StepOf(s: State, s': State, t: nat) {
    && t < |s.pc| == |s.ticket|
    && var p, to, e := s.pc[t], Next(s, s.pc[t]), Effect(s, t, s.pc[t]);
    && to != p
    && s' == e.(pc := s'.pc, mutex := if to.Critical? then Thread(t) else if p.Critical? then Nobody else s.mutex)
    && exists pc :: Signals(s, p, pc) && s'.pc == pc[t := to]
  }

  /** What the statement at p does to the other threads. */
  ghost predicate Signals(s: State, p: Pc, pc: seq<Pc>) {
    if p == Critical(Signal) then Signalled(s.pc, pc, AsInt(s.total)) else pc == s.pc
  }

  ghost predicate Step(s: State, s': State) { exists t :: StepOf(s, s', t) }

  // ---------------------------------------------------------------- invariant

  ghost predicate At(s: State, p: Point) {
    s.mutex.Thread? && s.mutex.t < |s.pc| && s.pc[s.mutex.t] == Critical(p)
  }

  /** Released by the barrier, or releasing it. */
  predicate Passing(p: Pc) { p == Wanting(Leave) || p == Critical(Leave) || p == Critical(Signal) }

  ghost predicate LocalInv(s: State, t: nat)
    requires t < |s.pc| == |s.ticket|
  {
    var p := s.pc[t];
    && (p.Critical? <==> s.mutex == Thread(t))
    && (p.Wanting? ==> p.next == Count || p.next == Leave) && p != Critical(Outside)
    && (p == Critical(Wait) || p == Critical(Reset) ==> s.ticket[t] == s.generation)
    && (p.Sleeping? ==> s.ticket[t] + (if At(s, Signal) then 1 else 0) == s.generation)
    && (Passing(p) ==> s.ticket[t] < s.generation)
  }

  ghost predicate CountInv(s: State) {
    && s.total < U64_RANGE
    && (s.mutex.Thread? ==> s.mutex.t < |s.pc|)
    && (if At(s, Reset) then s.count == s.total + 1 else s.count <= s.total)
    && (At(s, Signal) ==> s.count == 0)
    && s.count + (if At(s, Signal) then s.total else 0) == Sleepers(s.pc) + (if At(s, Wait) || At(s, Reset) then 1 else 0)
  }

  ghost predicate ControlInv(s: State) {
    && |s.pc| == |s.ticket| < 0x8000_0000
    && CountInv(s)
    && forall t :: 0 <= t < |s.pc| ==> LocalInv(s, t)
  }

  ghost predicate ArrivalsInv(s: State) {
    s.arrivals == s.generation * (s.total + 1) + s.count
  }

  ghost predicate Inv(s: State) { ControlInv(s) && ArrivalsInv(s) }

  lemma InitInv(s: State, threadCount: nat)
    requires Init(s, threadCount)
    ensures Inv(s)
  {
    assert true !in SleeperFlags(s.pc);
  }

  /** The number of sleepers to wake survives the narrowing to an int, or becomes one
      that wakes them all. */
  predicate WakesAll(total: nat) {
    total < 0x8000_0000 || total % 0x1_0000_0000 == 0 || total % 0x1_0000_0000 >= 0x8000_0000
  }

  /** A signal for `total` sleepers, when there are that many, wakes them all exactly if
      the narrowing of `total` allows it, as it does for less than 2^31 threads. */
  lemma SignalWakesAll(s: State, pc: seq<Pc>)
    requires Sleepers(s.pc) == s.total && Signalled(s.pc, pc, AsInt(s.total))
    ensures Sleepers(pc) == 0 <==> WakesAll(s.total)
    ensures |s.pc| < 0x8000_0000 ==> WakesAll(s.total)
    ensures WakesAll(s.total) ==> forall t :: 0 <= t < |pc| ==> pc[t] == if s.pc[t].Sleeping? then Wanting(Leave) else s.pc[t]
  {
    TallyBound(SleeperFlags(s.pc));
    if WakesAll(s.total) {
      forall t | 0 <= t < |pc| ensures !pc[t].Sleeping? {
        TallyMove(SleeperFlags(pc), t, false);
      }
    }
  }

  lemma SignalStep(s: State, s': State, t: nat)
    requires ControlInv(s) && StepOf(s, s', t) && s.pc[t] == Critical(Signal)
    ensures |s'.pc| == |s.pc| && Sleepers(s'.pc) == 0 && s'.pc[t] == Critical(Leave)
    ensures forall u :: 0 <= u < |s.pc| && u != t ==> s'.pc[u] == if s.pc[u].Sleeping? then Wanting(Leave) else s.pc[u]
  {
    assert LocalInv(s, t);
    var pc :| Signals(s, s.pc[t], pc) && s'.pc == pc[t := Critical(Leave)];
    SignalWakesAll(s, pc);
    assert SleeperFlags(s'.pc) == SleeperFlags(pc);
  }

  lemma SleepersStep(s: State, s': State, t: nat)
    requires StepOf(s, s', t) && s.pc[t] != Critical(Signal)
    ensures s'.pc == s.pc[t := Next(s, s.pc[t])]
    ensures Sleepers(s'.pc) == Sleepers(s.pc) + (if s.pc[t] == Critical(Wait) then 1 else 0)
  {
    var sleeps := Next(s, s.pc[t]).Sleeping?;
    TallyMove(SleeperFlags(s.pc), t, sleeps);
    assert SleeperFlags(s'.pc) == SleeperFlags(s.pc)[t := sleeps];
  }

  lemma CountStep(s: State, s': State, t: nat)
    requires ControlInv(s) && StepOf(s, s', t)
    ensures CountInv(s') && |s'.pc| == |s.pc| && |s'.ticket| == |s.ticket|
  {
    assert LocalInv(s, t);
    TallyBound(SleeperFlags(s.pc));
    if s.pc[t] == Critical(Signal) {
      SignalStep(s, s', t);
    } else {
      SleepersStep(s, s', t);
    }
  }

  lemma LocalStep(s: State, s': State, t: nat, u: nat)
    requires ControlInv(s) && StepOf(s, s', t) && CountInv(s') && |s'.pc| == |s.pc| && u < |s.pc|
    ensures LocalInv(s', u)
  {
    assert LocalInv(s, t) && LocalInv(s, u);
    if s.pc[t] == Critical(Signal) {
      SignalStep(s, s', t);
    } else {
      SleepersStep(s, s', t);
    }
  }

  /** Each arrival adds to the count; a completed generation takes threadCount off it. */
  lemma ArrivalsStep(s: State, s': State, t: nat)
    requires ControlInv(s) && StepOf(s, s', t)
    ensures s'.total == s.total
    ensures
      || (s'.generation == s.generation && s'.arrivals - s'.count == s.arrivals - s.count)
      || (s'.generation == s.generation + 1 && s'.arrivals == s.arrivals && s.count == s.total + 1 && s'.count == 0)
  {
    assert LocalInv(s, t);
    TallyBound(SleeperFlags(s.pc));
  }

  lemma ArrivalsArith(a: nat, g: nat, n: nat, c: nat, a': nat, g': nat, c': nat)
    requires a == g * n + c
    requires (g' == g && a' - c' == a - c) || (g' == g + 1 && a' == a && c == n && c' == 0)
    ensures a' == g' * n + c'
  {
    assert (g + 1) * n == g * n + n;
  }

  lemma StepInv(s: State, s': State, t: nat)
    requires Inv(s) && StepOf(s, s', t)
    ensures Inv(s')
  {
    CountStep(s, s', t);
    forall u | 0 <= u < |s'.pc| ensures LocalInv(s', u) {
      LocalStep(s, s', t, u);
    }
    ArrivalsStep(s, s', t);
    ArrivalsArith(s.arrivals, s.generation, s.total + 1, s.count, s'.arrivals, s'.generation, s'.count);
  }

  lemma RunInv(run: seq<State>, threadCount: nat, i: nat)
    requires IsRun(Step, run) && Init(run[0], threadCount) && i < |run|
    ensures Inv(run[i])
  {
    InitInv(run[0], threadCount);
    forall s, s' | Inv(s) && Step(s, s') ensures Inv(s') {
      var t :| StepOf(s, s', t);
      StepInv(s, s', t);
    }
    RunKeeps(Step, Inv, run, i);
  }

  lemma {:induction false} TotalIsFixed(run: seq<State>, i: nat)
    requires IsRun(Step, run) && i < |run|
    ensures run[i].total == run[0].total
  {
    if i > 0 {
      TotalIsFixed(run, i - 1);
      assert Step(run[i - 1], run[i]);
    }
  }

  // ---------------------------------------------------------------- theorems

  /** Whenever the mutex is free, exactly `count` threads are asleep, fewer than the
      barrier waits for: nobody sleeps through a complete generation. */
  lemma SleepersEqualCount(run: seq<State>, threadCount: nat, i: nat)
    requires IsRun(Step, run) && Init(run[0], threadCount) && i < |run|
    requires run[i].mutex == Nobody
    ensures Sleepers(run[i].pc) == run[i].count
    ensures threadCount > 0 ==> run[i].count < threadCount
  {
    RunInv(run, threadCount, i);
    TotalIsFixed(run, i);
  }

  /** The arrivals fill the generations one after the other, threadCount to each. */
  lemma GenerationsAreFull(run: seq<State>, threadCount: nat, i: nat)
    requires IsRun(Step, run) && Init(run[0], threadCount) && i < |run|
    requires threadCount > 0 && !At(run[i], Reset)
    ensures run[i].generation == run[i].arrivals / threadCount && run[i].count == run[i].arrivals % threadCount
  {
    RunInv(run, threadCount, i);
    TotalIsFixed(run, i);
    DivMod(run[i].generation, threadCount, run[i].count);
  }

  /** No thread passes the barrier before its own generation is complete. */
  lemma NobodyPassesEarly(run: seq<State>, threadCount: nat, i: nat, t: nat)
    requires IsRun(Step, run) && Init(run[0], threadCount) && i < |run|
    requires threadCount > 0 && t < |run[i].pc| && Passing(run[i].pc[t])
    ensures t < |run[i].ticket| && run[i].ticket[t] < run[i].generation
    ensures run[i].arrivals >= (run[i].ticket[t] + 1) * threadCount
  {
    RunInv(run, threadCount, i);
    TotalIsFixed(run, i);
    var s := run[i];
    assert LocalInv(s, t);
    TimesMonotone(s.ticket[t] + 1, s.generation, threadCount);
  }

  /** Before its arrival is counted, a call is at one of these points. */
  predicate Arriving(p: Pc) { p == Wanting(Count) || p == Critical(Count) }

  /** What a step of u does to the point and the ticket of t. */
  lemma PointMoves(s: State, s': State, u: nat, t: nat)
    requires ControlInv(s) && StepOf(s, s', u) && t < |s.pc|
    ensures |s'.pc| == |s.pc| && s'.pc[t] == if u == t then Next(s, s.pc[t]) else if s.pc[u] == Critical(Signal) && s.pc[t].Sleeping? then Wanting(Leave) else s.pc[t]
  {
    if s.pc[u] == Critical(Signal) {
      SignalStep(s, s', u);
    } else {
      SleepersStep(s, s', u);
    }
  }

  lemma TicketMoves(s: State, s': State, u: nat, t: nat)
    requires |s.pc| == |s.ticket| && StepOf(s, s', u) && t < |s.pc|
    ensures |s'.ticket| == |s.ticket| && s.generation <= s'.generation
    ensures s'.ticket[t] == if u == t && s.pc[t] == Critical(Count) then s.generation else s.ticket[t]
  {
  }

  lemma CallStep(s: State, s': State, u: nat, t: nat, g: nat)
    requires Inv(s) && StepOf(s, s', u) && t < |s.pc|
    requires g <= s.generation && (s.pc[t].Client? || Arriving(s.pc[t]) || g <= s.ticket[t])
    ensures |s'.pc| == |s.pc| == |s'.ticket| == |s.ticket| && g <= s'.generation
    ensures s'.pc[t].Client? || Arriving(s'.pc[t]) || g <= s'.ticket[t]
    ensures !s.pc[t].Client? && s'.pc[t].Client? ==> Passing(s.pc[t]) && g <= s'.ticket[t]
  {
    PointMoves(s, s', u, t);
    TicketMoves(s, s', u, t);
    hide ControlInv, StepOf, ArrivalsInv;
  }

  lemma {:induction false} CallKeepsTicket(run: seq<State>, threadCount: nat, i: nat, j: nat, t: nat)
    requires IsRun(Step, run) && Init(run[0], threadCount) && i <= j < |run| && t < |run[i].pc| && run[i].pc[t].Client?
    requires forall k :: i < k < j ==> t < |run[k].pc| && !run[k].pc[t].Client?
    ensures |run[j].pc| == |run[i].pc| == |run[j].ticket| && run[i].generation <= run[j].generation
    ensures run[j].pc[t].Client? || Arriving(run[j].pc[t]) || run[i].generation <= run[j].ticket[t]
    ensures i + 1 < j && run[j].pc[t].Client? ==> Passing(run[j - 1].pc[t]) && run[i].generation <= run[j].ticket[t]
    decreases j
  {
    RunInv(run, threadCount, j);
    if i < j {
      CallKeepsTicket(run, threadCount, i, j - 1, t);
      RunInv(run, threadCount, j - 1);
      assert Step(run[j - 1], run[j]);
      var u :| StepOf(run[j - 1], run[j], u);
      CallStep(run[j - 1], run[j], u, t, run[i].generation);
    }
  }

  /** A call comes back only after the generation it arrived in is complete, one that was
      not complete yet when the call began: no call slips through on an earlier one. */
  lemma CallWaitsForItsGeneration(run: seq<State>, threadCount: nat, i: nat, j: nat, t: nat)
    requires IsRun(Step, run) && Init(run[0], threadCount) && threadCount > 0
    requires i + 1 < j < |run| && t < |run[i].pc| && run[i].pc[t].Client?
    requires forall k :: i < k < j ==> t < |run[k].pc| && !run[k].pc[t].Client?
    requires t < |run[j].pc| && run[j].pc[t].Client?
    ensures t < |run[j].ticket| && run[i].generation <= run[j].ticket[t] < run[j].generation
    ensures run[j].arrivals >= (run[j].ticket[t] + 1) * threadCount
  {
    hide *;
    CallKeepsTicket(run, threadCount, i, j, t);
    CallKeepsTicket(run, threadCount, i, j - 1, t);
    PassingKept(run, threadCount, j - 1, t);
    ArrivalsFill(run, threadCount, j);
    TimesMonotone(run[j].ticket[t] + 1, run[j].generation, threadCount);
  }

  lemma ArrivalsFill(run: seq<State>, threadCount: nat, i: nat)
    requires IsRun(Step, run) && Init(run[0], threadCount) && threadCount > 0 && i < |run|
    ensures run[i].arrivals >= run[i].generation * threadCount
  {
    RunInv(run, threadCount, i);
    TotalIsFixed(run, i);
  }

  lemma PassingKept(run: seq<State>, threadCount: nat, i: nat, t: nat)
    requires IsRun(Step, run) && Init(run[0], threadCount) && i + 1 < |run| && t < |run[i].pc| && Passing(run[i].pc[t])
    ensures |run[i + 1].ticket| == |run[i].ticket| == |run[i].pc| && run[i + 1].ticket[t] < run[i + 1].generation
  {
    RunInv(run, threadCount, i);
    assert LocalInv(run[i], t);
    assert Step(run[i], run[i + 1]);
    hide StepOf;
    var u :| StepOf(run[i], run[i + 1], u);
    TicketMoves(run[i], run[i + 1], u, t);
  }

  /** The signal that ends a generation releases the sleepers of that generation,
      all of them, and no other thread: one that has come back already is not yet
      counted, and can only sleep after the signal. */
  lemma SignalReleasesOneGeneration(run: seq<State>, threadCount: nat, i: nat, t: nat, u: nat)
    requires IsRun(Step, run) && Init(run[0], threadCount) && i + 1 < |run|
    requires StepOf(run[i], run[i + 1], t) && run[i].pc[t] == Critical(Signal)
    requires u < |run[i].pc| && u != t
    ensures u < |run[i + 1].pc| && u < |run[i].ticket|
    ensures run[i + 1].pc[u] == if run[i].pc[u] == Sleeping then Wanting(Leave) else run[i].pc[u]
    ensures run[i].pc[u] == Sleeping ==> run[i].ticket[u] == run[i].generation - 1
  {
    RunInv(run, threadCount, i);
    var s := run[i];
    assert LocalInv(s, t) && LocalInv(s, u);
    SignalStep(s, run[i + 1], t);
  }

  /** All sleepers awakened. */
  function Awakened(pc: seq<Pc>): seq<Pc> {
    seq(|pc|, t requires 0 <= t < |pc| => if pc[t].Sleeping? then Wanting(Leave) else pc[t])
  }

  lemma CanSignal(s: State)
    requires Sleepers(s.pc) <= s.total && |s.pc| < 0x8000_0000 && (Sleepers(s.pc) == s.total || s.total < 0x8000_0000)
    ensures Signalled(s.pc, Awakened(s.pc), AsInt(s.total))
  {
    assert true !in SleeperFlags(Awakened(s.pc));
    TallyBound(SleeperFlags(s.pc));
  }

  lemma CanStep(s: State, u: nat)
    requires ControlInv(s) && u < |s.pc| && !s.pc[u].Sleeping? && (s.pc[u].Wanting? ==> s.mutex == Nobody) && s.pc[u] != Critical(Outside)
    ensures exists s' :: StepOf(s, s', u)
  {
    assert LocalInv(s, u);
    var p, to, e := s.pc[u], Next(s, s.pc[u]), Effect(s, u, s.pc[u]);
    var pc := if p == Critical(Signal) then Awakened(s.pc) else s.pc;
    if p == Critical(Signal) {
      TallyBound(SleeperFlags(s.pc));
      CanSignal(s);
    }
    assert Signals(s, p, pc);
    var s' := e.(pc := pc[u := to], mutex := if to.Critical? then Thread(u) else if p.Critical? then Nobody else s.mutex);
    assert StepOf(s, s', u);
  }

  lemma SomeoneAwake(s: State)
    requires ControlInv(s) && s.mutex == Nobody && s.total < |s.pc|
    ensures exists u :: 0 <= u < |s.pc| && !s.pc[u].Sleeping?
  {
    if forall u :: 0 <= u < |s.pc| ==> s.pc[u].Sleeping? {
      AllAsleep(SleeperFlags(s.pc));
    }
  }

  lemma AllAsleep(flags: seq<bool>)
    requires forall k :: 0 <= k < |flags| ==> flags[k]
    ensures Tally(flags) == |flags|
  {
    if flags != [] {
      AllAsleep(flags[1..]);
      assert flags == [flags[0]] + flags[1..];
    }
  }

  /** With as many threads as the barrier waits for, or more, somebody can always move. */
  lemma NeverStuck(run: seq<State>, threadCount: nat, i: nat)
    requires IsRun(Step, run) && Init(run[0], threadCount) && i < |run| && 0 < threadCount <= |run[i].pc|
    ensures exists u, s' :: StepOf(run[i], s', u)
  {
    RunInv(run, threadCount, i);
    TotalIsFixed(run, i);
    var s := run[i];
    if s.mutex.Thread? {
      assert LocalInv(s, s.mutex.t);
      CanStep(s, s.mutex.t);
    } else {
      SomeoneAwake(s);
      var u :| 0 <= u < |s.pc| && !s.pc[u].Sleeping?;
      assert LocalInv(s, u);
      CanStep(s, u);
    }
  }
}
