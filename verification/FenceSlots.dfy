/** nvidia/fence.c: the event slots of _nvFenceWait_200, a 64-bit mask that threads
    change by compare-and-swap loops without any lock. */
module FenceSlots {
  import opened Runs

  /** g_NvEventUsedMask, a u64 used bit by bit: its bits, the lowest first. */
  type Mask = m: seq<bool> | |m| == 64 witness seq(64, _ => false)

  /** __builtin_ffs takes an int, so it only sees the low half of ~mask. */
  const INT_BITS := 32

  /** __builtin_ffs(~m) - 1, as a count from i: the lowest clear bit at i or above,
      and INT_BITS where the C expression gives -1. */
  function FirstClear(m: Mask, i: nat): (s: nat)
    requires i <= INT_BITS
    ensures i <= s <= INT_BITS && (s < INT_BITS ==> !m[s])
    ensures forall k :: i <= k < s ==> m[k]
    decreases INT_BITS - i
  {
    if i == INT_BITS || !m[i] then i else FirstClear(m, i + 1)
  }

  /** The results that _nvFenceWait_200 tells apart. */
  datatype Result = Success | Timeout | InsufficientMemory | Failure(code: nat)

  datatype Pc =
    | Idle                                   // a client; no call is running
    | GetLoad                                // _nvGetEventSlot: cur_mask = g_NvEventUsedMask
    | GetCas(cur: Mask)                      // _nvGetEventSlot: pick a slot of cur, compare-and-swap
    | GetEvent(slot: nat)                   // _nvGetEvent, NULL if it cannot register
    | WaitAsync(slot: nat)                  // nvioctlNvhostCtrl_EventWaitAsync
    | EventWait(slot: nat)                  // _nvFenceEventWaitCommon
    | FreeLoad(slot: nat, rc: Result)       // _nvFreeEventSlot: cur_mask = g_NvEventUsedMask
    | FreeCas(slot: nat, rc: Result, cur: Mask)
    | Return(rc: Result)

  /** What the driver answers to the three calls: whether the event could be registered,
      and the results of the asynchronous and of the blocking wait. */
  datatype Answer = Registered(ok: bool) | Async(rc: Result) | Awaited(rc: Result)

  /** `answers` is a proof variable: for each thread, what the driver has answered to its
      present call, or its last one. */
  datatype State = State(mask: Mask, pc: seq<Pc>, answers: seq<seq<Answer>>)

  ghost predicate Init(s: State) {
    && (forall k :: 0 <= k < 64 ==> !s.mask[k]) && |s.answers| == |s.pc|
    && forall t :: 0 <= t < |s.pc| ==> s.pc[t] == Idle
  }

  ghost predicate Said(s: State, s': State, t: nat, a: Answer)
    requires t < |s.answers|
  {
    s'.mask == s.mask && s'.answers == s.answers[t := s.answers[t] + [a]]
  }

  /** One atomic step of t: a load, a compare-and-swap, or a call that the driver answers
      as it likes. */
  ghost predicate StepOf(s: State, s': State, t: nat) {
    && t < |s.pc| == |s'.pc| == |s.answers|
    && s'.pc == s.pc[t := s'.pc[t]]
    && var to := s'.pc[t];
       match s.pc[t]
       case Idle => s'.mask == s.mask && s'.answers == s.answers[t := []] && to == GetLoad
       case GetLoad => s'.mask == s.mask && s'.answers == s.answers && to == GetCas(s.mask)
       case GetCas(cur) =>
         s'.answers == s.answers
         && var slot := FirstClear(cur, 0);
         if slot == INT_BITS then s'.mask == s.mask && to == Return(InsufficientMemory)
         else if s.mask == cur then s'.mask == cur[slot := true] && to == GetEvent(slot)
         else s'.mask == s.mask && to == GetCas(s.mask)
       case GetEvent(slot) =>
         exists ok :: Said(s, s', t, Registered(ok)) && to == if ok then WaitAsync(slot) else FreeLoad(slot, InsufficientMemory)
       case WaitAsync(slot) =>
         exists rc :: Said(s, s', t, Async(rc)) && to == if rc == Timeout then EventWait(slot) else FreeLoad(slot, rc)
       case EventWait(slot) => exists rc :: Said(s, s', t, Awaited(rc)) && to == FreeLoad(slot, rc)
       case FreeLoad(slot, rc) => s'.mask == s.mask && s'.answers == s.answers && to == FreeCas(slot, rc, s.mask)
       case FreeCas(slot, rc, cur) =>
         s'.answers == s.answers
         && if slot >= 64 then false
         else if s.mask == cur then s'.mask == cur[slot := false] && to == Return(rc)
         else s'.mask == s.mask && to == FreeCas(slot, rc, s.mask)
       case Return(_) => s'.mask == s.mask && s'.answers == s.answers && to == Idle
  }

  ghost predicate Step(s: State, s': State) { exists t :: StepOf(s, s', t) }

  // ---------------------------------------------------------------- invariant

  predicate HasSlot(p: Pc) { p.GetEvent? || p.WaitAsync? || p.EventWait? || p.FreeLoad? || p.FreeCas? }

  ghost predicate Holds(s: State, t: nat, k: nat)
    requires t < |s.pc|
  {
    HasSlot(s.pc[t]) && s.pc[t].slot == k
  }

  ghost predicate Inv(s: State) {
    && (forall t :: 0 <= t < |s.pc| && HasSlot(s.pc[t]) ==> s.pc[t].slot < INT_BITS)
    && (forall t, u :: 0 <= t < u < |s.pc| && HasSlot(s.pc[t]) && HasSlot(s.pc[u]) ==> s.pc[t].slot != s.pc[u].slot)
    && (forall k :: 0 <= k < 64 ==> (s.mask[k] <==> exists t :: 0 <= t < |s.pc| && Holds(s, t, k)))
  }

  /** A step that neither takes nor frees a slot. */
  lemma QuietStep(s: State, s': State, t: nat)
    requires Inv(s) && t < |s.pc| == |s'.pc| && s'.pc == s.pc[t := s'.pc[t]] && s'.mask == s.mask
    requires HasSlot(s.pc[t]) <==> HasSlot(s'.pc[t])
    requires HasSlot(s.pc[t]) ==> s'.pc[t].slot == s.pc[t].slot
    ensures Inv(s')
  {
    forall k | 0 <= k < 64 ensures s'.mask[k] <==> exists u :: 0 <= u < |s'.pc| && Holds(s', u, k) {
      if u :| 0 <= u < |s.pc| && Holds(s, u, k) {
        assert Holds(s', u, k);
      }
      if u :| 0 <= u < |s'.pc| && Holds(s', u, k) {
        assert Holds(s, u, k);
      }
    }
  }

  lemma TakingStep(s: State, s': State, t: nat, slot: nat)
    requires Inv(s) && t < |s.pc| == |s'.pc| && s'.pc == s.pc[t := GetEvent(slot)] && !HasSlot(s.pc[t])
    requires slot < INT_BITS && !s.mask[slot] && s'.mask == s.mask[slot := true]
    ensures Inv(s')
  {
    assert s'.pc[t] == GetEvent(slot);
    forall k | 0 <= k < 64 ensures s'.mask[k] <==> exists u :: 0 <= u < |s'.pc| && Holds(s', u, k) {
      if u :| 0 <= u < |s.pc| && Holds(s, u, k) {
        assert Holds(s', u, k);
      }
      assert Holds(s', t, slot);
      if u :| 0 <= u < |s'.pc| && Holds(s', u, k) {
        assert u != t ==> Holds(s, u, k);
      }
    }
    forall u | 0 <= u < |s.pc| && HasSlot(s.pc[u]) ensures s.pc[u].slot != slot {
      assert Holds(s, u, s.pc[u].slot);
    }
  }

  lemma FreeingStep(s: State, s': State, t: nat, slot: nat)
    requires Inv(s) && t < |s.pc| == |s'.pc| && s'.pc == s.pc[t := s'.pc[t]] && !HasSlot(s'.pc[t])
    requires HasSlot(s.pc[t]) && s.pc[t].slot == slot < 64 && s'.mask == s.mask[slot := false]
    ensures Inv(s')
  {
    forall k | 0 <= k < 64 ensures s'.mask[k] <==> exists u :: 0 <= u < |s'.pc| && Holds(s', u, k) {
      assert Holds(s, t, slot);
      if u :| 0 <= u < |s.pc| && Holds(s, u, k) {
        assert k != slot ==> Holds(s', u, k);
      }
      if u :| 0 <= u < |s'.pc| && Holds(s', u, k) {
        assert Holds(s, u, k);
      }
    }
  }

  lemma StepInv(s: State, s': State, t: nat)
    requires Inv(s) && StepOf(s, s', t)
    ensures Inv(s')
  {
    hide Inv;
    var p := s.pc[t];
    if p.GetCas? && s'.pc[t].GetEvent? {
      TakingStep(s, s', t, FirstClear(p.cur, 0));
    } else if p.FreeCas? && s'.pc[t].Return? {
      FreeingStep(s, s', t, p.slot);
    } else {
      QuietStep(s, s', t);
    }
  }

  lemma RunInv(run: seq<State>, i: nat)
    requires IsRun(Step, run) && Init(run[0]) && i < |run|
    ensures Inv(run[i])
  {
    forall s, s' | Inv(s) && Step(s, s') ensures Inv(s') {
      var t :| StepOf(s, s', t);
      StepInv(s, s', t);
    }
    RunKeeps(Step, Inv, run, i);
  }

  // ---------------------------------------------------------------- theorems

  /** Under every interleaving no slot is held by two threads, and the bits of the
      mask are exactly the slots that are held, all of them below 32. */
  lemma SlotsAreOwned(run: seq<State>, i: nat)
    requires IsRun(Step, run) && Init(run[0]) && i < |run|
    ensures forall t, u :: 0 <= t < u < |run[i].pc| && HasSlot(run[i].pc[t]) && HasSlot(run[i].pc[u]) ==>
              run[i].pc[t].slot != run[i].pc[u].slot
    ensures forall k :: 0 <= k < 64 ==> (run[i].mask[k] <==> exists t :: 0 <= t < |run[i].pc| && Holds(run[i], t, k))
    ensures forall k :: INT_BITS <= k < 64 ==> !run[i].mask[k]
  {
    RunInv(run, i);
  }

  /** A wait that acquired a slot gives it back whichever way it ends: once no call
      is between its two loops, the mask is 0. */
  lemma QuiescentMaskIsZero(run: seq<State>, i: nat)
    requires IsRun(Step, run) && Init(run[0]) && i < |run|
    requires forall t :: 0 <= t < |run[i].pc| ==> run[i].pc[t].Idle? || run[i].pc[t].Return?
    ensures run[i].mask == seq(64, _ => false)
  {
    RunInv(run, i);
  }

  /** A thread keeps its slot, bit and all, through every step of the others. */
  lemma OthersKeepSlot(run: seq<State>, i: nat, t: nat, u: nat)
    requires IsRun(Step, run) && Init(run[0]) && i + 1 < |run| && StepOf(run[i], run[i + 1], t)
    requires u < |run[i].pc| && u != t && HasSlot(run[i].pc[u])
    ensures run[i].pc[u].slot < 64 && u < |run[i + 1].pc|
    ensures run[i + 1].pc[u] == run[i].pc[u] && run[i + 1].mask[run[i].pc[u].slot]
  {
    RunInv(run, i);
    RunInv(run, i + 1);
    assert Holds(run[i + 1], u, run[i].pc[u].slot);
  }

  /** A thread takes the lowest slot that is free when its compare-and-swap wins,
      and gives up only on a mask whose 32 usable bits were all set. */
  lemma TakesLowestFree(run: seq<State>, i: nat, t: nat)
    requires IsRun(Step, run) && Init(run[0]) && i + 1 < |run| && StepOf(run[i], run[i + 1], t)
    requires run[i].pc[t].GetCas? && !run[i + 1].pc[t].GetCas?
    ensures run[i + 1].pc[t].GetEvent? ==>
              && run[i + 1].pc[t].slot < INT_BITS && !run[i].mask[run[i + 1].pc[t].slot]
              && (forall k :: 0 <= k < run[i + 1].pc[t].slot ==> run[i].mask[k])
              && run[i + 1].mask == run[i].mask[run[i + 1].pc[t].slot := true]
    ensures !run[i + 1].pc[t].GetEvent? ==>
              run[i + 1].pc[t] == Return(InsufficientMemory) && forall k :: 0 <= k < INT_BITS ==> run[i].pc[t].cur[k]
  {
    RunInv(run, i);
  }

  // ---------------------------------------------------------------- the result

  /** The last result the driver has given to a wait, and InsufficientMemory before that. */
  function LastResult(answers: seq<Answer>): Result {
    if answers == [] then InsufficientMemory
    else match answers[|answers| - 1]
         case Registered(_) => InsufficientMemory
         case Async(rc) => rc
         case Awaited(rc) => rc
  }

  /** The answers that a call has had at each of its points. */
  ghost predicate Heard(p: Pc, answers: seq<Answer>) {
    match p
    case Idle => true
    case GetLoad => answers == []
    case GetCas(_) => answers == []
    case GetEvent(_) => answers == []
    case WaitAsync(_) => answers == [Registered(true)]
    case EventWait(_) => answers == [Registered(true), Async(Timeout)]
    case FreeLoad(_, rc) => Finished(answers) && rc == LastResult(answers)
    case FreeCas(_, rc, _) => Finished(answers) && rc == LastResult(answers)
    case Return(rc) => (answers == [] || Finished(answers)) && rc == LastResult(answers)
  }

  /** Nothing more is asked of the driver: there is no event, or a wait has ended other
      than by the first time-out, which only means that the event has to be waited for. */
  predicate Finished(answers: seq<Answer>) {
    || answers == [Registered(false)]
    || (|answers| == 2 && answers[0] == Registered(true) && answers[1].Async? && answers[1].rc != Timeout)
    || (|answers| == 3 && answers[..2] == [Registered(true), Async(Timeout)] && answers[2].Awaited?)
  }

  ghost predicate HeardInv(s: State) {
    |s.answers| == |s.pc| && forall t :: 0 <= t < |s.pc| ==> Heard(s.pc[t], s.answers[t])
  }

  lemma HeardStep(s: State, s': State, t: nat)
    requires HeardInv(s) && StepOf(s, s', t)
    ensures HeardInv(s')
  {
    assert Heard(s.pc[t], s.answers[t]);
    forall u | 0 <= u < |s'.pc| ensures Heard(s'.pc[u], s'.answers[u]) {
      assert Heard(s.pc[u], s.answers[u]);
    }
  }

  /** A fence wait returns what the driver answered last, a time-out as a time-out, and
      InsufficientMemory without a slot or an event; it asks again exactly after the
      first time-out. */
  lemma ReturnsLastAnswer(run: seq<State>, i: nat, t: nat)
    requires IsRun(Step, run) && Init(run[0]) && i < |run| && t < |run[i].pc| && run[i].pc[t].Return?
    ensures t < |run[i].answers| && run[i].pc[t].rc == LastResult(run[i].answers[t])
    ensures run[i].answers[t] == [] || Finished(run[i].answers[t])
  {
    forall s, s' | HeardInv(s) && Step(s, s') ensures HeardInv(s') {
      var u :| StepOf(s, s', u);
      HeardStep(s, s', u);
    }
    RunKeeps(Step, HeardInv, run, i);
    assert Heard(run[i].pc[t], run[i].answers[t]);
  }

  /** Whatever the driver may answer to a wait, the model has a step for it. */
  lemma AnyAnswerIsHeard(s: State, t: nat, rc: Result) returns (s': State)
    requires t < |s.pc| == |s.answers| && (s.pc[t].WaitAsync? || s.pc[t].EventWait?)
    ensures StepOf(s, s', t) && s'.answers[t] == s.answers[t] + [if s.pc[t].WaitAsync? then Async(rc) else Awaited(rc)]
  {
    var slot, a := s.pc[t].slot, if s.pc[t].WaitAsync? then Async(rc) else Awaited(rc);
    s' := State(s.mask, s.pc[t := if s.pc[t].WaitAsync? && rc == Timeout then EventWait(slot) else FreeLoad(slot, rc)],
                s.answers[t := s.answers[t] + [a]]);
    assert Said(s, s', t, a);
  }
}
