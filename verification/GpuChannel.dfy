/** nvidia/gpu_channel.c: the queue of GPU commands that is flushed to the driver,
    retried while the driver is busy, and kept when the driver fails. */
module GpuChannel {

  const QUEUE_SIZE := 0x800
  const U32_RANGE := 0x1_0000_0000

  type u32 = w: int | 0 <= w < U32_RANGE

  function Add32(a: u32, b: u32): u32 { if a + b < U32_RANGE then a + b else a + b - U32_RANGE }

  // BIT(2), and BIT(8) when the fence is to be incremented
  const KICKOFF_FLAGS: bv32 := 4
  const FENCE_FLAG: bv32 := 0x100

  /** The driver's answer to one submission. */
  datatype Reply = Success | Busy | Failed(code: nat)

  datatype Result = Ok | BadInput | OutOfMemory | Driver(code: nat)

  /** One submission: the commands, the flags, and the fence increment. */
  datatype Attempt = Attempt(commands: seq<bv64>, flags: bv32, increment: u32)

  /** How many times the driver is asked: up to its first answer that is not Busy. */
  function Tries(replies: seq<Reply>): (n: nat)
    requires exists i :: 0 <= i < |replies| && replies[i] != Busy
    ensures 1 <= n <= |replies| && replies[n - 1] != Busy && forall k :: 0 <= k < n - 1 ==> replies[k] == Busy
  {
    if replies[0] != Busy then 1 else 1 + Tries(replies[1..])
  }

  /** The answer that ends the retry loop. */
  function Definite(replies: seq<Reply>): (r: Reply)
    requires exists i :: 0 <= i < |replies| && replies[i] != Busy
    ensures r != Busy
  {
    replies[Tries(replies) - 1]
  }

  // ---------------------------------------------------------------- specification

  /** `pending` waits in the queue; `submitted` is what the driver has accepted. */
  datatype Channel = Channel(pending: seq<bv64>, submitted: seq<bv64>, fenceValue: u32, fenceIncr: u32)

  function Kicked(c: Channel, reply: Reply): (Result, Channel)
    requires reply != Busy
  {
    if c.pending == [] then (Ok, c)
    else match reply
      case Success => (Ok, Channel([], c.submitted + c.pending, Add32(c.fenceValue, c.fenceIncr), 0))
      case Failed(code) => (Driver(code), c)
  }

  function Appended(c: Channel, command: bv64, threshold: nat, reply: Reply): (Result, Channel)
    requires reply != Busy
  {
    if threshold >= QUEUE_SIZE then (BadInput, c)
    else
      var (res, flushed) := if |c.pending| >= QUEUE_SIZE - threshold then Kicked(c, reply) else (Ok, c);
      if res != Ok then (res, flushed)
      else (Ok, flushed.(pending := flushed.pending + [command]))
  }

  /** The queue is flushed exactly when fewer than `threshold` places are left beside the
      one for the new command; afterwards as many are left, and a failed flush loses
      nothing. */
  lemma FlushKeepsRoom(c: Channel, command: bv64, threshold: nat, reply: Reply)
    requires reply != Busy && threshold < 0x800
    ensures var (res, after) := Appended(c, command, threshold, reply);
      && (|c.pending| + threshold < 0x800 ==> res == Ok && after == c.(pending := c.pending + [command]))
      && (|c.pending| + threshold >= 0x800 && c.pending != [] && reply == Success ==>
            res == Ok && after.pending == [command] && after.submitted == c.submitted + c.pending)
      && (|c.pending| + threshold >= 0x800 && c.pending != [] && reply.Failed? ==> res == Driver(reply.code) && after == c)
      && (res == Ok ==> |after.pending| + threshold <= 0x800)
  {
  }

  /** entry->desc = start; entry->desc32[1] |= flags | (num_cmds << 10) */
  function Command(start: bv64, numCmds: bv64, flags: bv32): bv64 {
    start | (((flags as bv64) | (numCmds << 10)) << 32)
  }

  /** A 40-bit address, a 21-bit count and the two entry flags do not overlap: each
      can be read back from the command. */
  lemma CommandFields(start: bv64, numCmds: bv64, flags: bv32)
    requires start < 0x100_0000_0000 && numCmds < 0x20_0000 && flags & 0x8000_0200 == flags
    ensures Command(start, numCmds, flags) & 0xFF_FFFF_FFFF == start
    ensures (Command(start, numCmds, flags) >> 42) & 0x1F_FFFF == numCmds
    ensures (Command(start, numCmds, flags) >> 32) & 0x8000_0200 == flags as bv64
  {
  }

  // ---------------------------------------------------------------- the channel

  class NvGpuChannel {
    const entries: array<bv64>
    var numEntries: nat
    var fenceValue: u32
    var fenceIncr: u32
    ghost var submitted: seq<bv64>
    ghost var attempts: seq<Attempt>

    ghost predicate Valid()
      reads this
    {
      entries.Length == QUEUE_SIZE && numEntries <= QUEUE_SIZE
    }

    ghost function View(): Channel
      requires Valid()
      reads this, entries
    {
      Channel(entries[..numEntries], submitted, fenceValue, fenceIncr)
    }

    constructor (value: u32)
      ensures Valid() && View() == Channel([], [], value, 0) && attempts == [] && fresh(entries)
    {
      entries := new bv64[QUEUE_SIZE];
      numEntries, fenceValue, fenceIncr := 0, value, 0;
      submitted, attempts := [], [];
    }

    /** nvGpuChannelIncrFence */
    method IncrFence()
      requires Valid()
      modifies this
      ensures Valid() && View() == old(View()).(fenceIncr := Add32(old(fenceIncr), 1))
    {
      fenceIncr := Add32(fenceIncr, 1);
    }

    /** nvGpuChannelKickoff, with the answers the driver will give; it does not stay
        busy for ever.  Every attempt submits the same, whole queue. */
    method Kickoff(replies: seq<Reply>) returns (res: Result)
      requires Valid() && exists i :: 0 <= i < |replies| && replies[i] != Busy
      modifies this
      ensures Valid()
      ensures (res, View()) == Kicked(old(View()), Definite(replies))
      ensures |attempts| == |old(attempts)| + if old(numEntries) == 0 then 0 else Tries(replies)
      ensures attempts[..|old(attempts)|] == old(attempts)
      ensures forall k :: |old(attempts)| <= k < |attempts| ==>
                attempts[k] == Attempt(old(View()).pending, if old(fenceIncr) != 0 then 0x104 else 0x004, old(fenceIncr))
    {
      if numEntries == 0 {
        return Ok;
      }
      var flags := KICKOFF_FLAGS;
      if fenceIncr != 0 {
        flags := flags | FENCE_FLAG;
      }
      var reply: Reply;
      var i := 0;
      while true
        invariant 0 <= i < |replies|
        invariant exists k :: i <= k < |replies| && replies[k] != Busy
        invariant forall k :: 0 <= k < i ==> replies[k] == Busy
        invariant Valid() && View() == old(View())
        invariant |attempts| == |old(attempts)| + i && attempts[..|old(attempts)|] == old(attempts)
        invariant forall k :: |old(attempts)| <= k < |attempts| ==> attempts[k] == Attempt(old(View()).pending, flags, fenceIncr)
        decreases |replies| - i
      {
        attempts := attempts + [Attempt(entries[..numEntries], flags, fenceIncr)];
        reply := replies[i];
        if reply != Busy {
          break;
        }
        i := i + 1;
      }
      assert i + 1 == Tries(replies) && reply == Definite(replies);
      match reply {
        case Success =>
          submitted := submitted + entries[..numEntries];
          fenceValue := Add32(fenceValue, fenceIncr);
          fenceIncr := 0;
          numEntries := 0;
          return Ok;
        case Failed(code) =>
          return Driver(code);
      }
    }

    /** nvGpuChannelAppendEntry; the test for a full queue never succeeds. */
    method AppendEntry(start: bv64, numCmds: bv64, flags: bv32, threshold: nat, replies: seq<Reply>) returns (res: Result)
      requires Valid() && exists i :: 0 <= i < |replies| && replies[i] != Busy
      modifies this, entries
      ensures Valid()
      ensures (res, View()) == Appended(old(View()), Command(start, numCmds, flags), threshold, Definite(replies))
      ensures res != OutOfMemory
    {
      if threshold >= QUEUE_SIZE {
        return BadInput;
      }
      if numEntries >= QUEUE_SIZE - threshold {
        res := Kickoff(replies);
        if res != Ok {
          return;
        }
      }
      if numEntries >= QUEUE_SIZE {
        return OutOfMemory;
      }
      ghost var before := View();
      entries[numEntries] := Command(start, numCmds, flags);
      numEntries := numEntries + 1;
      assert entries[..numEntries] == before.pending + [Command(start, numCmds, flags)];
      return Ok;
    }
  }

  // ---------------------------------------------------------------- histories

  datatype Op =
    | Append(command: bv64, threshold: nat, reply: Reply)
    | Kick(reply: Reply)
    | Incr

  ghost predicate IsOp(op: Op) { op.Incr? || op.reply != Busy }

  /** One operation on the channel, with its result. */
  ghost function After(c: Channel, op: Op): (Result, Channel)
    requires IsOp(op)
  {
    match op
    case Append(command, threshold, reply) => Appended(c, command, threshold, reply)
    case Kick(reply) => Kicked(c, reply)
    case Incr => (Ok, c.(fenceIncr := Add32(c.fenceIncr, 1)))
  }

  ghost function Replay(value: u32, ops: seq<Op>): Channel
    requires forall k :: 0 <= k < |ops| ==> IsOp(ops[k])
  {
    if ops == [] then Channel([], [], value, 0)
    else After(Replay(value, ops[..|ops| - 1]), ops[|ops| - 1]).1
  }

  /** The commands whose appendEntry reported success, in order. */
  ghost function Accepted(value: u32, ops: seq<Op>): seq<bv64>
    requires forall k :: 0 <= k < |ops| ==> IsOp(ops[k])
  {
    if ops == [] then []
    else
      var before, op := ops[..|ops| - 1], ops[|ops| - 1];
      if op.Append? && After(Replay(value, before), op).0 == Ok
      then Accepted(value, before) + [op.command] else Accepted(value, before)
  }

  ghost function Increments(ops: seq<Op>): nat {
    if ops == [] then 0 else Increments(ops[..|ops| - 1]) + (if ops[|ops| - 1].Incr? then 1 else 0)
  }

  /** Whatever the driver answers, no accepted command is lost, repeated or
      reordered: those submitted, then those pending, are the accepted ones.  The
      queue never overflows, and a submission goes out whole. */
  lemma {:induction false} CommandsConserved(value: u32, ops: seq<Op>)
    requires forall k :: 0 <= k < |ops| ==> IsOp(ops[k])
    ensures var c := Replay(value, ops);
      c.submitted + c.pending == Accepted(value, ops) && |c.pending| <= QUEUE_SIZE
  {
    if ops != [] {
      CommandsConserved(value, ops[..|ops| - 1]);
      var c := Replay(value, ops[..|ops| - 1]);
      assert (c.submitted + c.pending) + [] == c.submitted + c.pending;
      if ops[|ops| - 1].Append? {
        var command := ops[|ops| - 1].command;
        assert (c.submitted + c.pending) + [command] == c.submitted + (c.pending + [command]);
      }
    }
  }

  /** The value that nvGpuChannelGetFence hands out. */
  function FenceOut(c: Channel): u32 { Add32(c.fenceValue, c.fenceIncr) }

  /** The handed-out fence value counts the increments and nothing else: no kickoff, failed or not, changes it. */
  lemma {:induction false} FenceCountsIncrements(value: u32, ops: seq<Op>)
    requires forall k :: 0 <= k < |ops| ==> IsOp(ops[k])
    ensures FenceOut(Replay(value, ops)) == (value + Increments(ops)) % U32_RANGE
  {
    if ops != [] {
      var before := ops[..|ops| - 1];
      FenceCountsIncrements(value, before);
      WrapStep(value + Increments(before));
      FenceStep(Replay(value, before), ops[|ops| - 1]);
    }
  }

  lemma WrapStep(n: nat)
    ensures (n + 1) % U32_RANGE == if n % U32_RANGE + 1 == U32_RANGE then 0 else n % U32_RANGE + 1
  {
  }

  lemma FenceStep(c: Channel, op: Op)
    requires IsOp(op)
    ensures FenceOut(After(c, op).1) == if op.Incr? then Add32(FenceOut(c), 1) else FenceOut(c)
  {
  }
}
