/** audio/voice.c: the wave buffers of the voices.  A voice keeps its buffers in a linked
    list of nodes that belong to the program; the first of them, up to four, are also in
    the ring of slots that the renderer plays from. */
module WaveQueue {

  datatype WaveState = Free | Waiting | Queued | Playing | Done

  datatype PlayState = Started | Stopped | Paused

  /** What is copied from a buffer into a slot, besides its address. */
  datatype Span = Span(size: nat, startOffset: int, endOffset: int, isLooping: bool, contextAddr: nat, contextSize: nat)

  datatype Slot = Slot(address: nat, span: Span, endOfStream: bool, sent: bool)

  const NO_SPAN := Span(0, 0, 0, false, 0, 0)
  const EMPTY_SLOT := Slot(0, NO_SPAN, false, true)

  const WORD := 0x1_0000_0000
  const ALIGNMENT := 0x40

  class WaveBuf {
    var data: nat
    var span: Span
    var state: WaveState
    var sequenceId: nat
    var next: WaveBuf?

    constructor (data: nat, span: Span)
      ensures this.data == data && this.span == span && state == Free
    {
      this.data, this.span, state, sequenceId, next := data, span, Free, 0, null;
    }
  }

  function At(q: seq<WaveBuf>, k: nat): WaveBuf? { if k < |q| then q[k] else null }

  ghost predicate Distinct(q: seq<WaveBuf>) { forall i, j :: 0 <= i < j < |q| ==> q[i] != q[j] }

  ghost predicate Linked(q: seq<WaveBuf>)
    reads q
  {
    Distinct(q) && forall k {:trigger q[k].next} :: 0 <= k < |q| ==> q[k].next == At(q, k + 1)
  }

  /** The place of number k in a ring of four: (head + k) & 3. */
  function RingIndex(head: nat, k: nat): (i: nat)
    ensures i < 4
  {
    (head + k) % 4
  }

  /** The renderer's way round the ring: from each slot of the array to the next one, and
      from the last to the first. */
  function Following(slot: nat): nat { if slot == 3 then 0 else slot + 1 }
  function SlotAfter(slot: nat, steps: nat): nat
    decreases steps
  {
    if steps == 0 then slot else SlotAfter(Following(slot), steps - 1)
  }

  /** Counters are 32 bits wide. */
  function Number(n: nat): nat { n % WORD }

  function Min(a: nat, b: nat): nat { if a < b then a else b }

  predicate Live(s: WaveState) { s == Waiting || s == Queued || s == Playing }

  class Voice {
    const slots: array<Slot>
    var isNew: bool
    var playState: PlayState
    var wavebufCount: nat
    var wavebufHead: nat
    var numConsumed: nat
    var voiceDropsCount: nat
    var playedSampleCount: nat
    var first: WaveBuf?
    var waiting: WaveBuf?
    var last: WaveBuf?

    /** The buffers added since the last reset, and how many of them have been consumed;
        the others are the list. */
    ghost var history: seq<WaveBuf>
    ghost var consumed: nat
    ghost var queue: seq<WaveBuf>

    ghost predicate ListValid()
      reads this`history, this`consumed, this`queue, this`first, this`last, this`numConsumed, queue
    {
      && consumed <= |history| && queue == history[consumed..]
      && Linked(queue) && first == At(queue, 0)
      && (|queue| > 0 ==> last == queue[|queue| - 1])
      && numConsumed == Number(consumed)
    }

    /** Slot number k from the head of the ring. */
    function SlotIndex(k: nat): (i: nat)
      reads this`wavebufHead
      ensures i < 4
    {
      RingIndex(wavebufHead, k)
    }

    /** The k-th buffer is queued, under its number since the reset, and is in its slot. */
    ghost predicate QueuedAt(k: nat)
      requires k < |queue| && slots.Length == 4
      reads this`consumed, this`queue, this`wavebufHead, slots, queue[k]
    {
      && queue[k].sequenceId == Number(consumed + k)
      && (queue[k].state == Queued || (k == 0 && queue[k].state == Playing))
      && slots[SlotIndex(k)].address == queue[k].data && slots[SlotIndex(k)].span == queue[k].span && !slots[SlotIndex(k)].endOfStream
    }

    /** The ring holds the first buffers of the list. */
    ghost predicate WindowValid()
      reads this, slots, queue
    {
      && slots.Length == 4 && wavebufCount <= 4 && wavebufCount <= |queue| && wavebufHead < 4
      && (forall k :: 0 <= k < wavebufCount ==> QueuedAt(k))
    }

    ghost predicate Valid()
      reads this, slots, queue
    {
      && ListValid() && WindowValid() && waiting == At(queue, wavebufCount)
      && wavebufCount == Min(4, |queue|)
      && (forall k :: wavebufCount <= k < |queue| ==> queue[k].state == Waiting)
    }

    /** A voice after audrvVoiceInit. */
    constructor ()
      ensures Valid() && history == [] && consumed == 0 && fresh(slots)
    {
      slots := new Slot[4](_ => EMPTY_SLOT);
      isNew, playState, wavebufCount, wavebufHead := true, Stopped, 0, 0;
      numConsumed, voiceDropsCount, playedSampleCount := 0, 0, 0;
      first, waiting, last := null, null, null;
      history, consumed, queue := [], 0, [];
    }

    /** The body of the loop of _audrvVoiceQueueWaveBufs. */
    method QueueOne(wavebuf: WaveBuf)
      requires ListValid() && WindowValid() && wavebufCount < 4 && wavebufCount < |queue| && wavebuf == queue[wavebufCount]
      modifies this`wavebufCount, slots, wavebuf`state, wavebuf`sequenceId
      ensures ListValid() && WindowValid() && wavebufCount == old(wavebufCount) + 1 && wavebuf.next == At(queue, wavebufCount)
      ensures wavebuf.state == Queued && forall k :: 0 <= k < |queue| && k != old(wavebufCount) ==> queue[k].state == old(queue[k].state)
      ensures forall k :: 0 <= k < wavebufCount ==> slots[SlotIndex(k)].sent == (if k < old(wavebufCount) then old(slots[SlotIndex(k)].sent) else false)
    {
      hide Number, RingIndex;
      ghost var c := wavebufCount;
      forall k | 0 <= k < c ensures queue[k] != wavebuf && SlotIndex(k) != SlotIndex(c) {
        SlotsDiffer(wavebufHead, k, c);
      }
      NumberOf(consumed, c);
      var head := SlotIndex(wavebufCount);
      wavebuf.state := Queued;
      wavebuf.sequenceId := Number(numConsumed + wavebufCount);
      slots[head] := Slot(wavebuf.data, wavebuf.span, false, false);
      wavebufCount := wavebufCount + 1;
      assert QueuedAt(c);
      forall k | 0 <= k < c ensures QueuedAt(k) {
        assert old(QueuedAt(k));
      }
      LinkedKept(queue);
    }

    /** The loop of _audrvVoiceQueueWaveBufs: the buffer it stops at is the first that
        does not fit. */
    method FillRing() returns (wavebuf: WaveBuf?)
      requires ListValid() && WindowValid() && waiting == At(queue, wavebufCount)
      requires wavebufCount <= 4 && wavebufCount <= |queue|
      modifies this`wavebufCount, slots, queue`state, queue`sequenceId
      ensures ListValid() && WindowValid() && wavebuf == At(queue, wavebufCount) && wavebufCount == Min(4, |queue|)
      ensures old(wavebufCount) <= wavebufCount
      ensures forall k :: 0 <= k < |queue| ==> queue[k].state == if old(wavebufCount) <= k < wavebufCount then Queued else old(queue[k].state)
      ensures forall k :: 0 <= k < wavebufCount ==> slots[SlotIndex(k)].sent == (if k < old(wavebufCount) then old(slots[SlotIndex(k)].sent) else false)
    {
      assert slots.Length == 4;
      hide ListValid, WindowValid, RingIndex;
      wavebuf := waiting;
      while wavebuf != null && wavebufCount < 4
        modifies this`wavebufCount, slots, queue`state, queue`sequenceId
        invariant ListValid() && WindowValid() && wavebuf == At(queue, wavebufCount)
        invariant old(wavebufCount) <= wavebufCount <= 4 && wavebufCount <= |queue|
        invariant forall k :: 0 <= k < |queue| ==> queue[k].state == if old(wavebufCount) <= k < wavebufCount then Queued else old(queue[k].state)
        invariant forall k :: 0 <= k < wavebufCount ==> slots[SlotIndex(k)].sent == (if k < old(wavebufCount) then old(slots[SlotIndex(k)].sent) else false)
        decreases 4 - wavebufCount
      {
        QueueOne(wavebuf);
        wavebuf := wavebuf.next;
      }
    }

    /** _audrvVoiceQueueWaveBufs: fills the ring from the buffers that wait.  The first
        one may have been marked as playing before it is in the ring; the mark is lost. */
    method QueueWaveBufs()
      requires ListValid() && WindowValid() && waiting == At(queue, wavebufCount)
      requires wavebufCount <= 4 && wavebufCount <= |queue|
      requires forall k :: wavebufCount <= k < |queue| ==> queue[k].state == Waiting || (k == 0 && queue[k].state == Playing)
      modifies this`wavebufCount, this`waiting, slots, queue`state, queue`sequenceId
      ensures Valid()
      ensures forall k :: 0 <= k < old(wavebufCount) ==> queue[k].state == old(queue[k].state)
      ensures forall k :: old(wavebufCount) <= k < wavebufCount ==> queue[k].state == Queued
      ensures forall k :: 0 <= k < wavebufCount ==> slots[SlotIndex(k)].sent == (if k < old(wavebufCount) then old(slots[SlotIndex(k)].sent) else false)
    {
      hide ListValid, QueuedAt, RingIndex;
      var wavebuf := FillRing();
      waiting := wavebuf;
    }

    /** The pointers of audrvVoiceAddWaveBuf. */
    method LinkAtEnd(wavebuf: WaveBuf)
      requires Linked(queue) && first == At(queue, 0) && (|queue| > 0 ==> last == queue[|queue| - 1])
      requires wavebuf !in queue && wavebuf.next == null
      modifies this`first, this`waiting, this`last, queue`next
      ensures Linked(queue + [wavebuf]) && first == At(queue + [wavebuf], 0) && last == wavebuf
      ensures waiting == if old(waiting) == null then wavebuf else old(waiting)
    {
      if first != null {
        last.next := wavebuf;
      } else {
        first := wavebuf;
      }
      if waiting == null {
        waiting := wavebuf;
      }
      last := wavebuf;
      AppendLinks(queue, wavebuf);
    }

    /** The ring does not notice what happens to the rest of the list. */
    twostate lemma WindowKept()
      requires old(WindowValid()) && wavebufCount == old(wavebufCount) <= |queue| && wavebufHead == old(wavebufHead) && consumed == old(consumed)
      requires forall i :: 0 <= i < 4 ==> slots[i].(sent := false) == old(slots[i]).(sent := false)
      requires forall k :: 0 <= k < wavebufCount ==> queue[k] == old(queue[k])
      requires forall k :: 0 <= k < wavebufCount ==> queue[k].state == old(queue[k].state) && queue[k].sequenceId == old(queue[k].sequenceId)
      requires forall k :: 0 <= k < wavebufCount ==> queue[k].data == old(queue[k].data) && queue[k].span == old(queue[k].span)
      ensures WindowValid()
    {
      hide RingIndex, Number;
      forall k | 0 <= k < wavebufCount ensures QueuedAt(k) {
        assert old(QueuedAt(k));
        var i := SlotIndex(k);
        assert slots[i].(sent := false) == old(slots[i]).(sent := false);
      }
    }

    method Append(wavebuf: WaveBuf)
      requires ListValid() && WindowValid() && waiting == At(queue, wavebufCount) && wavebuf !in queue
      modifies this`first, this`waiting, this`last, this`queue, this`history, wavebuf`state, wavebuf`sequenceId, wavebuf`next, queue`next
      ensures queue == old(queue) + [wavebuf] && history == old(history) + [wavebuf]
      ensures ListValid() && WindowValid() && waiting == At(queue, wavebufCount) && wavebuf.state == Waiting
    {
      hide QueuedAt, Number, Linked;
      wavebuf.state := Waiting;
      wavebuf.sequenceId := WORD - 1;
      wavebuf.next := null;
      LinkedKept(queue);
      LinkAtEnd(wavebuf);
      history := history + [wavebuf];
      queue := queue + [wavebuf];
      WindowKept();
    }

    /** audrvVoiceAddWaveBuf */
    method AddWaveBuf(wavebuf: WaveBuf) returns (ok: bool)
      requires Valid()
      modifies this, slots, queue, wavebuf
      ensures Valid() && consumed == old(consumed)
      ensures ok <==> (old(wavebuf.state) == Free || old(wavebuf.state) == Done) && old(wavebuf.data) != 0
                      && old(wavebuf.data) % 0x40 == 0 && old(wavebuf.span).contextAddr % 0x40 == 0
      ensures wavebufHead == old(wavebufHead)
      ensures !ok ==> unchanged(this) && unchanged(slots) && unchanged(queue) && unchanged(wavebuf)
      ensures ok ==> queue == old(queue) + [wavebuf] && history == old(history) + [wavebuf]
    {
      if wavebuf.state != Free && wavebuf.state != Done {
        return false;
      }
      if wavebuf.data == 0 || wavebuf.data % ALIGNMENT != 0 {
        return false;
      }
      if wavebuf.span.contextAddr % ALIGNMENT != 0 {
        return false;
      }
      QueueIsLive();
      Append(wavebuf);
      QueueWaveBufs();
      return true;
    }

    /** The buffers of the list are neither free nor done. */
    lemma QueueIsLive()
      requires Valid()
      ensures forall w :: w in queue ==> Live(w.state)
    {
      forall w | w in queue ensures Live(w.state) {
        var k :| 0 <= k < |queue| && queue[k] == w;
        assert k < wavebufCount ==> QueuedAt(k);
      }
    }

    /** Buffer d + k of the list, in slot k. */
    ghost predicate QueuedAfter(d: nat, k: nat)
      requires d + k < |queue| && slots.Length == 4
      reads this`consumed, this`queue, this`wavebufHead, slots, queue[d + k]
    {
      && queue[d + k].sequenceId == Number(consumed + d + k)
      && (queue[d + k].state == Queued || (d + k == 0 && queue[d + k].state == Playing))
      && slots[SlotIndex(k)].address == queue[d + k].data && slots[SlotIndex(k)].span == queue[d + k].span && !slots[SlotIndex(k)].endOfStream
    }

    /** The ring once d buffers of it have been consumed. */
    method Consume(d: nat, later: nat)
      requires ListValid() && WindowValid() && d <= wavebufCount && (d == 0 ==> later == numConsumed)
      modifies this`wavebufCount, this`wavebufHead, this`numConsumed
      ensures wavebufCount == old(wavebufCount) - d && wavebufHead < 4 && numConsumed == later
      ensures forall k :: 0 <= k < wavebufCount ==> QueuedAfter(d, k)
      ensures wavebufHead == SlotAfter(old(wavebufHead), d)
    {
      RingIsCursor(wavebufHead, d);
      hide Number, ListValid, RingIndex;
      if d > 0 {
        wavebufCount := wavebufCount - d;
        wavebufHead := RingIndex(wavebufHead, d);
        numConsumed := later;
      }
      forall k | 0 <= k < wavebufCount ensures QueuedAfter(d, k) {
        assert old(QueuedAt(d + k));
        RingTurned(old(wavebufHead), d, k);
      }
    }

    /** The loop of _audrvVoiceUpdate: the first d buffers are done. */
    method FinishFirst(d: nat) returns (wavebuf: WaveBuf?)
      requires Linked(queue) && first == At(queue, 0) && d <= |queue|
      modifies queue`state
      ensures wavebuf == At(queue, d)
      ensures forall k :: 0 <= k < |queue| ==> queue[k].state == if k < d then Done else old(queue[k].state)
    {
      wavebuf := first;
      var i := 0;
      while wavebuf != null && i < d
        modifies queue`state
        invariant 0 <= i <= d && wavebuf == At(queue, i)
        invariant forall k :: 0 <= k < |queue| ==> queue[k].state == if k < i then Done else old(queue[k].state)
      {
        wavebuf.state := Done;
        wavebuf := wavebuf.next;
        i := i + 1;
      }
    }

    method MarkSent()
      requires slots.Length == 4
      modifies slots
      ensures forall j :: 0 <= j < 4 ==> slots[j] == old(slots[j]).(sent := true)
    {
      for i := 0 to 4
        modifies slots
        invariant forall j :: 0 <= j < 4 ==> slots[j] == if j < i then old(slots[j]).(sent := true) else old(slots[j])
      {
        slots[i] := slots[i].(sent := true);
      }
    }

    /** The list after its first buffers have been consumed. */
    ghost method Advance(d: nat)
      requires slots.Length == 4 && wavebufHead < 4 && wavebufCount <= 4 && d + wavebufCount <= |queue|
      requires consumed + d <= |history| && queue == history[consumed..] && Linked(queue)
      requires forall k :: 0 <= k < wavebufCount ==> QueuedAfter(d, k)
      modifies this`queue, this`consumed
      ensures queue == old(queue)[d..] && consumed == old(consumed) + d
      ensures queue == history[consumed..] && Linked(queue) && WindowValid()
    {
      hide Number, RingIndex;
      consumed := consumed + d;
      queue := queue[d..];
      forall k | 0 <= k < wavebufCount ensures QueuedAt(k) {
        assert old(QueuedAfter(d, k));
      }
      DropLinks(old(queue), d);
    }

    /** The part of _audrvVoiceUpdate that takes consumed buffers off the list. */
    method Dequeue(d: nat, later: nat) returns (wavebuf: WaveBuf?)
      requires ListValid() && WindowValid() && d <= wavebufCount && later == Number(consumed + d) && (d == 0 ==> later == numConsumed)
      modifies this`wavebufCount, this`wavebufHead, this`numConsumed, this`queue, this`consumed, queue`state
      ensures queue == old(queue)[d..] && consumed == old(consumed) + d && wavebuf == At(queue, 0)
      ensures wavebufCount == old(wavebufCount) - d && numConsumed == later && wavebufHead == SlotAfter(old(wavebufHead), d)
      ensures queue == history[consumed..] && Linked(queue) && WindowValid()
      ensures forall k :: 0 <= k < |old(queue)| ==> old(queue)[k].state == if k < d then Done else old(queue[k].state)
    {
      hide QueuedAt, Number, SlotAfter;
      Consume(d, later);
      label L:
      wavebuf := FinishFirst(d);
      QueuedAfterKept@L(d);
      LinkedKept(queue);
      Advance(d);
    }

    twostate lemma QueuedAfterKept(d: nat)
      requires slots.Length == 4 && d + wavebufCount <= |queue| && queue == old(queue) && wavebufHead == old(wavebufHead)
      requires consumed == old(consumed) && wavebufCount == old(wavebufCount)
      requires forall i :: 0 <= i < 4 ==> slots[i] == old(slots[i])
      requires forall k :: 0 <= k < wavebufCount ==> old(QueuedAfter(d, k))
      requires forall w :: w in queue ==> w.sequenceId == old(w.sequenceId) && w.data == old(w.data) && w.span == old(w.span)
      requires forall k :: d <= k < |queue| ==> queue[k].state == old(queue[k].state)
      ensures forall k :: 0 <= k < wavebufCount ==> QueuedAfter(d, k)
    {
      hide RingIndex, Number;
      forall k | 0 <= k < wavebufCount ensures QueuedAfter(d, k) {
        assert old(QueuedAfter(d, k));
        assert queue[d + k] in queue;
      }
    }

    /** The end of _audrvVoiceUpdate: the first of the remaining buffers is playing. */
    method PlayNext(wavebuf: WaveBuf?)
      requires consumed <= |history| && queue == history[consumed..] && Linked(queue) && numConsumed == Number(consumed)
      requires WindowValid() && wavebuf == At(queue, 0) && waiting == At(queue, wavebufCount)
      requires |queue| > 0 ==> last == queue[|queue| - 1]
      requires forall k :: wavebufCount <= k < |queue| ==> queue[k].state == Waiting
      requires forall i :: 0 <= i < 4 ==> slots[i].sent
      modifies this`wavebufCount, this`waiting, this`first, this`last, slots, queue`state, queue`sequenceId
      ensures Valid() && forall k :: 0 <= k < wavebufCount ==> slots[SlotIndex(k)].sent == (k < old(wavebufCount))
      ensures |queue| > 0 ==> (queue[0].state == Playing <==> old(wavebufCount) > 0)
    {
      hide Number, RingIndex, QueuedAt;
      if wavebuf != null {
        label P:
        wavebuf.state := Playing;
        first := wavebuf;
        LinkedKept@P(queue);
        PlayingKept@P();
        QueueWaveBufs();
      } else {
        first, last := null, null;
      }
    }

    /** The single-frame flags and the state variables. */
    method UpdateFlags(dropsCount: nat, sampleCount: nat)
      requires Valid()
      modifies this`isNew, this`playedSampleCount, this`voiceDropsCount, slots
      ensures Valid() && !isNew && voiceDropsCount == dropsCount && playedSampleCount == sampleCount
      ensures forall i :: 0 <= i < 4 ==> slots[i] == old(slots[i]).(sent := true)
    {
      hide QueuedAt;
      isNew := false;
      MarkSent();
      playedSampleCount := sampleCount;
      voiceDropsCount := dropsCount;
      WindowKept();
    }

    /** The list without the d buffers that have been consumed, and the ring after them. */
    method TakeOff(d: nat, later: nat) returns (wavebuf: WaveBuf?)
      requires Valid() && d <= wavebufCount && later == Number(consumed + d) && (d == 0 ==> later == numConsumed)
      modifies this`wavebufCount, this`wavebufHead, this`numConsumed, this`queue, this`consumed, queue`state
      ensures queue == old(queue)[d..] && consumed == old(consumed) + d <= |history| && numConsumed == later && wavebuf == At(queue, 0)
      ensures queue == history[consumed..] && Linked(queue) && WindowValid() && waiting == At(queue, wavebufCount)
      ensures wavebufCount == old(wavebufCount) - d && wavebufHead == SlotAfter(old(wavebufHead), d)
      ensures |queue| > 0 ==> last == queue[|queue| - 1]
      ensures forall k :: wavebufCount <= k < |queue| ==> queue[k].state == Waiting
      ensures forall k :: 0 <= k < d ==> old(queue)[k].state == Done && old(queue)[k] !in queue
    {
      ghost var q, count := queue, wavebufCount;
      assert Distinct(q) && count <= |q|;
      hide Number, RingIndex, QueuedAt, WindowValid, Linked, SlotAfter;
      SplitList(q, d, count);
      wavebuf := Dequeue(d, later);
      forall k | wavebufCount <= k < |queue| ensures queue[k].state == Waiting {
        assert queue[k] == q[d + k];
      }
    }

    /** The list and the ring, d buffers having been consumed. */
    method UpdateQueue(d: nat, later: nat)
      requires Valid() && d <= wavebufCount && later == Number(consumed + d) && (d == 0 ==> later == numConsumed)
      requires forall i :: 0 <= i < 4 ==> slots[i].sent
      modifies this`wavebufCount, this`wavebufHead, this`numConsumed, this`queue, this`consumed, this`waiting, this`first, this`last,
        slots, queue`state, queue`sequenceId
      ensures Valid() && numConsumed == later && consumed == old(consumed) + d && queue == old(queue)[d..]
      ensures forall k :: 0 <= k < d ==> old(queue)[k].state == Done
      ensures forall k :: 0 <= k < wavebufCount ==> slots[SlotIndex(k)].sent == (k < old(wavebufCount) - d)
      ensures |queue| > 0 ==> (queue[0].state == Playing <==> old(wavebufCount) > d)
      ensures wavebufHead == SlotAfter(old(wavebufHead), d)
    {
      hide Number, RingIndex, QueuedAt, ListValid, WindowValid, Linked, SlotAfter;
      var wavebuf := TakeOff(d, later);
      PlayNext(wavebuf);
    }

    /** _audrvVoiceUpdate, for a renderer that never reports more buffers consumed than
        are in the ring. */
    method Update(numWavebufsConsumed: nat, dropsCount: nat, sampleCount: nat)
      requires Valid() && numWavebufsConsumed < WORD
      requires Delta(numWavebufsConsumed, numConsumed) <= wavebufCount
      modifies this, slots, queue`state, queue`sequenceId
      ensures Valid() && !isNew && voiceDropsCount == dropsCount && playedSampleCount == sampleCount
      ensures var d := Delta(numWavebufsConsumed, old(numConsumed));
        && history == old(history) && consumed == old(consumed) + d && queue == old(queue)[d..]
        && (forall k :: 0 <= k < d ==> old(queue)[k].state == Done)
        && (forall k :: 0 <= k < wavebufCount ==> slots[SlotIndex(k)].sent == (k < old(wavebufCount) - d))
        && (|queue| > 0 ==> (queue[0].state == Playing <==> old(wavebufCount) > d))
      ensures numConsumed == numWavebufsConsumed
      ensures wavebufHead == SlotAfter(old(wavebufHead), Delta(numWavebufsConsumed, old(numConsumed)))
    {
      hide Delta, Number, WindowValid, Linked, SlotAfter;
      CounterAfter(consumed, numWavebufsConsumed, numConsumed);
      UpdateFlags(dropsCount, sampleCount);
      UpdateQueue(Delta(numWavebufsConsumed, numConsumed), numWavebufsConsumed);
    }

    /** Marking the first buffer as playing. */
    twostate lemma PlayingKept()
      requires old(WindowValid()) && wavebufCount == old(wavebufCount) <= |queue| && wavebufHead == old(wavebufHead) && consumed == old(consumed)
      requires queue == old(queue) && |queue| > 0 && Distinct(queue) && queue[0].state == Playing
      requires forall i :: 0 <= i < 4 ==> slots[i] == old(slots[i])
      requires forall w :: w in queue ==> w.sequenceId == old(w.sequenceId) && w.data == old(w.data) && w.span == old(w.span)
      requires forall k :: 1 <= k < |queue| ==> queue[k].state == old(queue[k].state)
      ensures WindowValid()
    {
      hide RingIndex, Number;
      forall k | 0 <= k < wavebufCount ensures QueuedAt(k) {
        assert old(QueuedAt(k));
        assert queue[k] in queue;
      }
    }

    /** Validity rests on the voice, its slots and the nodes of its list. */
    twostate lemma Kept()
      requires old(Valid()) && SameVoice(this)
      ensures Valid()
    {
      forall k | 0 <= k < |queue| ensures SameNode(queue[k]) {
        assert queue[k] in queue;
      }
      LinkedKept(queue);
      WindowKept();
      hide WindowValid, Linked;
    }

    /** The loop of _audrvVoiceResetInternalState: every buffer of the list is done. */
    method FinishAll()
      requires Linked(queue) && first == At(queue, 0)
      modifies queue`state
      ensures forall w :: w in queue ==> w.state == Done
    {
      var wavebuf := first;
      ghost var k := 0;
      while wavebuf != null
        modifies queue`state
        invariant 0 <= k <= |queue| && wavebuf == At(queue, k)
        invariant forall j :: 0 <= j < k ==> queue[j].state == Done
        decreases |queue| - k
      {
        wavebuf.state := Done;
        wavebuf := wavebuf.next;
        k := k + 1;
      }
    }

    /** _audrvVoiceResetInternalState */
    method ResetInternalState()
      requires ListValid()
      modifies this`numConsumed, this`voiceDropsCount, this`playedSampleCount, this`first, this`waiting, this`last, this`history, this`consumed, this`queue, queue`state
      ensures ListValid() && history == [] && consumed == 0 && waiting == null && numConsumed == 0 && voiceDropsCount == 0 && playedSampleCount == 0
      ensures forall w :: w in old(queue) ==> w.state == Done
    {
      numConsumed, voiceDropsCount, playedSampleCount := 0, 0, 0;
      FinishAll();
      first, waiting, last := null, null, null;
      history, consumed, queue := [], 0, [];
    }

    /** audrvVoiceStop */
    method Stop()
      requires Valid()
      modifies this, slots, queue`state
      ensures Valid() && history == [] && consumed == 0
      ensures playState == Stopped && isNew && wavebufHead == 0
      ensures forall w :: w in old(queue) ==> w.state == Done
      ensures forall i :: 0 <= i < 4 ==> slots[i] == EMPTY_SLOT
    {
      playState, isNew, wavebufCount, wavebufHead := Stopped, true, 0, 0;
      forall i | 0 <= i < 4 {
        slots[i] := EMPTY_SLOT;
      }
      ResetInternalState();
    }

    /** The wave buffer part of audrvVoiceInit. */
    method Init()
      requires Valid()
      modifies this`isNew, this`playState, slots
      ensures Valid() && isNew && playState == Stopped
      ensures forall i :: 0 <= i < 4 ==> slots[i] == old(slots[i]).(sent := true)
    {
      hide QueuedAt;
      isNew, playState := true, Stopped;
      MarkSent();
      WindowKept();
    }

    /** The wave buffer part of audrvVoiceDrop: the voice is zeroed and reset. */
    method Drop()
      requires Valid()
      modifies this, slots, queue`state
      ensures Valid() && history == [] && consumed == 0
      ensures wavebufHead == 0 && forall i :: 0 <= i < 4 ==> slots[i] == EMPTY_SLOT.(sent := false)
      ensures forall w :: w in old(queue) ==> w.state == Done
    {
      playState, isNew, wavebufCount, wavebufHead := Started, false, 0, 0;
      forall i | 0 <= i < 4 {
        slots[i] := EMPTY_SLOT.(sent := false);
      }
      ResetInternalState();
    }
  }

  twostate predicate SameNode(w: WaveBuf)
    reads w
  {
    w.state == old(w.state) && w.sequenceId == old(w.sequenceId) && w.data == old(w.data) && w.span == old(w.span) && w.next == old(w.next)
  }

  /** Nothing about a voice has changed. */
  twostate predicate SameVoice(v: Voice)
    reads v, v.slots, v.queue
  {
    && unchanged(v) && v.slots[..] == old(v.slots[..])
    && forall w :: w in v.queue ==> SameNode(w)
  }

  /** Two voices share no node. */
  ghost predicate Apart(a: Voice, b: Voice)
    reads a`queue, b`queue
  {
    a != b && a.slots != b.slots && forall w :: w in a.queue ==> w !in b.queue
  }

  /** All the voices of a driver. */
  class Driver {
    const voices: seq<Voice>

    constructor (voices: seq<Voice>)
      ensures this.voices == voices
    {
      this.voices := voices;
    }

    /** audrvVoiceAddWaveBuf: a buffer that is on the list of any voice is refused, so the
        lists stay disjoint. */
    method AddWaveBuf(id: nat, wavebuf: WaveBuf) returns (ok: bool)
      requires id < |voices| && forall i :: 0 <= i < |voices| ==> voices[i].Valid()
      requires forall i, j :: 0 <= i < |voices| && 0 <= j < |voices| && i != j ==> Apart(voices[i], voices[j])
      modifies voices[id], voices[id].slots, voices[id].queue, wavebuf
      ensures forall i :: 0 <= i < |voices| ==> voices[i].Valid()
      ensures forall i, j :: 0 <= i < |voices| && 0 <= j < |voices| && i != j ==> Apart(voices[i], voices[j])
      ensures forall i :: 0 <= i < |voices| && i != id ==> SameVoice(voices[i])
      ensures voices[id].queue == old(voices[id].queue) + (if ok then [wavebuf] else [])
      ensures ok ==> forall i :: 0 <= i < |voices| ==> wavebuf !in old(voices[i].queue)
    {
      forall i | 0 <= i < |voices| ensures wavebuf in voices[i].queue ==> Live(wavebuf.state) {
        voices[i].QueueIsLive();
      }
      ok := voices[id].AddWaveBuf(wavebuf);
      OthersKept(id);
    }

    /** _audrvVoiceUpdate for one voice of audrvUpdate's walk. */
    method Update(id: nat, numWavebufsConsumed: nat, dropsCount: nat, sampleCount: nat)
      requires id < |voices| && forall i :: 0 <= i < |voices| ==> voices[i].Valid()
      requires forall i, j :: 0 <= i < |voices| && 0 <= j < |voices| && i != j ==> Apart(voices[i], voices[j])
      requires numWavebufsConsumed < WORD && Delta(numWavebufsConsumed, voices[id].numConsumed) <= voices[id].wavebufCount
      modifies voices[id], voices[id].slots, voices[id].queue`state, voices[id].queue`sequenceId
      ensures forall i :: 0 <= i < |voices| ==> voices[i].Valid()
      ensures forall i, j :: 0 <= i < |voices| && 0 <= j < |voices| && i != j ==> Apart(voices[i], voices[j])
      ensures forall i :: 0 <= i < |voices| && i != id ==> SameVoice(voices[i])
      ensures var d := Delta(numWavebufsConsumed, old(voices[id].numConsumed));
        d <= |old(voices[id].queue)| && voices[id].queue == old(voices[id].queue)[d..]
    {
      hide Delta;
      voices[id].Update(numWavebufsConsumed, dropsCount, sampleCount);
      OthersKept(id);
    }

    /** audrvVoiceStop, audrvVoiceDrop */
    method StopOrDrop(id: nat, drop: bool)
      requires id < |voices| && forall i :: 0 <= i < |voices| ==> voices[i].Valid()
      requires forall i, j :: 0 <= i < |voices| && 0 <= j < |voices| && i != j ==> Apart(voices[i], voices[j])
      modifies voices[id], voices[id].slots, voices[id].queue`state
      ensures forall i :: 0 <= i < |voices| ==> voices[i].Valid()
      ensures forall i, j :: 0 <= i < |voices| && 0 <= j < |voices| && i != j ==> Apart(voices[i], voices[j])
      ensures forall i :: 0 <= i < |voices| && i != id ==> SameVoice(voices[i])
      ensures voices[id].queue == [] && forall w :: w in old(voices[id].queue) ==> w.state == Done
    {
      if drop {
        voices[id].Drop();
      } else {
        voices[id].Stop();
      }
      OthersKept(id);
    }

    /** The wave buffer part of audrvVoiceInit */
    method Init(id: nat)
      requires id < |voices| && forall i :: 0 <= i < |voices| ==> voices[i].Valid()
      requires forall i, j :: 0 <= i < |voices| && 0 <= j < |voices| && i != j ==> Apart(voices[i], voices[j])
      modifies voices[id], voices[id].slots
      ensures forall i :: 0 <= i < |voices| ==> voices[i].Valid()
      ensures forall i, j :: 0 <= i < |voices| && 0 <= j < |voices| && i != j ==> Apart(voices[i], voices[j])
      ensures forall i :: 0 <= i < |voices| && i != id ==> SameVoice(voices[i])
      ensures voices[id].isNew && voices[id].playState == Stopped && forall i :: 0 <= i < voices[id].slots.Length ==> voices[id].slots[i].sent
      ensures voices[id].queue == old(voices[id].queue)
    {
      voices[id].Init();
      OthersKept(id);
    }

    /** Work on one voice that adds no node leaves the others valid and the lists
        disjoint. */
    twostate lemma OthersKept(id: nat)
      requires id < |voices| && voices[id].Valid()
      requires forall i :: 0 <= i < |voices| ==> old(voices[i].Valid())
      requires forall i, j :: 0 <= i < |voices| && 0 <= j < |voices| && i != j ==> old(Apart(voices[i], voices[j]))
      requires forall w :: w in voices[id].queue ==> w in old(voices[id].queue) || forall i :: 0 <= i < |voices| ==> w !in old(voices[i].queue)
      requires forall i :: 0 <= i < |voices| && i != id ==> unchanged(voices[i]) && unchanged(voices[i].slots)
      requires forall i, w :: 0 <= i < |voices| && i != id && w in voices[i].queue ==> SameNode(w)
      ensures forall i :: 0 <= i < |voices| ==> voices[i].Valid()
      ensures forall i, j :: 0 <= i < |voices| && 0 <= j < |voices| && i != j ==> Apart(voices[i], voices[j])
      ensures forall i :: 0 <= i < |voices| && i != id ==> SameVoice(voices[i])
    {
      forall i | 0 <= i < |voices| ensures voices[i].Valid() {
        if i != id {
          voices[i].Kept();
        }
      }
      forall i, j | 0 <= i < |voices| && 0 <= j < |voices| && i != j ensures Apart(voices[i], voices[j]) {
        assert old(Apart(voices[i], voices[j]));
      }
    }
  }

  twostate lemma LinkedKept(q: seq<WaveBuf>)
    requires old(Linked(q)) && forall w :: w in q ==> w.next == old(w.next)
    ensures Linked(q)
  {
  }

  lemma SplitList(q: seq<WaveBuf>, d: nat, count: nat)
    requires Distinct(q) && d <= count <= |q|
    ensures At(q[d..], count - d) == At(q, count) && (|q[d..]| > 0 ==> q[d..][|q[d..]| - 1] == q[|q| - 1])
    ensures forall k :: 0 <= k < d ==> q[k] !in q[d..]
  {
  }

  lemma DropLinks(q: seq<WaveBuf>, d: nat)
    requires Linked(q) && d <= |q|
    ensures Linked(q[d..])
  {
    forall k | 0 <= k < |q[d..]| ensures q[d..][k].next == At(q[d..], k + 1) {
      assert q[d..][k] == q[d + k];
    }
  }

  lemma AppendLinks(q: seq<WaveBuf>, w: WaveBuf)
    requires Distinct(q) && w !in q && w.next == null && (|q| > 0 ==> q[|q| - 1].next == w)
    requires forall k {:trigger q[k].next} :: 0 <= k < |q| - 1 ==> q[k].next == q[k + 1]
    ensures Linked(q + [w])
  {
  }

  /** How many buffers a new counter says have been consumed since the old one. */
  function Delta(later: nat, earlier: nat): (d: nat)
    ensures d < WORD
  {
    (later - earlier) % WORD
  }

  lemma CounterAfter(consumed: nat, later: nat, earlier: nat)
    requires earlier == Number(consumed) && later < WORD
    ensures later == Number(consumed + Delta(later, earlier)) && (Delta(later, earlier) == 0 ==> later == earlier)
  {
  }

  lemma RingTurned(head: nat, d: nat, k: nat)
    ensures RingIndex(RingIndex(head, d), k) == RingIndex(head, d + k)
  {
  }

  lemma {:induction false} RingIsCursor(head: nat, k: nat)
    requires head < 4
    ensures RingIndex(head, k) == SlotAfter(head, k)
    decreases k
  {
    if k > 0 {
      RingIsCursor(Following(head), k - 1);
    }
  }

  lemma SlotsDiffer(head: nat, k: nat, c: nat)
    requires k < c < 4
    ensures RingIndex(head, k) != RingIndex(head, c)
  {
  }

  lemma NumberOf(consumed: nat, c: nat)
    ensures Number(Number(consumed) + c) == Number(consumed + c)
  {
  }

  /** A queued buffer has its place since the reset as its sequence number, and the number
      of the first one is what audrvVoiceGetWaveBufSeq returns. */
  lemma SequenceIsPlace(v: Voice, k: nat)
    requires v.Valid() && k < v.wavebufCount
    ensures v.consumed + k < |v.history| && v.history[v.consumed + k] == v.queue[k]
    ensures v.queue[k].sequenceId == (v.consumed + k) % 0x1_0000_0000 && (k == 0 ==> v.queue[k].sequenceId == v.numConsumed)
  {
    assert v.QueuedAt(k);
    hide Number;
  }

  /** The ring holds as many of the first buffers as it can, each in a slot of its own. */
  lemma RingHoldsPrefix(v: Voice)
    requires v.Valid()
    ensures v.wavebufCount == Min(4, |v.queue|)
    ensures forall k :: 0 <= k < v.wavebufCount ==> v.slots[v.SlotIndex(k)].address == v.queue[k].data && v.slots[v.SlotIndex(k)].span == v.queue[k].span
    ensures forall j, k :: 0 <= j < k < v.wavebufCount ==> v.SlotIndex(j) != v.SlotIndex(k)
  {
    forall k | 0 <= k < v.wavebufCount ensures v.slots[v.SlotIndex(k)].address == v.queue[k].data && v.slots[v.SlotIndex(k)].span == v.queue[k].span {
      assert v.QueuedAt(k);
    }
    forall j, k | 0 <= j < k < v.wavebufCount ensures v.SlotIndex(j) != v.SlotIndex(k) {
      SlotsDiffer(v.wavebufHead, j, k);
    }
  }

  /** What a renderer reads in a number of steps from a slot on. */
  function Rendered(slots: seq<Slot>, cursor: nat, steps: nat): seq<(nat, Span, bool)>
    requires |slots| == 4 && cursor < 4
    decreases steps
  {
    if steps == 0 then [] else [(slots[cursor].address, slots[cursor].span, slots[cursor].endOfStream)] + Rendered(slots, Following(cursor), steps - 1)
  }

  lemma {:induction false} RenderedAt(slots: seq<Slot>, cursor: nat, steps: nat, k: nat)
    requires |slots| == 4 && cursor < 4 && k < steps
    ensures |Rendered(slots, cursor, steps)| == steps && SlotAfter(cursor, k) < 4
    ensures Rendered(slots, cursor, steps)[k] == (slots[SlotAfter(cursor, k)].address, slots[SlotAfter(cursor, k)].span, slots[SlotAfter(cursor, k)].endOfStream)
    decreases steps
  {
    if k > 0 {
      RenderedAt(slots, Following(cursor), steps - 1, k - 1);
    } else if steps > 1 {
      RenderedAt(slots, Following(cursor), steps - 1, 0);
    }
  }

  /** A renderer that starts at the head and goes from slot to slot of the array reads the
      first buffers of the list, in order, none of them marked as the end of the stream. */
  lemma RendererReadsQueue(v: Voice)
    requires v.Valid()
    ensures |Rendered(v.slots[..], v.wavebufHead, v.wavebufCount)| == v.wavebufCount
    ensures forall k :: 0 <= k < v.wavebufCount ==> Rendered(v.slots[..], v.wavebufHead, v.wavebufCount)[k] == (v.queue[k].data, v.queue[k].span, false)
  {
    var r := Rendered(v.slots[..], v.wavebufHead, v.wavebufCount);
    forall k | 0 <= k < v.wavebufCount ensures |r| == v.wavebufCount && r[k] == (v.queue[k].data, v.queue[k].span, false) {
      assert v.QueuedAt(k);
      RingIsCursor(v.wavebufHead, k);
      RenderedAt(v.slots[..], v.wavebufHead, v.wavebufCount, k);
    }
  }

  /** A buffer that was played can be added again, to the end of what is left. */
  method AddAfterUpdate(v: Voice, numWavebufsConsumed: nat, wavebuf: WaveBuf) returns (ok: bool)
    requires v.Valid() && numWavebufsConsumed < WORD && 0 < Delta(numWavebufsConsumed, v.numConsumed) <= v.wavebufCount
    requires wavebuf == v.queue[0] && wavebuf.data > 0 && wavebuf.data % 0x40 == 0 && wavebuf.span.contextAddr % 0x40 == 0
    modifies v, v.slots, v.queue
    ensures v.Valid() && ok && v.queue == old(v.queue)[Delta(numWavebufsConsumed, old(v.numConsumed))..] + [wavebuf]
  {
    assert wavebuf in v.queue;
    hide Delta;
    v.Update(numWavebufsConsumed, 0, 0);
    assert forall w :: w in v.queue ==> w in old(v.queue);
    ok := v.AddWaveBuf(wavebuf);
  }

  /** So can one that was on the list when the voice was stopped. */
  method AddAfterStop(v: Voice, wavebuf: WaveBuf) returns (ok: bool)
    requires v.Valid() && wavebuf in v.queue
    requires wavebuf.data > 0 && wavebuf.data % 0x40 == 0 && wavebuf.span.contextAddr % 0x40 == 0
    modifies v, v.slots, v.queue, wavebuf
    ensures v.Valid() && ok && v.queue == [wavebuf]
  {
    v.Stop();
    assert v.queue == [];
    ok := v.AddWaveBuf(wavebuf);
  }

  /** A voice whose first buffer is not marked as playing although it is the next to be
      played: five buffers were added and the four in the ring consumed at once. */
  method PlayingMarkIsLost() returns (v: Voice)
    ensures fresh(v) && v.Valid() && v.consumed == 4 && |v.queue| == 1 && v.queue[0].state == Queued
  {
    v := new Voice();
    for i := 0 to 5
      invariant fresh(v) && fresh(v.slots) && v.Valid() && |v.queue| == i && v.consumed == 0
      invariant fresh(v.queue)
    {
      var wavebuf := new WaveBuf(ALIGNMENT, NO_SPAN);
      var ok := v.AddWaveBuf(wavebuf);
    }
    v.Update(4, 0, 0);
    assert v.QueuedAt(0);
  }
}
