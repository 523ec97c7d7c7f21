/** audio/voice.c and audio/driver.c: the table of voices.  A used voice is linked into
    a list whose nodes also point back at the field that points at them, and owns
    channels that are otherwise on a free list; both lists are threaded through the
    voice array. */
module VoiceTable {

  /** A pointer to an int field: the list head, or next_used_voice of a voice. */
  datatype FieldRef = FirstUsed | NextOf(voice: nat)

  datatype EtcVoice = EtcVoice(prevNext: FieldRef, nextFree: int, nextUsed: int)

  const MAX_CHANNELS := 6

  /** What the renderer is told of a voice, as far as the table is concerned. */
  datatype Voice = Voice(isUsed: bool, channelCount: nat, channelIds: seq<nat>, sortingOrder: int)

  const CLEARED := Voice(false, 0, [0, 0, 0, 0, 0, 0], 0)

  datatype PcmFormat = Invalid | Int8 | Int16 | Int24 | Int32 | Float | Adpcm

  // The lists are kept as sequences whose last element is the head of the list.

  ghost predicate FreeChain(v: seq<EtcVoice>, first: int, free: seq<nat>) {
    && (forall k :: 0 <= k < |free| ==> free[k] < |v|)
    && (|free| > 0 ==> first == free[|free| - 1])
    && (forall k :: 1 <= k < |free| ==> v[free[k]].nextFree == free[k - 1])
  }

  ghost predicate Distinct(s: seq<nat>) {
    forall i, j :: 0 <= i < j < |s| ==> s[i] != s[j]
  }

  function Head(s: seq<nat>): int { if |s| == 0 then -1 else s[|s| - 1] }

  /** The links of the voice at place k. */
  ghost predicate LinkedAt(v: seq<EtcVoice>, used: seq<nat>, k: nat)
    requires k < |used|
  {
    && used[k] < |v|
    && v[used[k]].nextUsed == (if k == 0 then -1 else used[k - 1])
    && v[used[k]].prevNext == (if k == |used| - 1 then FirstUsed else NextOf(used[k + 1]))
  }

  ghost predicate UsedChain(v: seq<EtcVoice>, first: int, used: seq<nat>) {
    && Distinct(used) && first == Head(used)
    && (forall k :: 0 <= k < |used| ==> LinkedAt(v, used, k))
  }

  /** Who has a channel: the free list, or a voice, and at which place. */
  datatype Owner = Free(at: nat) | Held(voice: nat, at: nat)

  /** Each channel has one owner, and each place on the free list and in a used voice is
      one channel. */
  ghost predicate Partition(owner: seq<Owner>, free: seq<nat>, voices: seq<Voice>, inUse: seq<bool>) {
    && |owner| == |voices| == |inUse|
    && (forall k :: 0 <= k < |free| ==> free[k] < |owner| && owner[free[k]] == Free(k))
    && (forall v :: 0 <= v < |voices| ==> HoldsItsChannels(owner, voices[v], v))
    && (forall c :: 0 <= c < |owner| ==> OwnerAgrees(owner[c], free, voices, c) && inUse[c] == owner[c].Held?)
  }

  ghost predicate HoldsItsChannels(owner: seq<Owner>, voice: Voice, v: nat) {
    && voice.channelCount <= MAX_CHANNELS == |voice.channelIds| && (!voice.isUsed ==> voice.channelCount == 0)
    && forall i :: 0 <= i < voice.channelCount ==> voice.channelIds[i] < |owner| && owner[voice.channelIds[i]] == Held(v, i)
  }

  ghost predicate OwnerAgrees(o: Owner, free: seq<nat>, voices: seq<Voice>, c: nat) {
    match o
    case Free(at) => at < |free| && free[at] == c
    case Held(v, at) => v < |voices| && at < voices[v].channelCount <= |voices[v].channelIds| && voices[v].channelIds[at] == c
  }

  ghost predicate UsedAreMarked(used: seq<nat>, voices: seq<Voice>) {
    forall v :: 0 <= v < |voices| ==> (voices[v].isUsed <==> v in used)
  }

  /** The channels held by the first n voices. */
  function Total(voices: seq<Voice>, n: nat): nat
    requires n <= |voices|
  {
    if n == 0 then 0 else Total(voices, n - 1) + voices[n - 1].channelCount
  }

  lemma {:induction false} TotalUpdated(voices: seq<Voice>, id: nat, voice: Voice, n: nat)
    requires n <= |voices| && id < |voices|
    ensures Total(voices[id := voice], n) == Total(voices, n) + (if id < n then voice.channelCount - voices[id].channelCount else 0)
  {
    if n > 0 {
      TotalUpdated(voices, id, voice, n - 1);
    }
  }

  // ---------------------------------------------------------------- one channel

  /** A voice that has taken one more channel, or released its last one. */
  function WithChannel(voice: Voice, c: nat): Voice
    requires voice.channelCount < MAX_CHANNELS == |voice.channelIds|
  {
    voice.(channelIds := voice.channelIds[voice.channelCount := c], channelCount := voice.channelCount + 1)
  }

  function WithoutChannel(voice: Voice): Voice
    requires voice.channelCount > 0
  {
    voice.(channelCount := voice.channelCount - 1)
  }

  lemma TakeKeepsPartition(owner: seq<Owner>, free: seq<nat>, voices: seq<Voice>, inUse: seq<bool>, id: nat)
    requires Partition(owner, free, voices, inUse) && |free| > 0 && id < |voices| && voices[id].isUsed && voices[id].channelCount < MAX_CHANNELS
    ensures var c := free[|free| - 1];
      && c < |inUse|
      && Partition(owner[c := Held(id, voices[id].channelCount)], free[..|free| - 1], voices[id := WithChannel(voices[id], c)], inUse[c := true])
  {
    var c := free[|free| - 1];
    assert owner[c] == Free(|free| - 1);
    var owner', free', voices' := owner[c := Held(id, voices[id].channelCount)], free[..|free| - 1], voices[id := WithChannel(voices[id], c)];
    forall k | 0 <= k < |free'| ensures owner'[free'[k]] == Free(k) {
      assert owner[free[k]] == Free(k);
    }
    forall v | 0 <= v < |voices'| ensures HoldsItsChannels(owner', voices'[v], v) {
      assert HoldsItsChannels(owner, voices[v], v);
    }
    forall x | 0 <= x < |owner'| ensures OwnerAgrees(owner'[x], free', voices', x) {
      assert OwnerAgrees(owner[x], free, voices, x);
    }
  }

  lemma GiveKeepsPartition(owner: seq<Owner>, free: seq<nat>, voices: seq<Voice>, inUse: seq<bool>, id: nat)
    requires Partition(owner, free, voices, inUse) && id < |voices| && voices[id].channelCount > 0
    ensures voices[id].channelCount <= |voices[id].channelIds|
    ensures var c := voices[id].channelIds[voices[id].channelCount - 1];
      && c < |inUse| && c !in free
      && Partition(owner[c := Free(|free|)], free + [c], voices[id := WithoutChannel(voices[id])], inUse[c := false])
  {
    assert HoldsItsChannels(owner, voices[id], id);
    var m := voices[id].channelCount - 1;
    var c := voices[id].channelIds[m];
    assert owner[c] == Held(id, m);
    var owner', free', voices' := owner[c := Free(|free|)], free + [c], voices[id := WithoutChannel(voices[id])];
    forall k | 0 <= k < |free'| ensures owner'[free'[k]] == Free(k) {
      assert k < |free| ==> owner[free[k]] == Free(k);
    }
    forall v | 0 <= v < |voices'| ensures HoldsItsChannels(owner', voices'[v], v) {
      assert HoldsItsChannels(owner, voices[v], v);
    }
    forall x | 0 <= x < |owner'| ensures OwnerAgrees(owner'[x], free', voices', x) {
      assert OwnerAgrees(owner[x], free, voices, x);
    }
  }

  lemma TakeKeepsChain(v: seq<EtcVoice>, first: int, free: seq<nat>)
    requires FreeChain(v, first, free) && |free| > 0
    ensures 0 <= first < |v| && FreeChain(v, v[first].nextFree, free[..|free| - 1])
  {
  }

  lemma GiveKeepsChain(v: seq<EtcVoice>, first: int, free: seq<nat>, c: nat)
    requires FreeChain(v, first, free) && c < |v| && c !in free
    ensures FreeChain(v[c := v[c].(nextFree := first)], c, free + [c])
  {
  }

  // ---------------------------------------------------------------- the list of used voices

  function RemoveAt(s: seq<nat>, p: nat): (r: seq<nat>)
    requires p < |s|
    ensures |r| == |s| - 1
  {
    s[..p] + s[p + 1..]
  }

  /** The links after a voice has been put in front of the list. */
  function Inserted(v: seq<EtcVoice>, first: int, id: nat): seq<EtcVoice>
    requires id < |v| && first < |v|
  {
    var linked := v[id := v[id].(nextUsed := first, prevNext := FirstUsed)];
    if first >= 0 then linked[first := linked[first].(prevNext := NextOf(id))] else linked
  }

  lemma InsertKeepsChain(v: seq<EtcVoice>, first: int, used: seq<nat>, id: nat)
    requires UsedChain(v, first, used) && id < |v| && id !in used
    ensures first < |v| && UsedChain(Inserted(v, first, id), id, used + [id])
  {
    var n := |used|;
    assert n > 0 ==> LinkedAt(v, used, n - 1);
    var v', used' := Inserted(v, first, id), used + [id];
    forall k | 0 <= k < |used'| ensures LinkedAt(v', used', k) {
      if k < n {
        assert LinkedAt(v, used, k);
        assert used[k] != id && (k < n - 1 ==> used[k] != used[n - 1]);
      }
    }
  }

  /** The links after a voice has been cut out, and the head of the list. */
  function Removed(v: seq<EtcVoice>, id: nat): seq<EtcVoice>
    requires id < |v| && v[id].nextUsed < |v| && (v[id].prevNext.NextOf? ==> v[id].prevNext.voice < |v|)
  {
    var next, prev := v[id].nextUsed, v[id].prevNext;
    var around := if prev.FirstUsed? then v else v[prev.voice := v[prev.voice].(nextUsed := next)];
    if next >= 0 then around[next := around[next].(prevNext := prev)] else around
  }

  function FirstAfterRemoval(v: seq<EtcVoice>, first: int, id: nat): int
    requires id < |v|
  {
    if v[id].prevNext.FirstUsed? then v[id].nextUsed else first
  }

  lemma RemovedFields(v: seq<EtcVoice>, used: seq<nat>, p: nat)
    requires p < |used| && Distinct(used) && forall k :: 0 <= k < |used| ==> LinkedAt(v, used, k)
    ensures used[p] < |v| && v[used[p]].nextUsed < |v| && (v[used[p]].prevNext.NextOf? ==> v[used[p]].prevNext.voice < |v|)
    ensures var v' := Removed(v, used[p]);
      |v'| == |v| && forall x :: 0 <= x < |v| ==>
        && v'[x].nextUsed == (if p + 1 < |used| && x == used[p + 1] then v[used[p]].nextUsed else v[x].nextUsed)
        && v'[x].prevNext == (if p > 0 && x == used[p - 1] then v[used[p]].prevNext else v[x].prevNext)
        && v'[x].nextFree == v[x].nextFree
  {
    assert LinkedAt(v, used, p);
    assert p > 0 ==> LinkedAt(v, used, p - 1);
    assert p + 1 < |used| ==> LinkedAt(v, used, p + 1);
  }

  lemma RemovedLink(v: seq<EtcVoice>, used: seq<nat>, p: nat, k: nat)
    requires p < |used| && Distinct(used) && k < |used| - 1
    requires forall k :: 0 <= k < |used| ==> LinkedAt(v, used, k)
    requires used[p] < |v| && v[used[p]].nextUsed < |v| && (v[used[p]].prevNext.NextOf? ==> v[used[p]].prevNext.voice < |v|)
    ensures LinkedAt(Removed(v, used[p]), RemoveAt(used, p), k)
  {
    RemovedFields(v, used, p);
    hide Removed;
    var j := if k < p then k else k + 1;
    assert LinkedAt(v, used, p) && LinkedAt(v, used, j);
    assert j != p - 1 && p > 0 ==> used[j] != used[p - 1];
    assert j != p + 1 && p + 1 < |used| ==> used[j] != used[p + 1];
  }

  lemma RemoveKeepsChain(v: seq<EtcVoice>, first: int, used: seq<nat>, p: nat)
    requires UsedChain(v, first, used) && p < |used|
    ensures used[p] < |v| && v[used[p]].nextUsed < |v| && (v[used[p]].prevNext.NextOf? ==> v[used[p]].prevNext.voice < |v|)
    ensures UsedChain(Removed(v, used[p]), FirstAfterRemoval(v, first, used[p]), RemoveAt(used, p))
  {
    assert LinkedAt(v, used, p);
    RemovedFields(v, used, p);
    hide Removed;
    forall k | 0 <= k < |used| - 1 ensures LinkedAt(Removed(v, used[p]), RemoveAt(used, p), k) {
      RemovedLink(v, used, p, k);
    }
  }

  lemma IndexIn(s: seq<nat>, x: nat) returns (p: nat)
    requires x in s
    ensures p < |s| && s[p] == x
  {
    p :| p < |s| && s[p] == x;
  }

  lemma RemoveAtMembers(s: seq<nat>, p: nat, x: nat)
    requires Distinct(s) && p < |s|
    ensures x in RemoveAt(s, p) <==> x in s && x != s[p]
  {
    if x in s && x != s[p] {
      var i := IndexIn(s, x);
      assert RemoveAt(s, p)[if i < p then i else i - 1] == x;
    }
    if x in RemoveAt(s, p) {
      var i := IndexIn(RemoveAt(s, p), x);
      assert s[if i < p then i else i + 1] == x;
    }
  }

  // ---------------------------------------------------------------- what Init and Drop do to the free list

  /** The first n channels of a free list, in order, and the rest of it. */
  function Taken(free: seq<nat>, n: nat): (ids: seq<nat>)
    requires n <= |free|
    ensures |ids| == n
  {
    seq(n, i requires 0 <= i < n => free[|free| - 1 - i])
  }

  function Rest(free: seq<nat>, n: nat): seq<nat>
    requires n <= |free|
  {
    free[..|free| - n]
  }

  /** The free list after channels have been released, the last of them first. */
  function Released(free: seq<nat>, ids: seq<nat>): seq<nat>
    decreases |ids|
  {
    if |ids| == 0 then free else Released(free + [ids[|ids| - 1]], ids[..|ids| - 1])
  }

  lemma {:induction false} ReleaseUndoesTake(free: seq<nat>, n: nat)
    requires n <= |free|
    ensures Released(Rest(free, n), Taken(free, n)) == free
  {
    if n > 0 {
      ReleaseUndoesTake(free, n - 1);
      assert Rest(free, n) + [free[|free| - n]] == Rest(free, n - 1);
      assert Taken(free, n)[..n - 1] == Taken(free, n - 1);
    }
  }

  lemma {:induction false} ReleasedLength(free: seq<nat>, ids: seq<nat>)
    ensures |Released(free, ids)| == |free| + |ids|
    decreases |ids|
  {
    if |ids| > 0 {
      ReleasedLength(free + [ids[|ids| - 1]], ids[..|ids| - 1]);
    }
  }

  // ---------------------------------------------------------------- the shared-out channels

  /** The channels are shared out and accounted for, when the voices hold what `view`
      says. */
  ghost predicate Shared(v: seq<EtcVoice>, first: int, free: seq<nat>, owner: seq<Owner>, view: seq<Voice>, inUse: seq<bool>) {
    && |v| == |view| && FreeChain(v, first, free)
    && Partition(owner, free, view, inUse)
    && |free| + Total(view, |view|) == |view|
  }

  lemma TakeStep(v: seq<EtcVoice>, first: int, free: seq<nat>, owner: seq<Owner>, view: seq<Voice>, inUse: seq<bool>, id: nat)
    requires Shared(v, first, free, owner, view, inUse)
    requires |free| > 0 && id < |view| && view[id].isUsed && view[id].channelCount < MAX_CHANNELS
    ensures first == free[|free| - 1] && 0 <= first < |v| && |view[id].channelIds| == MAX_CHANNELS && |inUse| == |owner| == |view|
    ensures Shared(v, v[first].nextFree, free[..|free| - 1], owner[first := Held(id, view[id].channelCount)],
              view[id := WithChannel(view[id], first)], inUse[first := true])
  {
    assert HoldsItsChannels(owner, view[id], id);
    TakeKeepsChain(v, first, free);
    TakeKeepsPartition(owner, free, view, inUse, id);
    TotalUpdated(view, id, WithChannel(view[id], first), |view|);
    hide Partition, FreeChain, Total, HoldsItsChannels;
  }

  lemma GiveStep(v: seq<EtcVoice>, first: int, free: seq<nat>, owner: seq<Owner>, view: seq<Voice>, inUse: seq<bool>, id: nat)
    requires Shared(v, first, free, owner, view, inUse) && id < |view| && view[id].channelCount > 0
    ensures |view[id].channelIds| == MAX_CHANNELS >= view[id].channelCount && |inUse| == |owner| == |view|
    ensures var c := view[id].channelIds[view[id].channelCount - 1];
      && c < |v|
      && Shared(v[c := v[c].(nextFree := first)], c, free + [c], owner[c := Free(|free|)], view[id := WithoutChannel(view[id])], inUse[c := false])
  {
    assert HoldsItsChannels(owner, view[id], id);
    GiveKeepsPartition(owner, free, view, inUse, id);
    var c := view[id].channelIds[view[id].channelCount - 1];
    GiveKeepsChain(v, first, free, c);
    TotalUpdated(view, id, WithoutChannel(view[id]), |view|);
    hide Partition, FreeChain, Total, HoldsItsChannels;
  }

  function InitialFree(n: nat): (s: seq<nat>)
    ensures |s| == n
  {
    seq(n, k requires 0 <= k < n => n - 1 - k)
  }

  function Cleared(n: nat): seq<Voice> { seq(n, _ => CLEARED) }
  function NoneInUse(n: nat): seq<bool> { seq(n, _ => false) }
  function InitialOwner(n: nat): seq<Owner> { seq(n, c requires 0 <= c < n => Free(n - 1 - c)) }

  lemma InitiallyShared(v: seq<EtcVoice>)
    requires forall k :: 0 <= k < |v| ==> v[k].nextFree == if k != |v| - 1 then k + 1 else -1
    ensures Shared(v, 0, InitialFree(|v|), InitialOwner(|v|), Cleared(|v|), NoneInUse(|v|))
  {
    NothingHeld(|v|, |v|);
    hide Total;
    InitialPartition(|v|);
    hide Partition;
  }

  lemma InitialPartition(n: nat)
    ensures Partition(InitialOwner(n), InitialFree(n), Cleared(n), NoneInUse(n))
  {
    forall c | 0 <= c < n ensures OwnerAgrees(InitialOwner(n)[c], InitialFree(n), Cleared(n), c) {
      assert InitialFree(n)[n - 1 - c] == c;
    }
  }

  lemma InitialArrays(voices: seq<Voice>, inUse: seq<bool>)
    requires forall k :: 0 <= k < |voices| ==> voices[k] == CLEARED
    requires forall k :: 0 <= k < |inUse| ==> !inUse[k]
    ensures voices == Cleared(|voices|) && inUse == NoneInUse(|inUse|)
  {
  }

  lemma NothingUsed(v: seq<EtcVoice>, voices: seq<Voice>)
    requires voices == Cleared(|voices|)
    ensures UsedChain(v, -1, []) && UsedAreMarked([], voices)
  {
  }

  lemma {:induction false} NothingHeld(numVoices: nat, n: nat)
    requires n <= numVoices
    ensures Total(Cleared(numVoices), n) == 0
  {
    if n > 0 {
      NothingHeld(numVoices, n - 1);
    }
  }

  /** Only the free links and the counts of channels matter. */
  lemma SharedDespiteLinks(v: seq<EtcVoice>, v': seq<EtcVoice>, first: int, free: seq<nat>, owner: seq<Owner>, view: seq<Voice>, inUse: seq<bool>)
    requires Shared(v, first, free, owner, view, inUse) && SameFreeLinks(v, v')
    ensures Shared(v', first, free, owner, view, inUse)
  {
    hide Partition, Total;
  }

  // ---------------------------------------------------------------- the driver

  class AudioDriver {
    const voices: array<EtcVoice>
    const inVoices: array<Voice>
    const inChannels: array<bool>
    var firstUsed: int
    var firstFree: int
    var freeCount: int

    ghost var free: seq<nat>
    ghost var used: seq<nat>
    ghost var owner: seq<Owner>

    ghost predicate Valid()
      reads this, voices, inVoices, inChannels
    {
      && UsedChain(voices[..], firstUsed, used) && UsedAreMarked(used, inVoices[..])
      && freeCount == |free| && voices.Length == inVoices.Length == inChannels.Length
      && Shared(voices[..], firstFree, free, owner, inVoices[..], inChannels[..])
    }

    /** The channel and voice parts of _audrvInitConfig */
    constructor (numVoices: nat)
      ensures Valid() && inVoices.Length == numVoices && used == [] && free == InitialFree(numVoices)
      ensures inVoices[..] == Cleared(numVoices)
      ensures |free| == numVoices && forall k :: 0 <= k < numVoices ==> free[k] == numVoices - 1 - k
      ensures fresh(voices) && fresh(inVoices) && fresh(inChannels)
    {
      voices := new EtcVoice[numVoices](_ => EtcVoice(FirstUsed, 0, 0));
      inVoices := new Voice[numVoices](_ => CLEARED);
      inChannels := new bool[numVoices](_ => false);
      firstUsed, firstFree, freeCount := -1, 0, numVoices;
      free, used, owner := InitialFree(numVoices), [], InitialOwner(numVoices);
      new;
      hide *;
      LinkFree();
      InitialArrays(inVoices[..], inChannels[..]);
      InitiallyShared(voices[..]);
      NothingUsed(voices[..], inVoices[..]);
      MakeValid();
    }

    /** The loop of _audrvInitConfig over the free links. */
    method LinkFree()
      modifies voices
      ensures forall k :: 0 <= k < voices.Length ==> voices[k].nextFree == if k != voices.Length - 1 then k + 1 else -1
    {
      for i := 0 to voices.Length
        modifies voices
        invariant forall k :: 0 <= k < i ==> voices[k].nextFree == if k != voices.Length - 1 then k + 1 else -1
      {
        voices[i] := voices[i].(nextFree := if i != voices.Length - 1 then i + 1 else -1);
      }
    }

    lemma MakeValid()
      requires UsedChain(voices[..], firstUsed, used) && UsedAreMarked(used, inVoices[..])
      requires freeCount == |free| && voices.Length == inVoices.Length == inChannels.Length
      requires Shared(voices[..], firstFree, free, owner, inVoices[..], inChannels[..])
      ensures Valid()
    {
    }

    /** One turn of the loop of audrvVoiceInit that allocates the channels. */
    method TakeChannel(id: nat, i: nat)
      requires id < inVoices.Length == voices.Length == inChannels.Length && inVoices[id].isUsed
      requires |free| > 0 && i < MAX_CHANNELS == |inVoices[id].channelIds|
      requires Shared(voices[..], firstFree, free, owner, Holding(inVoices[..], id, i), inChannels[..])
      modifies this`firstFree, this`free, this`owner, inVoices, inChannels
      ensures Shared(voices[..], firstFree, free, owner, Holding(inVoices[..], id, i + 1), inChannels[..])
      ensures free == old(free)[..|old(free)| - 1]
      ensures inVoices[..] == old(inVoices[..])[id := old(inVoices[id]).(channelIds := old(inVoices[id]).channelIds[i := old(free)[|old(free)| - 1]])]
    {
      hide Shared;
      ghost var view := Holding(inVoices[..], id, i);
      TakeStep(voices[..], firstFree, free, owner, view, inChannels[..], id);
      var channelId := firstFree;
      firstFree := voices[channelId].nextFree;
      inVoices[id] := inVoices[id].(channelIds := inVoices[id].channelIds[i := channelId]);
      inChannels[channelId] := true;
      owner := owner[channelId := Held(id, i)];
      free := free[..|free| - 1];
      assert Holding(inVoices[..], id, i + 1) == view[id := WithChannel(view[id], channelId)];
    }

    /** The loop of audrvVoiceInit that allocates the channels of a voice. */
    method TakeChannels(id: nat, numChannels: nat)
      requires id < inVoices.Length == voices.Length == inChannels.Length && inVoices[id].isUsed && inVoices[id].channelCount == numChannels <= MAX_CHANNELS
      requires numChannels <= |free| && |inVoices[id].channelIds| == MAX_CHANNELS
      requires Shared(voices[..], firstFree, free, owner, Holding(inVoices[..], id, 0), inChannels[..])
      modifies this`firstFree, this`free, this`owner, inVoices, inChannels
      ensures Shared(voices[..], firstFree, free, owner, inVoices[..], inChannels[..])
      ensures free == Rest(old(free), numChannels)
      ensures |inVoices[id].channelIds| == MAX_CHANNELS && inVoices[id].channelIds[..numChannels] == Taken(old(free), numChannels)
      ensures inVoices[..] == old(inVoices[..])[id := old(inVoices[id]).(channelIds := inVoices[id].channelIds)]
    {
      hide Shared, Holding;
      for i := 0 to numChannels
        modifies this`firstFree, this`free, this`owner, inVoices, inChannels
        invariant free == Rest(old(free), i) && |inVoices[id].channelIds| == MAX_CHANNELS
        invariant inVoices[id].channelIds[..i] == Taken(old(free), i)
        invariant inVoices[..] == old(inVoices[..])[id := old(inVoices[id]).(channelIds := inVoices[id].channelIds)]
        invariant Shared(voices[..], firstFree, free, owner, Holding(inVoices[..], id, i), inChannels[..])
      {
        ghost var vs := inVoices[..];
        TakeChannel(id, i);
        assert inVoices[id] == inVoices[..][id];
      }
      HoldingAll(inVoices[..], id);
    }

    /** One turn of the loop of audrvVoiceDrop that releases the channels. */
    method ReleaseChannel(id: nat, i: nat, ghost vs: seq<Voice>)
      requires id < inVoices.Length == voices.Length == inChannels.Length && vs == inVoices[..] && i < vs[id].channelCount
      requires Shared(voices[..], firstFree, free, owner, Holding(vs, id, i + 1), inChannels[..])
      modifies this`firstFree, this`free, this`owner, voices, inChannels
      ensures Shared(voices[..], firstFree, free, owner, Holding(vs, id, i), inChannels[..])
      ensures i < |vs[id].channelIds| && free == old(free) + [vs[id].channelIds[i]]
      ensures SameLinks(old(voices[..]), voices[..])
    {
      hide Shared;
      ghost var view := Holding(vs, id, i + 1);
      GiveStep(voices[..], firstFree, free, owner, view, inChannels[..], id);
      var channelId := inVoices[id].channelIds[i];
      inChannels[channelId] := false;
      voices[channelId] := voices[channelId].(nextFree := firstFree);
      firstFree := channelId;
      owner := owner[channelId := Free(|free|)];
      free := free + [channelId];
      assert Holding(vs, id, i) == view[id := WithoutChannel(view[id])];
    }

    method ReleaseChannels(id: nat)
      requires id < inVoices.Length == voices.Length == inChannels.Length
      requires Shared(voices[..], firstFree, free, owner, inVoices[..], inChannels[..])
      modifies this`firstFree, this`free, this`owner, voices, inChannels
      ensures Shared(voices[..], firstFree, free, owner, Holding(inVoices[..], id, 0), inChannels[..])
      ensures inVoices[id].channelCount <= |inVoices[id].channelIds|
      ensures free == Released(old(free), inVoices[id].channelIds[..inVoices[id].channelCount])
      ensures SameLinks(old(voices[..]), voices[..])
    {
      SharedSizes(voices[..], firstFree, free, owner, inVoices[..], inChannels[..], id);
      hide Shared, Released, Holding, SameLinks;
      ghost var vs := inVoices[..];
      ghost var links := voices[..];
      LinksKept(links, links, links);
      ghost var ids := vs[id].channelIds[..vs[id].channelCount];
      var i := inVoices[id].channelCount;
      HoldingAll(vs, id);
      assert ids[..i] == ids;
      while i > 0
        modifies this`firstFree, this`free, this`owner, voices, inChannels
        invariant 0 <= i <= |ids|
        invariant Shared(voices[..], firstFree, free, owner, Holding(vs, id, i), inChannels[..])
        invariant Released(free, ids[..i]) == Released(old(free), ids)
        invariant SameLinks(links, voices[..])
      {
        ReleasedStep(free, ids, i - 1);
        i := i - 1;
        ghost var before := voices[..];
        ReleaseChannel(id, i, vs);
        LinksKept(links, before, voices[..]);
      }
      ReleasedNone(free);
    }

    /** The part of audrvVoiceInit that puts a voice in front of the list. */
    method Link(id: nat)
      requires id < voices.Length && id !in used && UsedChain(voices[..], firstUsed, used)
      modifies this`firstUsed, this`used, voices
      ensures UsedChain(voices[..], firstUsed, used) && used == old(used) + [id]
      ensures SameFreeLinks(old(voices[..]), voices[..])
    {
      ghost var links := voices[..];
      InsertKeepsChain(links, firstUsed, used, id);
      hide UsedChain;
      var nextVoice := firstUsed;
      voices[id] := voices[id].(nextUsed := nextVoice, prevNext := FirstUsed);
      firstUsed := id;
      if nextVoice >= 0 {
        voices[nextVoice] := voices[nextVoice].(prevNext := NextOf(id));
      }
      assert voices[..] == Inserted(links, nextVoice, id);
      used := used + [id];
    }

    /** The part of audrvVoiceDrop that cuts a voice out of the list. */
    method Unlink(id: nat)
      requires id in used && UsedChain(voices[..], firstUsed, used)
      modifies this`firstUsed, this`used, voices
      ensures UsedChain(voices[..], firstUsed, used) && used == Without(old(used), id)
      ensures SameFreeLinks(old(voices[..]), voices[..])
      ensures forall v :: v in used <==> v in old(used) && v != id
    {
      ghost var links := voices[..];
      ghost var p := IndexIn(used, id);
      RemoveKeepsChain(links, firstUsed, used, p);
      RemovedFields(links, used, p);
      WithoutIsRemoveAt(used, p);
      forall v ensures v in RemoveAt(used, p) <==> v in used && v != id {
        RemoveAtMembers(used, p, v);
      }
      hide UsedChain, LinkedAt, Without, RemoveAt;
      var nextVoice, prev := voices[id].nextUsed, voices[id].prevNext;
      match prev {
        case FirstUsed => firstUsed := nextVoice;
        case NextOf(v) => voices[v] := voices[v].(nextUsed := nextVoice);
      }
      if nextVoice >= 0 {
        voices[nextVoice] := voices[nextVoice].(prevNext := prev);
      }
      assert voices[..] == Removed(links, id);
      used := RemoveAt(used, p);
    }

    /** The part of audrvVoiceDrop before the voice is cleared. */
    method Detach(id: nat)
      requires Valid() && id < inVoices.Length && inVoices[id].isUsed
      modifies this, voices, inChannels
      ensures UsedChain(voices[..], firstUsed, used) && voices.Length == inVoices.Length == inChannels.Length
      ensures Shared(voices[..], firstFree, free, owner, Holding(inVoices[..], id, 0), inChannels[..]) && freeCount == |free|
      ensures inVoices[id].channelCount <= |inVoices[id].channelIds|
      ensures free == Released(old(free), inVoices[id].channelIds[..inVoices[id].channelCount])
      ensures used == Without(old(used), id) && forall v :: v in used <==> v in old(used) && v != id
    {
      assert id in used;
      hide Shared, UsedChain, Without, Released, UsedAreMarked, Holding, SameLinks, SameFreeLinks;
      freeCount := freeCount + inVoices[id].channelCount;
      ReleaseChannels(id);
      ReleasedLength(old(free), inVoices[id].channelIds[..inVoices[id].channelCount]);
      ghost var links := voices[..];
      LinksKeepChain(old(voices[..]), links, firstUsed, used);
      Unlink(id);
      SharedDespiteLinks(links, voices[..], firstFree, free, owner, Holding(inVoices[..], id, 0), inChannels[..]);
    }

    /** audrvVoiceDrop; the reset of the wave buffers is WaveQueue.Voice.Drop. */
    method Drop(id: nat)
      requires Valid() && id < inVoices.Length && inVoices[id].isUsed
      modifies this, voices, inVoices, inChannels
      ensures Valid()
      ensures old(inVoices[id]).channelCount <= |old(inVoices[id]).channelIds|
      ensures free == Released(old(free), old(inVoices[id]).channelIds[..old(inVoices[id]).channelCount])
      ensures inVoices[..] == old(inVoices[..])[id := CLEARED]
      ensures used == Without(old(used), id) && free == FreeAfterDrop(old(free), old(inVoices[..]), id)
    {
      hide Shared, UsedChain, Without, Released, UsedAreMarked, Holding;
      ghost var was := inVoices[..];
      Detach(id);
      assert inVoices[..] == was && was[id] == inVoices[id];
      inVoices[id] := CLEARED;
      SharedDespiteClearing(voices[..], firstFree, free, owner, was, inChannels[..], id);
      MarkedAfterDrop(old(used), used, was, id);
    }

    /** audrvVoiceInit, for a voice that is not in use any more. */
    method InitUnused(id: nat, numChannels: nat) returns (ok: bool)
      requires Valid() && id < inVoices.Length && !inVoices[id].isUsed && numChannels >= 1
      requires numChannels <= MAX_CHANNELS || |free| < numChannels
      modifies this, voices, inVoices, inChannels
      ensures Valid()
      ensures Initialised(old(free), old(used), old(inVoices[..]), id, numChannels, ok, free, used, inVoices[..])
    {
      SharedSizes(voices[..], firstFree, free, owner, inVoices[..], inChannels[..], id);
      hide Shared, UsedChain;
      if freeCount < numChannels {
        return false;
      }
      ghost var vs, links := inVoices[..], voices[..];
      assert id !in used;
      inVoices[id] := inVoices[id].(isUsed := true, channelCount := numChannels);
      Link(id);
      SharedDespiteLinks(links, voices[..], firstFree, free, owner, vs, inChannels[..]);
      SharedDespiteUse(voices[..], firstFree, free, owner, vs, inChannels[..], id);
      assert Holding(inVoices[..], id, 0) == vs[id := vs[id].(isUsed := true)];
      freeCount := freeCount - numChannels;
      TakeChannels(id, numChannels);
      hide UsedAreMarked;
      MarkedAfterInit(old(used), vs, inVoices[..], id);
      return true;
    }

    /** audrvVoiceInit.  More channels than a voice has room for may be asked for only if
        the call fails: the original has no test for it, and would write past channel_ids. */
    method Init(id: int, numChannels: int, format: PcmFormat) returns (ok: bool)
      requires Valid()
      requires Accepts(inVoices[..], id, numChannels, format) && numChannels > MAX_CHANNELS ==> |FreeAfterDrop(free, inVoices[..], id)| < numChannels
      modifies this, voices, inVoices, inChannels
      ensures Valid()
      ensures ok <==> 0 <= id < inVoices.Length && (format == Int16 || format == Adpcm)
                      && 1 <= numChannels <= |FreeAfterDrop(old(free), old(inVoices[..]), id)|
      ensures !Accepts(old(inVoices[..]), id, numChannels, format) ==> !ok && free == old(free) && used == old(used) && inVoices[..] == old(inVoices[..])
      ensures Accepts(old(inVoices[..]), id, numChannels, format) ==>
        Initialised(FreeAfterDrop(old(free), old(inVoices[..]), id), UsedAfterDrop(old(used), old(inVoices[..]), id),
                    VoicesAfterDrop(old(inVoices[..]), id), id, numChannels, ok, free, used, inVoices[..])
    {
      if id < 0 || id >= inVoices.Length || numChannels < 1 || (format != Int16 && format != Adpcm) {
        return false;
      }
      if inVoices[id].isUsed {
        Drop(id);
      }
      assert free == FreeAfterDrop(old(free), old(inVoices[..]), id);
      hide Valid, Initialised, Released, Without;
      ok := InitUnused(id, numChannels);
    }

    /** The first loop of audrvUpdate: the voices in use are numbered along the list. */
    method NumberVoices()
      requires Valid()
      modifies inVoices
      ensures Valid()
      ensures Numbered(used, old(inVoices[..]), inVoices[..], |used|)
      ensures forall k :: 0 <= k < |used| ==> used[k] < inVoices.Length && inVoices[used[k]].sortingOrder == |used| - 1 - k
    {
      hide Shared;
      ghost var vs := inVoices[..];
      var i, j := firstUsed, 0;
      ghost var n := 0;
      while i >= 0
        modifies inVoices
        invariant 0 <= n == j <= |used| && i == (if n == |used| then -1 else used[|used| - 1 - n])
        invariant Numbered(used, vs, inVoices[..], n)
        decreases |used| - n
      {
        assert LinkedAt(voices[..], used, |used| - 1 - n);
        assert used[|used| - 1 - n] in used && vs[i].isUsed;
        inVoices[i] := inVoices[i].(sortingOrder := j);
        i := voices[i].nextUsed;
        j, n := j + 1, n + 1;
      }
      forall k | 0 <= k < |vs| ensures SameChannels(vs[k], inVoices[k]) {
      }
      SharedDespiteOrder(voices[..], firstFree, free, owner, vs, inVoices[..], inChannels[..]);
    }
  }

  predicate SameChannels(v: Voice, v': Voice) {
    v'.isUsed == v.isUsed && v'.channelCount == v.channelCount && v'.channelIds == v.channelIds
  }

  /** The first n voices of the list have their place as sorting order, and nothing else
      has changed. */
  ghost predicate Numbered(used: seq<nat>, voices: seq<Voice>, voices': seq<Voice>, n: nat) {
    && |voices'| == |voices|
    && (forall k :: 0 <= k < |voices| ==> SameChannels(voices[k], voices'[k]) && (!voices[k].isUsed ==> voices'[k] == voices[k]))
    && (forall k :: |used| - n <= k < |used| && k >= 0 ==> used[k] < |voices'| && voices'[used[k]].sortingOrder == |used| - 1 - k)
  }

  lemma {:induction false} TotalDespiteOrder(view: seq<Voice>, view': seq<Voice>, n: nat)
    requires n <= |view| == |view'| && forall k :: 0 <= k < |view| ==> SameChannels(view[k], view'[k])
    ensures Total(view', n) == Total(view, n)
  {
    if n > 0 {
      TotalDespiteOrder(view, view', n - 1);
    }
  }

  lemma SharedDespiteOrder(v: seq<EtcVoice>, first: int, free: seq<nat>, owner: seq<Owner>, view: seq<Voice>, view': seq<Voice>, inUse: seq<bool>)
    requires Shared(v, first, free, owner, view, inUse) && |view| == |view'|
    requires forall k :: 0 <= k < |view| ==> SameChannels(view[k], view'[k])
    ensures Shared(v, first, free, owner, view', inUse)
  {
    TotalDespiteOrder(view, view', |view|);
    forall v | 0 <= v < |view'| ensures HoldsItsChannels(owner, view'[v], v) {
      assert HoldsItsChannels(owner, view[v], v);
    }
    forall c | 0 <= c < |owner| ensures OwnerAgrees(owner[c], free, view', c) {
      assert OwnerAgrees(owner[c], free, view, c);
    }
    hide Total, FreeChain, HoldsItsChannels, OwnerAgrees;
  }

  // ---------------------------------------------------------------- what is kept

  /** A channel is on the free list or held by one voice at one place, and never both. */
  lemma EveryChannelOnce(v: seq<EtcVoice>, first: int, free: seq<nat>, owner: seq<Owner>, view: seq<Voice>, inUse: seq<bool>, c: nat)
    requires Shared(v, first, free, owner, view, inUse) && c < |view|
    ensures |inUse| == |view| && (c in free <==> !inUse[c])
    ensures inUse[c] <==> exists id: nat, i: nat :: HoldsAt(view, id, i, c)
    ensures forall id: nat, i: nat, id': nat, i': nat :: HoldsAt(view, id, i, c) && HoldsAt(view, id', i', c) ==> id == id' && i == i'
    ensures forall j, k :: 0 <= j < k < |free| ==> free[j] != free[k]
  {
    assert OwnerAgrees(owner[c], free, view, c);
    forall id: nat, i: nat | HoldsAt(view, id, i, c) ensures owner[c] == Held(id, i) {
      assert HoldsItsChannels(owner, view[id], id);
    }
    if owner[c].Held? {
      assert HoldsItsChannels(owner, view[owner[c].voice], owner[c].voice);
      assert HoldsAt(view, owner[c].voice, owner[c].at, c);
    }
    if c in free {
      var k := IndexIn(free, c);
      assert owner[free[k]] == Free(k);
    }
    forall j, k | 0 <= j < k < |free| ensures free[j] != free[k] {
      assert owner[free[j]] == Free(j) && owner[free[k]] == Free(k);
    }
  }

  predicate HoldsAt(voices: seq<Voice>, id: nat, i: nat, c: nat) {
    id < |voices| && i < voices[id].channelCount <= |voices[id].channelIds| && voices[id].channelIds[i] == c
  }

  /** A successful Init followed by Drop of the same voice restores the free list, in the
      same order, and the list of used voices. */
  lemma DropUndoesInit(free: seq<nat>, used: seq<nat>, voices: seq<Voice>, id: nat, n: nat,
                       free': seq<nat>, used': seq<nat>, voices': seq<Voice>)
    requires id < |voices| && id !in used && Initialised(free, used, voices, id, n, true, free', used', voices')
    ensures FreeAfterDrop(free', voices', id) == free && UsedAfterDrop(used', voices', id) == used
    ensures VoicesAfterDrop(voices', id) == voices[id := CLEARED]
  {
    ReleaseUndoesTake(free, n);
    WithoutLast(used, id);
  }

  lemma {:induction false} WithoutLast(s: seq<nat>, x: nat)
    requires x !in s
    ensures Without(s + [x], x) == s
  {
    if |s| > 0 {
      assert (s + [x])[1..] == s[1..] + [x];
      WithoutLast(s[1..], x);
    }
  }

  /** What audrvVoiceInit does from a state in which the voice is not in use: it takes the
      channels off the front of the free list and puts the voice in front of the others,
      or changes nothing when there are too few channels. */
  ghost predicate Initialised(free: seq<nat>, used: seq<nat>, voices: seq<Voice>, id: nat, n: nat, ok: bool,
                              free': seq<nat>, used': seq<nat>, voices': seq<Voice>) {
    if |free| < n then !ok && free' == free && used' == used && voices' == voices
    else
      && ok && free' == Rest(free, n) && used' == used + [id]
      && id < |voices| == |voices'| && voices' == voices[id := voices'[id]] && Holds(voices'[id], Taken(free, n))
  }

  /** The arguments that audrvVoiceInit does not refuse outright. */
  predicate Accepts(voices: seq<Voice>, id: int, numChannels: int, format: PcmFormat) {
    0 <= id < |voices| && numChannels >= 1 && (format == Int16 || format == Adpcm)
  }

  // The free list, the used list and the voices after a voice has been dropped, if it
  // was in use.
  function FreeAfterDrop(free: seq<nat>, voices: seq<Voice>, id: nat): seq<nat>
    requires id < |voices|
  {
    if voices[id].isUsed && voices[id].channelCount <= |voices[id].channelIds| then Released(free, voices[id].channelIds[..voices[id].channelCount]) else free
  }

  function UsedAfterDrop(used: seq<nat>, voices: seq<Voice>, id: nat): seq<nat>
    requires id < |voices|
  {
    if voices[id].isUsed then Without(used, id) else used
  }

  function VoicesAfterDrop(voices: seq<Voice>, id: nat): seq<Voice>
    requires id < |voices|
  {
    if voices[id].isUsed then voices[id := CLEARED] else voices
  }

  /** A voice in use with exactly these channels. */
  predicate Holds(voice: Voice, ids: seq<nat>) {
    voice.isUsed && voice.channelCount == |ids| <= |voice.channelIds| && voice.channelIds[..|ids|] == ids
  }

  lemma MarkedAfterDrop(used: seq<nat>, used': seq<nat>, voices: seq<Voice>, id: nat)
    requires UsedAreMarked(used, voices) && id < |voices| && forall v :: v in used' <==> v in used && v != id
    ensures UsedAreMarked(used', voices[id := CLEARED])
  {
  }

  lemma MarkedAfterInit(used: seq<nat>, voices: seq<Voice>, voices': seq<Voice>, id: nat)
    requires UsedAreMarked(used, voices) && id < |voices| == |voices'| && voices'[id].isUsed && voices' == voices[id := voices'[id]]
    ensures UsedAreMarked(used + [id], voices')
  {
  }

  lemma SharedDespiteUse(v: seq<EtcVoice>, first: int, free: seq<nat>, owner: seq<Owner>, view: seq<Voice>, inUse: seq<bool>, id: nat)
    requires id < |view| && Shared(v, first, free, owner, view, inUse) && !view[id].isUsed
    ensures Shared(v, first, free, owner, view[id := view[id].(isUsed := true)], inUse)
  {
    SharedSizes(v, first, free, owner, view, inUse, id);
    EmptyVoice(owner, free, view, inUse, id, view[id].(isUsed := true));
    TotalUpdated(view, id, view[id].(isUsed := true), |view|);
    hide Partition, FreeChain, Total;
  }

  /** The voices, when one of them holds its first m channels only. */
  function Holding(voices: seq<Voice>, id: nat, m: nat): seq<Voice>
    requires id < |voices|
  {
    voices[id := voices[id].(channelCount := m)]
  }

  lemma HoldingAll(voices: seq<Voice>, id: nat)
    requires id < |voices|
    ensures Holding(voices, id, voices[id].channelCount) == voices
  {
  }

  lemma ReleasedStep(free: seq<nat>, ids: seq<nat>, i: nat)
    requires i < |ids|
    ensures Released(free, ids[..i + 1]) == Released(free + [ids[i]], ids[..i])
  {
    assert ids[..i + 1][..i] == ids[..i];
  }

  lemma ReleasedNone(free: seq<nat>)
    ensures Released(free, []) == free
  {
  }

  ghost predicate SameFreeLinks(v: seq<EtcVoice>, v': seq<EtcVoice>) {
    |v| == |v'| && forall k :: 0 <= k < |v| ==> v'[k].nextFree == v[k].nextFree
  }

  /** The links of the list of used voices are the same. */
  ghost predicate SameLinks(v: seq<EtcVoice>, v': seq<EtcVoice>) {
    |v| == |v'| && forall k :: 0 <= k < |v| ==> v'[k].nextUsed == v[k].nextUsed && v'[k].prevNext == v[k].prevNext
  }

  lemma LinksKept(v: seq<EtcVoice>, v': seq<EtcVoice>, v'': seq<EtcVoice>)
    ensures SameLinks(v, v)
    ensures SameLinks(v, v') && SameLinks(v', v'') ==> SameLinks(v, v'')
  {
  }

  lemma LinksKeepChain(v: seq<EtcVoice>, v': seq<EtcVoice>, first: int, used: seq<nat>)
    requires UsedChain(v, first, used) && SameLinks(v, v')
    ensures UsedChain(v', first, used)
  {
    forall k | 0 <= k < |used| ensures LinkedAt(v', used, k) {
      assert LinkedAt(v, used, k);
    }
  }

  lemma SharedSizes(v: seq<EtcVoice>, first: int, free: seq<nat>, owner: seq<Owner>, view: seq<Voice>, inUse: seq<bool>, id: nat)
    requires Shared(v, first, free, owner, view, inUse) && id < |view|
    ensures |v| == |view| == |inUse| && view[id].channelCount <= MAX_CHANNELS == |view[id].channelIds|
    ensures !view[id].isUsed ==> view[id].channelCount == 0
  {
    assert HoldsItsChannels(owner, view[id], id);
  }

  lemma SharedDespiteClearing(v: seq<EtcVoice>, first: int, free: seq<nat>, owner: seq<Owner>, view: seq<Voice>, inUse: seq<bool>, id: nat)
    requires id < |view| && Shared(v, first, free, owner, Holding(view, id, 0), inUse)
    ensures Shared(v, first, free, owner, view[id := CLEARED], inUse)
  {
    var a, b := Holding(view, id, 0), view[id := CLEARED];
    EmptyVoice(owner, free, a, inUse, id, CLEARED);
    TotalUpdated(a, id, CLEARED, |a|);
    assert b == a[id := CLEARED];
    hide Partition, FreeChain, Total;
  }

  /** A voice without channels may be replaced by another one. */
  lemma EmptyVoice(owner: seq<Owner>, free: seq<nat>, voices: seq<Voice>, inUse: seq<bool>, id: nat, voice: Voice)
    requires Partition(owner, free, voices, inUse) && id < |voices| && voices[id].channelCount == 0
    requires voice.channelCount == 0 && |voice.channelIds| == MAX_CHANNELS
    ensures Partition(owner, free, voices[id := voice], inUse)
  {
    var voices' := voices[id := voice];
    forall v | 0 <= v < |voices'| ensures HoldsItsChannels(owner, voices'[v], v) {
      assert HoldsItsChannels(owner, voices[v], v);
    }
    forall c | 0 <= c < |owner| ensures OwnerAgrees(owner[c], free, voices', c) {
      assert OwnerAgrees(owner[c], free, voices, c);
    }
  }

  /** A list without one of its members. */
  function Without(s: seq<nat>, x: nat): seq<nat> {
    if |s| == 0 then [] else if s[0] == x then Without(s[1..], x) else [s[0]] + Without(s[1..], x)
  }

  lemma {:induction false} WithoutOthers(s: seq<nat>, x: nat)
    requires x !in s
    ensures Without(s, x) == s
  {
    if |s| > 0 {
      WithoutOthers(s[1..], x);
    }
  }

  lemma {:induction false} WithoutIsRemoveAt(s: seq<nat>, p: nat)
    requires Distinct(s) && p < |s|
    ensures Without(s, s[p]) == RemoveAt(s, p)
  {
    if p == 0 {
      WithoutOthers(s[1..], s[0]);
      assert RemoveAt(s, 0) == s[1..];
    } else {
      WithoutIsRemoveAt(s[1..], p - 1);
      assert RemoveAt(s, p) == [s[0]] + RemoveAt(s[1..], p - 1);
    }
  }
}
