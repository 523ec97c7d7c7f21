# Verified models of libnx and of the patcher

This project models the parts of a Nintendo Switch mod whose correctness is hardest to see from
the code: the synchronisation primitives, the audio voice driver, and several exact data
transformations of its C runtime (libnx), and the PFS0 archive and A64 instruction code of its C#
patcher. Each file models one source file or one component.

| file | component | form |
|---|---|---|
| `Mutex.dfy` | the lock word of `mutex.c` with the condition variable of `condvar.c` | state machine over single compare-and-swaps and system calls |
| `RecursiveMutex.dfy` | `rmutex*` and the C11 condition wait on a recursive mutex | state machine over single statements |
| `RwLock.dfy`, `Semaphore.dfy`, `Barrier.dfy`, `CallOnce.dfy` | the primitives above the mutex | state machines over the statements between lock operations |
| `Runs.dfy` | runs of a transition system, and counting threads | shared by the state machines |
| `Arithmetic.dfy`, `BinaryDigits.dfy`, `Wrappers.dfy` | division, powers of two, bitwise operators, digits; results that may be missing or errors | shared |
| `FenceSlots.dfy` | the lock-free event slots of `fence.c` | state machine over loads, compare-and-swaps and driver calls |
| `GpuChannel.dfy` | the GPU command queue | class, and a specification over values |
| `AppletHooks.dfy` | the hook chain of the applet service | class over linked nodes |
| `VoiceTable.dfy` | voices, channels and their lists | class over arrays of records |
| `WaveQueue.dfy` | the wave buffers of a voice, and of all voices | classes over linked nodes |
| `AudioVoices.dfy` | the calls that touch both the voices and their wave buffers | class over the two above |
| `WebTlv.dfy` | the argument storage of the web applets | class over a byte array |
| `Framebuffer.dfy` | the block-linear conversion | methods over a byte array |
| `ChaCha.dfy`, `ChaChaAnswers.dfy` | the random generator, and known answers of it | methods over word and byte arrays, and a class |
| `TimeSpec.dfy` | the timeout of a timed wait, in the integer widths of the code | methods, and a specification over values |
| `Pfs0.dfy` | the archive writer and reader | classes for the two streams |
| `A64.dfy` | the instruction encoders and decoders | functions |
| `Processor.dfy` | what a processor makes of instruction words, from the architecture manual | functions |
| `A64Execution.dfy`, `A64Masks.dfy` | the encoders and decoders against the processor | lemmas |

Threads are unbounded in number, and a theorem about a state machine holds at every position of
every run of it. A spin or retry loop is several steps, so that other threads run in between.

## What is assumed of the kernel

- `svcArbitrateLock(owner, word, self)` puts `self` to sleep only if the word still is
  `owner | HAS_LISTENERS`, and returns at once otherwise.
- `svcArbitrateUnlock` gives the word to one thread that sleeps on it, and keeps the flag iff others
  still do; without a sleeper it writes 0.
- Waiting on a condition variable releases the mutex and goes to sleep in one atomic step. A signal
  for n sleepers wakes as many as there are, up to n, and all of them for an n that is not positive;
  n is an `int`, to which a larger count is narrowed. Nobody wakes without a signal; only the barrier needs this.
- Thread handles are distinct, not 0, and below the flag bit.

The models above `Mutex.dfy` take the mutex as atomic, which is what its theorems allow.

## Where the code does something else than expected

These are results: each is proved with the exact condition under which the code does what is
expected of it.

- **PFS0**: the writer aligns the end of the names to 32 bytes, the reader adds the aligned length of
  the names to the end of the file table. The two agree only for a file count of 2 modulo 4
  (`Pfs0.StartsAgree`); `Pfs0.RoundTrip` says for which archives the files come back, and
  `Pfs0.OneByteIsLost` gives one for which they do not.
- **adrp and add**: a target that is not negative but lies on a page below that of the program counter
  is decoded 4 GiB too high (`A64.BackwardPageIsLost`). `A64.AdrpAddRoundTrip` gives the condition
  for the decoder and `A64Execution.AdrpAddRuns` the one for a processor. Register 31 is accepted too,
  and there the pair moves the stack pointer (`A64Execution.AdrpAddRuns`). The decoder takes the
  farthest page below for none at all (`A64Execution.AdrpMeaning`).
- **add (immediate)**: the encoder accepts 16 bits and lets the upper four run into the shift and
  the opcode (`A64.AddImmRoundTrip`); 0x1000 comes back as 0 (`A64.WideImmediateIsLost`).
- **Bitmask immediates**: the decoder takes every element for one of 32 bits, so an orr with a shorter
  one is read as another number (`A64Execution.MovzMeaning`); `A64Execution.AlternatingOnesAreMisread`
  is an instruction for which it is.
- **movz and movk of the same half**: the decoder or-s what a processor replaces
  (`A64Execution.PairMeaning`, and `A64Execution.SameHalfIsMixed` for a pair that is misread).
- **TLV storage**: a value of type 0 is written behind the last record without a record of its own;
  the write reports success, the read does not find it (`WebTlv.WriteReadsBackIff`, and
  `WebTlv.TypeZeroIsLost` for fresh storage). No caller in `web.c` passes that type: every call names
  one of the `WebArgType` constants, which start at 1.
- **TLV strings**: a string is read back whole iff it is shorter than the declared size
  (`WebTlv.StringReadsBackIff`); `WebTlv.LongStringIsCut` is one that is not.
- **Timed waits**: the subtraction of two times multiplies `int` by `int`. It is exact iff no more than
  two seconds have to be carried, as for normalised times (`TimeSpec.ExactIff`);
  `TimeSpec.TwoSecondsAreLost` and `TimeSpec.ThreeSecondsBecomeSeven` are times that are not normalised
  and for which the product wraps around.
- **Event slots**: `__builtin_ffs` takes an `int`, so only 32 of the 64 slots are ever used
  (`FenceSlots.TakesLowestFree`).
- **Wave buffers**: after an update the first buffer of the list is marked as playing iff the ring was
  not run empty (`WaveQueue.Voice.Update`): one that is still to be queued is marked first and then
  queued, which puts the mark back (`WaveQueue.PlayingMarkIsLost`).

## Model

| member | source | states |
|---|---|---|
| KernelMutex.MutualExclusion | sp2Module/libnx/nx/source/kernel/mutex.c:12-67 | under every interleaving at most one thread is inside the lock, and the word names it |
| KernelMutex.NoForgottenSleeper | sp2Module/libnx/nx/source/kernel/mutex.c:28-40 | a thread asleep on the word implies the listener flag and another thread, named by the word, that holds the lock or is about to find it was given it |
| KernelMutex.FreeWordIsFree | sp2Module/libnx/nx/source/kernel/mutex.c:44-67 | word 0 means that nobody is inside and nobody sleeps on the word |
| KernelMutex.SleeperCanBeServed | sp2Module/libnx/nx/source/kernel/mutex.c:61-67 | from every reachable state a sleeper can still get the lock by a run in which every step is the owner's or its own |
| KernelMutex.UnparkedIsOwner | sp2Module/libnx/nx/source/kernel/mutex.c:61-67 | whatever step is taken, a sleeper wakes only because its wait times out or because the thread that the word named unlocks or waits; then it alone wakes, the word names it, nobody else is inside, and the flag stays iff a sleeper remains |
| KernelMutex.NoBarging | sp2Module/libnx/nx/source/kernel/mutex.c:15-25 | while anybody sleeps on the word no newcomer wins the lock: a thread that gets it was named by the word before, and does not change it |
| KernelMutex.LockUnlockAlone | sp2Module/libnx/nx/source/kernel/mutex.c:12-20 | without contention a lock or try-lock and an unlock take one compare-and-swap each and undo each other |
| KernelMutex.RefusedTryIsTaken | sp2Module/libnx/nx/source/kernel/mutex.c:44-59 | over every run, a try-lock that fails met a word that names another thread, which has the lock or is about to find it was given it |
| KernelMutex.CallsReturnInside | sp2Module/libnx/nx/source/kernel/mutex.c:12-42 | a lock call, or a wait that has given the lock up, comes back in one way: with the lock, and named by the word |
| KernelMutex.ContenderParks | sp2Module/libnx/nx/source/kernel/mutex.c:28-40 | a thread that finds the lock taken, left to itself, sets the flag if need be and sleeps within three steps |
| KernelMutex.RunInv | sp2Module/libnx/nx/source/kernel/condvar.c:8-18 | the invariant of the word survives every run, waits, signals and timeouts on the condition variable included |
| RecursiveMutex.TagNamesHolder | sp2Module/libnx/nx/source/kernel/mutex.c:69-95 | a non-zero thread_tag names the thread that holds the inner lock |
| RecursiveMutex.CounterIsDepth | sp2Module/libnx/nx/source/kernel/mutex.c:69-95 | at every point, counter is the nesting depth of the thread that has the inner lock, or 0 between the two assignments around a wait; a nested thread has the lock unless it sleeps in a wait, and a thread that is not nested has neither lock nor tag in its own code |
| RecursiveMutex.NestingExcludes | sp2Module/libnx/nx/source/kernel/mutex.c:69-88 | two threads are never nested at the same time, those that sleep in a wait aside |
| RecursiveMutex.LockReturnsDeeper | sp2Module/libnx/nx/source/kernel/mutex.c:69-88 | a locking call comes back one level deeper with lock, tag and counter, or is a try-lock that met the lock in another thread's hands, with nothing changed |
| RecursiveMutex.ReleasedAtDepthZero | sp2Module/libnx/nx/source/kernel/mutex.c:90-95 | the inner lock is given up exactly by the unlock that brings the depth to 0, and by a wait |
| RecursiveMutex.WaitNeedsDepthOne | sp2Module/libnx/nx/source/runtime/c11-threads.c:101-104 | a wait goes ahead iff the depth is 1, and a refused one changes nothing |
| RecursiveMutex.WaitReturnsAsItCame | sp2Module/libnx/nx/source/runtime/c11-threads.c:96-121 | between the call of a wait and its return, signalled, timed out or refused, whatever others do, the caller ends up with the lock, tag, counter and depth it came with |
| RwLock.WriterExcludesAll | sp2Module/libnx/nx/source/kernel/rwlock.c:14-59 | from the end of its drain to its unlock a writer excludes all readers and all other writers |
| RwLock.FieldsCountSections | sp2Module/libnx/nx/source/kernel/rwlock.c:14-59 | readers is the number of threads in a read section, and writer is set iff a thread drains or owns the write section |
| RwLock.LocksReturnLocked | sp2Module/libnx/nx/source/kernel/rwlock.c:14-50 | a read-lock call comes back only into a read section that is counted, a write-lock call only as the writer with no readers left |
| RwLock.SleepersHaveCause | sp2Module/libnx/nx/source/kernel/rwlock.c:17-19 | with the mutex free, sleepers on condvar_writer imply writer and sleepers on condvar_readers imply readers > 0 |
| RwLock.DrainNeverGrows | sp2Module/libnx/nx/source/kernel/rwlock.c:43-47 | while a writer drains, no step increases readers |
| RwLock.NeverStuck | sp2Module/libnx/nx/source/kernel/rwlock.c:26-59 | a sleeper never sees all other threads idle: one of them is in a section or can take a step |
| Semaphore.PermitsConserved | sp2Module/libnx/nx/source/kernel/semaphore.c:5-38 | with the mutex free, count is the initial count plus signals minus successful waits modulo 2^64, and no more was taken than put in |
| Semaphore.WaitsReturnPermits | sp2Module/libnx/nx/source/kernel/semaphore.c:18-39 | a wait comes back only with a permit counted as taken; a try-wait comes back with one, or fails while the count is 0 |
| Semaphore.NoPermitBesideSleeper | sp2Module/libnx/nx/source/kernel/semaphore.c:11-38 | at every point of a run, while a thread sleeps, count is at most the number of threads awakened and not yet running, plus one permit that the holder of the mutex is about to signal or to take; with the mutex free there is no such permit |
| Semaphore.StuckMeansEmpty | sp2Module/libnx/nx/source/kernel/semaphore.c:18-26 | if nobody but sleepers could run, count is 0 |
| Barrier.SleepersEqualCount | sp2Module/libnx/nx/source/kernel/barrier.c:10-22 | with the mutex free the number of sleepers is count, which is below the size of the barrier |
| Barrier.GenerationsAreFull | sp2Module/libnx/nx/source/kernel/barrier.c:10-22 | arrivals are the completed generations times the size plus count |
| Barrier.NobodyPassesEarly | sp2Module/libnx/nx/source/kernel/barrier.c:10-22 | a thread passes generation g only after all arrivals of g |
| Barrier.CallWaitsForItsGeneration | sp2Module/libnx/nx/source/kernel/barrier.c:10-22 | from the start of a call to its return, whatever others do: the call comes back after the generation it arrived in is complete, which was not complete when it began |
| Barrier.NeverStuck | sp2Module/libnx/nx/source/kernel/barrier.c:10-22 | with as many threads as the barrier waits for, or more, some thread can always take a step |
| Barrier.SignalReleasesOneGeneration | sp2Module/libnx/nx/source/kernel/barrier.c:13-19 | the wake of a generation releases the sleepers of that generation and no thread that has come back for the next |
| Barrier.SignalWakesAll | sp2Module/libnx/nx/source/kernel/barrier.c:15-15 | a wake for as many sleepers as there are wakes all of them iff the narrowing of total to the int parameter leaves it alone or makes it not positive; with less than 2^31 threads it does |
| CallOnce.RunsOnceBeforeReturning | sp2Module/libnx/nx/source/runtime/c11-threads.c:45-62 | func is entered at most once, and no caller returns before that run has finished |
| CallOnce.SleepersWaitForTheRun | sp2Module/libnx/nx/source/runtime/c11-threads.c:56-59 | with the mutex free a sleeper implies status 1 and a thread that is running func |
| CallOnce.NeverStuck | sp2Module/libnx/nx/source/runtime/c11-threads.c:53-59 | no caller sleeps on once nobody can take a step |
| TimeSpec.Subtract | sp2Module/libnx/nx/source/runtime/c11-threads.c:9-31 | the result is the exact difference with nanoseconds in 0..10^9 iff y has less than two seconds of nanoseconds more than x and x less than three seconds more than y; there the sign flag is right except at 0 |
| TimeSpec.ExactIff | sp2Module/libnx/nx/source/runtime/c11-threads.c:9-31 | the same condition for all times whatever, and that normalised times meet it |
| TimeSpec.TwoSecondsAreLost | sp2Module/libnx/nx/source/runtime/c11-threads.c:12-16 | a concrete subtraction whose first product wraps around, with the result the code gives |
| TimeSpec.NanosecondsUntil | sp2Module/libnx/nx/source/runtime/c11-threads.c:33-43 | under the same condition, the nanoseconds left until a point in time, 0 once it has passed |
| TimeSpec.ThreeSecondsBecomeSeven | sp2Module/libnx/nx/source/runtime/c11-threads.c:17-21 | a concrete wait whose second product wraps around, and that lasts more than seven seconds instead of three |
| FenceSlots.SlotsAreOwned | sp2Module/libnx/nx/source/nvidia/fence.c:16-37 | under every interleaving a mask bit is set iff a thread holds the slot, and only one does |
| FenceSlots.QuiescentMaskIsZero | sp2Module/libnx/nx/source/nvidia/fence.c:108-122 | every path of a fence wait gives its slot back: with all threads idle the mask is 0 |
| FenceSlots.OthersKeepSlot | sp2Module/libnx/nx/source/nvidia/fence.c:30-37 | no step of another thread takes a slot away |
| FenceSlots.TakesLowestFree | sp2Module/libnx/nx/source/nvidia/fence.c:20-25 | a successful exchange takes the lowest clear bit, below 32, and insufficient memory is returned only when the 32 low bits were set |
| FenceSlots.ReturnsLastAnswer | sp2Module/libnx/nx/source/nvidia/fence.c:95-122 | over every run a fence wait returns what the driver answered last, a time-out as a time-out, and insufficient memory without a slot or an event; it waits again exactly after the first time-out |
| FenceSlots.AnyAnswerIsHeard | sp2Module/libnx/nx/source/nvidia/fence.c:115-117 | no answer of the driver is ruled out |
| GpuChannel.NvGpuChannel.AppendEntry | sp2Module/libnx/nx/source/nvidia/gpu_channel.c:66-83 | queue, fence and result are those of the specification; OutOfMemory is never returned and the queue never overflows |
| GpuChannel.NvGpuChannel.Kickoff | sp2Module/libnx/nx/source/nvidia/gpu_channel.c:97-122 | the driver is asked up to its first answer that is not Busy, each time with the whole queue and the flags 0x104 or 0x004; that answer decides: success hands over the queue, failure changes nothing |
| GpuChannel.CommandFields | sp2Module/libnx/nx/source/nvidia/gpu_channel.c:79-81 | a 40-bit address, a 21-bit number of commands and the flags can be read back from the 64-bit entry |
| GpuChannel.FlushKeepsRoom | sp2Module/libnx/nx/source/nvidia/gpu_channel.c:69-82 | the queue is flushed exactly when num_entries plus the threshold reaches 2048, and after a successful call at most 2048 minus the threshold are pending; a failed flush changes nothing |
| GpuChannel.CommandsConserved | sp2Module/libnx/nx/source/nvidia/gpu_channel.c:66-122 | over any sequence of calls and replies, submitted then pending entries are the accepted commands in order |
| GpuChannel.FenceCountsIncrements | sp2Module/libnx/nx/source/nvidia/gpu_channel.c:115-119 | fence.value plus fence_incr is the initial value plus all increments, modulo 2^32 |
| AppletHooks.Applet.Hook | sp2Module/libnx/nx/source/services/applet.c:367-377 | the callback is put in front of the registered ones, a NULL one is ignored, and the chain stays acyclic |
| AppletHooks.Applet.Unhook | sp2Module/libnx/nx/source/services/applet.c:379-390 | exactly the registration of the cookie is removed, though another node stores it; an unknown cookie changes nothing |
| AppletHooks.Applet.CallHook | sp2Module/libnx/nx/source/services/applet.c:360-365 | calls the registered callbacks, newest first, each with its parameter |
| AppletHooks.WithoutIsOthers | sp2Module/libnx/nx/source/services/applet.c:379-390 | removing a cookie from distinct registrations leaves the others, in order |
| AppletHooks.ReplayDistinct | sp2Module/libnx/nx/source/services/applet.c:367-390 | over any legal history the registered cookies are distinct |
| AppletHooks.ReplayIsSurvivors | sp2Module/libnx/nx/source/services/applet.c:367-390 | after any legal history the chain is the hooks not undone by a later unhook of the same cookie, newest first |
| VoiceTable.AudioDriver.constructor | sp2Module/libnx/nx/source/audio/driver.c:28-32 | all channels are free, channel 0 first and in ascending order, and no voice is used |
| VoiceTable.AudioDriver.Init | sp2Module/libnx/nx/source/audio/voice.c:3-52 | a used voice is dropped first; then the voice gets the first channels of the free list, in order, and comes first in the list, or fails for want of channels with nothing else changed; accepted are exactly an existing voice, a format Int16 or Adpcm, and a channel or more; anything else changes nothing; all invariants are kept |
| VoiceTable.AudioDriver.Drop | sp2Module/libnx/nx/source/audio/voice.c:69-90 | its channels return to the front of the free list in their order, the voice leaves the list wherever it stands, and all invariants are kept |
| VoiceTable.AudioDriver.NumberVoices | sp2Module/libnx/nx/source/audio/driver.c:106-107 | each used voice gets its place in the list as sorting order, and no other voice changes |
| VoiceTable.InsertKeepsChain | sp2Module/libnx/nx/source/audio/voice.c:33-39 | after the insertion every next link and every back-pointer to the field that names a voice is right |
| VoiceTable.RemoveKeepsChain | sp2Module/libnx/nx/source/audio/voice.c:81-85 | cutting out a voice through its back-pointer leaves a well-formed list of the others, also at the head |
| VoiceTable.TakeStep | sp2Module/libnx/nx/source/audio/voice.c:43-49 | taking a channel keeps the partition of the channels and their total |
| VoiceTable.GiveStep | sp2Module/libnx/nx/source/audio/voice.c:73-79 | releasing a channel keeps the partition of the channels and their total |
| VoiceTable.EveryChannelOnce | sp2Module/libnx/nx/source/audio/voice.c:41-49 | a channel is on the free list or held by exactly one voice at one place, never both, and is_used says which |
| VoiceTable.DropUndoesInit | sp2Module/libnx/nx/source/audio/voice.c:69-79 | Init followed by Drop restores the free list in the same order, and the list of used voices |
| AudioVoices.AudioDriver.Drop | sp2Module/libnx/nx/source/audio/voice.c:69-90 | the voice leaves the table and its channels come free, its wave buffers are all done, and voices and lists stay well-formed and disjoint |
| AudioVoices.AudioDriver.Init | sp2Module/libnx/nx/source/audio/voice.c:3-52 | initialising a voice in use ends its wave buffers, also if there are no channels for it afterwards; otherwise no list changes; refused arguments change neither table nor voices |
| WaveQueue.Voice.QueueWaveBufs | sp2Module/libnx/nx/source/audio/voice.c:114-138 | afterwards the ring holds as many of the first buffers as it can, each under its number since the reset; slots filled before keep their sent flag, new ones are unsent |
| WaveQueue.Voice.AddWaveBuf | sp2Module/libnx/nx/source/audio/voice.c:140-163 | exactly a free or finished buffer with data, all of it aligned to 64 bytes, joins the end of the list, and any other call changes nothing; the list stays acyclic |
| WaveQueue.AddAfterUpdate | sp2Module/libnx/nx/source/audio/voice.c:142-143 | a buffer that an update has finished can be added again, and comes last |
| WaveQueue.AddAfterStop | sp2Module/libnx/nx/source/audio/voice.c:142-143 | so can a buffer that was on the list when the voice was stopped |
| WaveQueue.Voice.Update | sp2Module/libnx/nx/source/audio/voice.c:201-236 | exactly the reported number of buffers leaves the front of the list and is done, the ring moves on with the rest, only newly queued slots are unsent, the first buffer is marked as playing iff the ring was not run empty, and the head is the slot that the renderer reaches, going from slot to slot, after as many steps |
| WaveQueue.PlayingMarkIsLost | sp2Module/libnx/nx/source/audio/voice.c:227-231 | a concrete voice whose first buffer is next to be played and not marked as playing |
| WaveQueue.Voice.Init | sp2Module/libnx/nx/source/audio/voice.c:20-31 | the voice is new and stopped with all slots sent, and its list and the ring's contents are as before |
| WaveQueue.Voice.Stop | sp2Module/libnx/nx/source/audio/voice.c:92-107 | the list is empty, all its buffers are done, and the ring is empty and sent |
| WaveQueue.Voice.Drop | sp2Module/libnx/nx/source/audio/voice.c:87-89 | the same reset for a dropped voice, with the ring zeroed |
| WaveQueue.Voice.ResetInternalState | sp2Module/libnx/nx/source/audio/voice.c:54-67 | counters are 0 and every buffer that was on the list is done |
| WaveQueue.Voice.QueueIsLive | sp2Module/libnx/nx/source/audio/voice.c:142-143 | a buffer on a list is never free or done, so it cannot be added again |
| WaveQueue.SequenceIsPlace | sp2Module/libnx/nx/source/audio/voice.c:122-122 | the sequence number of a queued buffer is its FIFO place since the reset modulo 2^32, and that of the first is the consumed counter |
| WaveQueue.RingHoldsPrefix | sp2Module/libnx/nx/source/audio/voice.c:118-135 | the ring holds the first min(4, length) buffers of the list, in order, in distinct slots |
| WaveQueue.RendererReadsQueue | sp2Module/libnx/nx/source/audio/voice.c:118-135 | a renderer that starts at the head and goes from each slot of the array to the next, and from the last to the first, reads the first buffers of the list in order |
| WaveQueue.Driver.AddWaveBuf | sp2Module/libnx/nx/source/audio/voice.c:140-163 | a buffer on the list of any voice is refused, so the lists of all voices stay disjoint and the others unchanged |
| WaveQueue.Driver.Update | sp2Module/libnx/nx/source/audio/driver.c:131-132 | updating one voice keeps every voice well-formed and the lists disjoint, and leaves the others alone |
| WaveQueue.Driver.StopOrDrop | sp2Module/libnx/nx/source/audio/voice.c:92-107 | stopping or dropping one voice keeps every voice well-formed and the lists disjoint, and leaves the others alone |
| WebTlv.Storage.Write | sp2Module/libnx/nx/source/applets/web.c:95-141 | on well-formed storage a write succeeds iff the type is present with the same size or is new and its record fits, and has exactly the outcome of the specification; a refused one changes no byte, and the shim kind is never touched |
| WebTlv.Storage.Read | sp2Module/libnx/nx/source/applets/web.c:143-178 | returns the stored value of the type, and tells a missing type from a size that differs |
| WebTlv.Storage.ReadVarSize | sp2Module/libnx/nx/source/applets/web.c:180-215 | returns as much of the stored value as asked for |
| WebTlv.Storage.SetString | sp2Module/libnx/nx/source/applets/web.c:241-246 | stores the string cut to leave room for its terminator, padded with zeros |
| WebTlv.WrittenLookup | sp2Module/libnx/nx/source/applets/web.c:95-178 | after a successful write the type has the new value and every other type its old one |
| WebTlv.WriteReadsBackIff | sp2Module/libnx/nx/source/applets/web.c:110-134 | a write that reported success is found by a read iff the type is not 0, and no other type changes |
| WebTlv.TypeZeroIsLost | sp2Module/libnx/nx/source/applets/web.c:110-134 | a concrete write that reports success and is not found by the read |
| WebTlv.WrittenIsMapUpdate | sp2Module/libnx/nx/source/applets/web.c:95-141 | the storage refines a finite map: a successful write is a map update and keeps the types distinct |
| WebTlv.LookupIsMap | sp2Module/libnx/nx/source/applets/web.c:157-175 | searching the records is looking up the map |
| WebTlv.RecordLayout | sp2Module/libnx/nx/source/applets/web.c:110-134 | the storage byte by byte: the count, and each record's type, size and value, at the places that follow from the sizes before |
| WebTlv.StringReadsBackIff | sp2Module/libnx/nx/source/applets/web.c:241-246 | a stored string is always terminated, and reads back whole iff it is shorter than the declared size |
| WebTlv.LongStringIsCut | sp2Module/libnx/nx/source/applets/web.c:241-246 | a concrete string that loses its last character |
| Framebuffer.UnitMasks | sp2Module/libnx/nx/source/display/framebuffer.c:182-183 | the row and the column of unit i that the model uses are, for every i, the ones the masks and shifts of the code select |
| Framebuffer.UnitThenSwizzle | sp2Module/libnx/nx/source/display/framebuffer.c:181-186 | the 32 units of a GOB are, in output order, the places of the closed form |
| Framebuffer.SwizzleThenUnit | sp2Module/libnx/nx/source/display/framebuffer.c:181-186 | and the closed form gives each byte of a GOB back its row and column |
| Framebuffer.ConvertGob | sp2Module/libnx/nx/source/display/framebuffer.c:168-187 | each 16-byte unit of the output is the unit of the image it stands for, and nothing else is written |
| Framebuffer.ConvertToBlocklinear | sp2Module/libnx/nx/source/display/framebuffer.c:189-211 | every byte of the padded image is at its closed-form offset, and the GOBs below the image keep what they were; reads stay inside stride times height rounded up to 8 |
| Framebuffer.OffsetInvertible | sp2Module/libnx/nx/source/display/framebuffer.c:189-211 | the offset map is injective: column and row can be computed back from the offset |
| Framebuffer.OffsetSteps | sp2Module/libnx/nx/source/display/framebuffer.c:189-211 | a GOB down the block is 512 bytes on, the next block as many GOBs as a block has, the next row of blocks as many rows of the image; the first GOB is the swizzled one |
| Framebuffer.OffsetOnto | sp2Module/libnx/nx/source/display/framebuffer.c:189-211 | every byte of the output is the place of one byte |
| Framebuffer.OffsetBound | sp2Module/libnx/nx/source/display/framebuffer.c:72-77 | offsets stay below stride times the height rounded up to whole blocks |
| Framebuffer.GobsFillOutput | sp2Module/libnx/nx/source/display/framebuffer.c:72-77 | which is exactly the size of all GOBs |
| Framebuffer.GobReadable | sp2Module/libnx/nx/source/display/framebuffer.c:121-122 | a GOB that starts inside the image is read inside the linear buffer |
| Framebuffer.ImageDetermined | sp2Module/libnx/nx/source/display/framebuffer.c:189-211 | the output determines the linear image |
| ChaCha.QuarterInverse | sp2Module/libnx/nx/source/kernel/random.c:31-35 | the quarter round is a permutation of four words |
| ChaCha.QuarterRound | sp2Module/libnx/nx/source/kernel/random.c:31-35 | the in-place macro changes four words by the quarter round and no other |
| ChaChaAnswers.QuarterAnswer | sp2Module/libnx/nx/source/kernel/random.c:31-35 | the quarter round gives the test vector of section 2.1.1 of RFC 8439 |
| ChaCha.DiagonalsAreSkewedColumns | sp2Module/libnx/nx/source/kernel/random.c:54-57 | the second half of a double round is the first half on the diagonals of the matrix |
| ChaCha.RoundsInvertible | sp2Module/libnx/nx/source/kernel/random.c:49-58 | the rounds before the feed-forward are a permutation of the states |
| ChaCha.Round | sp2Module/libnx/nx/source/kernel/random.c:41-65 | the output block is the little-endian sum of the permuted input and the input |
| ChaChaAnswers.FirstBlockAnswer | sp2Module/libnx/nx/source/kernel/random.c:41-121 | with a key and a nonce of zeros the key stream begins with the 64 known bytes of 8 rounds, 3e 00 ef 2f 89 5f 40 d6 first |
| ChaCha.StartLayout | sp2Module/libnx/nx/source/kernel/random.c:67-90 | the first input is, byte by byte, the constant, the key, a zero counter and the nonce |
| ChaCha.AdvanceCounts | sp2Module/libnx/nx/source/kernel/random.c:101-106 | words 12 and 13 are one 64-bit counter of blocks, and nothing else changes |
| ChaCha.InputsRepeatOnlyAfterWrap | sp2Module/libnx/nx/source/kernel/random.c:101-106 | two blocks come from the same input iff they are a multiple of 2^64 apart |
| ChaCha.Encrypt | sp2Module/libnx/nx/source/kernel/random.c:92-121 | for every length the in-place loop is XOR with one indexed key stream, and advances the counter by the blocks begun |
| ChaCha.EncryptInvolution | sp2Module/libnx/nx/source/kernel/random.c:92-121 | encrypting twice from the same state gives the message back |
| ChaCha.EncryptSplits | sp2Module/libnx/nx/source/kernel/random.c:92-121 | a message can be cut after any whole number of blocks |
| ChaCha.Generator.RandomInit | sp2Module/libnx/nx/source/kernel/random.c:127-158 | only the first call takes a seed |
| ChaCha.Generator.RandomGet | sp2Module/libnx/nx/source/kernel/random.c:160-170 | the buffer receives the next bytes of one key stream, from the first block no earlier call has touched |
| Pfs0.BuildPfs0 | Sp2Patcher/Sp2Patcher/Pfs0.cs:101-143 | the stream holds the archive of the specification, for every list of files whose sizes fit |
| Pfs0.BinaryReader.ReadFileEntry | Sp2Patcher/Sp2Patcher/Pfs0.cs:28-48 | reads the entry, name and contents found at the places it names, or fails as the stream would, and comes back behind the entry |
| Pfs0.BinaryReader.ReadName | Sp2Patcher/Sp2Patcher/Pfs0.cs:38-42 | the bytes up to the first zero, or an end-of-stream error |
| Pfs0.BinaryReader.ExtractFiles | Sp2Patcher/Sp2Patcher/Pfs0.cs:66-88 | for every input the files in table order, or the first error |
| Pfs0.ReadsWhatIsDescribed | Sp2Patcher/Sp2Patcher/Pfs0.cs:28-88 | for every archive, written by anybody: if header, table, names and data at the places the fields name, counted from the end of the table and from strTableLenght bytes behind it, are those of some files, these files are read |
| Pfs0.ArchiveRoundTrip | Sp2Patcher/Sp2Patcher/Pfs0.cs:66-88 | every archive in the usual order gives its files back, whatever its names are padded with and to, and whatever follows the data |
| Pfs0.OnlyMagicIsRead | Sp2Patcher/Sp2Patcher/Pfs0.cs:70-74 | exactly what does not begin with PFS0 is refused for its magic, and a negative count stands for no files |
| Pfs0.ImageParts | Sp2Patcher/Sp2Patcher/Pfs0.cs:115-142 | header, table and names lie one after the other, zeros up to the data, and the data at WriterStart |
| Pfs0.EntriesFail | Sp2Patcher/Sp2Patcher/Pfs0.cs:82-86 | the first entry that cannot be read decides the result |
| Pfs0.ExtractOfBuild | Sp2Patcher/Sp2Patcher/Pfs0.cs:66-143 | extracting a built archive never fails, and gives the same names in the same order with the data found from ReaderStart on |
| Pfs0.StartsAgree | Sp2Patcher/Sp2Patcher/Pfs0.cs:78-80 | reader and writer agree on the start of the data iff the file count is 2 modulo 4 |
| Pfs0.RoundTrip | Sp2Patcher/Sp2Patcher/Pfs0.cs:66-143 | the files come back iff the file count is 2 modulo 4, or there is no data, or the reader starts early and all data is zero |
| Pfs0.EarlyNeedsZeros | Sp2Patcher/Sp2Patcher/Pfs0.cs:44-45 | a reader that starts in the padding gives only zeros back |
| Pfs0.LateTruncates | Sp2Patcher/Sp2Patcher/Pfs0.cs:44-45 | a reader that starts behind the data loses the end of the last file |
| Pfs0.OneByteIsLost | Sp2Patcher/Sp2Patcher/Pfs0.cs:66-143 | a concrete archive whose file does not come back |
| Arithmetic.OrParts | Sp2Patcher/Sp2Patcher/Utils.cs:98-101 | bitwise or works on the digits above and below a place apart from each other |
| A64.WordRoundTrip | Sp2Patcher/Sp2Patcher/Utils.cs:103-103 | the bytes of a word give the word back |
| A64.MoveWordIs | Sp2Patcher/Sp2Patcher/Utils.cs:98-101 | the fields of a move-wide word do not overlap |
| A64.MovzRoundTrip | Sp2Patcher/Sp2Patcher/Utils.cs:87-104 | a lone movz comes back for shifts 0 and 16 and is rejected for 32 and 48 |
| A64.MovzMovkRoundTrip | Sp2Patcher/Sp2Patcher/Utils.cs:327-349 | every 32-bit value comes back from the pair, for its register and no other, for all registers up to 31 |
| A64Execution.MovesEncode | Sp2Patcher/Sp2Patcher/Utils.cs:87-122 | movz and movk write the instructions of these names with register, half and immediate, and for the shifts 32 and 48 a word that is no instruction |
| A64Execution.MovzMovkRuns | Sp2Patcher/Sp2Patcher/Utils.cs:342-349 | a processor that runs the pair has the value in the register, whatever was there, and nothing else changed |
| A64.AdrpFields | Sp2Patcher/Sp2Patcher/Utils.cs:133-139 | page count, sign, register and opcode of an adrp word can be read back |
| A64.OffsetInReach | Sp2Patcher/Sp2Patcher/Utils.cs:286-293 | the decoded page offset is the true one iff the target is in reach |
| A64.AdrpAddRoundTrip | Sp2Patcher/Sp2Patcher/Utils.cs:320-341 | the pair is refused iff the register or the size of the target is out of range, and otherwise gives the target back iff it is in reach |
| A64Execution.AdrpAddRuns | Sp2Patcher/Sp2Patcher/Utils.cs:336-341 | a processor that runs the pair has the target in the register and nothing else changed iff the target is in reach or negative and exactly 2^20 pages below; with register 31 it moves the stack pointer instead |
| A64Execution.AddRuns | Sp2Patcher/Sp2Patcher/Utils.cs:143-161 | an accepted add of a 12-bit immediate adds it, shifted by 0 or 12 |
| A64.BackwardPageIsLost | Sp2Patcher/Sp2Patcher/Utils.cs:320-341 | a concrete target that does not come back |
| A64.AddImmRoundTrip | Sp2Patcher/Sp2Patcher/Utils.cs:143-161 | an immediate comes back iff it has at most 12 bits |
| A64.WideImmediateIsLost | Sp2Patcher/Sp2Patcher/Utils.cs:143-161 | a concrete immediate of 13 bits that is accepted and decoded as 0 |
| A64Execution.BranchesRun | Sp2Patcher/Sp2Patcher/Utils.cs:166-189 | accepted are the multiples of 4 below 2^27; b jumps by the displacement and leaves all registers alone, bl does so and leaves the return address in register 30 |
| A64Execution.MovkMeaning | Sp2Patcher/Sp2Patcher/Utils.cs:248-268 | for every word, the decoder accepts exactly the movk of its register, with its value |
| A64Execution.AddMeaning | Sp2Patcher/Sp2Patcher/Utils.cs:295-317 | for every word, the decoder accepts exactly the add of its registers, and adds |
| A64Execution.AdrpMeaning | Sp2Patcher/Sp2Patcher/Utils.cs:269-294 | for every word, the decoder accepts exactly the adrp of its register, with the processor's address except for the farthest page below |
| A64Execution.MovzMeaning | Sp2Patcher/Sp2Patcher/Utils.cs:200-247 | for every word, the decoder gives what a processor loads and refuses what loads nothing, iff the word is no orr with an element shorter than 32 bits |
| A64Masks.MasksAgreeIff | Sp2Patcher/Sp2Patcher/Utils.cs:42-85 | the decoded bitmask is the processor's iff its size field has the top bit clear |
| A64Execution.AlternatingOnesAreMisread | Sp2Patcher/Sp2Patcher/Utils.cs:42-85 | a concrete orr that is read as another number |
| A64Execution.PairMeaning | Sp2Patcher/Sp2Patcher/Utils.cs:327-334 | the decoded pair is what a processor has after it iff the half that movk replaces had no digit of its own |
| A64Execution.SameHalfIsMixed | Sp2Patcher/Sp2Patcher/Utils.cs:327-334 | a concrete pair that is read as another number |

## Left out

- The synchronisation primitives as sequential methods: what their fields mean depends on the
  interleaving, so their statements are the steps of state machines, and calls have no contract of
  their own.
- Fairness and time: a theorem says that a sleeper can be served or that somebody can move, not that
  it happens by a certain time.
- Thread counts of 2^31 and more for the read-write lock and the barrier, where 31-bit fields and
  arguments of the code would wrap; nesting a recursive mutex 2^32 times.
- `RecursiveMutex.NestingExcludes`: a thread asleep in a wait still counts as nested at depth 1, and is
  excepted.
- A recursive mutex unlocked, or waited on, by a thread that does not hold it.
- `TimeSpec.Subtract`: times whose 64-bit differences overflow. A product of two `int`s that overflows,
  which the C standard leaves undefined, is taken as wrapping around.
- `TimeSpec.NanosecondsUntil`: the same.
- `svcGetInfo` failing and the environment seed mixed into the key of the random generator: the seed is a
  parameter.
- ChaCha with different input and output buffers: the only caller works in place.
- Sizes that overflow `u32` in `framebufferCreate`, choosing a format there, and the graphics service.
- Wave buffers that a program changes while they are queued.
- `WaveQueue.Voice.Update`: a renderer that reports more buffers consumed than are in the ring; the code
  lets the count of the ring wrap around.
- `WaveQueue.Driver.Update`: the same.
- `VoiceTable.AudioDriver.Init`: more than 6 channels for a voice while as many are free; the code has no
  test for it and writes past `channel_ids`. Where such a call fails for want of channels it is covered.
- `VoiceTable.AudioDriver.Drop`: a voice that is not in use; the code has no test for it and writes
  through a back-pointer that is stale or NULL.
- `AudioVoices.AudioDriver.Init`: as `VoiceTable.AudioDriver.Init`.
- `AudioVoices.AudioDriver.Drop`: as `VoiceTable.AudioDriver.Drop`.
- The fields of a voice that neither list nor queue depends on: node id, formats, rates, volumes, filters.
- `WebTlv.Storage.Write`: what it stores after a value of type 0 that is not all zeros; reads of such
  storage are covered.
- `AppletHooks.Applet.Hook`: a cookie that is registered already; the code has no test for it, and the
  chain would become cyclic.
- A driver that answers Busy for ever: a kickoff is given a finite list of replies.
- UTF-8 itself: names are bytes, and a name does not contain NUL. Directory listing and file access
  of the patcher; PFS0 sizes that do not fit their fields.
- `A64.DecodeOrr`: the bit scan, which returns 37 for every argument; the model starts from that number.
- `nop`, `svc` and `ret` encoders: constants.
- Inter-process calls, sessions, rendering, mempools, mixes, sinks, virtual memory, waits on several objects,
  parcels, ExeFS and NSO building.
