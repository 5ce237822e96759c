# Verification of the audio receiver's core

This project models the shared structures of the ESP32 network audio receiver
in Dafny and proves what they promise each other: a frame ring buffer between a
task and an interrupt, a jitter buffer behind an asynchronous mutex, a receive
callback that is replaced while packets arrive, a channel and a reference count
that are dropped from two sides, the sample arithmetic, the timing median, the
session logic on top, and the playback loop that ties arriving packets to output
words. `dafny verify dfyconfig.toml` checks all of it.

Two forms are used. Code that runs alone is a class or a method over arrays
(`RingBuffer`, `Dac`, `PacketQueue`, `Timing`, `Receiver`, `TaskWakerSet`),
with contracts that give the whole new state. Code whose point is
interleaving is a step system: a state, a `Next` relation with one step per
atomic access, an invariant, and theorems over every run
(`RingConcurrent`, `DacPipeline`, `Playback`, `UdpCallback`, `TaskMutex`,
`TaskRegistry`, `TaskWakeups`, `Channel`, `SharedBox`). Both forms of the ring buffer share the slice
functions, the mutex and playback models run the very queue functions that
the jitter buffer class is proved against, and the stream object holds that class.

| file | subject |
|---|---|
| `Residues.dfy`, `Options.dfy` | wrapping indices as residues of counters; the option type |
| `RingBuffer.dfy`, `RingConcurrent.dfy` | the ring buffer alone, and with writer and reader interleaved |
| `Samples.dfy` | binary32 bits to 8-bit samples to DMA words |
| `Dac.dfy`, `DacPipeline.dfy` | the DAC driver, and the whole output path in every interleaving |
| `PacketQueue.dfy`, `PacketHistory.dfy` | the jitter buffer, and what it plays over any history |
| `Playback.dfy` | jitter buffer, conversion and output path together |
| `TaskMutex.dfy`, `TaskRegistry.dfy`, `TaskWakerSet.dfy` | mutex, wakers and executor; task table; waker mask |
| `TaskWakeups.dfy` | all waker sets and the task table together |
| `UdpCallback.dfy`, `Channel.dfy`, `SharedBox.dfy` | callback quiescing, the channel, the reference count |
| `Timing.dfy`, `Receiver.dfy` | the running median; sessions and streams |

## Assumptions

- Acquire/release and sequentially consistent atomics give interleaving
  semantics: one atomic access is one step, and steps of different threads
  alternate freely.
- The network stack's load of the registered callback pointer and the flag
  clear at the top of `dispatch` (src/platform/net/udp.rs:141) are one step, and
  there is one dispatching thread. The quiesce results rest on this: nothing in
  the code orders the load against the freeing thread, and with the two split
  `UdpCallback.SplitEntryMeetsFreed` is a run that enters a freed callback.
- FreeRTOS: clearing event bits returns the bits from before, waiting for all
  bits clears none (src/sync/eventgroup.rs:75-86), a task notification stays
  pending until its task waits for it, a queue is first in first out and its
  operations are atomic.
- The `heapless` deque and history buffer are circular arrays with a front,
  back and full flag, and a write position and filled flag.
- `usize` has 32 bits on the target; `head_seq + 50` fits in 64 bits.
- Audio payload, clock difference and durations are opaque or plain integers;
  the start delay in packets is a parameter.

## Where the code differs from its intent

- `convint8` means to clip from 1.0 up, but below 256 the cast to `i8` cuts the
  level to eight bits. `Samples.ClipsExactlyWhen` says exactly which encodings
  come out at full scale; `Samples.JustAboveOneWraps` gives 1 + 2^-15, whose
  sample is -128. The product of -1 and -128 wraps in the model; with overflow
  checks on it panics, for the inputs `Samples.ProductOverflowsExactlyWhen` gives.
- `queue_slot_mut` cuts the distance to 32 bits before comparing it, so a packet
  a multiple of 2^32 ahead is accepted. The history theorem is stated for the
  code as it is; `PacketHistory.OwnNumberExactlyWhenNear` says when a packet
  plays at its own number, `PacketHistory.FarPacketPlaysEarly` gives one that
  does not, and `PacketHistory.NearHistory` is what is left without such packets.
- A mutex waiter can sleep on a free mutex with no wakeup on the way, because
  `poll_lock` registers after its failed swap. `TaskMutex.SlipHappens` is such
  a run; `TaskMutex.StrandedExactlyWhen` says, in terms of the steps taken, in
  which runs it happens and in which not, and `TaskMutex.SlipSplitsPoll` places
  the release between the two halves of the poll.
- For the same reason a writer can sleep with room in the DAC's ring until the
  next interrupt; `DacPipeline.SleepsWithRoomExactlyWhen` says exactly when.
- Packets of an older session are not rejected. `Receiver.OlderSessionFed` is an
  input where the stream of session 2 gets a packet of session 1;
  `Receiver.ForeignFedExactlyWhen` says for which packets it happens, and
  `Receiver.OwnSessionExactlyWhen` after which events a stream has been fed its
  own session alone.
- A registration that finds every slot taken panics. `TaskRegistry.PanicsExactlyWhen`:
  some interleaving leads there if and only if there are more tasks than slots.

## Model

| member | source | states |
|---|---|---|
| RingBuffer.SlotsFollowResidues | src/sync/ringbuffer.rs:149-187 | reader and writer slices never overlap the end of the array, walk it in residue order from their start index, and together cover each slot once |
| RingBuffer.LiveAt | src/sync/ringbuffer.rs:149-168 | the contents are the elements at the residues from the read index up to the write index, always fewer than the array has |
| RingBuffer.WriteAppends | src/sync/ringbuffer.rs:72-102 | storing through the writer slices touches no live element, and moving the write index over some of the stored ones appends exactly those |
| RingBuffer.ConsumeDrops | src/sync/ringbuffer.rs:52-69 | moving the read index drops exactly that many elements from the front |
| RingBuffer.CopyToSplit | src/sync/ringbuffer.rs:125-135 | copies as much as fits, left slice first, and changes nothing else in the array |
| RingBuffer.CopyFromSplit | src/sync/ringbuffer.rs:137-147 | fills the front of the destination in slice order and leaves its rest |
| RingBuffer.RingBuffer.NewWithBuffer | src/sync/ringbuffer.rs:21-27 | a new buffer is empty whatever the array holds |
| RingBuffer.RingBuffer.Reset | src/sync/ringbuffer.rs:29-33 | both indices at zero, contents empty |
| RingBuffer.RingBuffer.Read | src/sync/ringbuffer.rs:43-69 | returns and removes the oldest elements, as many as there are and fit, and leaves the rest of the destination |
| RingBuffer.RingBuffer.Write | src/sync/ringbuffer.rs:71-102 | appends the longest prefix that leaves one slot empty |
| RingBuffer.RingBuffer.Fill | src/sync/ringbuffer.rs:104-122 | appends copies of the value until only the empty slot is left |
| RingConcurrent.NextKeepsInv | src/sync/ringbuffer.rs:52-102 | every load, element copy and index store of either side keeps the correspondence between wrapped indices, snapshots of any age and unbounded counters |
| RingConcurrent.StoreKeepsInv | src/sync/ringbuffer.rs:125-135 | an element store, in any order, disturbs nothing published and not consumed, nor anything an in-flight read has yet to load |
| RingConcurrent.LoadKeepsInv | src/sync/ringbuffer.rs:137-147 | an element load, in any order, returns the value last published for its position, even from an outdated snapshot |
| RingConcurrent.InFlightSlotsDisjoint | src/sync/ringbuffer.rs:72-101 | in every reachable state no slot an in-flight write stores to is one an in-flight read loads from |
| RingConcurrent.WriteAccepts | src/sync/ringbuffer.rs:85-94 | a write takes all it is given or all that was free when it loaded the read index, less one slot |
| RingConcurrent.ReadOffers | src/sync/ringbuffer.rs:53-63 | a read gets what was published when it loaded the write index, as far as there is room |
| RingConcurrent.SidesNeverStuck | src/sync/ringbuffer.rs:52-102 | neither side ever waits for the other or leaves the array: a call in progress always has a next step |
| RingConcurrent.WriteCanFinish | src/sync/ringbuffer.rs:72-102 | from every reachable state the writer alone, with loads, stores and one publication, ends its call, and the reader is as it was |
| RingConcurrent.ReadCanFinish | src/sync/ringbuffer.rs:52-69 | likewise for the reader alone |
| RingConcurrent.StepRefinesQueue | src/sync/ringbuffer.rs:52-102 | each step is a put, a get or nothing on a first-in first-out queue of capacity N-1 |
| RingConcurrent.RunIsFifo | src/sync/ringbuffer.rs:52-102 | over every interleaving, all reads concatenated are a prefix of all writes concatenated and the rest is exactly the current contents |
| RingConcurrent.SoloWriteIsWrite | src/sync/ringbuffer.rs:71-102 | a write call with no other step in between appends exactly what the sequential `Write` does |
| RingConcurrent.SoloReadIsRead | src/sync/ringbuffer.rs:51-69 | likewise a read call returns and removes exactly the oldest elements |
| RingConcurrent.CallsCanBeMade | src/sync/ringbuffer.rs:52-102 | from every reachable state an idle side can run such a call, with any data or room, to its end, whatever the other side is in the middle of |
| Samples.FieldsOfBits | src/app/stream.rs:128-131 | for all 2^32 encodings: sign, 8 exponent bits and 23 mantissa bits put back together are the encoding |
| Samples.MagnitudeIsIeee | src/app/stream.rs:127-140 | the magnitude the sample theorems speak of is that of binary32: one is 0x3f800000, the next exponent doubles, the mantissa counts 2^-23 of the power of two beneath, subnormals count from zero in the smallest steps |
| Samples.NormalIsFixedPoint | src/app/stream.rs:152-157 | both shift directions give 2^23 times the magnitude, rounded down |
| Samples.NoUnderflowNoLostBits | src/app/stream.rs:139-159 | for every encoding that gets there, subtracting 0x100 does not underflow and the left shift keeps all bits within 32 |
| Samples.ConversionError | src/app/stream.rs:127-160 | on [-1, 1] the sample is the sign times m with 0 <= m <= 127 and m <= 128 abs(x) < m + 1 + 2^-8 |
| Samples.ConvertsModulo | src/app/stream.rs:139-159 | for every finite encoding: below 256 the sample is the sign times the level, modulo 256, where the level is 128 times the magnitude less 2^-8, rounded down but not below 0; from 256 up it is full scale |
| Samples.ConversionMonotone | src/app/stream.rs:127-160 | on [-1, 1] a greater float never gives a smaller sample, across exponent boundaries and zero |
| Samples.ConversionOdd | src/app/stream.rs:127-160 | flipping the sign bit negates the sample for all 2^32 encodings, -128 excepted |
| Samples.ClipsExactlyWhen | src/app/stream.rs:147-159 | from 1.0 up the sample is full scale if and only if the magnitude is at least 256 (or not a number) or the level is 127 modulo 256 |
| Samples.JustAboveOneWraps | src/app/stream.rs:159 | 1 + 2^-15 comes out as -128 |
| Samples.ProductOverflowsExactlyWhen | src/app/stream.rs:159 | the last product leaves the range of `i8` if and only if the number is negative, below 256 and of level 128 modulo 256; never within [-1, 1] |
| Samples.DmaFaithful | src/platform/dac.rs:148-167 | biased words keep left and right apart, are injective and ordered as the samples, and only silence gives the default word |
| Samples.DmaWords | src/platform/dac.rs:157-167 | each side of a word is 0x8000 plus 0x100 times the signed sample of that side |
| Samples.SamplePath | src/platform/dac.rs:157-167 | from float bits on [-1, 1] to both sides of the DMA word: each within 0x0100 to 0xff00, the side of the greater value never smaller, both zeros 0x8000 |
| Dac.Dac.New | src/platform/dac.rs:65-72 | whatever the static buffer held, it now holds silence in all but one slot |
| Dac.Dac.PollWrite | src/platform/dac.rs:110-122 | a poll appends what fits and is pending exactly when the ring is full |
| Dac.Dac.ConvertSlices | src/platform/dac.rs:183-199 | the two loops convert the slices in order into the output's front and leave its rest |
| Dac.Dac.OnConvertDone | src/platform/dac.rs:169-207 | output is the converted oldest frames followed by silence; the frames are removed and counted; one underrun is counted exactly when silence was needed |
| Dac.WordsInOrder | src/platform/dac.rs:148-167 | word i of a converted block is worth frame i on both sides, and padding is what silent frames convert to, 0x8000 |
| DacPipeline.PipeKeepsInv | src/platform/dac.rs:110-207 | every step of writing task and interrupt keeps what went in, what is queued and what came out in agreement |
| DacPipeline.NewGivesInit | src/platform/dac.rs:65-72 | the buffer `Dac::new` prepares is a legal start of the pipeline |
| DacPipeline.OccupancyIsQueueLength | src/platform/dac.rs:183-199 | an interrupt works from the queue length at the moment it loads the write index |
| DacPipeline.PendingMeansFull | src/platform/dac.rs:110-122 | a poll accepts nothing exactly if the ring was full when it loaded the read index |
| DacPipeline.PollAppendsWhatFits | src/platform/dac.rs:110-132 | over every run: a poll adds the longest prefix of its data that fitted when it began, leaves the writer the rest, and is refused exactly if nothing fitted |
| DacPipeline.InterruptFillsOutput | src/platform/dac.rs:169-205 | over every run: an interrupt adds one output of the length it was given, made of as many frames as were queued when it loaded the write index or as fit, and silence |
| DacPipeline.InterruptNeverStuck | src/platform/dac.rs:169-214 | a started interrupt never waits for the task and never leaves the buffers: it always has a next step |
| DacPipeline.WriterNeverStuck | src/platform/dac.rs:110-122 | nor does a poll in progress ever wait for the interrupt |
| DacPipeline.NobodyWaitsToBegin | src/platform/dac.rs:110-132 | in every reachable state an idle interrupt can start; a writer with data left can poll, a refused one registers, a notified one wakes to poll again |
| DacPipeline.WriteCanFinish | src/platform/dac.rs:124-132 | every run goes on, with no wakeup out of nowhere, to where the data being written is in the ring, all of it and in order |
| DacPipeline.OutputFollowsWrites | src/platform/dac.rs:124-207 | over every run, all interrupt output less padding is frame by frame a prefix of the converted initial silence and submitted frames; each interrupt emits what it found as far as it fits, pads the rest and counts an underrun exactly then |
| DacPipeline.NothingLost | src/platform/dac.rs:124-207 | what came out and what is queued is all that went in, whenever no consumed frames are waiting for their padding |
| DacPipeline.WriterSleepsThroughNoInterrupt | src/platform/dac.rs:110-132 | a writer that registered after a refused poll has its bit up for the next interrupt, and is notified by the first one to empty the waker set afterwards |
| DacPipeline.SwapNotifiesSleeper | src/platform/dac.rs:116-118 | a sleeping writer is in the waker set while no interrupt has swapped it since, and afterwards is notified or about to be |
| DacPipeline.SleepsWithRoomExactlyWhen | src/platform/dac.rs:110-122 | in every run the writer is asleep with room in the ring, no interrupt under way and no notification, if and only if it has just registered, without a notification and with no interrupt under way, and since its poll began an interrupt has given back slots |
| PacketQueue.ItemThroughSlices | src/app/queue.rs:108-114 | choosing the slice by its length finds exactly the wanted logical index of the circular array |
| PacketQueue.AssignThroughSlices | src/app/queue.rs:63-65 | assigning through that reference changes this item and no other |
| PacketQueue.Shared.Grow | src/app/queue.rs:101-106 | growing appends empty slots up to the index, and no push fails |
| PacketQueue.Shared.QueueSlotMut | src/app/queue.rs:94-115 | reports past and too far, otherwise the array slot of the logical index after growing |
| PacketQueue.Shared.InsertPacket | src/app/queue.rs:57-79 | the circular array changes as the abstract queue does, and the outcome is the counter bumped |
| PacketQueue.Shared.PopFront | src/app/queue.rs:81-84 | the head number advances and the head slot comes out, empty or not |
| PacketHistory.WinnerIsFirst | src/app/queue.rs:57-79 | the recorded winner of a position is the first arrival that claimed it |
| PacketHistory.HistoryHolds | src/app/queue.rs:57-115 | after any history, outputs and waiting slots are the winners of their positions |
| PacketHistory.WholeHistory | src/app/queue.rs:57-115 | the k-th pop returns the first packet for position k that arrived while the number of pops p satisfied p <= k < p + 50, and nothing if there was none |
| PacketHistory.OutcomeExactlyWhen | src/app/queue.rs:57-79 | with p pops so far an arrival is late iff it is numbered below start + p; early iff it is not and its distance, cut to 32 bits, is 50 or more; otherwise on time or a duplicate by whether its position has a winner already |
| PacketHistory.PlaysAtMostOnce | src/app/queue.rs:57-84 | two packets returned by different pops are two different arrivals, the winners of their positions |
| PacketHistory.OwnNumberExactlyWhenNear | src/app/queue.rs:95 | what plays at position k is numbered start + k if and only if it arrived less than 2^32 ahead; it always agrees modulo 2^32 |
| PacketHistory.NearHistory | src/app/queue.rs:57-115 | with all arrivals less than 2^32 ahead, the k-th pop returns the first packet numbered start + k that arrived while the number of pops p satisfied p <= k < p + 50, and nothing if there was none |
| PacketHistory.OutputIncreases | src/app/queue.rs:57-84 | with all arrivals less than 2^32 ahead, output numbers strictly increase |
| PacketHistory.FarPacketPlaysEarly | src/app/queue.rs:95-99 | a packet 2^32 ahead is played by the next pop |
| PacketHistory.SlotsImplyNumbers | src/app/queue.rs:40-42 | at most 50 slots, and a waiting packet sits in the slot of its number |
| PacketHistory.ArrivalsAccounted | src/app/queue.rs:62-83 | arrivals are on time, duplicate, late or early, each once, and those on time are the hits so far plus the packets still held |
| PacketHistory.SwapExactlyUnlessClash | src/app/queue.rs:57-79 | two neighbouring arrivals commute if and only if they are not different packets after the same free slot |
| PacketHistory.ReorderingInvisible | src/app/queue.rs:57-115 | any rearrangement of clash-free arrivals between two pops gives the same queue and the same counters |
| PacketHistory.DifferentNumbersNeverClash | src/app/queue.rs:94-99 | distinct numbers less than 2^32 ahead never clash |
| PacketHistory.ReorderingUnheard | src/app/queue.rs:57-115 | such a rearrangement inside a history changes no output, then or later, and none of the four counters |
| TaskMutex.ExclusionKept | src/sync/mutex.rs:72-110 | every step keeps at most one guard live and the flag up exactly while one is |
| TaskMutex.MutualExclusion | src/sync/mutex.rs:72-110 | in every run the flag is up iff exactly one guard is live, and only its holder changes the queue |
| TaskMutex.CallsLinearise | src/app/queue.rs:27-35 | concurrent calls give the queue and the results of one sequential run, in which the operations of each task are exactly those it called, read off the steps taken, in its order, less the one under way; the run so far never changes |
| TaskMutex.GuardCanFinish | src/sync/mutex.rs:106-110 | from every reachable state a task that holds the guard or wakes others ends its call by its own steps, having woken all that its swap took |
| TaskMutex.CallCanFinish | src/app/queue.rs:27-35 | from every reachable state with the mutex free, any task on no call can call any operation and end it by its own steps: the queue and the log move by that operation, the mutex is free again and the waker set is emptied into notifications |
| TaskMutex.CallerGoesOn | src/sync/mutex.rs:72-84 | in every reachable state a caller not asleep has its next step: a poll takes the guard or fails by the flag, a failed one registers, a notified sleeper polls again |
| TaskMutex.WakeKept | src/system/task/waker.rs:48-77 | every step keeps each sleeping task in the mask, notified, or in the batch of the first swap since it registered |
| TaskMutex.SleepersAccountedFor | src/system/task/execute.rs:22-36 | a task asleep has its bit set, a notification pending or a place in a wake in flight; a finished `wake_all` has notified all its swap took; without any wake under way the task registered after the last swap |
| TaskMutex.StrandedExactlyWhen | src/sync/mutex.rs:72-110 | in every run a task is asleep on a free mutex, unwoken, if and only if it registered at a time when, judging by the steps taken, the flag was down, every release had swapped the waker set, every wake due to the task had been delivered, and every notification of it had ended a wait of its own, for this mutex or anything else; and nobody has polled since nor notified it out of nowhere |
| TaskMutex.SlipSplitsPoll | src/sync/mutex.rs:72-79 | before such a registration the same poll found the flag up, and in between the flag was lowered for good and the waker set swapped by the task that lowered it |
| TaskMutex.SlipHappens | src/sync/mutex.rs:72-110 | a run of two tasks that strands one |
| TaskRegistry.OneSlotEach | src/system/task/registry.rs:15-36 | in every interleaving of claims and clears each registered task has exactly one slot and no two share one |
| TaskRegistry.AttemptsGoInOrder | src/system/task/registry.rs:15-25 | the n-th attempt of a registration is on slot n: it takes that slot if and only if it is empty, changes no other, and panics if and only if n is past the last |
| TaskRegistry.LeavingFreesSlot | src/system/task/registry.rs:32-36 | a task that leaves empties its own slot and no other |
| TaskRegistry.CanRegister | src/system/task/registry.rs:15-25 | from every reachable state with an empty slot, an unregistered task can by its own steps claim the first empty one |
| TaskRegistry.PanicsExactlyWhen | src/system/task/registry.rs:15-25 | some interleaving of claims and clears makes a registration panic if and only if there are more tasks than slots |
| TaskRegistry.ScanFindsWakerId | src/system/task/registry.rs:51-61 | a scan for the current task, whatever others do meanwhile, ends at the id its waker carries and never panics |
| TaskRegistry.ScanEndsAtOwnSlot | src/system/task/registry.rs:51-61 | the n-th look of a scan, whatever others did since it began, goes on if slot n is not the task's own and ends there if it is |
| TaskRegistry.CanScanAndLeave | src/system/task/registry.rs:32-61 | from every reachable state a registered task can by its own steps find its id and then give up its slot |
| TaskWakerSet.OrInserts | src/system/task/waker.rs:48-52 | setting a bit inserts that task id and no other |
| TaskWakerSet.WakeableExactly | src/system/task/waker.rs:70-76 | a task is notified if and only if the bit of its id was set and the load of that slot returned the task |
| TaskWakerSet.WakeableAscends | src/system/task/waker.rs:70-76 | the notified tasks are the loaded occupants of the set ids, one per id, in ascending order of ids |
| TaskWakerSet.WakerSet.AddTask | src/system/task/waker.rs:48-52 | the set gains the task |
| TaskWakerSet.WakerSet.TakeWakeable | src/system/task/waker.rs:70-76 | the set is emptied and its members are listed in ascending id order, each if its slot is in use when the iteration loads it |
| TaskWakeups.OneWakeEach | src/system/task/execute.rs:22-36 | over any number of waker sets and any interleaving, with no notifications from elsewhere, a sleeping task has exactly one wake on its way (bit, place in a batch, loaded pointer or notification) and a running one has none |
| TaskWakeups.NoWakeGoesAstray | src/system/task/waker.rs:48-76 | every id in a set or batch is the slot of a sleeping task and every notification goes to a sleeping task, although slots are cleared and claimed while batches are worked off |
| TaskWakeups.SleeperCanWake | src/system/task/waker.rs:48-87 | from every reachable state each sleeping task is at most a swap, a load, a notification and its own waking from running again, and these change no other task |
| TaskWakeups.RunningGoesOn | src/system/task/execute.rs:22-36 | in every reachable state a running task can register in any set and sleep, or give up its slot, which any unregistered task can then claim |
| UdpCallback.NextKeepsInv | src/platform/net/udp.rs:74-187 | every step of owner and dispatcher keeps flags, registration and memory in agreement |
| UdpCallback.DispatchNeverTouchesFreed | src/platform/net/udp.rs:132-164 | in every run a callback stays allocated from dispatch entry to the last flag set, and none is freed while a dispatch is in flight |
| UdpCallback.EachFreedExactlyOnce | src/platform/net/udp.rs:74-97 | no callback is freed twice, and when the socket is gone all have been freed, no flag is up and no dispatch is left |
| UdpCallback.CallDoesItsJob | src/platform/net/udp.rs:117-194 | in every run, `on_receive` once back has its own callback saved, registered and the only one allocated, and `drop` leaves none; either has freed exactly the callback it found, after those freed before |
| UdpCallback.CallCanEnd | src/platform/net/udp.rs:74-97 | every run goes on, by steps of owner and dispatcher alone, to the end of the call under way |
| UdpCallback.CallCanBeMade | src/platform/net/udp.rs:117-194 | every run that is between calls goes on through `on_receive` or `drop` to its effect |
| UdpCallback.FlagsMatchInstallation | src/platform/net/udp.rs:94-96 | between calls the flags are empty if no callback is installed; otherwise the safe flag is down exactly during a dispatch |
| UdpCallback.StopCoversQuiesce | src/platform/net/udp.rs:74-97 | the stop flag is up exactly from its set to the reset of all flags, and nothing is registered from the wait on |
| UdpCallback.StopTurnsBack | src/platform/net/udp.rs:139-146 | a dispatch that enters under the stop flag returns without running the closure, whatever the owner does meanwhile |
| UdpCallback.PacketReachesClosure | src/platform/net/udp.rs:132-164 | a packet that finds the stop flag down is dispatched to the callback registered then: entry, closure, safe flag, in this order, whatever the owner does meanwhile; the safe flag is down until the third step |
| UdpCallback.PacketCanBeTaken | src/platform/net/udp.rs:132-164 | in every reachable state a waiting dispatcher with a callback registered can take a packet for it, and knows then whether to turn back |
| UdpCallback.WaitEnds | src/platform/net/udp.rs:88-92 | the freeing thread never waits with the dispatcher idle and the safe flag down; at most three dispatcher steps raise it, and nothing but them happens meanwhile |
| UdpCallback.WaitCanEnd | src/platform/net/udp.rs:88-92 | from every reachable state in which the freeing thread waits, at most three dispatcher steps alone let it go on to free |
| UdpCallback.SplitEntryMeetsFreed | src/platform/net/udp.rs:132-146 | were the pointer load and the flag clear two steps, a run would enter a callback already freed |
| Channel.ItemsConserved | src/sync/queue.rs:65-119 | every accepted item is received, queued or drained, in send order; none is drained while a side lives |
| Channel.ReceiveTakesOldest | src/sync/queue.rs:65-84 | in every run, a `try_receive` finds nothing exactly if everything sent has been received; otherwise it takes the oldest item not yet received and goes on to wake the sender |
| Channel.SendNeedsRoom | src/sync/queue.rs:101-188 | in every run, `try_send` appends its item exactly if fewer than the capacity are unreceived, and is refused with no change otherwise; a reservation is ready exactly then, and nothing else sends |
| Channel.FreedByTheLast | src/sync/queue.rs:228-236 | the block is freed at most once, exactly when both sides are gone, with the queue empty |
| Channel.SendNeverPanics | src/sync/queue.rs:191-196 | with one sender `send` always succeeds after a ready `poll_reserve` |
| Channel.SendKeepsValue | src/sync/queue.rs:191-196 | the value sent after a reservation is the one its own call began with |
| Channel.AllCanBeReceived | src/sync/queue.rs:65-84 | while the receiver lives every run goes on, by its steps alone, to where it has received all that was sent |
| Channel.RoomCanBeUsed | src/sync/queue.rs:101-196 | with room left both ways of sending can go through, with the same result |
| Channel.FreeingFinishes | src/sync/queue.rs:256-280 | once both ends are dropped only draining and deleting remain, and each drain shortens the queue |
| Channel.CanBeFreed | src/sync/queue.rs:199-280 | every run goes on to where the block is freed, with every sent item received or drained |
| SharedBox.CountsHandles | src/system/heap/arc.rs:29-63 | the count is the number of live handles, `unique` holds exactly with one of them, the value is freed once, after the last is gone, and no packet goes into a freed one |
| SharedBox.CountFollowsSteps | src/system/heap/arc.rs:43-63 | count, holders and inserts are those of the clones, moves, drops and inserts that happened; the value can be freed, and is freed only, once every clone and the original have been dropped |
| SharedBox.UniqueExactlyWhen | src/system/heap/arc.rs:29-32 | a live handle is told it is the only one exactly if every other handle ever made has been dropped |
| SharedBox.LiveHandleServes | src/system/heap/arc.rs:35-63 | in every reachable state any live handle can be cloned, moved, inserted through and dropped, and dropping the last one leads to the free |
| SharedBox.UniqueLasts | src/system/heap/arc.rs:29-32 | once unique, a handle stays the only one until it is itself cloned, moved or dropped |
| SharedBox.DisconnectedForGood | src/app/queue.rs:17-19 | once the stream task sees its queue disconnected it stays so, and no packet is ever inserted again except through the task's own handle |
| Timing.RankOfSort | src/app/timing.rs:52-57 | the k-th element after sorting has at most k smaller and more than k no greater elements in the unsorted samples |
| Timing.RankUnique | src/app/timing.rs:52-57 | at most one value has a given rank |
| Timing.RotationKeepsRank | src/app/timing.rs:48-50 | ranks do not depend on the rotation of the history buffer |
| Timing.Aggregate.Observe | src/app/timing.rs:48-50 | the circular buffer holds the end of the whole history |
| Timing.Aggregate.Median | src/app/timing.rs:52-57 | the element of rank n/2 among the last n = min(count, 64) observations, none iff there were none |
| Timing.Timing.ReceivePacket | src/app/timing.rs:17-31 | a packet whose answer precedes its request leaves both histories alone, any other extends both |
| Receiver.CurrentStream | src/app/mod.rs:109-127 | over any events, the stream is of the newest session since the last failed allocation, begins at its first packet, has a queue history made of the packets since and of the pops since playback started, each in its place and nothing else, and has started its playback task exactly once iff more than the delay have come |
| Receiver.PopsArePlays | src/app/stream.rs:95-101 | over any events, the stream's queue has been popped exactly once for each turn of the playback loop since the current stream was made |
| Receiver.StartsOnFirstBeyondDelay | src/app/stream.rs:55-77 | over any events, an event starts a playback task if and only if it is the packet that makes a stream's count exceed the delay, and it starts one |
| Receiver.Receiver.OnAudio | src/app/mod.rs:65-72 | after a loop turn on an audio packet the stream object, down to the circular array of its jitter buffer, is explained by all events so far in the sense of `CurrentStream` |
| Receiver.Receiver.Play | src/app/stream.rs:101 | likewise after a pop by the playback task, which gets the winner of its position; the queue history gains the pop, and all packets handed out so far are the outputs of that history |
| Receiver.ForeignFedExactlyWhen | src/app/mod.rs:65-72 | a packet reaches a stream of another session if and only if its session is older than the current stream's |
| Receiver.OwnSessionExactlyWhen | src/app/mod.rs:109-127 | after any events, the current stream has been fed just the packets of its own session if and only if no older session has spoken since it was made |
| Receiver.OlderSessionFed | src/app/mod.rs:65-72 | a packet of session 2 and one of session 1 both go to the stream of session 2 |
| Receiver.NewestSessionPlays | src/app/mod.rs:109-127 | without failures the session played is the newest ever heard |
| Playback.FillBuffer | src/app/stream.rs:114-118 | the frame buffer holds each pair of samples, converted |
| Playback.OutputFollowsPops | src/app/stream.rs:95-122 | over every run of arrivals, pops, writes and interrupts, the output words less padding are a prefix of the converted initial silence and the converted outcomes of all pops |
| Playback.SubmittedIsPopped | src/app/stream.rs:101-120 | the queue's history is the arrivals and pops that happened, in order; what has been handed to the DAC, with the buffer still held, is what these pops returned, converted, one buffer each |
| Playback.LoopGoesOn | src/app/stream.rs:95-122 | between two writes the loop is never held up: with a buffer filled it can write, otherwise it can pop |
| Playback.NextPopCanCome | src/app/stream.rs:95-122 | every run goes on, by writes and steps of the DAC alone, to the next pop |
| Playback.EveryWordPlayed | src/app/stream.rs:101-120 | word by word: N-1 silent words, then for k = 0, 1, ... the converted samples of the first packet that claimed the k-th pop, or silence if none did |

## Left out

- Weak memory orders, real time, task priorities and deletion of task control blocks.
- `Dac::write` exists as the steps of `DacPipeline`, not as a method: its loop awaits interrupts between polls.
- The channel's waker sets and its `poll_receive`: what sleeping sides miss by registering after their check is proved for the mutex and the DAC only.
- The fallback in `TaskWaker::from_context` for foreign wakers, beyond the agreement of scan and id.
- `TakeWakeable` gets what each slot load returned as a map from ids to tasks, absent keys for null pointers; who fills the slots meanwhile is in `TaskRegistry`.
- `TaskMutex` notifies a batch in any order; the ascending order of the code is one of them.
- Counters for received packets: `insert_packet` returns which one it bumps. The DAC counters wrap at 2^32 in `Dac` and are unbounded in `DacPipeline`; the statistics task that resets them is not modelled.
- `read_in_place` takes a closure in the code; here its two halves, `ReaderView` and `FinishRead`, surround the caller's own loop.
- The library sort is the function `Sort`; how it sorts is not modelled.
- A panic in `dispatch` for a shared packet buffer, and failing allocation in `on_receive` (it returns before anything changes).
- A failing `spawn` of the playback task, which panics, and a `Dac::new` that fails because the previous stream's task still has the device.
- In `Receiver`, pops by playback tasks of replaced streams, which touch only their own queues; in `Playback`, the hit and miss counters and the check for disconnection (`SharedBox.DisconnectedForGood`).
- `Playback` takes each access to the jitter buffer as one step, in the order `TaskMutex.CallsLinearise` gives them.
- Time packets in `Receiver`: `get_stream` passes them to the stream of their own session only, and `Timing.ReceivePacket` is what happens there.
- Packet parsing, alignment, sockets, Wi-Fi, logging, display and the C wrappers.
- `streambuffer.rs`, `array.rs` and `dma.rs` (not compiled in), `CriticalMutex`, `send_from_isr` and `send_overwriting_from_isr`.
