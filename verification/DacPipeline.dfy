/**
 The audio output end to end: `Dac::write` retrying its polls in one task, the
 conversion interrupt in between, and the frame ring buffer shared step by step.
 */
module DacPipeline {
  import opened Residues
  import opened RingBuffer
  import opened RingConcurrent
  import opened Samples
  import opened Dac

  /** One finished interrupt: the occupancy it found, how many ring frames it put out, all it put out. */
  datatype Callback = Callback(occupancy: nat, emitted: nat, output: seq<DmaFrame>)

  /** Where an interrupt stands. `output` is the front of its buffer, holding anything until it is converted to. */
  datatype Isr =
    | IsrIdle
    | IsrStarted(length: nat)
    | IsrCopying(length: nat, occupancy: nat, output: seq<DmaFrame>)
    | IsrPadding(length: nat, occupancy: nat, output: seq<DmaFrame>)
    | IsrWaking
    | IsrNotifying

  /** The writing task: running, about to register after a poll that accepted nothing, or asleep. */
  datatype Task = Active | Refused | Asleep

  /**
   `submitted` is all the frames `write` has been called with, `data` what the
   running call has not got rid of yet; `done` lists the interrupts that have
   filled their output. `bit` is the task's bit in the waker set, `notified` its
   pending notification. `swaps` counts the interrupts that have emptied the
   waker set and `since` what it was when the task last registered.
   */
  datatype Pipe = Pipe(
    t: Tracked<Frame>,
    submitted: seq<Frame>, data: seq<Frame>,
    isr: Isr, done: seq<Callback>, underruns: nat,
    task: Task, bit: bool, notified: bool, swaps: nat, since: nat)

  datatype PipeStep =
    | Submit(frames: seq<Frame>)
    | WriterMoves(w: Step<Frame>)
    | InterruptStarts(length: nat)
    | InterruptMoves(r: Step<Frame>)
    | InterruptPads
    | InterruptSwaps
    | InterruptNotifies
    | Registers
    | WakesUp
    | WaitsElsewhere
    | Spurious

  ghost predicate PipeNext(p: Pipe, step: PipeStep, p': Pipe) {
    match step
    case Submit(frames) =>
      p.data == [] && p.t.ring.w.WriterIdle? && p.task == Active &&
      p' == p.(submitted := p.submitted + frames, data := frames)
    case WriterMoves(w) =>
      && Next(p.t, w, p'.t)
      && (match w
          case StartWrite(wanted) => p.task == Active && p.data != [] && wanted == p.data && p' == p.(t := p'.t)
          case LoadWriterForWrite => p' == p.(t := p'.t)
          case StoreElement(i) => p' == p.(t := p'.t)
          case PublishWrite =>
            var n := |p.t.ring.w.data|;
            n <= |p.data| && p' == p.(t := p'.t, data := p.data[n..], task := if n == 0 then Refused else Active)
          case _ => false)
    case InterruptStarts(length) =>
      p.isr.IsrIdle? && Next(p.t, StartRead(length), p'.t) && p' == p.(t := p'.t, isr := IsrStarted(length))
    case InterruptMoves(r) =>
      && Next(p.t, r, p'.t)
      && (match r
          case LoadWriterForRead =>
            p.isr.IsrStarted? && p'.isr.IsrCopying? && |p'.isr.output| == |p'.t.ring.r.out| &&
            p' == p.(t := p'.t, isr := IsrCopying(p.isr.length, p'.t.ring.r.slices.Len(), p'.isr.output))
          case LoadElement(i) =>
            p.isr.IsrCopying? && i < |p.isr.output| &&
            var frame := p.t.ring.buffer[p.t.ring.r.slices.Slot(i)];
            var output := p.isr.output[i := ToDma(frame)];
            p' == p.(t := p'.t, isr := IsrCopying(p.isr.length, p.isr.occupancy, output))
          case PublishRead =>
            p.isr.IsrCopying? &&
            p' == p.(t := p'.t, isr := IsrPadding(p.isr.length, p.isr.occupancy, p.isr.output))
          case _ => false)
    case InterruptPads =>
      p.isr.IsrPadding? && |p.isr.output| <= p.isr.length &&
      var n := |p.isr.output|;
      p' == p.(isr := IsrWaking,
               done := p.done + [Callback(p.isr.occupancy, n, p.isr.output + Silence(p.isr.length - n))],
               underruns := p.underruns + if n < p.isr.length then 1 else 0)
    case InterruptSwaps =>
      p.isr.IsrWaking? &&
      p' == p.(isr := if p.bit then IsrNotifying else IsrIdle, bit := false, swaps := p.swaps + 1)
    case InterruptNotifies =>
      p.isr.IsrNotifying? && p' == p.(isr := IsrIdle, notified := true)
    case Registers =>
      p.task == Refused && p' == p.(bit := true, task := Asleep, since := p.swaps)
    case WakesUp =>
      p.task == Asleep && p.notified && p' == p.(notified := false, task := Active)
    case WaitsElsewhere =>
      // between two writes, for a mutex say
      p.task == Active && p.data == [] && p.notified && p' == p.(notified := false)
    case Spurious =>
      p' == p.(notified := true)
  }

  /** What `Dac::new` leaves behind: a ring of silence, nobody writing, no interrupt yet. */
  ghost predicate PipeInit(p: Pipe) {
    && |p.t.ring.buffer| > 0 && Init(p.t, SilentFrames(|p.t.ring.buffer| - 1))
    && p.submitted == [] && p.data == [] && p.isr == IsrIdle && p.done == [] && p.since == 0 && p.underruns == 0
    && p.task == Active && !p.bit && p.swaps == 0
  }

  /** The buffer as `Dac::new` ensures it, with nothing running yet, is such a beginning. */
  lemma NewGivesInit(buffer: seq<Frame>)
    requires |buffer| > 0 && Live(buffer, 0, |buffer| - 1) == SilentFrames(|buffer| - 1)
    ensures var silence := SilentFrames(|buffer| - 1);
            var ring := Ring(buffer, 0, |buffer| - 1, WriterIdle, ReaderIdle);
            PipeInit(Pipe(Tracked(ring, silence, [], 0, 0), [], [], IsrIdle, [], 0, Active, false, false, 0, 0))
  {
    hide Wrap;
    assert Live(buffer, 0, |buffer| - 1) == buffer[..|buffer| - 1];
  }

  /** The ring frames that came out, silence padding removed. */
  ghost function Heard(done: seq<Callback>): seq<DmaFrame> {
    if done == [] then [] else
    var last := done[|done| - 1];
    Heard(done[..|done| - 1]) + last.output[..Min(last.emitted, |last.output|)]
  }

  ghost function Underruns(done: seq<Callback>): nat {
    if done == [] then 0 else
    Underruns(done[..|done| - 1]) + if done[|done| - 1].emitted < |done[|done| - 1].output| then 1 else 0
  }

  /** Ring frames first, as many as were there and fit, then silence. */
  ghost predicate WellFormed(cb: Callback) {
    && cb.emitted == Min(cb.occupancy, |cb.output|)
    && cb.output[cb.emitted..] == Silence(|cb.output| - cb.emitted)
  }

  /** All frames that have gone into the ring, initial silence included, when `left` of those submitted have not. */
  ghost function Published(length: nat, submitted: seq<Frame>, left: nat): seq<Frame>
    requires left <= |submitted| && length > 0
  {
    SilentFrames(length - 1) + submitted[..|submitted| - left]
  }

  ghost predicate ProducerInv(p: Pipe) {
    && |p.t.ring.buffer| > 0
    && |p.data| <= |p.submitted| && p.data == p.submitted[|p.submitted| - |p.data|..]
    && p.t.written == Published(|p.t.ring.buffer|, p.submitted, |p.data|)
    && (p.t.ring.w.WriterSawReader? ==> p.t.ring.w.wanted == p.data)
    && (p.t.ring.w.WriterCopying? ==> p.t.ring.w.data <= p.data)
  }

  ghost predicate IsrInv(p: Pipe) {
    match p.isr
    case IsrIdle =>
      p.t.ring.r.ReaderIdle? && Heard(p.done) == ConvertAll(p.t.consumed)
    case IsrStarted(length) =>
      p.t.ring.r.ReaderSawReader? && p.t.ring.r.room == length && Heard(p.done) == ConvertAll(p.t.consumed)
    case IsrCopying(length, occupancy, output) =>
      && p.t.ring.r.ReaderCopying? && |output| == |p.t.ring.r.out| == Min(length, occupancy)
      && (forall i | i in p.t.ring.r.loaded :: i < |output| && output[i] == ToDma(p.t.ring.r.out[i]))
      && Heard(p.done) == ConvertAll(p.t.consumed)
    case IsrPadding(length, occupancy, output) =>
      && p.t.ring.r.ReaderIdle? && |output| == Min(length, occupancy)
      && Heard(p.done) + output == ConvertAll(p.t.consumed)
    case _ =>
      p.t.ring.r.ReaderIdle? && Heard(p.done) == ConvertAll(p.t.consumed)
  }

  /** A sleeping writer's bit is up until an interrupt takes it, which then notifies it. */
  ghost predicate SleepInv(p: Pipe) {
    && p.since <= p.swaps
    && (p.task == Asleep ==>
          if p.since == p.swaps then p.bit else p.notified || p.isr.IsrNotifying?)
  }

  lemma SleepKept(p: Pipe, step: PipeStep, p': Pipe)
    requires SleepInv(p) && PipeNext(p, step, p')
    ensures SleepInv(p')
  {
    hide RingStep, Next, Silence;
  }

  ghost predicate PipeInv(p: Pipe) {
    && Inv(p.t) && ProducerInv(p) && IsrInv(p) && SleepInv(p)
    && (forall i | 0 <= i < |p.done| :: WellFormed(p.done[i]))
    && p.underruns == Underruns(p.done)
  }

  lemma NothingSubmitted(length: nat)
    requires length > 0
    ensures Published(length, [], 0) == SilentFrames(length - 1)
  {
  }

  lemma ProducerInitially(p: Pipe)
    requires |p.t.ring.buffer| > 0 && p.submitted == [] && p.data == [] && p.t.ring.w == WriterIdle
    requires p.t.written == SilentFrames(|p.t.ring.buffer| - 1)
    ensures ProducerInv(p)
  {
    hide SilentFrames, Published, Wrap;
    var length := |p.t.ring.buffer|;
    NothingSubmitted(length);
    assert Published(length, p.submitted, |p.data|) == Published(length, [], 0);
  }

  lemma NothingHeard(p: Pipe)
    requires p.t.consumed == [] && p.t.ring.r == ReaderIdle && p.isr == IsrIdle && p.done == []
    ensures IsrInv(p) && Underruns(p.done) == 0
  {
  }

  lemma InitFacts(p: Pipe)
    requires PipeInit(p)
    ensures p.t.written == SilentFrames(|p.t.ring.buffer| - 1) && p.t.consumed == []
    ensures p.t.ring.w == WriterIdle && p.t.ring.r == ReaderIdle
  {
    hide SilentFrames;
  }

  lemma PipeInitInv(p: Pipe)
    requires PipeInit(p)
    ensures PipeInv(p)
  {
    hide SilentFrames, Inv, Init, WellFormed, ProducerInv, IsrInv, Underruns;
    InitInv(p.t, SilentFrames(|p.t.ring.buffer| - 1));
    InitFacts(p);
    ProducerInitially(p);
    NothingHeard(p);
  }

  lemma TakeMore<T>(s: seq<T>, k: nat, more: seq<T>)
    requires k <= |s| && more <= s[k..]
    ensures k + |more| <= |s| && s[..k + |more|] == s[..k] + more && s[k..][|more|..] == s[k + |more|..]
  {
    assert more == s[k..][..|more|];
  }

  lemma PublishedGrows(length: nat, submitted: seq<Frame>, left: nat, more: seq<Frame>)
    requires length > 0 && left <= |submitted| && more <= submitted[|submitted| - left..]
    ensures |more| <= left
    ensures Published(length, submitted, left - |more|) == Published(length, submitted, left) + more
    ensures submitted[|submitted| - left..][|more|..] == submitted[|submitted| - (left - |more|)..]
  {
    hide SilentFrames;
    TakeMore(submitted, |submitted| - left, more);
  }

  lemma SubmittedUnpublished(length: nat, submitted: seq<Frame>, frames: seq<Frame>)
    requires length > 0
    ensures Published(length, submitted + frames, |frames|) == Published(length, submitted, 0)
    ensures (submitted + frames)[|submitted|..] == frames
  {
    hide SilentFrames;
    assert (submitted + frames)[..|submitted|] == submitted[..|submitted|];
  }

  lemma SubmitKeepsProducer(p: Pipe, frames: seq<Frame>, p': Pipe)
    requires ProducerInv(p) && PipeNext(p, Submit(frames), p')
    ensures ProducerInv(p')
  {
    hide Published;
    SubmittedUnpublished(|p.t.ring.buffer|, p.submitted, frames);
  }

  lemma PublishKeepsProducer(p: Pipe, p': Pipe)
    requires ProducerInv(p) && PipeNext(p, WriterMoves(PublishWrite), p')
    ensures ProducerInv(p')
  {
    hide Published, Wrap;
    PublishedGrows(|p.t.ring.buffer|, p.submitted, |p.data|, p.t.ring.w.data);
  }

  /** The ring's own steps publish nothing, keep its size, and copy from the data wanted. */
  lemma RingStepPublishesNothing(t: Tracked<Frame>, step: Step<Frame>, t': Tracked<Frame>)
    requires Next(t, step, t') && !step.PublishWrite?
    ensures t'.written == t.written && |t'.ring.buffer| == |t.ring.buffer|
    ensures t'.ring.w.WriterSawReader? ==>
              t'.ring.w == t.ring.w || (step.StartWrite? && t'.ring.w.wanted == step.wanted)
    ensures t'.ring.w.WriterCopying? ==>
              (t.ring.w.WriterCopying? && t'.ring.w.data == t.ring.w.data)
              || (t.ring.w.WriterSawReader? && t'.ring.w.data <= t.ring.w.wanted)
  {
    hide Wrap, WriterSlices, ReaderSlices;
  }

  lemma ProducerInvKept(p: Pipe, step: PipeStep, p': Pipe)
    requires ProducerInv(p) && PipeNext(p, step, p')
    ensures ProducerInv(p')
  {
    hide Wrap, Published, Next, Silence, ConvertAll;
    match step
    case Submit(frames) => SubmitKeepsProducer(p, frames, p');
    case WriterMoves(w) =>
      if w.PublishWrite? {
        PublishKeepsProducer(p, p');
      } else {
        RingStepPublishesNothing(p.t, w, p'.t);
      }
    case InterruptStarts(length) => RingStepPublishesNothing(p.t, StartRead(length), p'.t);
    case InterruptMoves(r) => RingStepPublishesNothing(p.t, r, p'.t);
    case _ =>
  }

  lemma ElementConverted(p: Pipe, i: nat, p': Pipe)
    requires IsrInv(p) && PipeNext(p, InterruptMoves(LoadElement(i)), p')
    ensures IsrInv(p')
  {
    hide Wrap, Heard, Silence;
  }

  lemma AllConverted(p: Pipe)
    requires IsrInv(p) && p.isr.IsrCopying? && forall i | 0 <= i < |p.t.ring.r.out| :: i in p.t.ring.r.loaded
    ensures p.isr.output == ConvertAll(p.t.ring.r.out)
  {
    hide Heard;
  }

  lemma CallbackHeard(done: seq<Callback>, length: nat, occupancy: nat, output: seq<DmaFrame>)
    requires |output| <= length
    ensures Heard(done + [Callback(occupancy, |output|, output + Silence(length - |output|))]) == Heard(done) + output
  {
    var cb := Callback(occupancy, |output|, output + Silence(length - |output|));
    assert (done + [cb])[..|done|] == done;
    assert cb.output[..|output|] == output;
  }

  lemma ReadConverted(p: Pipe, p': Pipe)
    requires IsrInv(p) && PipeNext(p, InterruptMoves(PublishRead), p')
    ensures IsrInv(p')
  {
    hide Wrap, ConvertAll, Heard;
    AllConverted(p);
    ConvertConcat(p.t.consumed, p.t.ring.r.out);
  }

  lemma LookKeepsIsr(p: Pipe, step: PipeStep, p': Pipe)
    requires IsrInv(p) && PipeNext(p, step, p')
    requires step == InterruptMoves(LoadWriterForRead) || step.InterruptStarts?
    ensures IsrInv(p')
  {
    hide Wrap, ConvertAll, Heard, Silence, ReaderSlices, WriterSlices;
    assert p'.t.consumed == p.t.consumed;
  }

  lemma PadKeepsIsr(p: Pipe, p': Pipe)
    requires IsrInv(p) && PipeNext(p, InterruptPads, p')
    ensures IsrInv(p')
  {
    hide ConvertAll, Heard, Silence;
    CallbackHeard(p.done, p.isr.length, p.isr.occupancy, p.isr.output);
  }

  /** The writer's steps, and those after the output is complete, touch nothing the interrupt has copied. */
  lemma OthersKeepIsr(p: Pipe, step: PipeStep, p': Pipe)
    requires IsrInv(p) && PipeNext(p, step, p')
    requires !step.InterruptMoves? && !step.InterruptStarts? && !step.InterruptPads?
    ensures IsrInv(p')
  {
    hide Wrap, ConvertAll, Heard, Silence, ReaderSlices, WriterSlices, Slices.Slot;
    assert p'.t.consumed == p.t.consumed;
  }

  lemma IsrInvKept(p: Pipe, step: PipeStep, p': Pipe)
    requires IsrInv(p) && PipeNext(p, step, p')
    ensures IsrInv(p')
  {
    if step.InterruptPads? {
      PadKeepsIsr(p, p');
    } else if step.InterruptStarts? || step == InterruptMoves(LoadWriterForRead) {
      LookKeepsIsr(p, step, p');
    } else if step.InterruptMoves? {
      hide IsrInv, RingStep, Silence;
      if step.r.LoadElement? {
        ElementConverted(p, step.r.i, p');
      } else {
        ReadConverted(p, p');
      }
    } else {
      OthersKeepIsr(p, step, p');
    }
  }

  lemma CallbackRecorded(done: seq<Callback>, length: nat, occupancy: nat, output: seq<DmaFrame>)
    requires |output| == Min(length, occupancy)
    ensures var cb := Callback(occupancy, |output|, output + Silence(length - |output|));
            && WellFormed(cb)
            && Underruns(done + [cb]) == Underruns(done) + if |output| < length then 1 else 0
  {
    var cb := Callback(occupancy, |output|, output + Silence(length - |output|));
    assert (done + [cb])[..|done|] == done;
    assert cb.output[|output|..] == Silence(length - |output|);
  }

  lemma CallbacksKept(p: Pipe, step: PipeStep, p': Pipe)
    requires IsrInv(p) && PipeNext(p, step, p')
    requires (forall i | 0 <= i < |p.done| :: WellFormed(p.done[i])) && p.underruns == Underruns(p.done)
    ensures (forall i | 0 <= i < |p'.done| :: WellFormed(p'.done[i])) && p'.underruns == Underruns(p'.done)
  {
    hide RingStep, Next, WellFormed, Underruns, Heard, ConvertAll, Silence;
    if step.InterruptPads? {
      CallbackRecorded(p.done, p.isr.length, p.isr.occupancy, p.isr.output);
    }
  }

  lemma RingKept(p: Pipe, step: PipeStep, p': Pipe)
    requires Inv(p.t) && PipeNext(p, step, p')
    ensures Inv(p'.t) && |p'.t.ring.buffer| == |p.t.ring.buffer|
  {
    hide Wrap, Inv, Silence, ConvertAll, WriterSlices, ReaderSlices, Slices.Slot;
    match step
    case WriterMoves(w) => NextKeepsInv(p.t, w, p'.t);
    case InterruptStarts(length) => NextKeepsInv(p.t, StartRead(length), p'.t);
    case InterruptMoves(r) => NextKeepsInv(p.t, r, p'.t);
    case _ =>
  }

  lemma PipeKeepsInv(p: Pipe, step: PipeStep, p': Pipe)
    requires PipeInv(p) && PipeNext(p, step, p')
    ensures PipeInv(p') && |p'.t.ring.buffer| == |p.t.ring.buffer|
  {
    hide Inv, PipeNext, ProducerInv, IsrInv, SleepInv, WellFormed, Underruns;
    RingKept(p, step, p');
    ProducerInvKept(p, step, p');
    IsrInvKept(p, step, p');
    CallbacksKept(p, step, p');
    SleepKept(p, step, p');
  }

  /** The occupancy an interrupt works from is the queue length at that moment. */
  lemma OccupancyIsQueueLength(p: Pipe, p': Pipe)
    requires PipeInv(p) && PipeNext(p, InterruptMoves(LoadWriterForRead), p')
    ensures p'.isr.occupancy == |Live(p.t.ring.buffer, p.t.ring.reader, p.t.ring.writer)|
  {
    hide Wrap;
    LiveAt(p.t.ring.buffer, p.t.ring.reader, p.t.ring.writer);
  }

  /** A poll that accepts nothing found the ring full when it loaded the read index. */
  lemma PendingMeansFull(p: Pipe, p': Pipe)
    requires PipeInv(p) && PipeNext(p, WriterMoves(LoadWriterForWrite), p') && p.data != []
    ensures p'.t.ring.w.data == [] <==> |p.t.written| - p.t.freed == |p.t.ring.buffer| - 1
  {
    hide Wrap;
    WriteAccepts(p.t, p'.t);
  }

  /** The interrupt never waits for the task: once started it can always take its next step. */
  lemma InterruptNeverStuck(p: Pipe) returns (step: PipeStep, p': Pipe)
    requires PipeInv(p) && !p.isr.IsrIdle?
    ensures step.InterruptMoves? || step.InterruptPads? || step.InterruptSwaps? || step.InterruptNotifies?
    ensures PipeNext(p, step, p')
  {
    hide Wrap, ConvertAll, Silence, Published, WriterInv, ReaderInv;
    match p.isr
    case IsrPadding(length, occupancy, output) =>
      var n := |output|;
      step := InterruptPads;
      p' := p.(isr := IsrWaking,
               done := p.done + [Callback(occupancy, n, output + Silence(length - n))],
               underruns := p.underruns + if n < length then 1 else 0);
    case IsrWaking =>
      step := InterruptSwaps;
      p' := p.(isr := if p.bit then IsrNotifying else IsrIdle, bit := false, swaps := p.swaps + 1);
    case IsrNotifying =>
      step := InterruptNotifies;
      p' := p.(isr := IsrIdle, notified := true);
    case IsrStarted(length) =>
      step, p' := ReadNeverStuck(p);
    case IsrCopying(length, occupancy, output) =>
      step, p' := ReadNeverStuck(p);
    case IsrIdle =>
  }

  lemma ReadNeverStuck(p: Pipe) returns (step: PipeStep, p': Pipe)
    requires PipeInv(p) && (p.isr.IsrStarted? || p.isr.IsrCopying?)
    ensures step.InterruptMoves? && PipeNext(p, step, p')
  {
    hide Wrap, ConvertAll, Silence, Published, WriterInv, ReaderInv, WriterSlices, ReaderSlices, Slices.Slot, Heard;
    var w, r, s, s' := SidesNeverStuck(p.t);
    var t := Extend(p.t, r, s');
    step := InterruptMoves(r);
    match p.isr
    case IsrStarted(length) =>
      p' := p.(t := t, isr := IsrCopying(length, t.ring.r.slices.Len(), seq(|t.ring.r.out|, _ => SILENT_DMA)));
    case IsrCopying(length, occupancy, output) =>
      if r.LoadElement? {
        var frame := p.t.ring.buffer[p.t.ring.r.slices.Slot(r.i)];
        p' := p.(t := t, isr := IsrCopying(length, occupancy, output[r.i := ToDma(frame)]));
      } else {
        p' := p.(t := t, isr := IsrPadding(length, occupancy, output));
      }
  }

  /** Nor does a write in progress wait for the interrupt. */
  lemma WriterNeverStuck(p: Pipe) returns (w: Step<Frame>, p': Pipe)
    requires PipeInv(p) && !p.t.ring.w.WriterIdle?
    ensures PipeNext(p, WriterMoves(w), p')
  {
    hide Wrap, ConvertAll, Silence, Published, WriterInv, ReaderInv;
    var r, s, s';
    w, r, s, s' := SidesNeverStuck(p.t);
    var t := Extend(p.t, w, s);
    var n := if w.PublishWrite? then |p.t.ring.w.data| else 0;
    var task := if !w.PublishWrite? then p.task else if n == 0 then Refused else Active;
    p' := p.(t := t, data := p.data[n..], task := task);
  }

  ghost predicate IsPipeRun(run: seq<Pipe>, steps: seq<PipeStep>) {
    && |run| == |steps| + 1 && PipeInit(run[0])
    && (forall i | 0 <= i < |steps| :: PipeNext(run[i], steps[i], run[i + 1]))
  }

  lemma {:induction false} RunInv(run: seq<Pipe>, steps: seq<PipeStep>, i: nat)
    requires IsPipeRun(run, steps) && i < |run|
    ensures PipeInv(run[i]) && |run[i].t.ring.buffer| == |run[0].t.ring.buffer|
  {
    hide Wrap;
    if i == 0 {
      PipeInitInv(run[0]);
    } else {
      RunInv(run, steps, i - 1);
      PipeKeepsInv(run[i - 1], steps[i - 1], run[i]);
    }
  }

  /**
   In every run, the interrupts' output without its padding is, frame by frame,
   a prefix of the conversion of the initial silence followed by the frames
   `write` has got rid of; each interrupt puts out what it found, as far as it
   fits, pads the rest, and counts an underrun exactly when it pads. Once a
   write has finished, everything submitted has gone in.
   */
  lemma OutputFollowsWrites(run: seq<Pipe>, steps: seq<PipeStep>)
    requires IsPipeRun(run, steps)
    ensures var p := run[|steps|];
            var silence := SilentFrames(|run[0].t.ring.buffer| - 1);
            && |p.data| <= |p.submitted|
            && Heard(p.done) <= ConvertAll(silence + p.submitted[..|p.submitted| - |p.data|])
            && (forall i | 0 <= i < |p.done| :: WellFormed(p.done[i]))
            && p.underruns == Underruns(p.done)
            && (p.data == [] ==> Heard(p.done) <= ConvertAll(silence + p.submitted))
  {
    hide Wrap;
    RunInv(run, steps, |steps|);
    var p := run[|steps|];
    ConvertPrefix(p.t.consumed, p.t.written);
    assert p.data == [] ==> p.submitted[..|p.submitted|] == p.submitted;
  }

  /**
   A writer that went to sleep has its bit up for the next interrupt to take,
   although it registers only after its poll; once an interrupt that came to
   take it is over, it has been notified. So it sleeps through no interrupt.
   */
  lemma WriterSleepsThroughNoInterrupt(run: seq<Pipe>, steps: seq<PipeStep>, i: nat, j: nat)
    requires IsPipeRun(run, steps) && i <= j < |run|
    requires forall k | i <= k <= j :: run[k].task == Asleep
    ensures run[j].since == run[i].since
    ensures run[i].swaps == run[i].since ==> run[i].bit
    ensures run[j].swaps > run[i].swaps && !run[j].isr.IsrNotifying? ==> run[j].notified
  {
    SameSleep(run, steps, i, j);
    RunInv(run, steps, i);
    RunInv(run, steps, j);
  }

  lemma {:induction false} SameSleep(run: seq<Pipe>, steps: seq<PipeStep>, i: nat, j: nat)
    requires IsPipeRun(run, steps) && i <= j < |run|
    requires forall k | i <= k <= j :: run[k].task == Asleep
    ensures run[j].since == run[i].since && run[j].swaps >= run[i].swaps
    decreases j
  {
    hide RingStep, Next, Silence;
    if i < j {
      SameSleep(run, steps, i, j - 1);
      assert PipeNext(run[j - 1], steps[j - 1], run[j]);
    }
  }

  // ----- the wakeup that comes late -----

  /** Asleep although the ring has room, with no interrupt under way and no notification to wake it. */
  ghost predicate SleepsWithRoom(p: Pipe) {
    && p.task == Asleep && !p.notified && p.isr.IsrIdle?
    && |p.t.written| - |p.t.consumed| < |p.t.ring.buffer| - 1
  }

  predicate StartsPoll(step: PipeStep) {
    step.WriterMoves? && step.w.StartWrite?
  }

  /** A poll is under way only in an active task with data left, and is refused only by a ring it saw full. */
  ghost predicate RefusalInv(p: Pipe) {
    && (p.task != Active ==>
          p.data != [] && p.t.ring.w.WriterIdle? && |p.t.written| - p.t.freed == |p.t.ring.buffer| - 1)
    && (!p.t.ring.w.WriterIdle? ==> p.data != [])
    && (p.t.ring.w.WriterCopying? && p.t.ring.w.data == [] ==>
          |p.t.written| - p.t.freed == |p.t.ring.buffer| - 1)
  }

  lemma RefusalKept(p: Pipe, step: PipeStep, p': Pipe)
    requires PipeInv(p) && RefusalInv(p) && PipeNext(p, step, p')
    ensures RefusalInv(p')
  {
    hide Wrap, Inv, IsrInv, ProducerInv, ConvertAll, Silence, WriterSlices, ReaderSlices, Slices.Slot;
    if step == WriterMoves(LoadWriterForWrite) {
      PendingMeansFull(p, p');
    }
  }

  lemma {:induction false} RefusalHolds(run: seq<Pipe>, steps: seq<PipeStep>, i: nat)
    requires IsPipeRun(run, steps) && i < |run|
    ensures PipeInv(run[i]) && RefusalInv(run[i])
  {
    hide PipeNext, PipeInv;
    RunInv(run, steps, i);
    if i > 0 {
      RefusalHolds(run, steps, i - 1);
      RefusalKept(run[i - 1], steps[i - 1], run[i]);
    }
  }

  /** Only a registration leads to such a sleep, and only while no interrupt is under way. */
  lemma OnlyRegisteringMisses(p: Pipe, step: PipeStep, p': Pipe)
    requires PipeInv(p) && RefusalInv(p) && PipeNext(p, step, p') && SleepInv(p')
    ensures SleepsWithRoom(p') <==>
            && step == Registers && !p.notified && p.isr.IsrIdle?
            && |p.t.consumed| > p.t.freed
  {
    hide Wrap, Inv, IsrInv, ProducerInv, ConvertAll, Silence, WriterSlices, ReaderSlices, Slices.Slot;
  }

  /** A poll has begun and nothing has been accepted since. */
  ghost predicate Polled(p: Pipe) {
    p.task != Active || !p.t.ring.w.WriterIdle?
  }

  lemma PolledByStep(p: Pipe, step: PipeStep, p': Pipe)
    requires RefusalInv(p) && PipeNext(p, step, p') && Polled(p')
    ensures if StartsPoll(step) then p'.t.freed == |p.t.consumed| else Polled(p) && p'.t.freed == p.t.freed
  {
    hide Silence, ConvertAll, Wrap, WriterSlices, ReaderSlices, Slices.Slot;
  }

  lemma {:induction false} LastPoll(run: seq<Pipe>, steps: seq<PipeStep>, i: nat) returns (q: nat)
    requires IsPipeRun(run, steps) && i < |run| && Polled(run[i])
    ensures q < i && StartsPoll(steps[q]) && forall j | q < j < i :: !StartsPoll(steps[j])
    ensures run[i].t.freed == |run[q].t.consumed|
  {
    hide PipeNext, RefusalInv, PipeInv, StartsPoll;
    if i == 0 {
      assert false;
    } else {
      hide PipeInit, Polled;
      RefusalHolds(run, steps, i - 1);
      PolledByStep(run[i - 1], steps[i - 1], run[i]);
      if StartsPoll(steps[i - 1]) {
        q := i - 1;
      } else {
        q := LastPoll(run, steps, i - 1);
      }
    }
  }

  /** At `a`, an interrupt that has copied frames out of the ring gives their slots back. */
  ghost predicate MakesRoom(p: Pipe, step: PipeStep) {
    step == InterruptMoves(PublishRead) && p.t.ring.r.ReaderCopying? && p.t.ring.r.out != []
  }

  lemma {:induction false} ConsumedGrows(run: seq<Pipe>, steps: seq<PipeStep>, q: nat, i: nat)
    requires IsPipeRun(run, steps) && q <= i < |run|
    ensures |run[q].t.consumed| <= |run[i].t.consumed|
    ensures |run[q].t.consumed| < |run[i].t.consumed| <==> exists a | q <= a < i :: MakesRoom(run[a], steps[a])
    decreases i
  {
    hide PipeNext, PipeInit, MakesRoom;
    if q < i {
      ConsumedGrows(run, steps, q, i - 1);
      ConsumedByStep(run[i - 1], steps[i - 1], run[i]);
      if MakesRoom(run[i - 1], steps[i - 1]) {
      } else if a: nat :| q <= a < i && MakesRoom(run[a], steps[a]) {
        assert a < i - 1;
      }
    }
  }

  lemma ConsumedByStep(p: Pipe, step: PipeStep, p': Pipe)
    requires PipeNext(p, step, p')
    ensures |p'.t.consumed| >= |p.t.consumed|
    ensures |p'.t.consumed| > |p.t.consumed| <==> MakesRoom(p, step)
  {
    hide Silence, ConvertAll, Wrap, WriterSlices, ReaderSlices, Slices.Slot;
  }

  /**
   A writer registers only after its poll, so it can sleep although there is
   room, until the next interrupt. It does so exactly just after registering,
   when since its poll began an interrupt has made room and come to its end,
   and no notification is left.
   */
  lemma SleepsWithRoomExactlyWhen(run: seq<Pipe>, steps: seq<PipeStep>, i: nat)
    requires IsPipeRun(run, steps) && i < |run|
    ensures SleepsWithRoom(run[i]) <==>
            && i > 0 && steps[i - 1] == Registers && !run[i - 1].notified && run[i - 1].isr.IsrIdle?
            && exists q, a | 0 <= q < a < i - 1 ::
                 && StartsPoll(steps[q]) && (forall j | q < j < i - 1 :: !StartsPoll(steps[j]))
                 && MakesRoom(run[a], steps[a])
  {
    hide PipeNext, MakesRoom, StartsPoll, Inv, IsrInv, ProducerInv;
    if i == 0 {
      assert !SleepsWithRoom(run[0]);
    } else {
      var r := i - 1;
      RefusalHolds(run, steps, r);
      RefusalHolds(run, steps, i);
      OnlyRegisteringMisses(run[r], steps[r], run[i]);
      if steps[r] == Registers {
        assert run[r].task == Refused by { RegistersWhenRefused(run[r], run[i]); }
        var q := LastPoll(run, steps, r);
        ConsumedGrows(run, steps, q, r);
        PollMakesNoRoom(run[q], steps[q]);
        OnePoll(steps, q, r);
      }
    }
  }

  lemma RegistersWhenRefused(p: Pipe, p': Pipe)
    requires PipeNext(p, Registers, p')
    ensures p.task == Refused
  {
  }

  lemma PollMakesNoRoom(p: Pipe, step: PipeStep)
    requires StartsPoll(step)
    ensures !MakesRoom(p, step)
  {
  }

  lemma OnePoll(steps: seq<PipeStep>, q: nat, r: nat)
    requires q < r <= |steps| && StartsPoll(steps[q]) && forall j | q < j < r :: !StartsPoll(steps[j])
    ensures forall q' | 0 <= q' < r && StartsPoll(steps[q']) && (forall j | q' < j < r :: !StartsPoll(steps[j])) ::
              q' == q
  {
  }

  /** Nothing is dropped in between: what was heard plus what is queued or being copied is all that went in. */
  lemma NothingLost(run: seq<Pipe>, steps: seq<PipeStep>)
    requires IsPipeRun(run, steps) && !run[|steps|].isr.IsrPadding?
    ensures var p := run[|steps|];
            var s := p.t.ring;
            && s.InBounds() && |p.data| <= |p.submitted|
            && ConvertAll(SilentFrames(|run[0].t.ring.buffer| - 1) + p.submitted[..|p.submitted| - |p.data|])
               == Heard(p.done) + ConvertAll(Live(s.buffer, s.reader, s.writer))
  {
    hide Wrap, At, ConvertAll, Live, Heard, WriterInv, ReaderInv, PipeNext;
    RunInv(run, steps, |steps|);
    var p := run[|steps|];
    LiveIsRemainder(p.t);
    assert p.t.written == p.t.consumed + p.t.written[|p.t.consumed|..];
    ConvertConcat(p.t.consumed, p.t.written[|p.t.consumed|..]);
  }

  // ----- whole polls and whole interrupts -----

  /** What holds at `p` of a poll begun at `b` and still under way. */
  ghost predicate PollInv(b: Pipe, p: Pipe) {
    var room := |b.t.ring.buffer| - 1 - (|b.t.written| - |b.t.consumed|);
    && b.data != [] && p.data == b.data && p.t.written == b.t.written
    && |p.t.ring.buffer| == |b.t.ring.buffer| && p.t.freed == |b.t.consumed|
    && room >= 0
    && match p.t.ring.w
       case WriterIdle => false
       case WriterSawReader(wanted, _) => wanted == b.data
       case WriterCopying(_, data, _) => data == b.data[..Min(|b.data|, room)]
  }

  lemma PollGoesOn(b: Pipe, p: Pipe, step: PipeStep, p': Pipe)
    requires PipeInv(p) && PollInv(b, p) && PipeNext(p, step, p') && !p'.t.ring.w.WriterIdle?
    ensures PollInv(b, p')
  {
    hide Wrap, Inv, IsrInv, ProducerInv, ConvertAll, Silence, WriterSlices, ReaderSlices, Slices.Slot;
    if step == WriterMoves(LoadWriterForWrite) {
      WriteAccepts(p.t, p'.t);
    }
  }

  lemma PollStarts(p: Pipe, step: PipeStep, p': Pipe)
    requires PipeInv(p) && PipeNext(p, step, p') && StartsPoll(step)
    ensures PollInv(p, p')
  {
    hide Wrap, IsrInv, ProducerInv, ConvertAll, Silence, WriterSlices, ReaderSlices, Slices.Slot, At;
  }

  lemma NotStarting(p: Pipe, step: PipeStep, p': Pipe)
    requires PipeNext(p, step, p') && !StartsPoll(step) && !p'.t.ring.w.WriterIdle?
    ensures !p.t.ring.w.WriterIdle?
  {
    hide Silence, ConvertAll, Wrap, WriterSlices, ReaderSlices, Slices.Slot;
  }

  lemma {:induction false} PollUnderWay(run: seq<Pipe>, steps: seq<PipeStep>, i: nat) returns (q: nat)
    requires IsPipeRun(run, steps) && i < |run| && !run[i].t.ring.w.WriterIdle?
    ensures q < i && StartsPoll(steps[q]) && (forall j | q < j < i :: !StartsPoll(steps[j]))
    ensures PollInv(run[q], run[i])
  {
    hide PipeNext, PipeInv, StartsPoll, PollInv;
    if i == 0 {
      assert false;
    } else {
      hide PipeInit;
      RunInv(run, steps, i - 1);
      if StartsPoll(steps[i - 1]) {
        q := i - 1;
        PollStarts(run[q], steps[q], run[i]);
      } else {
        NotStarting(run[i - 1], steps[i - 1], run[i]);
        q := PollUnderWay(run, steps, i - 1);
        PollGoesOn(run[q], run[i - 1], steps[i - 1], run[i]);
      }
    }
  }

  lemma PollEnds(p: Pipe, p': Pipe)
    requires PipeNext(p, WriterMoves(PublishWrite), p')
    ensures p.t.ring.w.WriterCopying?
    ensures var data := p.t.ring.w.data;
            && |data| <= |p.data| && p'.data == p.data[|data|..] && p'.t.written == p.t.written + data
            && p'.task == if data == [] then Refused else Active
  {
    hide Silence, ConvertAll, Wrap, WriterSlices, ReaderSlices, Slices.Slot;
  }

  /**
   Over any interleaving, a poll appends to the ring, of the frames left to
   write, as many as fitted when it loaded the read index, and leaves just the
   others to write; it is refused exactly if none fitted.
   */
  lemma PollAppendsWhatFits(run: seq<Pipe>, steps: seq<PipeStep>, i: nat) returns (q: nat, n: nat)
    requires IsPipeRun(run, steps) && i < |steps| && steps[i] == WriterMoves(PublishWrite)
    ensures q < i && StartsPoll(steps[q]) && (forall j | q < j < i :: !StartsPoll(steps[j]))
    ensures var s := run[q].t.ring;
            s.InBounds() && n == Min(|run[q].data|, |s.buffer| - 1 - |Live(s.buffer, s.reader, s.writer)|)
    ensures run[i + 1].t.written == run[q].t.written + run[q].data[..n]
    ensures run[q].data != [] && run[i + 1].data == run[q].data[n..]
    ensures run[i + 1].task == if n == 0 then Refused else Active
  {
    hide PipeNext, StartsPoll, Wrap, Live;
    PollEnds(run[i], run[i + 1]);
    q := PollUnderWay(run, steps, i);
    RunInv(run, steps, q);
    LiveIsRemainder(run[q].t);
    n := |run[i].t.ring.w.data|;
  }

  /** An interrupt under way: started with its length at `a`, and what it found queued it found at `b`. */
  ghost predicate UnderWay(run: seq<Pipe>, steps: seq<PipeStep>, i: nat, a: nat, b: nat)
    requires |run| == |steps| + 1 && i < |run|
    requires run[i].isr.IsrStarted? || run[i].isr.IsrCopying? || run[i].isr.IsrPadding?
  {
    && a < i && steps[a] == InterruptStarts(run[i].isr.length) && (forall j | a < j < i :: !steps[j].InterruptStarts?)
    && (!run[i].isr.IsrStarted? ==>
          && a < b < i && steps[b] == InterruptMoves(LoadWriterForRead)
          && run[b].t.ring.InBounds()
          && run[i].isr.occupancy == |Live(run[b].t.ring.buffer, run[b].t.ring.reader, run[b].t.ring.writer)|)
  }

  lemma IsrByStep(p: Pipe, step: PipeStep, p': Pipe)
    requires PipeNext(p, step, p') && (p'.isr.IsrStarted? || p'.isr.IsrCopying? || p'.isr.IsrPadding?)
    ensures step.InterruptStarts? ==> p'.isr == IsrStarted(step.length)
    ensures !step.InterruptStarts? ==>
              && (p.isr.IsrStarted? || p.isr.IsrCopying? || p.isr.IsrPadding?) && p'.isr.length == p.isr.length
              && (p'.isr.IsrStarted? ==> p.isr.IsrStarted?)
              && (p.isr.IsrStarted? && !p'.isr.IsrStarted? ==> step == InterruptMoves(LoadWriterForRead))
              && (!p.isr.IsrStarted? ==> !p'.isr.IsrStarted? && p'.isr.occupancy == p.isr.occupancy)
  {
    hide Silence, ConvertAll, Wrap, WriterSlices, ReaderSlices, Slices.Slot, Slices.Len;
  }

  lemma {:induction false} InterruptUnderWay(run: seq<Pipe>, steps: seq<PipeStep>, i: nat) returns (a: nat, b: nat)
    requires IsPipeRun(run, steps) && i < |run|
    requires run[i].isr.IsrStarted? || run[i].isr.IsrCopying? || run[i].isr.IsrPadding?
    ensures UnderWay(run, steps, i, a, b)
  {
    hide PipeNext, PipeInv, Live;
    if i == 0 {
      assert false;
    } else {
      hide PipeInit;
      IsrByStep(run[i - 1], steps[i - 1], run[i]);
      if steps[i - 1].InterruptStarts? {
        a, b := i - 1, i;
      } else {
        a, b := InterruptUnderWay(run, steps, i - 1);
        if run[i - 1].isr.IsrStarted? && !run[i].isr.IsrStarted? {
          b := i - 1;
          RunInv(run, steps, b);
          OccupancyIsQueueLength(run[b], run[i]);
          PipeInBounds(run[b]);
        }
      }
    }
  }

  lemma PipeInBounds(p: Pipe)
    requires PipeInv(p)
    ensures p.t.ring.InBounds()
  {
    hide Wrap, At, WriterInv, ReaderInv;
  }

  lemma PaddingRecords(p: Pipe, p': Pipe)
    requires PipeNext(p, InterruptPads, p')
    ensures p.isr.IsrPadding? && |p'.done| == |p.done| + 1 && p'.done[..|p.done|] == p.done
    ensures |p'.done[|p.done|].output| == p.isr.length && p'.done[|p.done|].occupancy == p.isr.occupancy
  {
    hide Silence;
  }

  /**
   Over any interleaving, an interrupt fills the whole output it was started
   with, and of that, with ring frames, as much as was queued at its one look
   at the write index; the rest is silence.
   */
  lemma InterruptFillsOutput(run: seq<Pipe>, steps: seq<PipeStep>, d: nat) returns (a: nat, b: nat)
    requires IsPipeRun(run, steps) && d < |steps| && steps[d] == InterruptPads
    ensures a < b < d && steps[a].InterruptStarts? && (forall j | a < j < d :: !steps[j].InterruptStarts?)
    ensures steps[b] == InterruptMoves(LoadWriterForRead) && run[b].t.ring.InBounds()
    ensures |run[d + 1].done| == |run[d].done| + 1 && run[d + 1].done[..|run[d].done|] == run[d].done
    ensures var cb, s := run[d + 1].done[|run[d].done|], run[b].t.ring;
            && |cb.output| == steps[a].length
            && cb.emitted == Min(|Live(s.buffer, s.reader, s.writer)|, steps[a].length)
            && cb.output[cb.emitted..] == Silence(steps[a].length - cb.emitted)
  {
    hide PipeNext, Live, Silence;
    PaddingRecords(run[d], run[d + 1]);
    a, b := InterruptUnderWay(run, steps, d);
    RunInv(run, steps, d + 1);
  }

  lemma {:induction false} SwapsCounted(run: seq<Pipe>, steps: seq<PipeStep>, i: nat, j: nat)
    requires IsPipeRun(run, steps) && i <= j < |run|
    ensures run[j].swaps >= run[i].swaps
    ensures run[j].swaps > run[i].swaps <==> exists k | i <= k < j :: steps[k] == InterruptSwaps
    decreases j
  {
    hide RingStep, Next, Silence;
    if i < j {
      SwapsCounted(run, steps, i, j - 1);
      assert PipeNext(run[j - 1], steps[j - 1], run[j]);
      if steps[j - 1] != InterruptSwaps {
        if k: nat :| i <= k < j && steps[k] == InterruptSwaps {
          assert k < j - 1;
        }
      }
    }
  }

  /**
   From its registration at `r` on, a sleeping writer is in the waker set until
   an interrupt swaps it, and that one notifies it before it ends.
   */
  lemma SwapNotifiesSleeper(run: seq<Pipe>, steps: seq<PipeStep>, r: nat, j: nat)
    requires IsPipeRun(run, steps) && r < j < |run| && steps[r] == Registers
    requires forall k | r < k <= j :: run[k].task == Asleep
    ensures if exists k | r < k < j :: steps[k] == InterruptSwaps
            then run[j].notified || run[j].isr.IsrNotifying?
            else run[j].bit
  {
    assert PipeNext(run[r], steps[r], run[r + 1]);
    hide PipeNext;
    SameSleep(run, steps, r + 1, j);
    SwapsCounted(run, steps, r + 1, j);
    RunInv(run, steps, j);
  }

  // ----- a write can always finish -----

  ghost predicate HasRoom(p: Pipe) {
    |p.t.written| - |p.t.consumed| < |p.t.ring.buffer| - 1
  }

  /** A poll begun now would be accepted, at least in part. */
  ghost predicate Ready(p: Pipe) {
    HasRoom(p) && (p.task == Active || (p.task == Asleep && p.notified))
  }

  /** The poll under way will be. */
  ghost predicate Willing(p: Pipe) {
    match p.t.ring.w
    case WriterIdle => false
    case WriterSawReader(_, _) => |p.t.written| - p.t.freed < |p.t.ring.buffer| - 1
    case WriterCopying(_, data, _) => data != []
  }

  /** How far the writing task is from its next accepted poll, waiting for interrupts being 3. */
  ghost function Rank(p: Pipe): nat {
    if !p.t.ring.w.WriterIdle? then (if Willing(p) then 0 else 5)
    else if p.task == Refused then 4
    else if !Ready(p) then 3
    else if p.task == Asleep then 2
    else 1
  }

  /** An interrupt under way that will leave room behind. */
  ghost predicate Helps(p: Pipe) {
    match p.isr
    case IsrIdle => false
    case IsrStarted(length) => length > 0
    case IsrCopying(_, _, output) => HasRoom(p) || output != []
    case _ => HasRoom(p)
  }

  ghost function Stage(p: Pipe): nat {
    match p.isr
    case IsrIdle => 10
    case IsrStarted(_) => if Helps(p) then 5 else 15
    case IsrCopying(_, _, _) => if Helps(p) then 4 else 14
    case IsrPadding(_, _, _) => if Helps(p) then 3 else 13
    case IsrWaking => if Helps(p) then 2 else 12
    case IsrNotifying => if Helps(p) then 1 else 11
  }

  ghost function WriterPhase(p: Pipe): nat {
    Phase(p.t.ring.w.WriterIdle?, p.t.ring.w.WriterCopying?)
  }

  /** Progress, counted in frames left, then by what the writing task does, the interrupt does, and elements to copy. */
  ghost predicate Closer(p': Pipe, p: Pipe) {
    || |p'.data| < |p.data|
    || (|p'.data| == |p.data| &&
        (|| Rank(p') < Rank(p)
         || (Rank(p') == Rank(p) &&
             (|| Stage(p') < Stage(p)
              || (Stage(p') == Stage(p) &&
                  (|| WriterPhase(p') < WriterPhase(p)
                   || (WriterPhase(p') == WriterPhase(p) &&
                       (|| Unstored(p'.t.ring.w) < Unstored(p.t.ring.w)
                        || (Unstored(p'.t.ring.w) == Unstored(p.t.ring.w)
                            && Unloaded(p'.t.ring.r) < Unloaded(p.t.ring.r))))))))))
  }

  /** A poll under way goes on. */
  lemma PollSteps(p: Pipe) returns (step: PipeStep, p': Pipe)
    requires PipeInv(p) && RefusalInv(p) && !p.t.ring.w.WriterIdle?
    ensures step.WriterMoves? && PipeNext(p, step, p') && Closer(p', p)
  {
    hide Wrap, At, IsrInv, SleepInv, ConvertAll, Silence, Published, WriterSlices, ReaderSlices, Slices.Slot;
    var w, t := WriterProgress(p.t);
    hide ReaderInv;
    var n := if w.PublishWrite? then |p.t.ring.w.data| else 0;
    var task := if !w.PublishWrite? then p.task else if n == 0 then Refused else Active;
    step, p' := WriterMoves(w), p.(t := t, data := p.data[n..], task := task);
    if w.LoadWriterForWrite? {
      WriteAccepts(p.t, t);
    }
  }

  /** Otherwise, if the task has a step of its own on the way to a poll that is accepted, it takes that. */
  lemma TaskSteps(p: Pipe) returns (step: PipeStep, p': Pipe)
    requires PipeInv(p) && p.t.ring.w.WriterIdle? && p.data != [] && (p.task == Refused || Ready(p))
    ensures step.WriterMoves? || step == Registers || step == WakesUp
    ensures PipeNext(p, step, p') && Closer(p', p)
  {
    hide Wrap, At, IsrInv, ProducerInv, ConvertAll, Silence, WriterSlices, ReaderSlices, Slices.Slot;
    if p.task == Refused {
      step, p' := Registers, p.(bit := true, task := Asleep, since := p.swaps);
    } else if p.task == Asleep {
      step, p' := WakesUp, p.(notified := false, task := Active);
    } else {
      var w := StartWrite(p.data);
      var t := Extend(p.t, w, p.t.ring.(w := WriterSawReader(p.data, p.t.ring.reader)));
      step, p' := WriterMoves(w), p.(t := t);
    }
  }

  /** Otherwise the interrupt goes on, or one comes that takes a frame. */
  lemma InterruptSteps(p: Pipe) returns (step: PipeStep, p': Pipe)
    requires PipeInv(p) && p.t.ring.w.WriterIdle? && p.task != Refused && !Ready(p) && |p.t.ring.buffer| >= 2
    ensures step.InterruptStarts? || step.InterruptMoves? || step.InterruptPads? || step.InterruptSwaps?
            || step.InterruptNotifies?
    ensures PipeNext(p, step, p') && Closer(p', p)
  {
    hide Wrap, At, ProducerInv, ConvertAll, Silence, WriterSlices, ReaderSlices, Slices.Slot, WriterInv, ReaderInv;
    match p.isr
    case IsrIdle =>
      var t := Extend(p.t, StartRead(1), p.t.ring.(r := ReaderSawReader(1, p.t.ring.reader)));
      step, p' := InterruptStarts(1), p.(t := t, isr := IsrStarted(1));
    case IsrStarted(length) =>
      step, p' := ReadSteps(p);
    case IsrCopying(length, occupancy, output) =>
      step, p' := ReadSteps(p);
    case IsrPadding(length, occupancy, output) =>
      var n := |output|;
      step := InterruptPads;
      p' := p.(isr := IsrWaking,
               done := p.done + [Callback(occupancy, n, output + Silence(length - n))],
               underruns := p.underruns + if n < length then 1 else 0);
    case IsrWaking =>
      step := InterruptSwaps;
      p' := p.(isr := if p.bit then IsrNotifying else IsrIdle, bit := false, swaps := p.swaps + 1);
    case IsrNotifying =>
      step := InterruptNotifies;
      p' := p.(isr := IsrIdle, notified := true);
  }

  lemma ReadSteps(p: Pipe) returns (step: PipeStep, p': Pipe)
    requires PipeInv(p) && p.t.ring.w.WriterIdle? && p.task != Refused && !Ready(p) && |p.t.ring.buffer| >= 2
    requires p.isr.IsrStarted? || p.isr.IsrCopying?
    ensures step.InterruptMoves? && PipeNext(p, step, p') && Closer(p', p)
  {
    hide Wrap, At, ProducerInv, ConvertAll, Silence, Heard;
    hide WriterSlices, ReaderSlices, Slices.Slot, WriterInv, ReaderInv;
    var r, t := ReaderProgress(p.t);
    step := InterruptMoves(r);
    match p.isr
    case IsrStarted(length) =>
      p' := p.(t := t, isr := IsrCopying(length, t.ring.r.slices.Len(), seq(|t.ring.r.out|, _ => SILENT_DMA)));
      ReadOffers(p.t, t);
    case IsrCopying(length, occupancy, output) =>
      if r.LoadElement? {
        var frame := p.t.ring.buffer[p.t.ring.r.slices.Slot(r.i)];
        p' := p.(t := t, isr := IsrCopying(length, occupancy, output[r.i := ToDma(frame)]));
      } else {
        p' := p.(t := t, isr := IsrPadding(length, occupancy, output));
      }
  }

  lemma NextStepTowardsEnd(p: Pipe) returns (step: PipeStep, p': Pipe)
    requires PipeInv(p) && RefusalInv(p) && p.data != [] && |p.t.ring.buffer| >= 2
    ensures PipeNext(p, step, p') && Closer(p', p) && Unaided(step)
  {
    hide PipeInv, RefusalInv, PipeNext, Closer, Ready;
    if !p.t.ring.w.WriterIdle? {
      step, p' := PollSteps(p);
    } else if p.task == Refused || Ready(p) {
      step, p' := TaskSteps(p);
    } else {
      step, p' := InterruptSteps(p);
    }
  }

  /** Not a new write, nor a notification from elsewhere. */
  predicate Unaided(step: PipeStep) {
    !step.Submit? && !step.Spurious? && !step.WaitsElsewhere?
  }

  /** Steps from `p` on. */
  ghost predicate IsPath(p: Pipe, path: seq<Pipe>, steps: seq<PipeStep>) {
    && |path| == |steps| + 1 && path[0] == p
    && (forall i | 0 <= i < |steps| :: PipeNext(path[i], steps[i], path[i + 1]) && Unaided(steps[i]))
  }

  lemma PipePathLonger(p: Pipe, step: PipeStep, p': Pipe, path: seq<Pipe>, steps: seq<PipeStep>)
    requires PipeNext(p, step, p') && Unaided(step) && IsPath(p', path, steps)
    ensures IsPath(p, [p] + path, [step] + steps)
  {
    hide PipeNext, Unaided;
    forall i | 0 <= i < |steps| + 1
      ensures PipeNext(([p] + path)[i], ([step] + steps)[i], ([p] + path)[i + 1]) && Unaided(([step] + steps)[i])
    {
      if i > 0 {
        assert PipeNext(path[i - 1], steps[i - 1], path[i]);
      }
    }
  }

  lemma {:induction false} DataCanDrain(p: Pipe) returns (path: seq<Pipe>, steps: seq<PipeStep>)
    requires PipeInv(p) && RefusalInv(p) && |p.t.ring.buffer| >= 2
    ensures IsPath(p, path, steps)
    ensures path[|steps|].data == [] && path[|steps|].t.written == p.t.written + p.data
    decreases |p.data|, Rank(p), Stage(p), WriterPhase(p), Unstored(p.t.ring.w), Unloaded(p.t.ring.r)
  {
    hide PipeInv, RefusalInv, PipeNext, Ready, Stage, Rank, WriterPhase, Unstored, Unloaded, Unaided;
    if p.data == [] {
      path, steps := [p], [];
      assert p.t.written + p.data == p.t.written;
    } else {
      var step, p' := NextStepTowardsEnd(p);
      PipeKeepsInv(p, step, p');
      RefusalKept(p, step, p');
      LeftToWrite(p, step, p');
      path, steps := DataCanDrain(p');
      PipePathLonger(p, step, p', path, steps);
      path, steps := [p] + path, [step] + steps;
    }
  }

  /**
   From every reachable state the write under way can finish, woken by no more
   than the interrupts: its remaining frames all go into the ring, in order.
   */
  lemma WriteCanFinish(run: seq<Pipe>, steps: seq<PipeStep>) returns (run': seq<Pipe>, steps': seq<PipeStep>)
    requires IsPipeRun(run, steps) && |run[0].t.ring.buffer| >= 2
    ensures IsPipeRun(run', steps') && run <= run' && steps <= steps'
    ensures forall k | |steps| <= k < |steps'| :: Unaided(steps'[k])
    ensures run'[|steps'|].data == [] && run'[|steps'|].t.written == run[|steps|].t.written + run[|steps|].data
  {
    hide PipeInv, RefusalInv, PipeNext, PipeInit, Unaided;
    RefusalHolds(run, steps, |steps|);
    RunInv(run, steps, |steps|);
    var path, more := DataCanDrain(run[|steps|]);
    run', steps' := run + path[1..], steps + more;
    forall i | 0 <= i < |steps'|
      ensures PipeNext(run'[i], steps'[i], run'[i + 1])
    {
      if i >= |steps| {
        assert PipeNext(path[i - |steps|], more[i - |steps|], path[i - |steps| + 1]);
      }
    }
  }

  /**
   Neither side has to wait for the other to begin: an interrupt of any length
   can start when none is under way, a task with frames left can poll, one
   refused can register, and one notified can wake.
   */
  lemma NobodyWaitsToBegin(run: seq<Pipe>, steps: seq<PipeStep>, length: nat)
    returns (step: PipeStep, task: Pipe, interrupt: Pipe)
    requires IsPipeRun(run, steps)
    ensures var p := run[|steps|];
            p.isr.IsrIdle? ==> PipeNext(p, InterruptStarts(length), interrupt) && interrupt.isr == IsrStarted(length)
    ensures var p := run[|steps|];
            && (p.task == Active && p.data != [] && p.t.ring.w.WriterIdle? ==>
                  step == WriterMoves(StartWrite(p.data)) && PipeNext(p, step, task))
            && (p.task == Refused ==> step == Registers && PipeNext(p, step, task) && task.task == Asleep && task.bit)
            && (p.task == Asleep && p.notified ==> step == WakesUp && PipeNext(p, step, task) && task.task == Active)
  {
    hide Wrap, At, Heard, ProducerInv, WriterInv, ReaderInv, PipeInit, SleepInv;
    hide ConvertAll, Silence, WriterSlices, ReaderSlices, Slices.Slot;
    RunInv(run, steps, |steps|);
    var p := run[|steps|];
    step, task, interrupt := Spurious, p, p;
    if p.isr.IsrIdle? {
      var t := Extend(p.t, StartRead(length), p.t.ring.(r := ReaderSawReader(length, p.t.ring.reader)));
      interrupt := p.(t := t, isr := IsrStarted(length));
    }
    if p.task == Refused {
      step, task := Registers, p.(bit := true, task := Asleep, since := p.swaps);
    } else if p.task == Asleep && p.notified {
      step, task := WakesUp, p.(notified := false, task := Active);
    } else if p.task == Active && p.data != [] && p.t.ring.w.WriterIdle? {
      step := WriterMoves(StartWrite(p.data));
      task := p.(t := Extend(p.t, step.w, p.t.ring.(w := WriterSawReader(p.data, p.t.ring.reader))));
    }
  }

  lemma LeftToWrite(p: Pipe, step: PipeStep, p': Pipe)
    requires PipeInv(p) && PipeNext(p, step, p') && Unaided(step)
    ensures p'.t.written + p'.data == p.t.written + p.data
  {
    hide PipeInv;
    if step == WriterMoves(PublishWrite) {
      PollEnds(p, p');
      var data := p.t.ring.w.data;
      assert p.data == data + p.data[|data|..] by { CopiesItsData(p); }
    } else {
      hide RingStep, Silence;
    }
  }

  lemma CopiesItsData(p: Pipe)
    requires PipeInv(p) && p.t.ring.w.WriterCopying?
    ensures p.t.ring.w.data <= p.data
  {
    hide Inv, IsrInv, SleepInv, Published;
  }
}
