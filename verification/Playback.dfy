/**
 From arriving packets to the DAC's output words: the playback loop takes a
 packet from the jitter buffer, converts it and writes it out, while packets
 keep arriving and the interrupt keeps running.
 */
module Playback {
  import opened Options
  import opened PacketQueue
  import opened PacketHistory
  import opened Samples
  import opened Dac
  import opened DacPipeline
  import Residues
  import RingConcurrent

  /** How many frames a packet has, and its samples as float bits, left and right by turns. */
  datatype Format = Format(frames: nat, samples: Packet -> seq<u32>) {
    ghost predicate Valid() {
      forall packet :: |samples(packet)| == 2 * frames
    }
  }

  function FramesOf(samples: seq<u32>): (frames: seq<Frame>)
    ensures |frames| == |samples| / 2
  {
    seq(|samples| / 2,
        i requires 0 <= i < |samples| / 2 => Frame(Convint8(samples[2 * i]), Convint8(samples[2 * i + 1])))
  }

  /** The loop that converts one packet into the frame buffer. */
  method FillBuffer(samples: seq<u32>, buff: array<Frame>)
    requires |samples| == 2 * buff.Length
    modifies buff
    ensures buff[..] == FramesOf(samples)
  {
    hide Convint8;
    for i := 0 to buff.Length
      invariant forall j | 0 <= j < i :: buff[j] == Frame(Convint8(samples[2 * j]), Convint8(samples[2 * j + 1]))
    {
      buff[i] := Frame(Convint8(samples[2 * i]), Convint8(samples[2 * i + 1]));
    }
  }

  /** What is written for the outcome of a pop: the packet, or as much of zeros. */
  ghost function Converted(format: Format, packet: Option<Packet>): seq<Frame> {
    FramesOf(if packet.Some? then format.samples(packet.value) else seq(2 * format.frames, _ => 0))
  }

  ghost function Played(format: Format, outputs: seq<Option<Packet>>): seq<Frame> {
    if outputs == [] then [] else
    Played(format, outputs[..|outputs| - 1]) + Converted(format, outputs[|outputs| - 1])
  }

  /**
   `ops` is the history of the jitter buffer in the order its mutex gives the
   accesses, and `held` the frames converted but not yet written.
   */
  datatype Player = Player(ops: seq<Op>, held: Option<seq<Frame>>, pipe: Pipe)

  datatype PlayerStep =
    | Arrives(packet: Packet)
    | Pops
    | Writes
    | Outputs(step: PipeStep)

  ghost predicate PlayerInit(s: Player) {
    s.ops == [] && s.held == None && PipeInit(s.pipe)
  }

  ghost predicate PlayerNext(format: Format, start: nat, s: Player, step: PlayerStep, s': Player) {
    match step
    case Arrives(packet) =>
      s' == s.(ops := s.ops + [Arrive(packet)])
    case Pops =>
      s.held == None && s.pipe.data == [] &&
      s' == s.(ops := s.ops + [Take], held := Some(Converted(format, Popped(Run(start, s.ops)))))
    case Writes =>
      s.held.Some? && PipeNext(s.pipe, Submit(s.held.value), s'.pipe) &&
      s' == s.(held := None, pipe := s'.pipe)
    case Outputs(step) =>
      !step.Submit? && PipeNext(s.pipe, step, s'.pipe) && s' == s.(pipe := s'.pipe)
  }

  /** All that has been popped has been submitted, or is held. */
  ghost predicate PlayerInv(format: Format, start: nat, s: Player) {
    && PipeInv(s.pipe)
    && Played(format, PacketHistory.Outputs(start, s.ops))
       == s.pipe.submitted + if s.held.Some? then s.held.value else []
  }

  lemma PlayedNext(format: Format, outputs: seq<Option<Packet>>, packet: Option<Packet>)
    ensures Played(format, outputs + [packet]) == Played(format, outputs) + Converted(format, packet)
  {
    assert (outputs + [packet])[..|outputs|] == outputs;
  }

  lemma OnlySubmitSubmits(p: Pipe, step: PipeStep, p': Pipe)
    requires PipeNext(p, step, p')
    ensures p'.submitted == p.submitted + if step.Submit? then step.frames else []
  {
    hide RingConcurrent.RingStep, RingConcurrent.Next, Silence;
  }

  lemma PlayerKeepsInv(format: Format, start: nat, s: Player, step: PlayerStep, s': Player)
    requires PlayerInv(format, start, s) && PlayerNext(format, start, s, step, s')
    ensures PlayerInv(format, start, s') && |s'.pipe.t.ring.buffer| == |s.pipe.t.ring.buffer|
  {
    hide PipeInv, PipeNext, Run, Played, Converted, Popped, PacketHistory.Outputs;
    match step
    case Arrives(packet) =>
      OutputsNext(start, s.ops, Arrive(packet));
      assert PacketHistory.Outputs(start, s'.ops) == PacketHistory.Outputs(start, s.ops);
    case Pops =>
      OutputsNext(start, s.ops, Take);
      PlayedNext(format, PacketHistory.Outputs(start, s.ops), Popped(Run(start, s.ops)));
    case Writes =>
      OnlySubmitSubmits(s.pipe, Submit(s.held.value), s'.pipe);
      PipeKeepsInv(s.pipe, Submit(s.held.value), s'.pipe);
    case Outputs(step) =>
      OnlySubmitSubmits(s.pipe, step, s'.pipe);
      PipeKeepsInv(s.pipe, step, s'.pipe);
  }

  ghost predicate IsPlayerRun(format: Format, start: nat, run: seq<Player>, steps: seq<PlayerStep>) {
    && |run| == |steps| + 1 && PlayerInit(run[0])
    && (forall i | 0 <= i < |steps| :: PlayerNext(format, start, run[i], steps[i], run[i + 1]))
  }

  lemma {:induction false} PlayerRunInv(format: Format, start: nat, run: seq<Player>, steps: seq<PlayerStep>, i: nat)
    requires IsPlayerRun(format, start, run, steps) && i < |run|
    ensures PlayerInv(format, start, run[i]) && |run[i].pipe.t.ring.buffer| == |run[0].pipe.t.ring.buffer| > 0
  {
    hide PipeInv, PlayerNext;
    if i == 0 {
      PipeInitInv(run[0].pipe);
    } else {
      PlayerRunInv(format, start, run, steps, i - 1);
      hide PlayerInv;
      PlayerKeepsInv(format, start, run[i - 1], steps[i - 1], run[i]);
    }
  }

  /** At any time, the output less padding is a prefix of silence and what has been submitted. */
  lemma HeardIsPrefix(p: Pipe)
    requires PipeInv(p)
    ensures |p.t.ring.buffer| > 0
    ensures Heard(p.done) <= ConvertAll(SilentFrames(|p.t.ring.buffer| - 1) + p.submitted)
  {
    hide Residues.Wrap, Silence;
    ConvertPrefix(p.t.consumed, p.t.written);
    var all := SilentFrames(|p.t.ring.buffer| - 1) + p.submitted;
    assert p.t.written <= all;
    ConvertPrefix(p.t.written, all);
  }

  /**
   End to end: in every run, the output words less padding are a prefix of the
   initial silence, converted, followed by the conversion of what was popped.
   */
  lemma OutputFollowsPops(format: Format, start: nat, run: seq<Player>, steps: seq<PlayerStep>)
    requires IsPlayerRun(format, start, run, steps)
    ensures |run[0].pipe.t.ring.buffer| > 0
    ensures var s := run[|steps|];
            var silence := SilentFrames(|run[0].pipe.t.ring.buffer| - 1);
            Heard(s.pipe.done) <= ConvertAll(silence + Played(format, PacketHistory.Outputs(start, s.ops)))
  {
    hide PipeInv, Played, Heard, PlayerNext;
    PlayerRunInv(format, start, run, steps, |steps|);
    var p := run[|steps|].pipe;
    HeardIsPrefix(p);
    var silence := SilentFrames(|p.t.ring.buffer| - 1);
    var held := if run[|steps|].held.Some? then run[|steps|].held.value else [];
    assert silence + (p.submitted + held) == (silence + p.submitted) + held;
    ConvertPrefix(silence + p.submitted, silence + p.submitted + held);
  }

  // ----- what the steps of a run amount to -----

  /** What a step does to the jitter buffer. */
  function OpsOf(step: PlayerStep): seq<Op> {
    match step
    case Arrives(packet) => [Arrive(packet)]
    case Pops => [Take]
    case _ => []
  }

  /** The arrivals and pops among the steps, in order. */
  ghost function OpsTold(steps: seq<PlayerStep>): seq<Op> {
    if steps == [] then [] else OpsTold(steps[..|steps| - 1]) + OpsOf(steps[|steps| - 1])
  }

  ghost function WritesIn(steps: seq<PlayerStep>): nat {
    if steps == [] then 0 else
    WritesIn(steps[..|steps| - 1]) + if steps[|steps| - 1].Writes? then 1 else 0
  }

  ghost predicate ToldInv(s: Player, steps: seq<PlayerStep>) {
    && s.ops == OpsTold(steps)
    && PacketHistory.Pops(s.ops) == WritesIn(steps) + if s.held.Some? then 1 else 0
  }

  lemma HistoryNext(steps: seq<PlayerStep>, step: PlayerStep)
    ensures OpsTold(steps + [step]) == OpsTold(steps) + OpsOf(step)
    ensures WritesIn(steps + [step]) == WritesIn(steps) + if step.Writes? then 1 else 0
  {
    assert (steps + [step])[..|steps|] == steps;
  }

  lemma ToldNext(format: Format, start: nat, s: Player, steps: seq<PlayerStep>, step: PlayerStep, s': Player)
    requires ToldInv(s, steps) && PlayerNext(format, start, s, step, s')
    ensures ToldInv(s', steps + [step])
  {
    HistoryNext(steps, step);
    PopsNext(s.ops, OpsOf(step));
    hide OpsTold, WritesIn, PipeNext, Run, Converted, Popped, PacketHistory.Pops;
  }

  lemma {:induction false} StepsTell(format: Format, start: nat, run: seq<Player>, steps: seq<PlayerStep>, i: nat)
    requires IsPlayerRun(format, start, run, steps) && i < |run|
    ensures ToldInv(run[i], steps[..i])
  {
    hide PlayerNext, PipeInit;
    if i > 0 {
      StepsTell(format, start, run, steps, i - 1);
      hide ToldInv;
      ToldNext(format, start, run[i - 1], steps[..i - 1], steps[i - 1], run[i]);
      assert steps[..i] == steps[..i - 1] + [steps[i - 1]];
    }
  }

  /**
   The jitter buffer has seen just the arrivals and pops that were taken, in
   order, and all that was popped has been handed to `write`, packet after
   packet, but for the one still held when there was one more pop than writes.
   */
  lemma SubmittedIsPopped(format: Format, start: nat, run: seq<Player>, steps: seq<PlayerStep>)
    requires IsPlayerRun(format, start, run, steps)
    ensures var s := run[|steps|];
            && s.ops == OpsTold(steps)
            && PacketHistory.Pops(s.ops) == WritesIn(steps) + (if s.held.Some? then 1 else 0)
            && Played(format, PacketHistory.Outputs(start, OpsTold(steps)))
               == s.pipe.submitted + if s.held.Some? then s.held.value else []
  {
    hide PlayerNext, PipeInv;
    assert steps[..|steps|] == steps;
    StepsTell(format, start, run, steps, |steps|);
    PlayerRunInv(format, start, run, steps, |steps|);
  }

  lemma {:induction false} PlayerRefusal(format: Format, start: nat, run: seq<Player>, steps: seq<PlayerStep>, i: nat)
    requires IsPlayerRun(format, start, run, steps) && i < |run|
    ensures RefusalInv(run[i].pipe) && (run[i].held.Some? ==> run[i].pipe.data == [])
  {
    hide PipeInv, PipeNext, RefusalInv, Converted, Popped, Run;
    if i == 0 {
      InitNotRefused(run[0].pipe);
    } else {
      PlayerRefusal(format, start, run, steps, i - 1);
      PlayerRunInv(format, start, run, steps, i - 1);
      assert PlayerNext(format, start, run[i - 1], steps[i - 1], run[i]);
      match steps[i - 1]
      case Writes =>
        RefusalKept(run[i - 1].pipe, Submit(run[i - 1].held.value), run[i].pipe);
      case Outputs(step) =>
        RefusalKept(run[i - 1].pipe, step, run[i].pipe);
        if run[i - 1].pipe.data == [] {
          DataStaysGone(run[i - 1].pipe, step, run[i].pipe);
        }
      case _ =>
    }
  }

  lemma InitNotRefused(p: Pipe)
    requires PipeInit(p)
    ensures RefusalInv(p)
  {
    hide SilentFrames;
  }

  lemma DataStaysGone(p: Pipe, step: PipeStep, p': Pipe)
    requires PipeNext(p, step, p') && !step.Submit? && p.data == []
    ensures p'.data == []
  {
    hide RingConcurrent.RingStep, RingConcurrent.Next, Silence;
  }

  /** The loop is never stuck: with a packet converted it can write it, and with nothing left to write it can pop. */
  lemma LoopGoesOn(format: Format, start: nat, run: seq<Player>, steps: seq<PlayerStep>)
    returns (step: PlayerStep, s': Player)
    requires IsPlayerRun(format, start, run, steps)
    requires run[|steps|].held.Some? || run[|steps|].pipe.data == []
    ensures PlayerNext(format, start, run[|steps|], step, s')
    ensures if run[|steps|].held.Some?
            then step == Writes && s'.held == None && s'.pipe.data == run[|steps|].held.value
            else step == Pops && s'.ops == run[|steps|].ops + [Take] && s'.held.Some?
  {
    hide PipeInit, PlayerInv, Converted, Popped, Run;
    var s := run[|steps|];
    PlayerRefusal(format, start, run, steps, |steps|);
    if s.held.Some? {
      var frames := s.held.value;
      step := Writes;
      s' := s.(held := None, pipe := s.pipe.(submitted := s.pipe.submitted + frames, data := frames));
    } else {
      step := Pops;
      s' := s.(ops := s.ops + [Take], held := Some(Converted(format, Popped(Run(start, s.ops)))));
    }
  }

  lemma OutputsStep(format: Format, start: nat, s: Player, p: Pipe, step: PipeStep, p': Pipe)
    requires PipeNext(p, step, p') && Unaided(step)
    ensures PlayerNext(format, start, s.(pipe := p), PlayerStep.Outputs(step), s.(pipe := p'))
  {
    hide PipeNext;
  }

  /** The player's part in steps of the output path. */
  lemma PathIsPlayed(format: Format, start: nat, run: seq<Player>, steps: seq<PlayerStep>,
                     path: seq<Pipe>, more: seq<PipeStep>)
    returns (run': seq<Player>, steps': seq<PlayerStep>)
    requires IsPlayerRun(format, start, run, steps) && IsPath(run[|steps|].pipe, path, more)
    ensures IsPlayerRun(format, start, run', steps') && run <= run' && steps <= steps'
    ensures forall k | |steps| <= k < |steps'| :: steps'[k].Outputs?
    ensures run'[|steps'|] == run[|steps|].(pipe := path[|more|])
  {
    var s := run[|steps|];
    hide PlayerInit, PlayerNext, PipeNext, Unaided;
    run' := run + seq(|more|, i requires 0 <= i < |more| => s.(pipe := path[i + 1]));
    steps' := steps + seq(|more|, i requires 0 <= i < |more| => PlayerStep.Outputs(more[i]));
    forall k | 0 <= k < |steps'|
      ensures PlayerNext(format, start, run'[k], steps'[k], run'[k + 1])
    {
      if k >= |steps| {
        assert run'[k] == s.(pipe := path[k - |steps|]);
        OutputsStep(format, start, s, path[k - |steps|], more[k - |steps|], path[k - |steps| + 1]);
      }
    }
  }

  /**
   From every reachable state playback can go on to its next pop: what is held
   is written, all that is being written gets into the ring by interrupts and
   wakes alone, and then the next packet is taken.
   */
  lemma NextPopCanCome(format: Format, start: nat, run: seq<Player>, steps: seq<PlayerStep>)
    returns (run': seq<Player>, steps': seq<PlayerStep>)
    requires IsPlayerRun(format, start, run, steps) && |run[0].pipe.t.ring.buffer| >= 2
    ensures IsPlayerRun(format, start, run', steps') && run <= run' && steps <= steps' && |steps| < |steps'|
    ensures forall k | |steps| <= k < |steps'| - 1 :: steps'[k].Writes? || steps'[k].Outputs?
    ensures steps'[|steps'| - 1] == Pops && run'[|steps'|].ops == run[|steps|].ops + [Take]
  {
    hide PlayerNext, PipeInv, RefusalInv, IsPath, PipeNext;
    run', steps' := run, steps;
    if run[|steps|].held.Some? {
      var step, s' := LoopGoesOn(format, start, run, steps);
      run', steps' := PlayerRunLonger(format, start, run, steps, step, s');
      WritingPopsNothing(format, start, run[|steps|], s');
    }
    PlayerRunInv(format, start, run', steps', |steps'|);
    PlayerRefusal(format, start, run', steps', |steps'|);
    InvPart(format, start, run'[|steps'|]);
    var path, more := DataCanDrain(run'[|steps'|].pipe);
    run', steps' := PathIsPlayed(format, start, run', steps', path, more);
    var step, s' := LoopGoesOn(format, start, run', steps');
    run', steps' := PlayerRunLonger(format, start, run', steps', step, s');
  }

  lemma InvPart(format: Format, start: nat, s: Player)
    requires PlayerInv(format, start, s)
    ensures PipeInv(s.pipe)
  {
  }

  lemma WritingPopsNothing(format: Format, start: nat, s: Player, s': Player)
    requires PlayerNext(format, start, s, Writes, s')
    ensures s'.ops == s.ops && s'.held == None
  {
  }

  lemma PlayerRunLonger(format: Format, start: nat, run: seq<Player>, steps: seq<PlayerStep>,
                        step: PlayerStep, s': Player)
    returns (run': seq<Player>, steps': seq<PlayerStep>)
    requires IsPlayerRun(format, start, run, steps) && PlayerNext(format, start, run[|steps|], step, s')
    ensures run' == run + [s'] && steps' == steps + [step] && IsPlayerRun(format, start, run', steps')
  {
    hide PlayerNext, PlayerInit;
    run', steps' := run + [s'], steps + [step];
    forall i | 0 <= i < |steps'|
      ensures PlayerNext(format, start, run'[i], steps'[i], run'[i + 1])
    {
      if i < |steps| {
        assert PlayerNext(format, start, run[i], steps[i], run[i + 1]);
      }
    }
  }

  /** The k-th pop's frames stand after those of the k pops before it. */
  lemma {:induction false} PlayedAt(format: Format, outputs: seq<Option<Packet>>, k: nat, i: nat)
    requires format.Valid() && k < |outputs| && i < format.frames
    ensures |Played(format, outputs)| == |outputs| * format.frames
    ensures |Converted(format, outputs[k])| == format.frames
    ensures 0 <= k * format.frames + i < |Played(format, outputs)|
    ensures Played(format, outputs)[k * format.frames + i] == Converted(format, outputs[k])[i]
    decreases |outputs|
  {
    hide FramesOf;
    var n := |outputs| - 1;
    ConvertedLength(format, outputs[k]);
    ConvertedLength(format, outputs[n]);
    assert (n + 1) * format.frames == n * format.frames + format.frames;
    if n > 0 {
      PlayedAt(format, outputs[..n], if k < n then k else 0, i);
    }
  }

  lemma ConvertedLength(format: Format, packet: Option<Packet>)
    requires format.Valid()
    ensures |Converted(format, packet)| == format.frames
  {
  }

  /** What the i-th output word of position k is to be. */
  ghost function Word(format: Format, packet: Option<Packet>, i: nat): DmaFrame
    requires format.Valid() && i < format.frames
  {
    if packet.None? then SILENT_DMA else
    var samples := format.samples(packet.value);
    ToDma(Frame(Convint8(samples[2 * i]), Convint8(samples[2 * i + 1])))
  }

  lemma ConvertedWord(format: Format, packet: Option<Packet>, i: nat)
    requires format.Valid() && i < format.frames
    ensures |Converted(format, packet)| == format.frames
    ensures ToDma(Converted(format, packet)[i]) == Word(format, packet, i)
  {
    hide Convint8, ToDma;
    ZeroIsSilent();
    assert packet.None? ==> Converted(format, packet)[i] == Frame(Convint8(0), Convint8(0));
  }

  lemma ZeroIsSilent()
    ensures ToDma(Frame(Convint8(0), Convint8(0))) == SILENT_DMA
  {
    hide Normal, Sign, WrapI8;
    assert Exp(0) == 0 && Frac(0) == 0;
  }

  /**
   End to end, word by word: after the initial silence, the words of position k
   are the samples of the first packet that claimed the k-th pop, left and
   right converted, or silence if none did.
   */
  lemma EveryWordPlayed(format: Format, start: nat, run: seq<Player>, steps: seq<PlayerStep>, k: nat, i: nat)
    requires format.Valid() && IsPlayerRun(format, start, run, steps)
    requires i < format.frames && k < PacketHistory.Pops(run[|steps|].ops)
    ensures |run[0].pipe.t.ring.buffer| > 0
    ensures var s := run[|steps|];
            var silence := |run[0].pipe.t.ring.buffer| - 1;
            var heard := Heard(s.pipe.done);
            && |heard| <= silence + PacketHistory.Pops(s.ops) * format.frames
            && (forall n | 0 <= n < silence && n < |heard| :: heard[n] == SILENT_DMA)
            && (silence + k * format.frames + i < |heard| ==>
                  heard[silence + k * format.frames + i] == Word(format, Won(start, s.ops, k), i))
  {
    hide Heard, Played, Word, Converted, Won, PlayerNext, PipeInit, PacketHistory.Outputs, PacketHistory.Pops, Run;
    OutputFollowsPops(format, start, run, steps);
    var s := run[|steps|];
    HistoryHolds(start, s.ops);
    var outputs := PacketHistory.Outputs(start, s.ops);
    PlayedAt(format, outputs, k, i);
    ConvertedWord(format, outputs[k], i);
    assert outputs[k] == Won(start, s.ops, k);
  }
}
