/**
 The ring buffer shared by one writer and one reader that interleave freely.

 Every index load, every element copy and every index store is a step of its
 own, so each side works from snapshots that the other side may have outdated.
 Acquire/release ordering is taken to give interleaving semantics.
 */
module RingConcurrent {
  import opened Residues
  import opened RingBuffer

  /** Where a `write` call stands. `stored` are the elements already copied, in any order. */
  datatype Writer<T> =
    | WriterIdle
    | WriterSawReader(wanted: seq<T>, reader: nat)
    | WriterCopying(slices: Slices, data: seq<T>, stored: set<nat>)

  /**
   Where a `read_in_place` call stands. `out` is where the elements are copied
   to, holding anything at first, and `loaded` says which are there, in any order.
   */
  datatype Reader<T> =
    | ReaderIdle
    | ReaderSawReader(room: nat, reader: nat)
    | ReaderCopying(slices: Slices, out: seq<T>, loaded: set<nat>)

  /** The shared memory and both program counters. */
  datatype Ring<T> = Ring(buffer: seq<T>, reader: nat, writer: nat, w: Writer<T>, r: Reader<T>) {
    ghost predicate InBounds() {
      reader < |buffer| && writer < |buffer|
    }
  }

  datatype Step<T> =
    | StartWrite(wanted: seq<T>)
    | LoadWriterForWrite
    | StoreElement(i: nat)
    | PublishWrite
    | StartRead(room: nat)
    | LoadWriterForRead
    | LoadElement(i: nat)
    | PublishRead

  /** One step of either side, as the code takes it. */
  ghost predicate RingStep<T>(s: Ring<T>, step: Step<T>, s': Ring<T>)
    requires s.InBounds()
  {
    var n := |s.buffer|;
    match step
    case StartWrite(wanted) =>
      s.w.WriterIdle? && s' == s.(w := WriterSawReader(wanted, s.reader))
    case LoadWriterForWrite =>
      s.w.WriterSawReader? && s.w.reader < n &&
      var slices := WriterSlices(n, s.writer, s.w.reader);
      var count := Accepted(|s.w.wanted|, slices.Len());
      s' == s.(w := WriterCopying(slices, s.w.wanted[..count], {}))
    case StoreElement(i) =>
      s.w.WriterCopying? && i < |s.w.data| && i !in s.w.stored && s.w.slices.Slot(i) < n &&
      s' == s.(buffer := s.buffer[s.w.slices.Slot(i) := s.w.data[i]], w := s.w.(stored := s.w.stored + {i}))
    case PublishWrite =>
      s.w.WriterCopying? && (forall i | 0 <= i < |s.w.data| :: i in s.w.stored) &&
      s' == s.(writer := Wrap(s.w.slices.start + |s.w.data|, n), w := WriterIdle)
    case StartRead(room) =>
      s.r.ReaderIdle? && s' == s.(r := ReaderSawReader(room, s.reader))
    case LoadWriterForRead =>
      s.r.ReaderSawReader? && s.r.reader < n &&
      var slices := ReaderSlices(n, s.r.reader, s.writer);
      s'.r.ReaderCopying? && |s'.r.out| == Min(s.r.room, slices.Len()) &&
      s' == s.(r := ReaderCopying(slices, s'.r.out, {}))
    case LoadElement(i) =>
      s.r.ReaderCopying? && i < |s.r.out| && i !in s.r.loaded && s.r.slices.Slot(i) < n &&
      s' == s.(r := s.r.(out := s.r.out[i := s.buffer[s.r.slices.Slot(i)]], loaded := s.r.loaded + {i}))
    case PublishRead =>
      s.r.ReaderCopying? && (forall i | 0 <= i < |s.r.out| :: i in s.r.loaded) &&
      s' == s.(reader := Wrap(s.r.slices.start + |s.r.out|, n), r := ReaderIdle)
  }

  /**
   The ring with its history: everything published by writes (after the initial
   contents) and everything consumed by reads, which only the two index stores
   extend; and how much of each had been published when the other side looked.
   */
  datatype Tracked<T> = Tracked(ring: Ring<T>, written: seq<T>, consumed: seq<T>, freed: nat, seen: nat)

  ghost predicate Next<T>(t: Tracked<T>, step: Step<T>, t': Tracked<T>) {
    && t.ring.InBounds()
    && RingStep(t.ring, step, t'.ring)
    && t'.written == t.written + (if step.PublishWrite? then t.ring.w.data else [])
    && t'.consumed == t.consumed + (if step.PublishRead? then t.ring.r.out else [])
    && t'.freed == (if step.StartWrite? then |t.consumed| else t.freed)
    && t'.seen == (if step.LoadWriterForRead? then |t.written| else t.seen)
  }

  /** A ring nobody is using, holding `contents` from index 0 on. */
  ghost predicate Fresh<T>(s: Ring<T>, contents: seq<T>) {
    && |contents| < |s.buffer|
    && s.reader == 0 && s.writer == |contents| && s.buffer[..|contents|] == contents
    && s.w == WriterIdle && s.r == ReaderIdle
  }

  ghost predicate Init<T>(t: Tracked<T>, contents: seq<T>) {
    Fresh(t.ring, contents) && t.written == contents && t.consumed == []
  }

  /** How far the writer may count: a lap past what it knows to be consumed, less the empty slot. */
  ghost predicate WriterInv<T>(t: Tracked<T>)
    requires t.ring.InBounds()
  {
    var n := |t.ring.buffer|;
    match t.ring.w
    case WriterIdle => true
    case WriterSawReader(_, reader) =>
      && t.freed <= |t.consumed| && |t.written| < t.freed + n
      && reader == Wrap(t.freed, n)
    case WriterCopying(slices, data, stored) =>
      && t.freed <= |t.consumed| && |t.written| + |data| < t.freed + n
      && slices == WriterSlices(n, t.ring.writer, Wrap(t.freed, n))
      && (forall i | i in stored :: i < |data| && At(t.ring.buffer, |t.written| + i) == data[i])
  }

  ghost predicate ReaderInv<T>(t: Tracked<T>)
    requires t.ring.InBounds()
  {
    var n := |t.ring.buffer|;
    match t.ring.r
    case ReaderIdle => true
    case ReaderSawReader(_, reader) => reader == t.ring.reader
    case ReaderCopying(slices, out, loaded) =>
      && |t.consumed| <= t.seen <= |t.written|
      && slices == ReaderSlices(n, t.ring.reader, Wrap(t.seen, n))
      && |out| <= t.seen - |t.consumed|
      && (forall i | i in loaded :: i < |out| && out[i] == t.written[|t.consumed| + i])
  }

  ghost predicate Inv<T>(t: Tracked<T>) {
    var n := |t.ring.buffer|;
    && t.ring.InBounds()
    && t.consumed <= t.written && |t.written| < |t.consumed| + n
    && t.ring.reader == Wrap(|t.consumed|, n)
    && t.ring.writer == Wrap(|t.written|, n)
    && (forall p | |t.consumed| <= p < |t.written| :: At(t.ring.buffer, p) == t.written[p])
    && WriterInv(t)
    && ReaderInv(t)
  }

  /** Indices that are the residues of two counters less than a lap apart measure their distance. */
  lemma SlicesOfCounters(n: nat, from: nat, to: nat, i: nat)
    requires from <= to < from + n
    ensures ReaderSlices(n, Wrap(from, n), Wrap(to, n)).Len() == to - from
    ensures WriterSlices(n, Wrap(to, n), Wrap(from, n)).Len() == n - (to - from)
    ensures i < to - from ==> ReaderSlices(n, Wrap(from, n), Wrap(to, n)).Slot(i) == Wrap(from + i, n)
    ensures i < n - (to - from) ==> WriterSlices(n, Wrap(to, n), Wrap(from, n)).Slot(i) == Wrap(to + i, n)
  {
    hide Wrap;
    StepResidue(from, to - from, n);
    SlotsFollowResidues(n, Wrap(from, n), Wrap(to, n), i);
    SlotsFollowResidues(n, Wrap(to, n), Wrap(from, n), i);
    if i < n {
      StepResidue(from, i, n);
      StepResidue(to, i, n);
      StepIndex(Wrap(from, n), i, n);
      StepIndex(Wrap(to, n), i, n);
    }
  }

  lemma InitInv<T>(t: Tracked<T>, contents: seq<T>)
    requires Init(t, contents)
    ensures Inv(t)
  {
    var n := |t.ring.buffer|;
    forall p | 0 <= p < |contents|
      ensures At(t.ring.buffer, p) == contents[p]
    {
      assert t.ring.buffer[..|contents|][p] == contents[p];
    }
  }

  /** A store at one position changes no other position less than a lap away. */
  lemma StoreElsewhere<T>(buffer: seq<T>, here: nat, x: T)
    requires |buffer| > 0
    ensures var after := buffer[Wrap(here, |buffer|) := x];
            && At(after, here) == x
            && (forall p: nat | p != here && here < p + |buffer| && p < here + |buffer| ::
                  At(after, p) == At(buffer, p))
  {
    hide Wrap;
    forall p: nat | p != here && here < p + |buffer| && p < here + |buffer|
      ensures At(buffer[Wrap(here, |buffer|) := x], p) == At(buffer, p)
    {
      if p < here {
        DistinctResidues(p, here, |buffer|);
      } else {
        DistinctResidues(here, p, |buffer|);
      }
    }
  }

  /** An element store goes to a slot outside everything the reader may still load. */
  lemma StoreKeepsInv<T>(t: Tracked<T>, i: nat, t': Tracked<T>)
    requires Inv(t) && Next(t, StoreElement(i), t')
    ensures Inv(t')
  {
    hide Wrap, At, WriterSlices, ReaderSlices, Slices.Slot;
    SlicesOfCounters(|t.ring.buffer|, t.freed, |t.written|, i);
    StoreElsewhere(t.ring.buffer, |t.written| + i, t.ring.w.data[i]);
  }

  /** An element load, in any order, sees the value last published for its position. */
  lemma LoadKeepsInv<T>(t: Tracked<T>, i: nat, t': Tracked<T>)
    requires Inv(t) && Next(t, LoadElement(i), t')
    ensures Inv(t')
  {
    hide Wrap;
    var p := |t.consumed| + i;
    assert t.ring.r.slices.Slot(i) == Wrap(p, |t.ring.buffer|) by {
      SlicesOfCounters(|t.ring.buffer|, |t.consumed|, t.seen, i);
    }
    assert At(t.ring.buffer, p) == t.written[p];
  }

  lemma PublishWriteKeepsInv<T>(t: Tracked<T>, t': Tracked<T>)
    requires Inv(t) && Next(t, PublishWrite, t')
    ensures Inv(t')
  {
    hide Wrap, At, ReaderSlices;
    var data := t.ring.w.data;
    NextIndex(|t.written|, |data|, |t.ring.buffer|);
    forall p | |t.consumed| <= p < |t.written| + |data|
      ensures At(t.ring.buffer, p) == (t.written + data)[p]
    {
      if p >= |t.written| {
        assert (p - |t.written|) in t.ring.w.stored;
        assert At(t.ring.buffer, |t.written| + (p - |t.written|)) == data[p - |t.written|];
      }
    }
  }

  /** A read about to finish has copied just the next published elements. */
  lemma OutIsNext<T>(t: Tracked<T>)
    requires Inv(t) && t.ring.r.ReaderCopying? && forall i | 0 <= i < |t.ring.r.out| :: i in t.ring.r.loaded
    ensures |t.consumed| + |t.ring.r.out| <= |t.written|
    ensures t.ring.r.out == t.written[|t.consumed|..|t.consumed| + |t.ring.r.out|]
  {
    hide Wrap, At;
  }

  lemma PublishReadKeepsInv<T>(t: Tracked<T>, t': Tracked<T>)
    requires Inv(t) && Next(t, PublishRead, t')
    ensures Inv(t')
  {
    hide Wrap, At, WriterSlices;
    NextIndex(|t.consumed|, |t.ring.r.out|, |t.ring.buffer|);
    OutIsNext(t);
    assert t'.consumed == t.written[..|t'.consumed|];
  }

  lemma NextIndex(counter: nat, step: nat, n: nat)
    requires step < n
    ensures Wrap(Wrap(counter, n) + step, n) == Wrap(counter + step, n)
  {
    hide Wrap;
    StepResidue(counter, step, n);
    StepIndex(Wrap(counter, n), step, n);
  }

  lemma LookKeepsInv<T>(t: Tracked<T>, step: Step<T>, t': Tracked<T>)
    requires Inv(t) && Next(t, step, t')
    requires step.StartWrite? || step.LoadWriterForWrite? || step.StartRead? || step.LoadWriterForRead?
    ensures Inv(t')
  {
    hide Wrap, At, Slices.Slot, WriterSlices, ReaderSlices;
    var n := |t.ring.buffer|;
    if step.LoadWriterForWrite? {
      SlicesOfCounters(n, t.freed, |t.written|, 0);
    } else if step.LoadWriterForRead? {
      SlicesOfCounters(n, |t.consumed|, |t.written|, 0);
    }
  }

  lemma NextKeepsInv<T>(t: Tracked<T>, step: Step<T>, t': Tracked<T>)
    requires Inv(t) && Next(t, step, t')
    ensures Inv(t')
  {
    hide Inv, Next;
    match step
    case StoreElement(i) => StoreKeepsInv(t, i, t');
    case LoadElement(i) => LoadKeepsInv(t, i, t');
    case PublishWrite => PublishWriteKeepsInv(t, t');
    case PublishRead => PublishReadKeepsInv(t, t');
    case _ => LookKeepsInv(t, step, t');
  }

  // ----- what the invariant says about one state -----

  /** The two-slice contents are what has been published and not consumed. */
  lemma LiveIsRemainder<T>(t: Tracked<T>)
    requires Inv(t)
    ensures Live(t.ring.buffer, t.ring.reader, t.ring.writer) == t.written[|t.consumed|..]
  {
    hide Wrap, Live, WriterInv, ReaderInv;
    var n := |t.ring.buffer|;
    var live := Live(t.ring.buffer, t.ring.reader, t.ring.writer);
    LiveAt(t.ring.buffer, t.ring.reader, t.ring.writer);
    SlicesOfCounters(n, |t.consumed|, |t.written|, 0);
    forall i | 0 <= i < |live|
      ensures live[i] == t.written[|t.consumed| + i]
    {
      SlicesOfCounters(n, |t.consumed|, |t.written|, i);
      SlotsFollowResidues(n, t.ring.reader, t.ring.writer, i);
      assert At(t.ring.buffer, |t.consumed| + i) == t.written[|t.consumed| + i];
    }
  }

  /** Whatever the snapshots' age, no slot a write stores to is one a read still loads from. */
  lemma InFlightSlotsDisjoint<T>(t: Tracked<T>, i: nat, j: nat)
    requires Inv(t) && t.ring.w.WriterCopying? && t.ring.r.ReaderCopying?
    requires i < |t.ring.w.data| && j < |t.ring.r.out|
    ensures t.ring.w.slices.Slot(i) != t.ring.r.slices.Slot(j)
  {
    hide Wrap;
    var n := |t.ring.buffer|;
    SlicesOfCounters(n, t.freed, |t.written|, i);
    SlicesOfCounters(n, |t.consumed|, t.seen, j);
    DistinctResidues(|t.consumed| + j, |t.written| + i, n);
  }

  /** `write` takes everything, or all that was free (one slot excepted) when it loaded the read index. */
  lemma WriteAccepts<T>(t: Tracked<T>, t': Tracked<T>)
    requires Inv(t) && Next(t, LoadWriterForWrite, t')
    ensures t'.ring.w.data == t.ring.w.wanted[..|t'.ring.w.data|]
    ensures |t'.ring.w.data| == Min(|t.ring.w.wanted|, |t.ring.buffer| - 1 - (|t.written| - t.freed))
    ensures t.freed <= |t.consumed| <= |t.written|
  {
    hide Wrap;
    SlicesOfCounters(|t.ring.buffer|, t.freed, |t.written|, 0);
  }

  /** A read takes everything published when it loaded the write index, or all it has room for. */
  lemma ReadOffers<T>(t: Tracked<T>, t': Tracked<T>)
    requires Inv(t) && Next(t, LoadWriterForRead, t')
    ensures |t'.ring.r.out| == Min(t.ring.r.room, |t.written| - |t.consumed|)
  {
    hide Wrap;
    SlicesOfCounters(|t.ring.buffer|, |t.consumed|, |t.written|, 0);
  }

  lemma WriterNeverStuck<T>(t: Tracked<T>) returns (step: Step<T>, s: Ring<T>)
    requires Inv(t) && !t.ring.w.WriterIdle?
    ensures (step.LoadWriterForWrite? || step.StoreElement? || step.PublishWrite?) && RingStep(t.ring, step, s)
  {
    hide Wrap, At, ReaderInv;
    var n := |t.ring.buffer|;
    match t.ring.w
    case WriterIdle =>
    case WriterSawReader(wanted, reader) =>
      step := LoadWriterForWrite;
      var slices := WriterSlices(n, t.ring.writer, reader);
      s := t.ring.(w := WriterCopying(slices, wanted[..Accepted(|wanted|, slices.Len())], {}));
    case WriterCopying(slices, data, stored) =>
      if i: nat :| i < |data| && i !in stored {
        SlicesOfCounters(n, t.freed, |t.written|, i);
        step := StoreElement(i);
        s := t.ring.(buffer := t.ring.buffer[slices.Slot(i) := data[i]], w := t.ring.w.(stored := stored + {i}));
      } else {
        step := PublishWrite;
        s := t.ring.(writer := Wrap(slices.start + |data|, n), w := WriterIdle);
      }
  }

  lemma ReaderNeverStuck<T>(t: Tracked<T>) returns (step: Step<T>, s: Ring<T>)
    requires Inv(t) && !t.ring.r.ReaderIdle?
    ensures (step.LoadWriterForRead? || step.LoadElement? || step.PublishRead?) && RingStep(t.ring, step, s)
  {
    hide Wrap, At, WriterInv;
    var n := |t.ring.buffer|;
    match t.ring.r
    case ReaderIdle =>
    case ReaderSawReader(room, reader) =>
      step := LoadWriterForRead;
      var slices := ReaderSlices(n, reader, t.ring.writer);
      s := t.ring.(r := ReaderCopying(slices, seq(Min(room, slices.Len()), _ => t.ring.buffer[0]), {}));
    case ReaderCopying(slices, out, loaded) =>
      if i: nat :| i < |out| && i !in loaded {
        SlicesOfCounters(n, |t.consumed|, t.seen, i);
        step := LoadElement(i);
        s := t.ring.(r := ReaderCopying(slices, out[i := t.ring.buffer[slices.Slot(i)]], loaded + {i}));
      } else {
        step := PublishRead;
        s := t.ring.(reader := Wrap(slices.start + |out|, n), r := ReaderIdle);
      }
  }

  /** Neither side ever waits for the other or indexes outside the array: each can always step on. */
  lemma SidesNeverStuck<T>(t: Tracked<T>) returns (wstep: Step<T>, rstep: Step<T>, s: Ring<T>, s': Ring<T>)
    requires Inv(t)
    ensures !t.ring.w.WriterIdle? ==>
              (wstep.LoadWriterForWrite? || wstep.StoreElement? || wstep.PublishWrite?) && RingStep(t.ring, wstep, s)
    ensures !t.ring.r.ReaderIdle? ==>
              (rstep.LoadWriterForRead? || rstep.LoadElement? || rstep.PublishRead?) && RingStep(t.ring, rstep, s')
  {
    InvInBounds(t);
    hide Inv, RingStep;
    wstep, rstep, s, s' := PublishWrite, PublishRead, t.ring, t.ring;
    if !t.ring.w.WriterIdle? {
      wstep, s := WriterNeverStuck(t);
    }
    if !t.ring.r.ReaderIdle? {
      rstep, s' := ReaderNeverStuck(t);
    }
  }

  // ----- calls in progress can finish -----

  ghost function Unstored<T>(w: Writer<T>): set<nat> {
    if w.WriterCopying? then set i: nat | i < |w.data| && i !in w.stored else {}
  }

  ghost function Unloaded<T>(r: Reader<T>): set<nat> {
    if r.ReaderCopying? then set i: nat | i < |r.out| && i !in r.loaded else {}
  }

  function Phase(idle: bool, copying: bool): nat {
    if idle then 0 else if copying then 1 else 2
  }

  lemma WriterProgress<T>(t: Tracked<T>) returns (step: Step<T>, t': Tracked<T>)
    requires Inv(t) && !t.ring.w.WriterIdle?
    ensures Next(t, step, t') && Inv(t') && t'.ring.r == t.ring.r
    ensures step.LoadWriterForWrite? || step.StoreElement? || step.PublishWrite?
    ensures step.PublishWrite? <==> t'.ring.w.WriterIdle?
    ensures var w, w' := t.ring.w, t'.ring.w;
            var phase, phase' := Phase(w.WriterIdle?, w.WriterCopying?), Phase(w'.WriterIdle?, w'.WriterCopying?);
            phase' < phase || (phase' == phase && Unstored(w') < Unstored(w))
  {
    InvInBounds(t);
    var s;
    step, s := WriterNeverStuck(t);
    t' := Extend(t, step, s);
    NextKeepsInv(t, step, t');
    hide Inv, Next, Wrap, WriterSlices;
    if step.StoreElement? {
      assert step.i in Unstored(t.ring.w);
    }
  }

  lemma ReaderProgress<T>(t: Tracked<T>) returns (step: Step<T>, t': Tracked<T>)
    requires Inv(t) && !t.ring.r.ReaderIdle?
    ensures Next(t, step, t') && Inv(t') && t'.ring.w == t.ring.w
    ensures step.LoadWriterForRead? || step.LoadElement? || step.PublishRead?
    ensures step.PublishRead? <==> t'.ring.r.ReaderIdle?
    ensures var r, r' := t.ring.r, t'.ring.r;
            var phase, phase' := Phase(r.ReaderIdle?, r.ReaderCopying?), Phase(r'.ReaderIdle?, r'.ReaderCopying?);
            phase' < phase || (phase' == phase && Unloaded(r') < Unloaded(r))
  {
    InvInBounds(t);
    var s;
    step, s := ReaderNeverStuck(t);
    t' := Extend(t, step, s);
    NextKeepsInv(t, step, t');
    hide Inv, Next, Wrap, ReaderSlices;
    if step.LoadElement? {
      assert step.i in Unloaded(t.ring.r);
    }
  }

  /** A history from `t` on. */
  ghost predicate IsPath<T>(t: Tracked<T>, ts: seq<Tracked<T>>, steps: seq<Step<T>>) {
    && |ts| == |steps| + 1 && ts[0] == t
    && (forall i | 0 <= i < |steps| :: Next(ts[i], steps[i], ts[i + 1]))
  }

  lemma PathLonger<T>(t: Tracked<T>, step: Step<T>, t': Tracked<T>, ts: seq<Tracked<T>>, steps: seq<Step<T>>)
    requires Next(t, step, t') && IsPath(t', ts, steps)
    ensures IsPath(t, [t] + ts, [step] + steps)
  {
    hide Next;
    forall i | 0 <= i < |steps| + 1
      ensures Next(([t] + ts)[i], ([step] + steps)[i], ([t] + ts)[i + 1])
    {
      if i > 0 {
        assert Next(ts[i - 1], steps[i - 1], ts[i]);
      }
    }
  }

  /** From any state a write in progress can run to its end by steps of its own. */
  lemma {:induction false} WriteCanFinish<T>(t: Tracked<T>) returns (ts: seq<Tracked<T>>, steps: seq<Step<T>>)
    requires Inv(t)
    ensures IsPath(t, ts, steps)
    ensures forall i | 0 <= i < |steps| - 1 :: steps[i].LoadWriterForWrite? || steps[i].StoreElement?
    ensures if t.ring.w.WriterIdle? then steps == [] else steps != [] && steps[|steps| - 1].PublishWrite?
    ensures ts[|steps|].ring.w.WriterIdle? && ts[|steps|].ring.r == t.ring.r && Inv(ts[|steps|])
    decreases Phase(t.ring.w.WriterIdle?, t.ring.w.WriterCopying?), Unstored(t.ring.w)
  {
    hide Inv, Next, Phase, Unstored, Unloaded;
    if t.ring.w.WriterIdle? {
      ts, steps := [t], [];
    } else {
      var step, t' := WriterProgress(t);
      ts, steps := WriteCanFinish(t');
      PathLonger(t, step, t', ts, steps);
      ts, steps := [t] + ts, [step] + steps;
    }
  }

  /** So can a read. */
  lemma {:induction false} ReadCanFinish<T>(t: Tracked<T>) returns (ts: seq<Tracked<T>>, steps: seq<Step<T>>)
    requires Inv(t)
    ensures IsPath(t, ts, steps)
    ensures forall i | 0 <= i < |steps| - 1 :: steps[i].LoadWriterForRead? || steps[i].LoadElement?
    ensures if t.ring.r.ReaderIdle? then steps == [] else steps != [] && steps[|steps| - 1].PublishRead?
    ensures ts[|steps|].ring.r.ReaderIdle? && ts[|steps|].ring.w == t.ring.w && Inv(ts[|steps|])
    decreases Phase(t.ring.r.ReaderIdle?, t.ring.r.ReaderCopying?), Unloaded(t.ring.r)
  {
    hide Inv, Next, Phase, Unstored, Unloaded;
    if t.ring.r.ReaderIdle? {
      ts, steps := [t], [];
    } else {
      var step, t' := ReaderProgress(t);
      ts, steps := ReadCanFinish(t');
      PathLonger(t, step, t', ts, steps);
      ts, steps := [t] + ts, [step] + steps;
    }
  }

  // ----- refinement of an abstract queue -----

  datatype QueueOp<T> = Put(xs: seq<T>) | Get(xs: seq<T>) | Nothing

  /** A first-in first-out queue that holds at most `capacity` elements. */
  ghost predicate QueueStep<T>(capacity: nat, q: seq<T>, op: QueueOp<T>, q': seq<T>) {
    match op
    case Put(xs) => |q| + |xs| <= capacity && q' == q + xs
    case Get(xs) => xs <= q && q' == q[|xs|..]
    case Nothing => q' == q
  }

  /** Only the two index stores are visible in the queue. */
  ghost function OpOf<T>(s: Ring<T>, step: Step<T>): QueueOp<T> {
    if step.PublishWrite? && s.w.WriterCopying? then Put(s.w.data)
    else if step.PublishRead? && s.r.ReaderCopying? then Get(s.r.out)
    else Nothing
  }

  /** The same, on the published elements not consumed yet. */
  lemma RemainderSteps<T>(t: Tracked<T>, step: Step<T>, t': Tracked<T>)
    requires Inv(t) && Next(t, step, t') && Inv(t')
    ensures |t'.ring.buffer| == |t.ring.buffer|
    ensures QueueStep(|t.ring.buffer| - 1, t.written[|t.consumed|..], OpOf(t.ring, step), t'.written[|t'.consumed|..])
  {
    hide Wrap, At, Live, ReaderSlices, WriterSlices, WriterInv;
    var k := |t.consumed|;
    if step.PublishWrite? {
      RestAfterAppend(t.written, t.ring.w.data, k);
    } else if step.PublishRead? {
      OutIsNext(t);
      RestAfterDrop(t.written, k, |t.ring.r.out|);
    }
  }

  lemma RestAfterAppend<T>(s: seq<T>, more: seq<T>, k: nat)
    requires k <= |s|
    ensures (s + more)[k..] == s[k..] + more
  {
  }

  lemma RestAfterDrop<T>(s: seq<T>, k: nat, n: nat)
    requires k + n <= |s|
    ensures s[k..k + n] <= s[k..] && s[k + n..] == s[k..][n..]
  {
    assert s[k..][..n] == s[k..k + n];
  }

  lemma StepRefinesQueue<T>(t: Tracked<T>, step: Step<T>, t': Tracked<T>)
    requires Inv(t) && Next(t, step, t')
    ensures t'.ring.InBounds() && |t'.ring.buffer| == |t.ring.buffer|
    ensures QueueStep(|t.ring.buffer| - 1,
                      Live(t.ring.buffer, t.ring.reader, t.ring.writer),
                      OpOf(t.ring, step),
                      Live(t'.ring.buffer, t'.ring.reader, t'.ring.writer))
  {
    hide Wrap;
    NextKeepsInv(t, step, t');
    RemainderSteps(t, step, t');
    LiveIsRemainder(t);
    LiveIsRemainder(t');
  }

  // ----- whole runs -----

  ghost predicate IsRun<T>(rings: seq<Ring<T>>, steps: seq<Step<T>>) {
    && |rings| == |steps| + 1
    && (forall i | 0 <= i < |steps| :: rings[i].InBounds() && RingStep(rings[i], steps[i], rings[i + 1]))
  }

  ghost function PutBy<T>(s: Ring<T>, step: Step<T>): seq<T> {
    var op := OpOf(s, step);
    if op.Put? then op.xs else []
  }

  ghost function GotBy<T>(s: Ring<T>, step: Step<T>): seq<T> {
    var op := OpOf(s, step);
    if op.Get? then op.xs else []
  }

  /** Everything the writes of a run published, in order. */
  ghost function Puts<T>(rings: seq<Ring<T>>, steps: seq<Step<T>>): seq<T>
    requires |rings| == |steps| + 1
  {
    var k := |steps| - 1;
    if steps == [] then [] else
    Puts(rings[..k + 1], steps[..k]) + PutBy(rings[k], steps[k])
  }

  /** Everything the reads of a run returned, in order. */
  ghost function Gets<T>(rings: seq<Ring<T>>, steps: seq<Step<T>>): seq<T>
    requires |rings| == |steps| + 1
  {
    var k := |steps| - 1;
    if steps == [] then [] else
    Gets(rings[..k + 1], steps[..k]) + GotBy(rings[k], steps[k])
  }

  /** Any step of the ring is a step of its history. */
  ghost function Extend<T>(t: Tracked<T>, step: Step<T>, s': Ring<T>): (t': Tracked<T>)
    requires t.ring.InBounds() && RingStep(t.ring, step, s')
    ensures Next(t, step, t') && t'.ring == s'
    ensures t'.written == t.written + PutBy(t.ring, step)
    ensures t'.consumed == t.consumed + GotBy(t.ring, step)
  {
    Tracked(s',
            t.written + (if step.PublishWrite? then t.ring.w.data else []),
            t.consumed + (if step.PublishRead? then t.ring.r.out else []),
            if step.StartWrite? then |t.consumed| else t.freed,
            if step.LoadWriterForRead? then |t.written| else t.seen)
  }

  /** Every run carries a history that satisfies the invariant. */
  lemma {:induction false} RunHasHistory<T>(rings: seq<Ring<T>>, steps: seq<Step<T>>, contents: seq<T>)
    returns (t: Tracked<T>)
    requires IsRun(rings, steps) && Fresh(rings[0], contents)
    ensures Inv(t) && t.ring == rings[|steps|]
    ensures t.written == contents + Puts(rings, steps)
    ensures t.consumed == Gets(rings, steps)
    decreases |steps|
  {
    hide Wrap, RingStep, Inv, Next;
    if steps == [] {
      t := Tracked(rings[0], contents, [], 0, 0);
      InitInv(t, contents);
    } else {
      var k := |steps| - 1;
      var puts := Puts(rings[..k + 1], steps[..k]);
      var before := RunHasHistory(rings[..k + 1], steps[..k], contents);
      t := Extend(before, steps[k], rings[k + 1]);
      assert contents + (puts + PutBy(rings[k], steps[k])) == contents + puts + PutBy(rings[k], steps[k]);
      NextKeepsInv(before, steps[k], t);
    }
  }

  /**
   In every interleaving, what was read is a prefix of what was there and what
   was written since, and the rest is exactly the current contents, which never
   exceed one less than the array.
   */
  lemma RunIsFifo<T>(rings: seq<Ring<T>>, steps: seq<Step<T>>, contents: seq<T>)
    requires IsRun(rings, steps) && Fresh(rings[0], contents)
    ensures rings[|steps|].InBounds() && |rings[|steps|].buffer| == |rings[0].buffer|
    ensures var s := rings[|steps|];
            var live := Live(s.buffer, s.reader, s.writer);
            contents + Puts(rings, steps) == Gets(rings, steps) + live && |live| < |s.buffer|
  {
    hide Wrap;
    var t := RunHasHistory(rings, steps, contents);
    LiveIsRemainder(t);
    BufferKeepsLength(rings, steps);
  }

  lemma {:induction false} BufferKeepsLength<T>(rings: seq<Ring<T>>, steps: seq<Step<T>>)
    requires IsRun(rings, steps)
    ensures |rings[|steps|].buffer| == |rings[0].buffer|
    decreases |steps|
  {
    hide Wrap;
    if steps != [] {
      var k := |steps| - 1;
      BufferKeepsLength(rings[..k + 1], steps[..k]);
      assert RingStep(rings[k], steps[k], rings[k + 1]);
    }
  }

  // ----- calls nobody interrupts -----

  /** Steps of one write call, or of one read call, with nothing in between. */
  ghost predicate IsSoloCall<T>(ts: seq<Tracked<T>>, steps: seq<Step<T>>) {
    && |ts| == |steps| + 1 >= 3
    && (forall i | 0 <= i < |steps| :: Next(ts[i], steps[i], ts[i + 1]))
    && ((steps[0].StartWrite? && steps[|steps| - 1].PublishWrite?
         && forall i | 0 < i < |steps| - 1 :: steps[i].LoadWriterForWrite? || steps[i].StoreElement?)
        || (steps[0].StartRead? && steps[|steps| - 1].PublishRead?
            && forall i | 0 < i < |steps| - 1 :: steps[i].LoadWriterForRead? || steps[i].LoadElement?))
  }

  /** Inside such a write the snapshot stays current, so the data settled on is the class method's. */
  lemma {:induction false} SoloWriteData<T>(ts: seq<Tracked<T>>, steps: seq<Step<T>>, i: nat)
    requires IsSoloCall(ts, steps) && steps[0].StartWrite? && Inv(ts[0]) && 0 < i < |steps|
    ensures Inv(ts[i]) && ts[i].written == ts[0].written && ts[i].consumed == ts[0].consumed
    ensures |ts[i].ring.buffer| == |ts[0].ring.buffer| && ts[i].freed == |ts[0].consumed|
    ensures var wanted := steps[0].wanted;
            var room := |ts[0].ring.buffer| - 1 - (|ts[0].written| - |ts[0].consumed|);
            match ts[i].ring.w
            case WriterIdle => false
            case WriterSawReader(data, _) => data == wanted
            case WriterCopying(_, data, _) => room >= 0 && data == wanted[..Min(|wanted|, room)]
  {
    hide Inv, Wrap, At;
    assert Next(ts[i - 1], steps[i - 1], ts[i]);
    if i == 1 {
      NextKeepsInv(ts[0], steps[0], ts[1]);
    } else {
      SoloWriteData(ts, steps, i - 1);
      NextKeepsInv(ts[i - 1], steps[i - 1], ts[i]);
      if steps[i - 1].LoadWriterForWrite? {
        WriteAccepts(ts[i - 1], ts[i]);
        FewerThanLap(ts[0]);
      }
    }
  }

  lemma FewerThanLap<T>(t: Tracked<T>)
    requires Inv(t)
    ensures |t.consumed| <= |t.written| < |t.consumed| + |t.ring.buffer|
  {
    hide Wrap, At;
  }

  /** A write call that nobody interrupts meets the contract of the sequential method. */
  lemma SoloWriteIsWrite<T>(ts: seq<Tracked<T>>, steps: seq<Step<T>>)
    requires IsSoloCall(ts, steps) && steps[0].StartWrite? && Inv(ts[0])
    ensures var before, after, data := ts[0].ring, ts[|steps|].ring, steps[0].wanted;
            && after.InBounds()
            && var live := Live(before.buffer, before.reader, before.writer);
            |live| < |before.buffer|
            && Live(after.buffer, after.reader, after.writer)
               == live + data[..Min(|data|, |before.buffer| - 1 - |live|)]
  {
    hide Inv, Wrap, At, Live;
    var k := |steps| - 1;
    SoloWriteData(ts, steps, k);
    assert Next(ts[k], steps[k], ts[k + 1]);
    NextKeepsInv(ts[k], steps[k], ts[k + 1]);
    FewerThanLap(ts[0]);
    LiveIsRemainder(ts[0]);
    LiveIsRemainder(ts[k + 1]);
    RestAfterAppend(ts[0].written, ts[k].ring.w.data, |ts[0].consumed|);
    InvInBounds(ts[k + 1]);
  }

  lemma InvInBounds<T>(t: Tracked<T>)
    requires Inv(t)
    ensures t.ring.InBounds()
  {
    hide Wrap, At;
  }

  lemma {:induction false} SoloReadCount<T>(ts: seq<Tracked<T>>, steps: seq<Step<T>>, i: nat)
    requires IsSoloCall(ts, steps) && steps[0].StartRead? && Inv(ts[0]) && 0 < i < |steps|
    ensures Inv(ts[i]) && ts[i].written == ts[0].written && ts[i].consumed == ts[0].consumed
    ensures match ts[i].ring.r
            case ReaderIdle => false
            case ReaderSawReader(room, _) => room == steps[0].room
            case ReaderCopying(_, out, _) =>
              |ts[0].consumed| <= |ts[0].written| && |out| == Min(steps[0].room, |ts[0].written| - |ts[0].consumed|)
  {
    hide Inv, Wrap, At;
    assert Next(ts[i - 1], steps[i - 1], ts[i]);
    if i == 1 {
      NextKeepsInv(ts[0], steps[0], ts[1]);
    } else {
      SoloReadCount(ts, steps, i - 1);
      NextKeepsInv(ts[i - 1], steps[i - 1], ts[i]);
      if steps[i - 1].LoadWriterForRead? {
        ReadOffers(ts[i - 1], ts[i]);
        FewerThanLap(ts[0]);
      }
    }
  }

  /** So does a read call: it returns the oldest elements and removes just those. */
  lemma SoloReadIsRead<T>(ts: seq<Tracked<T>>, steps: seq<Step<T>>)
    requires IsSoloCall(ts, steps) && steps[0].StartRead? && Inv(ts[0])
    ensures var before, last, after := ts[0].ring, ts[|steps| - 1].ring, ts[|steps|].ring;
            && after.InBounds() && last.r.ReaderCopying?
            && var live := Live(before.buffer, before.reader, before.writer);
            var n := Min(steps[0].room, |live|);
            last.r.out == live[..n] && Live(after.buffer, after.reader, after.writer) == live[n..]
  {
    hide Inv, Wrap, At, Live;
    var k := |steps| - 1;
    SoloReadCount(ts, steps, k);
    assert Next(ts[k], steps[k], ts[k + 1]);
    NextKeepsInv(ts[k], steps[k], ts[k + 1]);
    FewerThanLap(ts[0]);
    LiveIsRemainder(ts[0]);
    LiveIsRemainder(ts[k + 1]);
    OutIsNext(ts[k]);
    RestAfterDrop(ts[0].written, |ts[0].consumed|, |ts[k].ring.r.out|);
    InvInBounds(ts[k + 1]);
  }

  /** Such calls can be made at any time, whatever the other side is in the middle of. */
  lemma CallsCanBeMade<T>(t: Tracked<T>, data: seq<T>, room: nat)
    returns (ws: seq<Tracked<T>>, wsteps: seq<Step<T>>, rs: seq<Tracked<T>>, rsteps: seq<Step<T>>)
    requires Inv(t)
    ensures t.ring.w.WriterIdle? ==>
              IsSoloCall(ws, wsteps) && ws[0] == t && wsteps[0] == StartWrite(data) && ws[|wsteps|].ring.r == t.ring.r
    ensures t.ring.r.ReaderIdle? ==>
              IsSoloCall(rs, rsteps) && rs[0] == t && rsteps[0] == StartRead(room) && rs[|rsteps|].ring.w == t.ring.w
  {
    InvInBounds(t);
    ws, wsteps, rs, rsteps := [], [], [], [];
    if t.ring.w.WriterIdle? {
      var s := Extend(t, StartWrite(data), t.ring.(w := WriterSawReader(data, t.ring.reader)));
      ws, wsteps := StartedWrite(t, data, s);
    }
    if t.ring.r.ReaderIdle? {
      var s := Extend(t, StartRead(room), t.ring.(r := ReaderSawReader(room, t.ring.reader)));
      rs, rsteps := StartedRead(t, room, s);
    }
  }

  lemma StartedWrite<T>(t: Tracked<T>, data: seq<T>, s: Tracked<T>) returns (ts: seq<Tracked<T>>, steps: seq<Step<T>>)
    requires Inv(t) && Next(t, StartWrite(data), s)
    ensures IsSoloCall(ts, steps) && ts[0] == t && steps[0] == StartWrite(data) && ts[|steps|].ring.r == t.ring.r
  {
    NextKeepsInv(t, StartWrite(data), s);
    assert s.ring.w.WriterSawReader? && s.ring.r == t.ring.r;
    hide Inv, Next;
    var more, rest := WriteCanFinish(s);
    PathLonger(t, StartWrite(data), s, more, rest);
    ts, steps := [t] + more, [StartWrite(data)] + rest;
  }

  lemma StartedRead<T>(t: Tracked<T>, room: nat, s: Tracked<T>) returns (ts: seq<Tracked<T>>, steps: seq<Step<T>>)
    requires Inv(t) && Next(t, StartRead(room), s)
    ensures IsSoloCall(ts, steps) && ts[0] == t && steps[0] == StartRead(room) && ts[|steps|].ring.w == t.ring.w
  {
    NextKeepsInv(t, StartRead(room), s);
    assert s.ring.r.ReaderSawReader? && s.ring.w == t.ring.w;
    hide Inv, Next;
    var more, rest := ReadCanFinish(s);
    PathLonger(t, StartRead(room), s, more, rest);
    ts, steps := [t] + more, [StartRead(room)] + rest;
  }
}
