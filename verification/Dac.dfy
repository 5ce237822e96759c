/** The DAC driver around the frame ring buffer, with the interrupt run as an ordinary call. */
module Dac {
  import opened RingBuffer
  import opened Samples

  /** The output words of a stretch of frames. */
  function ConvertAll(frames: seq<Frame>): (words: seq<DmaFrame>)
    ensures |words| == |frames|
  {
    seq(|frames|, i requires 0 <= i < |frames| => ToDma(frames[i]))
  }

  function Silence(n: nat): (words: seq<DmaFrame>)
    ensures |words| == n
  {
    seq(n, _ => SILENT_DMA)
  }

  function SilentFrames(n: nat): (frames: seq<Frame>)
    ensures |frames| == n
  {
    seq(n, _ => SILENT_FRAME)
  }

  /** Frame by frame, left and right apart, 0x8000 plus 0x100 times the sample; silence is zero samples. */
  lemma WordsInOrder(frames: seq<Frame>, n: nat, i: nat)
    ensures i < |frames| ==>
              && ConvertAll(frames)[i].l as int == 0x8000 + 0x100 * frames[i].l as int
              && ConvertAll(frames)[i].r as int == 0x8000 + 0x100 * frames[i].r as int
    ensures i < n ==> SilentFrames(n)[i] == Frame(0, 0) && Silence(n)[i] == DmaFrame(0x8000, 0x8000)
    ensures Silence(n) == ConvertAll(SilentFrames(n))
  {
    if i < |frames| {
      DmaWords(frames[i]);
    }
  }

  lemma ConvertConcat(a: seq<Frame>, b: seq<Frame>)
    ensures ConvertAll(a + b) == ConvertAll(a) + ConvertAll(b)
  {
  }

  lemma ConvertPrefix(a: seq<Frame>, b: seq<Frame>)
    requires a <= b
    ensures ConvertAll(a) <= ConvertAll(b)
  {
    assert b == a + b[|a|..];
    ConvertConcat(a, b[|a|..]);
  }

  /** A statistics counter: 32 bits, wrapping. */
  function WrappingAdd(value: u32, n: nat): (sum: u32)
    ensures (value + n - sum) % 0x1_0000_0000 == 0
  {
    (value + n) % 0x1_0000_0000
  }

  class Stats {
    var dacFramesSent: u32
    var dacUnderruns: u32

    constructor () {
      dacFramesSent, dacUnderruns := 0, 0;
    }
  }

  class Dac {
    const ring: RingBuffer<Frame>
    const stats: Stats

    /** Claims the shared buffer: whatever it held, it now holds silence, all but the empty slot. */
    constructor New(ring: RingBuffer<Frame>, stats: Stats)
      requires ring.buffer.Length > 0
      modifies ring, ring.buffer
      ensures this.ring == ring && this.stats == stats && ring.Valid()
      ensures ring.Contents() == SilentFrames(ring.buffer.Length - 1)
      ensures ring.reader == 0 && ring.writer == ring.buffer.Length - 1
    {
      this.ring, this.stats := ring, stats;
      new;
      ring.Reset();
      ring.Fill(SILENT_FRAME);
    }

    /** `poll_write`: zero accepted frames means pending. */
    method PollWrite(data: seq<Frame>) returns (n: nat)
      requires ring.Valid()
      modifies ring`writer, ring.buffer
      ensures ring.Valid()
      ensures n == Min(|data|, ring.buffer.Length - 1 - |old(ring.Contents())|)
      ensures ring.Contents() == old(ring.Contents()) + data[..n]
      ensures data != [] ==> (n == 0 <==> |old(ring.Contents())| == ring.buffer.Length - 1)
    {
      LiveAt(ring.buffer[..], ring.reader, ring.writer);
      n := ring.Write(data);
    }

    /** What the interrupt does with the slices it reads in place, left slice first. */
    method ConvertSlices(buffer: array<Frame>, slices: Slices, output: array<DmaFrame>) returns (n: nat)
      requires slices.Fits(buffer.Length)
      modifies output
      ensures n == Min(output.Length, slices.Len())
      ensures forall i | 0 <= i < n :: output[i] == ToDma(buffer[slices.Slot(i)])
      ensures forall i | n <= i < output.Length :: output[i] == old(output[i])
    {
      var n1 := Min(output.Length, slices.left);
      for i := 0 to n1
        invariant forall j | 0 <= j < i :: output[j] == ToDma(buffer[slices.start + j])
        invariant forall j | i <= j < output.Length :: output[j] == old(output[j])
      {
        output[i] := ToDma(buffer[slices.start + i]);
      }
      var n2 := Min(output.Length - n1, slices.right);
      for i := 0 to n2
        invariant forall j | 0 <= j < n1 :: output[j] == ToDma(buffer[slices.start + j])
        invariant forall j | n1 <= j < n1 + i :: output[j] == ToDma(buffer[j - n1])
        invariant forall j | n1 + i <= j < output.Length :: output[j] == old(output[j])
      {
        output[n1 + i] := ToDma(buffer[i]);
      }
      n := n1 + n2;
    }

    /** The interrupt: converts what the ring holds, pads with silence, counts both. */
    method OnConvertDone(output: array<DmaFrame>)
      requires ring.Valid()
      modifies ring`reader, output, stats
      ensures ring.Valid()
      ensures var n := Min(output.Length, |old(ring.Contents())|);
              && ring.Contents() == old(ring.Contents())[n..]
              && output[..] == ConvertAll(old(ring.Contents())[..n]) + Silence(output.Length - n)
              && stats.dacFramesSent == WrappingAdd(old(stats.dacFramesSent), n)
              && stats.dacUnderruns == WrappingAdd(old(stats.dacUnderruns), if n < output.Length then 1 else 0)
    {
      hide Live, ReaderSlices, WrappingAdd;
      ghost var frames := ring.Contents();
      var slices := ring.ReaderView();
      var n := ConvertSlices(ring.buffer, slices, output);
      ring.FinishRead(n);
      ghost var copied := output[..n];
      assert copied == ConvertAll(frames[..n]);
      WrappingAddZero(stats.dacUnderruns);
      if n < output.Length {
        forall i | n <= i < output.Length {
          output[i] := SILENT_DMA;
        }
        stats.dacUnderruns := WrappingAdd(stats.dacUnderruns, 1);
      }
      assert output[..] == copied + Silence(output.Length - n);
      stats.dacFramesSent := WrappingAdd(stats.dacFramesSent, n);
    }
  }

  lemma WrappingAddZero(value: u32)
    ensures WrappingAdd(value, 0) == value
  {
  }
}
