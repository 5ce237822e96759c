/**
 The single-producer single-consumer ring buffer, used by one thread at a time.

 The array has two wrapping indices and keeps one slot empty, so that equal
 indices mean an empty buffer. Both sides see their part of the array as two
 slices: one up to the end of the array, one from its start.
 */
module RingBuffer {
  import opened Residues

  /** `left` elements from `start` on, then `right` elements from index 0 on. */
  datatype Slices = Slices(start: nat, left: nat, right: nat) {
    function Len(): nat { left + right }

    /** The array index of the i-th element, left slice first. */
    function Slot(i: nat): nat {
      if i < left then start + i else i - left
    }

    /** Both slices lie in an array of this length and do not overlap. */
    predicate Fits(length: nat) {
      start + left <= length && right <= start
    }
  }

  function ReaderSlices(length: nat, start: nat, end: nat): Slices
    requires start < length && end < length
  {
    if start <= end then Slices(start, end - start, 0) else Slices(start, length - start, end)
  }

  function WriterSlices(length: nat, start: nat, end: nat): Slices
    requires start < length && end < length
  {
    if start < end then Slices(start, end - start, 0) else Slices(start, length - start, end)
  }

  /** What a reader finds between the two indices, in the order it reads it. */
  function Live<T>(buffer: seq<T>, reader: nat, writer: nat): seq<T>
    requires reader < |buffer| && writer < |buffer|
  {
    var s := ReaderSlices(|buffer|, reader, writer);
    buffer[s.start..s.start + s.left] + buffer[..s.right]
  }

  /** The element at a position counted without wrapping. */
  function At<T>(buffer: seq<T>, position: nat): T
    requires |buffer| > 0
  {
    buffer[Wrap(position, |buffer|)]
  }

  function Min(a: nat, b: nat): (m: nat)
    ensures m <= a && m <= b && (m == a || m == b)
  {
    if a <= b then a else b
  }

  /** How many of `wanted` elements `write` accepts: one slot of the free space stays empty. */
  function Accepted(wanted: nat, available: nat): nat {
    if wanted >= available then (if available == 0 then 0 else available - 1) else wanted
  }

  /** Both pairs of slices walk the array in residue order and stay inside it. */
  lemma SlotsFollowResidues(length: nat, start: nat, end: nat, i: nat)
    requires start < length && end < length
    ensures i < ReaderSlices(length, start, end).Len() ==>
              ReaderSlices(length, start, end).Slot(i) == Wrap(start + i, length)
    ensures i < WriterSlices(length, start, end).Len() ==>
              WriterSlices(length, start, end).Slot(i) == Wrap(start + i, length)
    ensures ReaderSlices(length, start, end).Len() + WriterSlices(length, end, start).Len() == length
  {
    hide Wrap;
    if i < length {
      StepIndex(start, i, length);
    }
  }

  /** The live contents, element by element. */
  lemma LiveAt<T>(buffer: seq<T>, reader: nat, writer: nat)
    requires reader < |buffer| && writer < |buffer|
    ensures |Live(buffer, reader, writer)| == ReaderSlices(|buffer|, reader, writer).Len() < |buffer|
    ensures forall i | 0 <= i < |Live(buffer, reader, writer)| ::
              Live(buffer, reader, writer)[i] == At(buffer, reader + i)
  {
    hide Wrap;
    forall i | 0 <= i < |Live(buffer, reader, writer)|
      ensures Live(buffer, reader, writer)[i] == At(buffer, reader + i)
    {
      SlotsFollowResidues(|buffer|, reader, writer, i);
    }
  }

  /** Writing the next `n` elements and then moving the write index appends them to the live contents. */
  lemma PublishAppends<T>(before: seq<T>, after: seq<T>, reader: nat, writer: nat, data: seq<T>)
    requires |before| == |after| && reader < |before| && writer < |before|
    requires |Live(before, reader, writer)| + |data| < |before|
    requires forall p | writer <= p < writer + |data| :: At(after, p) == data[p - writer]
    requires forall p | reader <= p < reader + |Live(before, reader, writer)| ::
               At(after, p) == At(before, p)
    ensures Live(after, reader, Wrap(writer + |data|, |before|)) == Live(before, reader, writer) + data
  {
    hide Wrap;
    var n := |before|;
    var live := Live(before, reader, writer);
    var w := Wrap(writer + |data|, n);
    LiveAt(before, reader, writer);
    assert w < n && ReaderSlices(n, reader, w).Len() == |live| + |data| by {
      StepIndex(writer, |data|, n);
    }
    LiveAt(after, reader, w);
    forall i | 0 <= i < |live| + |data|
      ensures Live(after, reader, w)[i] == (live + data)[i]
    {
      if i < |live| {
        assert At(after, reader + i) == At(before, reader + i);
      } else {
        SamePlace(n, reader, writer, i - |live|);
        assert At(after, reader + i) == At(after, writer + (i - |live|));
      }
    }
  }

  /** Counting past the live contents from the reader lands where the writer counts from. */
  lemma SamePlace(n: nat, reader: nat, writer: nat, k: nat)
    requires reader < n && writer < n
    requires ReaderSlices(n, reader, writer).Len() + k < n
    ensures Wrap(reader + (ReaderSlices(n, reader, writer).Len() + k), n) == Wrap(writer + k, n)
  {
    hide Wrap;
    StepIndex(reader, ReaderSlices(n, reader, writer).Len() + k, n);
    StepIndex(writer, k, n);
  }

  /** Moving the read index past the first `n` elements drops exactly those. */
  lemma ConsumeDrops<T>(buffer: seq<T>, reader: nat, writer: nat, count: nat)
    requires reader < |buffer| && writer < |buffer|
    requires count <= |Live(buffer, reader, writer)|
    ensures Live(buffer, Wrap(reader + count, |buffer|), writer) == Live(buffer, reader, writer)[count..]
  {
    hide Wrap;
    var n := |buffer|;
    var live := Live(buffer, reader, writer);
    var r := Wrap(reader + count, n);
    LiveAt(buffer, reader, writer);
    LiveAt(buffer, r, writer);
    StepIndex(reader, count, n);
    forall i | 0 <= i < |live| - count
      ensures Live(buffer, r, writer)[i] == live[count..][i]
    {
      StepIndex(reader, count + i, n);
      StepIndex(r, i, n);
    }
  }

  /** An array with `data` stored through two slices, left first. */
  ghost function Stored<T>(buffer: seq<T>, slices: Slices, data: seq<T>): (after: seq<T>)
    requires slices.Fits(|buffer|) && |data| <= slices.Len()
    ensures |after| == |buffer|
    ensures forall k | 0 <= k < |buffer| ::
              after[k] == if slices.start <= k < slices.start + Min(|data|, slices.left) then data[k - slices.start]
                          else if k + slices.left < |data| then data[slices.left + k]
                          else buffer[k]
  {
    var nleft := Min(|data|, slices.left);
    data[nleft..] + buffer[|data| - nleft..slices.start] + data[..nleft] + buffer[slices.start + nleft..]
  }

  /** Storing to free slots leaves the live ones alone and puts the data where the writer counts. */
  lemma StoredApart<T>(before: seq<T>, reader: nat, writer: nat, data: seq<T>)
    requires reader < |before| && writer < |before|
    requires |data| <= WriterSlices(|before|, writer, reader).Len()
    ensures WriterSlices(|before|, writer, reader).Fits(|before|)
    ensures var after := Stored(before, WriterSlices(|before|, writer, reader), data);
            && (forall p | writer <= p < writer + |data| :: At(after, p) == data[p - writer])
            && (forall p | reader <= p < reader + |Live(before, reader, writer)| :: At(after, p) == At(before, p))
  {
    hide Wrap, Stored;
    var n := |before|;
    var after := Stored(before, WriterSlices(n, writer, reader), data);
    forall p | writer <= p < writer + |data|
      ensures At(after, p) == data[p - writer]
    {
      SlotsFollowResidues(n, writer, reader, p - writer);
    }
    forall p | reader <= p < reader + |Live(before, reader, writer)|
      ensures At(after, p) == At(before, p)
    {
      LiveAt(before, reader, writer);
      SlotsFollowResidues(n, reader, writer, p - reader);
    }
  }

  /** Storing to free slots and then moving the write index over the first `count` of them appends those. */
  lemma WriteAppends<T>(before: seq<T>, reader: nat, writer: nat, data: seq<T>, count: nat)
    requires reader < |before| && writer < |before|
    requires count <= |data| <= WriterSlices(|before|, writer, reader).Len()
    requires count < WriterSlices(|before|, writer, reader).Len()
    ensures WriterSlices(|before|, writer, reader).Fits(|before|)
    ensures Live(Stored(before, WriterSlices(|before|, writer, reader), data), reader, Wrap(writer + count, |before|))
            == Live(before, reader, writer) + data[..count]
  {
    hide Wrap;
    LiveAt(before, reader, writer);
    SlotsFollowResidues(|before|, reader, writer, 0);
    StoredApart(before, reader, writer, data);
    PublishAppends(before, Stored(before, WriterSlices(|before|, writer, reader), data), reader, writer, data[..count]);
  }

  /** `(index + count) % N` */
  function Advance(index: nat, count: nat, length: nat): (next: nat)
    requires length > 0
    ensures next == Wrap(index + count, length)
  {
    WrapIsRemainder(index + count, length);
    (index + count) % length
  }

  /** `copy_to_split`: as much of `src` as fits, left slice first. */
  method CopyToSplit<T>(src: seq<T>, dst: array<T>, slices: Slices) returns (copied: nat)
    requires slices.Fits(dst.Length)
    modifies dst
    ensures copied == Min(|src|, slices.Len())
    ensures dst[..] == Stored(old(dst[..]), slices, src[..copied])
  {
    hide Stored;
    var nleft := Min(|src|, slices.left);
    forall i | 0 <= i < nleft {
      dst[slices.start + i] := src[i];
    }
    var rest := src[nleft..];
    var nright := Min(|rest|, slices.right);
    forall i | 0 <= i < nright {
      dst[i] := rest[i];
    }
    copied := nleft + nright;
  }

  /** Fills both slices with one value. */
  method FillSplit<T>(value: T, dst: array<T>, slices: Slices)
    requires slices.Fits(dst.Length)
    modifies dst
    ensures dst[..] == Stored(old(dst[..]), slices, seq(slices.Len(), _ => value))
  {
    hide Stored;
    forall i | 0 <= i < slices.left {
      dst[slices.start + i] := value;
    }
    forall i | 0 <= i < slices.right {
      dst[i] := value;
    }
  }

  /** `copy_from_split`: fills the front of `dst` from both slices, left first. */
  method CopyFromSplit<T>(src: array<T>, slices: Slices, dst: array<T>) returns (copied: nat)
    requires slices.Fits(src.Length) && src != dst
    modifies dst
    ensures copied == Min(dst.Length, slices.Len())
    ensures forall i | 0 <= i < copied :: dst[i] == src[slices.Slot(i)]
    ensures forall i | copied <= i < dst.Length :: dst[i] == old(dst[i])
  {
    var nleft := Min(dst.Length, slices.left);
    forall i | 0 <= i < nleft {
      dst[i] := src[slices.start + i];
    }
    var nright := Min(dst.Length - nleft, slices.right);
    forall i | 0 <= i < nright {
      dst[nleft + i] := src[i];
    }
    copied := nleft + nright;
  }

  class RingBuffer<T> {
    var reader: nat
    var writer: nat
    const buffer: array<T>

    ghost predicate Valid()
      reads this
    {
      reader < buffer.Length && writer < buffer.Length
    }

    ghost function Contents(): seq<T>
      reads this, buffer
      requires Valid()
    {
      Live(buffer[..], reader, writer)
    }

    constructor NewWithBuffer(initial: array<T>)
      requires initial.Length > 0
      ensures Valid() && buffer == initial && Contents() == []
    {
      reader, writer, buffer := 0, 0, initial;
    }

    /** Only correct while nobody reads or writes. */
    method Reset()
      requires buffer.Length > 0
      modifies this
      ensures Valid() && reader == writer == 0 && Contents() == []
    {
      reader, writer := 0, 0;
    }

    /** The two slices a reader may look at. */
    method ReaderView() returns (slices: Slices)
      requires Valid()
      ensures slices == ReaderSlices(buffer.Length, reader, writer)
      ensures slices.Fits(buffer.Length) && slices.Len() == |Contents()|
      ensures forall i | 0 <= i < slices.Len() ::
                slices.Slot(i) < buffer.Length && buffer[slices.Slot(i)] == Contents()[i]
    {
      slices := ReaderSlices(buffer.Length, reader, writer);
    }

    /** The end of `read_in_place`: `copied` is what the closure reported. */
    method FinishRead(copied: nat)
      requires Valid() && copied <= |Contents()|
      modifies this`reader
      ensures Valid() && Contents() == old(Contents())[copied..]
    {
      hide Wrap;
      hide Advance;
      ConsumeDrops(buffer[..], reader, writer, copied);
      reader := Advance(reader, copied, buffer.Length);
    }

    method Read(data: array<T>) returns (copied: nat)
      requires Valid() && data != buffer
      modifies this`reader, data
      ensures Valid()
      ensures copied == Min(data.Length, |old(Contents())|)
      ensures data[..] == old(Contents())[..copied] + old(data[copied..])
      ensures Contents() == old(Contents())[copied..]
    {
      var slices := ReaderView();
      copied := CopyFromSplit(buffer, slices, data);
      assert Contents() == old(Contents());
      FinishRead(copied);
    }

    method Write(data: seq<T>) returns (copied: nat)
      requires Valid()
      modifies this`writer, buffer
      ensures Valid()
      ensures copied == Min(|data|, buffer.Length - 1 - |old(Contents())|)
      ensures Contents() == old(Contents()) + data[..copied]
    {
      hide Wrap, Advance, Live, Stored, ReaderSlices, WriterSlices;
      ghost var before := buffer[..];
      LiveAt(before, reader, writer);
      SlotsFollowResidues(buffer.Length, reader, writer, 0);
      var slices := WriterSlices(buffer.Length, writer, reader);
      var accepted := data[..Accepted(|data|, slices.Len())];
      WriteAppends(before, reader, writer, accepted, |accepted|);
      copied := CopyToSplit(accepted, buffer, slices);
      assert accepted[..copied] == accepted;
      writer := Advance(writer, copied, buffer.Length);
    }

    /** Fills all the free space with one value, the slot kept empty included, and publishes the rest. */
    method Fill(value: T)
      requires Valid()
      modifies this`writer, buffer
      ensures Valid()
      ensures |Contents()| == buffer.Length - 1
      ensures Contents() == old(Contents()) + seq(buffer.Length - 1 - |old(Contents())|, _ => value)
    {
      hide Wrap, Advance, Live, Stored, ReaderSlices, WriterSlices;
      ghost var before := buffer[..];
      LiveAt(before, reader, writer);
      SlotsFollowResidues(buffer.Length, reader, writer, 0);
      var slices := WriterSlices(buffer.Length, writer, reader);
      var copied := if slices.Len() == 0 then 0 else slices.Len() - 1;
      WriteAppends(before, reader, writer, seq(slices.Len(), _ => value), copied);
      FillSplit(value, buffer, slices);
      writer := Advance(writer, copied, buffer.Length);
    }
  }
}
