/**
 The jitter buffer: a deque of optional packets whose sequence numbers are
 implied by the number of its head, over a circular array of fixed capacity.
 */
module PacketQueue {
  import opened Options
  import opened RingBuffer

  type u64 = x: nat | x < 0x1_0000_0000_0000_0000

  const MAX_QUEUED_PACKETS: nat := 50

  /** What a `usize` holds on the target: 32 bits. */
  const USIZE: nat := 0x1_0000_0000

  datatype Packet = Packet(seqNo: u64, audio: nat)

  // ----- the queue as a value -----

  datatype Queue = Queue(headSeq: nat, slots: seq<Option<Packet>>)

  datatype SlotFound = Slot(idx: nat) | InPast | TooFarInFuture

  /** Which counter `insert_packet` bumps, `Duplicate` being only logged. */
  datatype Outcome = OnTime | Duplicate | Late | Early

  /** The logical index for a sequence number; the distance is cut to a `usize` before the bounds check. */
  function FindSlot(headSeq: nat, seqNo: nat): SlotFound {
    if seqNo < headSeq then InPast
    else if (seqNo - headSeq) % USIZE >= MAX_QUEUED_PACKETS then TooFarInFuture
    else Slot((seqNo - headSeq) % USIZE)
  }

  /** The slots padded with empty ones to at least `n`. */
  function Grown(slots: seq<Option<Packet>>, n: nat): (grown: seq<Option<Packet>>)
    ensures |grown| == if |slots| < n then n else |slots|
  {
    if |slots| < n then slots + seq(n - |slots|, _ => None) else slots
  }

  function Insert(q: Queue, packet: Packet): Queue {
    match FindSlot(q.headSeq, packet.seqNo)
    case Slot(idx) =>
      var slots := Grown(q.slots, idx + 1);
      q.(slots := if slots[idx].None? then slots[idx := Some(packet)] else slots)
    case _ => q
  }

  function OutcomeOf(q: Queue, packet: Packet): Outcome {
    match FindSlot(q.headSeq, packet.seqNo)
    case Slot(idx) => if idx < |q.slots| && q.slots[idx].Some? then Duplicate else OnTime
    case InPast => Late
    case TooFarInFuture => Early
  }

  function Pop(q: Queue): Queue {
    Queue(q.headSeq + 1, if q.slots == [] then [] else q.slots[1..])
  }

  function Popped(q: Queue): Option<Packet> {
    if q.slots == [] then None else q.slots[0]
  }

  // ----- the deque -----

  function DequeLen(length: nat, front: nat, back: nat, full: bool): (n: int)
    requires front < length && back < length && (full ==> front == back)
    ensures 0 <= n <= length
  {
    if full then length else if back < front then back + length - front else back - front
  }

  /** From the front to the end of the array, then from its start to the back. */
  function DequeSlices(length: nat, front: nat, back: nat, full: bool): Slices
    requires front < length && back < length
  {
    if front == back && !full then Slices(0, 0, 0)
    else if back <= front then Slices(front, length - front, back)
    else Slices(front, back - front, 0)
  }

  ghost function DequeItems<T>(buffer: seq<T>, front: nat, back: nat, full: bool): (items: seq<T>)
    requires front < |buffer| && back < |buffer| && (full ==> front == back)
    ensures |items| == DequeLen(|buffer|, front, back, full)
  {
    if full || back < front then buffer[front..] + buffer[..back] else buffer[front..back]
  }

  /** Looking an item up in the right one of the two slices finds exactly that item. */
  lemma ItemThroughSlices<T>(buffer: seq<T>, front: nat, back: nat, full: bool, idx: nat)
    requires front < |buffer| && back < |buffer| && (full ==> front == back)
    requires idx < |DequeItems(buffer, front, back, full)|
    ensures var slices := DequeSlices(|buffer|, front, back, full);
            && slices.Len() == |DequeItems(buffer, front, back, full)|
            && slices.Slot(idx) < |buffer|
            && buffer[slices.Slot(idx)] == DequeItems(buffer, front, back, full)[idx]
  {
  }

  /** Assigning through it changes that item and no other. */
  lemma AssignThroughSlices<T>(buffer: seq<T>, front: nat, back: nat, full: bool, idx: nat, item: T)
    requires front < |buffer| && back < |buffer| && (full ==> front == back)
    requires idx < |DequeItems(buffer, front, back, full)|
    requires DequeSlices(|buffer|, front, back, full).Slot(idx) < |buffer|
    ensures DequeItems(buffer[DequeSlices(|buffer|, front, back, full).Slot(idx) := item], front, back, full)
            == DequeItems(buffer, front, back, full)[idx := item]
  {
  }

  /** A bounded deque over a circular array; `full` tells equal ends apart. */
  class Deque<T> {
    const buffer: array<T>
    var front: nat
    var back: nat
    var full: bool

    ghost predicate Valid()
      reads this
    {
      front < buffer.Length && back < buffer.Length && (full ==> front == back)
    }

    function Len(): nat
      reads this
      requires Valid()
    {
      DequeLen(buffer.Length, front, back, full)
    }

    ghost function Items(): (items: seq<T>)
      reads this, buffer
      requires Valid()
      ensures |items| == Len()
    {
      DequeItems(buffer[..], front, back, full)
    }

    constructor (buffer: array<T>)
      requires buffer.Length > 0
      ensures Valid() && this.buffer == buffer && Items() == []
    {
      this.buffer := buffer;
      front, back, full := 0, 0, false;
    }

    method PushBack(item: T) returns (ok: bool)
      requires Valid()
      modifies this, buffer
      ensures Valid() && ok == (|old(Items())| < buffer.Length)
      ensures Items() == if ok then old(Items()) + [item] else old(Items())
    {
      ok := !full;
      if ok {
        buffer[back] := item;
        back := if back + 1 == buffer.Length then 0 else back + 1;
        full := front == back;
      }
    }

    method PopFront() returns (r: Option<T>)
      requires Valid()
      modifies this
      ensures Valid()
      ensures r == if old(Items()) == [] then None else Some(old(Items())[0])
      ensures Items() == if old(Items()) == [] then [] else old(Items())[1..]
    {
      if front == back && !full {
        r := None;
      } else {
        r := Some(buffer[front]);
        full := false;
        front := if front + 1 == buffer.Length then 0 else front + 1;
      }
    }

    /** `as_mut_slices` */
    method AsMutSlices() returns (slices: Slices)
      requires Valid()
      ensures slices == DequeSlices(buffer.Length, front, back, full)
    {
      if front == back && !full {
        slices := Slices(0, 0, 0);
      } else if back <= front {
        slices := Slices(front, buffer.Length - front, back);
      } else {
        slices := Slices(front, back - front, 0);
      }
    }
  }

  /** The jitter buffer itself. */
  class Shared {
    const queue: Deque<Option<Packet>>
    var headSeq: nat

    ghost predicate Valid()
      reads this, queue
    {
      queue.Valid() && queue.buffer.Length == MAX_QUEUED_PACKETS
    }

    ghost function Abs(): (q: Queue)
      reads this, queue, queue.buffer
      requires Valid()
      ensures |q.slots| <= MAX_QUEUED_PACKETS
    {
      Queue(headSeq, queue.Items())
    }

    constructor (startSeq: u64, queue: Deque<Option<Packet>>)
      requires queue.Valid() && queue.Items() == [] && queue.buffer.Length == MAX_QUEUED_PACKETS
      ensures Valid() && Abs() == Queue(startSeq, []) && this.queue == queue
    {
      this.queue, headSeq := queue, startSeq;
    }

    /** Appends empty slots until `idx` exists; within capacity no push fails. */
    method Grow(idx: nat)
      requires Valid() && idx < MAX_QUEUED_PACKETS
      modifies queue, queue.buffer
      ensures Valid() && queue.Items() == Grown(old(queue.Items()), idx + 1)
    {
      ghost var before := queue.Items();
      while queue.Len() <= idx
        invariant queue.Valid()
        invariant |before| <= queue.Len() && (queue.Len() <= idx + 1 || queue.Items() == before)
        invariant queue.Items() == Grown(before, queue.Len())
        decreases idx - queue.Len()
      {
        var ok := queue.PushBack(None);
        assert ok;
      }
    }

    /**
     The array index a reference to the packet's slot points at, growing the
     deque as far as needed.
     */
    method QueueSlotMut(seqNo: u64) returns (found: SlotFound)
      requires Valid()
      modifies queue, queue.buffer
      ensures Valid()
      ensures match FindSlot(headSeq, seqNo)
              case Slot(idx) =>
                && Abs() == Queue(headSeq, Grown(old(Abs()).slots, idx + 1))
                && found == Slot(DequeSlices(queue.buffer.Length, queue.front, queue.back, queue.full).Slot(idx))
              case error => found == error && Abs() == old(Abs())
    {
      hide DequeItems, Grown;
      if seqNo < headSeq {
        return InPast;
      }
      var idx := (seqNo - headSeq) % USIZE;
      if idx >= queue.buffer.Length {
        return TooFarInFuture;
      }
      Grow(idx);
      var slices := queue.AsMutSlices();
      ItemThroughSlices(queue.buffer[..], queue.front, queue.back, queue.full, idx);
      if idx < slices.left {
        found := Slot(slices.start + idx);
      } else {
        found := Slot(idx - slices.left);
      }
    }

    method InsertPacket(packet: Packet) returns (outcome: Outcome)
      requires Valid() && headSeq + MAX_QUEUED_PACKETS < 0x1_0000_0000_0000_0000
      modifies queue, queue.buffer
      ensures Valid()
      ensures Abs() == Insert(old(Abs()), packet)
      ensures outcome == OutcomeOf(old(Abs()), packet)
    {
      hide DequeItems, DequeSlices;
      var found := QueueSlotMut(packet.seqNo);
      match found {
        case Slot(k) =>
          ghost var idx := FindSlot(headSeq, packet.seqNo).idx;
          ItemThroughSlices(queue.buffer[..], queue.front, queue.back, queue.full, idx);
          if queue.buffer[k] == None {
            AssignThroughSlices(queue.buffer[..], queue.front, queue.back, queue.full, idx, Some(packet));
            queue.buffer[k] := Some(packet);
            outcome := OnTime;
          } else {
            outcome := Duplicate;
          }
        case InPast =>
          outcome := Late;
        case TooFarInFuture =>
          outcome := Early;
      }
    }

    method PopFront() returns (packet: Option<Packet>)
      requires Valid() && headSeq + 1 < 0x1_0000_0000_0000_0000
      modifies this, queue
      ensures Valid()
      ensures Abs() == Pop(old(Abs()))
      ensures packet == Popped(old(Abs()))
    {
      headSeq := headSeq + 1;
      var front := queue.PopFront();
      packet := if front == None then None else front.value;
    }
  }
}
