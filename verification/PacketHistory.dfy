/** What a jitter buffer plays, over any sequence of arriving packets and pops. */
module PacketHistory {
  import opened Options
  import opened PacketQueue

  datatype Op = Arrive(packet: Packet) | Take

  function Run(start: nat, ops: seq<Op>): Queue {
    if ops == [] then Queue(start, []) else
    var q := Run(start, ops[..|ops| - 1]);
    match ops[|ops| - 1]
    case Arrive(packet) => Insert(q, packet)
    case Take => Pop(q)
  }

  /** What the pops returned, first pop first. */
  function Outputs(start: nat, ops: seq<Op>): seq<Option<Packet>> {
    if ops == [] then [] else
    var before := ops[..|ops| - 1];
    match ops[|ops| - 1]
    case Arrive(_) => Outputs(start, before)
    case Take => Outputs(start, before) + [Popped(Run(start, before))]
  }

  lemma RunNext(start: nat, ops: seq<Op>, op: Op)
    ensures Run(start, ops + [op]) ==
            match op case Arrive(packet) => Insert(Run(start, ops), packet) case Take => Pop(Run(start, ops))
  {
    hide Insert, Pop;
    assert (ops + [op])[..|ops|] == ops;
  }

  lemma OutputsNext(start: nat, ops: seq<Op>, op: Op)
    ensures Outputs(start, ops + [op]) == Outputs(start, ops) + if op.Take? then [Popped(Run(start, ops))] else []
  {
    hide Run;
    assert (ops + [op])[..|ops|] == ops;
  }

  function Pops(ops: seq<Op>): nat {
    if ops == [] then 0 else
    Pops(ops[..|ops| - 1]) + if ops[|ops| - 1].Take? then 1 else 0
  }

  lemma PopsNext(ops: seq<Op>, more: seq<Op>)
    requires |more| <= 1
    ensures Pops(ops + more) == Pops(ops) + if more != [] && more[0].Take? then 1 else 0
  {
    if more == [] {
      assert ops + more == ops;
    } else {
      assert (ops + more)[..|ops|] == ops;
    }
  }

  /** It is the number of pops. */
  lemma {:induction false} PopsCounts(ops: seq<Op>)
    ensures Pops(ops) == |set i: nat | i < |ops| && ops[i].Take?|
    decreases |ops|
  {
    if ops != [] {
      var n := |ops| - 1;
      PopsCounts(ops[..n]);
      var before := set i: nat | i < n && ops[..n][i].Take?;
      var all := set i: nat | i < |ops| && ops[i].Take?;
      assert all == before + if ops[n].Take? then {n} else {};
    }
  }

  // ----- an independent account of who plays when -----

  /**
   Whether an arrival, after `before`, is for the k-th pop: not yet past, less
   than a window ahead, and with the right number as far as 32 bits of the
   distance tell.
   */
  ghost predicate Claims(start: nat, before: seq<Op>, op: Op, k: nat) {
    var p := Pops(before);
    && op.Arrive? && p <= k < p + MAX_QUEUED_PACKETS
    && op.packet.seqNo >= start + p && (op.packet.seqNo - (start + p)) % USIZE == k - p
  }

  /** The first arrival to claim the k-th pop. */
  ghost function Winner(start: nat, ops: seq<Op>, k: nat): (w: Option<nat>)
    ensures w.Some? ==> w.value < |ops| && ops[w.value].Arrive?
  {
    if ops == [] then None else
    var n := |ops| - 1;
    var earlier := Winner(start, ops[..n], k);
    if earlier.Some? then earlier
    else if Claims(start, ops[..n], ops[n], k) then Some(n)
    else None
  }

  lemma {:induction false} WinnerIsFirst(start: nat, ops: seq<Op>, k: nat)
    ensures match Winner(start, ops, k)
            case Some(i) =>
              && Claims(start, ops[..i], ops[i], k)
              && (forall j | 0 <= j < i :: !Claims(start, ops[..j], ops[j], k))
            case None =>
              forall j | 0 <= j < |ops| :: !Claims(start, ops[..j], ops[j], k)
    decreases |ops|
  {
    hide Claims;
    if ops != [] {
      var n := |ops| - 1;
      WinnerIsFirst(start, ops[..n], k);
      forall j | 0 <= j < n
        ensures ops[..n][..j] == ops[..j] && ops[..n][j] == ops[j]
      {
      }
    }
  }

  ghost function Won(start: nat, ops: seq<Op>, k: nat): Option<Packet> {
    var w := Winner(start, ops, k);
    if w.Some? then Some(ops[w.value].packet) else None
  }

  /** The slot `j` places behind the head, empty where the deque has not grown yet. */
  function Waiting(q: Queue, j: nat): Option<Packet> {
    if j < |q.slots| then q.slots[j] else None
  }

  ghost predicate HistoryInv(start: nat, ops: seq<Op>) {
    var q := Run(start, ops);
    var p := Pops(ops);
    && q.headSeq == start + p && |q.slots| <= MAX_QUEUED_PACKETS
    && |Outputs(start, ops)| == p
    && (forall k: nat | k < p :: Outputs(start, ops)[k] == Won(start, ops, k))
    && (forall k: nat | k >= p :: Waiting(q, k - p) == Won(start, ops, k))
  }

  lemma {:induction false} HistoryHolds(start: nat, ops: seq<Op>)
    ensures HistoryInv(start, ops)
    decreases |ops|
  {
    if ops != [] {
      var n := |ops| - 1;
      HistoryHolds(start, ops[..n]);
      if ops[n].Take? {
        TakeKeepsHistory(start, ops);
      } else {
        ArriveKeepsHistory(start, ops);
      }
    }
  }

  /** An insert fills its own slot if that is free, and leaves all others as they were. */
  lemma WaitingAfterInsert(q: Queue, packet: Packet, j: nat)
    ensures Waiting(Insert(q, packet), j) ==
            if FindSlot(q.headSeq, packet.seqNo) == Slot(j) && Waiting(q, j).None? then Some(packet) else Waiting(q, j)
  {
  }

  lemma WonAfterArrival(start: nat, ops: seq<Op>, k: nat)
    requires ops != [] && ops[|ops| - 1].Arrive?
    ensures var before, op := ops[..|ops| - 1], ops[|ops| - 1];
            Won(start, ops, k) ==
            if Claims(start, before, op, k) && Won(start, before, k).None? then Some(op.packet)
            else Won(start, before, k)
  {
  }

  /** Claiming the k-th pop is finding the slot that far behind the head. */
  lemma ClaimsIsSlot(start: nat, before: seq<Op>, op: Op, k: nat)
    requires op.Arrive?
    ensures var p := Pops(before);
            Claims(start, before, op, k) <==> k >= p && FindSlot(start + p, op.packet.seqNo) == Slot(k - p)
  {
  }

  lemma SlotInWindow(headSeq: nat, seqNo: nat)
    ensures FindSlot(headSeq, seqNo).Slot? ==> FindSlot(headSeq, seqNo).idx < MAX_QUEUED_PACKETS
  {
  }

  lemma ArriveKeepsHistory(start: nat, ops: seq<Op>)
    requires ops != [] && ops[|ops| - 1].Arrive? && HistoryInv(start, ops[..|ops| - 1])
    ensures HistoryInv(start, ops)
  {
    hide Insert, Claims, Won, Waiting, FindSlot;
    var before, op := ops[..|ops| - 1], ops[|ops| - 1];
    var q, p := Run(start, before), Pops(before);
    InsertedLength(q, op.packet);
    SlotInWindow(q.headSeq, op.packet.seqNo);
    forall k: nat
      ensures k < p ==> Outputs(start, ops)[k] == Won(start, ops, k)
      ensures k >= p ==> Waiting(Insert(q, op.packet), k - p) == Won(start, ops, k)
    {
      WonAfterArrival(start, ops, k);
      ClaimsIsSlot(start, before, op, k);
      if k < p {
        assert Outputs(start, before)[k] == Won(start, before, k);
      } else {
        WaitingAfterInsert(q, op.packet, k - p);
        assert Waiting(q, k - p) == Won(start, before, k);
      }
    }
  }

  lemma TakeWinsNothing(start: nat, ops: seq<Op>, k: nat)
    requires ops != [] && ops[|ops| - 1].Take?
    ensures Won(start, ops, k) == Won(start, ops[..|ops| - 1], k)
  {
  }

  lemma TakeKeepsHistory(start: nat, ops: seq<Op>)
    requires ops != [] && ops[|ops| - 1].Take? && HistoryInv(start, ops[..|ops| - 1])
    ensures HistoryInv(start, ops)
  {
    hide Won, Claims, Winner, Insert, FindSlot;
    var before := ops[..|ops| - 1];
    var q, p := Run(start, before), Pops(before);
    var outputs := Outputs(start, before);
    assert Outputs(start, ops) == outputs + [Waiting(q, 0)];
    forall k: nat | k < p + 1
      ensures (outputs + [Waiting(q, 0)])[k] == Won(start, ops, k)
    {
      TakeWinsNothing(start, ops, k);
      if k < p {
        assert outputs[k] == Won(start, before, k);
      } else {
        assert Waiting(q, k - p) == Won(start, before, k);
      }
    }
    forall k: nat | k >= p + 1
      ensures Waiting(Pop(q), k - (p + 1)) == Won(start, ops, k)
    {
      TakeWinsNothing(start, ops, k);
      assert Waiting(q, k - p) == Won(start, before, k);
    }
  }

  /**
   Over any arrivals and pops, the k-th pop returns the first packet that
   claimed it, and nothing if none did.
   */
  lemma WholeHistory(start: nat, ops: seq<Op>, k: nat)
    requires k < Pops(ops)
    ensures |Outputs(start, ops)| == Pops(ops)
    ensures match Outputs(start, ops)[k]
            case Some(packet) =>
              exists i | 0 <= i < |ops| ::
                && ops[i] == Arrive(packet) && Claims(start, ops[..i], ops[i], k)
                && (forall j | 0 <= j < i :: !Claims(start, ops[..j], ops[j], k))
            case None =>
              forall i | 0 <= i < |ops| :: !Claims(start, ops[..i], ops[i], k)
  {
    HistoryHolds(start, ops);
    assert Outputs(start, ops)[k] == Won(start, ops, k);
    WinnerIsFirst(start, ops, k);
  }

  /** Two non-empty outputs are two different arrivals, so no packet plays twice. */
  lemma PlaysAtMostOnce(start: nat, ops: seq<Op>, k: nat, l: nat)
    requires k < l < |Outputs(start, ops)|
    requires Outputs(start, ops)[k].Some? && Outputs(start, ops)[l].Some?
    ensures var v, w := Winner(start, ops, k), Winner(start, ops, l);
            && v.Some? && Outputs(start, ops)[k] == Some(ops[v.value].packet)
            && w.Some? && Outputs(start, ops)[l] == Some(ops[w.value].packet)
            && v != w
  {
    hide Outputs, Winner, Run;
    HistoryHolds(start, ops);
    assert Outputs(start, ops)[k] == Won(start, ops, k);
    assert Outputs(start, ops)[l] == Won(start, ops, l);
    WinnerIsFirst(start, ops, k);
    WinnerIsFirst(start, ops, l);
  }

  // ----- sequence numbers -----

  /** Whether the arrival at `i` was less than 2^32 ahead of the head. */
  ghost predicate Near(start: nat, ops: seq<Op>, i: nat)
    requires i < |ops|
  {
    ops[i].Arrive? ==> ops[i].packet.seqNo < start + Pops(ops[..i]) + USIZE
  }

  /** What plays at position k carries number start + k exactly when it arrived less than 2^32 ahead. */
  lemma OwnNumberExactlyWhenNear(start: nat, ops: seq<Op>, k: nat)
    requires Winner(start, ops, k).Some?
    ensures Won(start, ops, k).value.seqNo == start + k <==> Near(start, ops, Winner(start, ops, k).value)
    ensures Won(start, ops, k).value.seqNo >= start + k
    ensures (Won(start, ops, k).value.seqNo - (start + k)) % USIZE == 0
  {
    WinnerIsFirst(start, ops, k);
    var i := Winner(start, ops, k).value;
    var p := Pops(ops[..i]);
    var distance := ops[i].packet.seqNo - (start + p);
    assert distance == distance / USIZE * USIZE + (k - p);
  }

  /** Whether the arrival at `i` carries the number of the k-th pop and came in its window. */
  ghost predicate InWindow(start: nat, ops: seq<Op>, i: nat, k: nat)
    requires i < |ops|
  {
    ops[i].Arrive? && ops[i].packet.seqNo == start + k && Pops(ops[..i]) <= k < Pops(ops[..i]) + MAX_QUEUED_PACKETS
  }

  lemma NearClaimsOwnNumber(start: nat, ops: seq<Op>, i: nat, k: nat)
    requires i < |ops| && Near(start, ops, i)
    ensures Claims(start, ops[..i], ops[i], k) <==> InWindow(start, ops, i, k)
  {
    hide Pops;
  }

  /**
   With all arrivals that near, the k-th pop returns the first packet numbered
   start + k to come while the number of pops p satisfied p <= k < p + 50.
   */
  lemma NearHistory(start: nat, ops: seq<Op>, k: nat)
    requires forall i | 0 <= i < |ops| :: Near(start, ops, i)
    requires k < |Outputs(start, ops)|
    ensures match Outputs(start, ops)[k]
            case Some(packet) =>
              exists i | 0 <= i < |ops| ::
                && ops[i] == Arrive(packet) && InWindow(start, ops, i, k)
                && (forall j | 0 <= j < i :: !InWindow(start, ops, j, k))
            case None =>
              forall i | 0 <= i < |ops| :: !InWindow(start, ops, i, k)
  {
    hide Near, Claims, InWindow, Outputs, Run;
    HistoryHolds(start, ops);
    WholeHistory(start, ops, k);
    forall i | 0 <= i < |ops|
      ensures Claims(start, ops[..i], ops[i], k) <==> InWindow(start, ops, i, k)
    {
      NearClaimsOwnNumber(start, ops, i, k);
    }
  }

  /** With all arrivals that near, non-empty output carries strictly increasing numbers. */
  lemma OutputIncreases(start: nat, ops: seq<Op>, k: nat, l: nat)
    requires forall i | 0 <= i < |ops| :: Near(start, ops, i)
    requires k < l < Pops(ops) == |Outputs(start, ops)|
    requires Outputs(start, ops)[k].Some? && Outputs(start, ops)[l].Some?
    ensures Outputs(start, ops)[k].value.seqNo == start + k < start + l == Outputs(start, ops)[l].value.seqNo
  {
    HistoryHolds(start, ops);
    assert Outputs(start, ops)[k] == Won(start, ops, k);
    assert Outputs(start, ops)[l] == Won(start, ops, l);
    OwnNumberExactlyWhenNear(start, ops, k);
    OwnNumberExactlyWhenNear(start, ops, l);
  }

  /** A packet exactly 2^32 ahead is not turned away as early: the next pop plays it. */
  lemma FarPacketPlaysEarly(start: nat, audio: nat)
    requires start + USIZE < 0x1_0000_0000_0000_0000
    ensures Outputs(start, [Arrive(Packet(start + USIZE, audio)), Take]) == [Some(Packet(start + USIZE, audio))]
  {
    var far := Packet(start + USIZE, audio);
    var ops := [Arrive(far), Take];
    assert ops[..1] == [Arrive(far)];
    assert Grown([], 1) == [None];
    assert Run(start, [Arrive(far)]) == Queue(start, [Some(far)]) by {
      assert [Arrive(far)][..0] == [];
      assert FindSlot(start, far.seqNo) == Slot(0);
    }
    assert Outputs(start, [Arrive(far)]) == [];
  }

  /** The waiting packets sit in the slots of their own numbers, as far as 32 bits tell, at most 50 of them. */
  lemma SlotsImplyNumbers(start: nat, ops: seq<Op>, j: nat)
    ensures |Run(start, ops).slots| <= MAX_QUEUED_PACKETS
    ensures var q := Run(start, ops);
            j < |q.slots| && q.slots[j].Some? ==>
              && q.slots[j].value.seqNo >= q.headSeq + j
              && (q.slots[j].value.seqNo - (q.headSeq + j)) % USIZE == 0
  {
    HistoryHolds(start, ops);
    var q := Run(start, ops);
    if j < |q.slots| && q.slots[j].Some? {
      var k := Pops(ops) + j;
      assert Waiting(q, k - Pops(ops)) == Won(start, ops, k);
      OwnNumberExactlyWhenNear(start, ops, k);
    }
  }

  // ----- outcomes -----

  /**
   After p pops, an arrival is late just when its number is below start + p,
   early when it is not but the distance, as far as 32 bits tell, is 50 or
   more, and otherwise for a pop to come, on time if no earlier arrival has
   claimed that pop and a duplicate if one has.
   */
  lemma OutcomeExactlyWhen(start: nat, before: seq<Op>, packet: Packet)
    ensures var p, outcome, op := Pops(before), OutcomeOf(Run(start, before), packet), Arrive(packet);
            && (outcome == Late <==> packet.seqNo < start + p)
            && (outcome == Early <==>
                  packet.seqNo >= start + p && (packet.seqNo - (start + p)) % USIZE >= MAX_QUEUED_PACKETS)
            && (outcome == OnTime <==> exists k :: Claims(start, before, op, k) && Won(start, before, k) == None)
            && (outcome == Duplicate <==> exists k :: Claims(start, before, op, k) && Won(start, before, k).Some?)
  {
    hide Won, Run, Pops;
    HistoryHolds(start, before);
    var q, p := Run(start, before), Pops(before);
    if packet.seqNo >= start + p {
      var j := (packet.seqNo - (start + p)) % USIZE;
      assert forall k | Claims(start, before, Arrive(packet), k) :: k == p + j;
      if j < MAX_QUEUED_PACKETS {
        assert Claims(start, before, Arrive(packet), p + j);
        assert Waiting(q, (p + j) - p) == Won(start, before, p + j);
      }
    }
  }

  // ----- accounting -----

  ghost function Count(start: nat, ops: seq<Op>, outcome: Outcome): nat {
    if ops == [] then 0 else
    var before := ops[..|ops| - 1];
    var op := ops[|ops| - 1];
    Count(start, before, outcome) +
    if op.Arrive? && OutcomeOf(Run(start, before), op.packet) == outcome then 1 else 0
  }

  ghost function Arrivals(ops: seq<Op>): nat {
    if ops == [] then 0 else
    Arrivals(ops[..|ops| - 1]) + if ops[|ops| - 1].Arrive? then 1 else 0
  }

  ghost function Filled(slots: seq<Option<Packet>>): nat {
    if slots == [] then 0 else (if slots[0].Some? then 1 else 0) + Filled(slots[1..])
  }

  lemma {:induction false} FilledConcat(a: seq<Option<Packet>>, b: seq<Option<Packet>>)
    ensures Filled(a + b) == Filled(a) + Filled(b)
    decreases |a|
  {
    if a == [] {
      assert a + b == b;
    } else {
      assert (a + b)[1..] == a[1..] + b;
      FilledConcat(a[1..], b);
    }
  }

  lemma {:induction false} FilledWithNothing(n: nat)
    ensures Filled(seq(n, _ => None)) == 0
  {
    if n > 0 {
      var nothing: seq<Option<Packet>> := seq(n, _ => None);
      assert nothing[1..] == seq(n - 1, _ => None);
      FilledWithNothing(n - 1);
    }
  }

  lemma FilledByInsert(q: Queue, packet: Packet)
    ensures Filled(Insert(q, packet).slots)
            == Filled(q.slots) + if OutcomeOf(q, packet).OnTime? then 1 else 0
  {
    var found := FindSlot(q.headSeq, packet.seqNo);
    if found.Slot? {
      var idx := found.idx;
      var slots := Grown(q.slots, idx + 1);
      if |q.slots| < idx + 1 {
        FilledConcat(q.slots, seq(idx + 1 - |q.slots|, _ => None));
        FilledWithNothing(idx + 1 - |q.slots|);
      }
      if slots[idx].None? {
        FilledAround(slots, idx);
        FilledAround(slots[idx := Some(packet)], idx);
        assert slots[idx := Some(packet)][..idx] == slots[..idx];
        assert slots[idx := Some(packet)][idx + 1..] == slots[idx + 1..];
      }
    }
  }

  lemma FilledAround(slots: seq<Option<Packet>>, idx: nat)
    requires idx < |slots|
    ensures Filled(slots) == Filled(slots[..idx]) + (if slots[idx].Some? then 1 else 0) + Filled(slots[idx + 1..])
  {
    assert slots == slots[..idx] + slots[idx..];
    FilledConcat(slots[..idx], slots[idx..]);
  }

  /** Every arrival is counted once, and those on time are just the hits so far and the packets still held. */
  lemma {:induction false} ArrivalsAccounted(start: nat, ops: seq<Op>)
    ensures Arrivals(ops) == Count(start, ops, OnTime) + Count(start, ops, Duplicate)
                             + Count(start, ops, Late) + Count(start, ops, Early)
    ensures Count(start, ops, OnTime) == Filled(Outputs(start, ops)) + Filled(Run(start, ops).slots)
    decreases |ops|
  {
    if ops != [] {
      var n := |ops| - 1;
      var q := Run(start, ops[..n]);
      ArrivalsAccounted(start, ops[..n]);
      match ops[n]
      case Arrive(packet) =>
        FilledByInsert(q, packet);
      case Take =>
        FilledConcat(Outputs(start, ops[..n]), [Popped(q)]);
    }
  }

  // ----- reordering between two pops -----

  /** The queue after some arrivals in a row, and the multiset of what became of them. */
  ghost function InsertAll(q: Queue, packets: seq<Packet>): (Queue, multiset<Outcome>)
    decreases |packets|
  {
    if packets == [] then (q, multiset{}) else
    var (after, outcomes) := InsertAll(Insert(q, packets[0]), packets[1..]);
    (after, outcomes + multiset{OutcomeOf(q, packets[0])})
  }

  /** Two different packets after the same free slot. */
  ghost predicate Clash(q: Queue, a: Packet, b: Packet) {
    var found := FindSlot(q.headSeq, a.seqNo);
    a != b && found.Slot? && found == FindSlot(q.headSeq, b.seqNo) && Waiting(q, found.idx).None?
  }

  /** Two neighbouring arrivals may be swapped exactly when they do not clash; the counters agree anyway. */
  lemma SwapExactlyUnlessClash(q: Queue, a: Packet, b: Packet)
    ensures Insert(Insert(q, a), b) == Insert(Insert(q, b), a) <==> !Clash(q, a, b)
    ensures multiset{OutcomeOf(q, a), OutcomeOf(Insert(q, a), b)}
            == multiset{OutcomeOf(q, b), OutcomeOf(Insert(q, b), a)}
  {
    hide Insert, Waiting, OutcomeOf;
    OutcomeAfter(q, a, b);
    OutcomeAfter(q, b, a);
    var fa, fb := FindSlot(q.headSeq, a.seqNo), FindSlot(q.headSeq, b.seqNo);
    var ab, ba := Insert(Insert(q, a), b), Insert(Insert(q, b), a);
    InsertedLength(q, a);
    InsertedLength(q, b);
    InsertedLength(Insert(q, a), b);
    InsertedLength(Insert(q, b), a);
    forall j: nat
      ensures Waiting(ab, j) == Waiting(ba, j) || (Clash(q, a, b) && fa == Slot(j))
      ensures Clash(q, a, b) && fa == Slot(j) ==> Waiting(ab, j) == Some(a) && Waiting(ba, j) == Some(b)
    {
      WaitingAfterInsert(q, a, j);
      WaitingAfterInsert(q, b, j);
      WaitingAfterInsert(Insert(q, a), b, j);
      WaitingAfterInsert(Insert(q, b), a, j);
    }
    SameQueue(ab, ba);
    if fa.Slot? {
      WaitingAfterInsert(q, b, fa.idx);
    }
    if fb.Slot? {
      WaitingAfterInsert(q, a, fb.idx);
    }
  }

  /** An earlier arrival matters to a later one only by taking its free slot. */
  lemma OutcomeAfter(q: Queue, a: Packet, b: Packet)
    ensures OutcomeOf(Insert(q, a), b) ==
            if FindSlot(q.headSeq, a.seqNo).Slot? && FindSlot(q.headSeq, a.seqNo) == FindSlot(q.headSeq, b.seqNo)
            then Duplicate else OutcomeOf(q, b)
    ensures FindSlot(q.headSeq, a.seqNo) == FindSlot(q.headSeq, b.seqNo) ==> OutcomeOf(q, a) == OutcomeOf(q, b)
  {
    var fb := FindSlot(q.headSeq, b.seqNo);
    InsertedLength(q, a);
    if fb.Slot? {
      WaitingAfterInsert(q, a, fb.idx);
    }
  }

  lemma InsertedLength(q: Queue, packet: Packet)
    ensures Insert(q, packet).headSeq == q.headSeq
    ensures var found := FindSlot(q.headSeq, packet.seqNo);
            |Insert(q, packet).slots| ==
            if found.Slot? && found.idx >= |q.slots| then found.idx + 1 else |q.slots|
  {
  }

  lemma SameQueue(a: Queue, b: Queue)
    ensures a == b <==>
            a.headSeq == b.headSeq && |a.slots| == |b.slots| && forall j: nat :: Waiting(a, j) == Waiting(b, j)
  {
    if a.headSeq == b.headSeq && |a.slots| == |b.slots| && forall j: nat :: Waiting(a, j) == Waiting(b, j) {
      forall i | 0 <= i < |a.slots|
        ensures a.slots[i] == b.slots[i]
      {
        assert Waiting(a, i) == Waiting(b, i);
      }
    }
  }

  ghost predicate NoClashes(q: Queue, packets: seq<Packet>) {
    forall i, j | 0 <= i < j < |packets| :: !Clash(q, packets[i], packets[j])
  }

  /** Packets with different numbers less than 2^32 ahead never clash. */
  lemma DifferentNumbersNeverClash(q: Queue, a: Packet, b: Packet)
    requires a.seqNo != b.seqNo
    requires a.seqNo < q.headSeq + USIZE && b.seqNo < q.headSeq + USIZE
    ensures !Clash(q, a, b)
  {
  }

  lemma InsertAddsNoClash(q: Queue, c: Packet, a: Packet, b: Packet)
    requires !Clash(q, a, b)
    ensures !Clash(Insert(q, c), a, b)
  {
  }

  /** An arrival that clashes with none before it might as well have come first. */
  lemma {:induction false} MoveToFront(q: Queue, packets: seq<Packet>, j: nat)
    requires j < |packets| && forall i | 0 <= i < j :: !Clash(q, packets[i], packets[j])
    ensures InsertAll(q, packets) == InsertAll(q, [packets[j]] + packets[..j] + packets[j + 1..])
    decreases |packets|
  {
    hide Clash, Insert, OutcomeOf;
    var x := packets[j];
    if j == 0 {
      assert [x] + packets[..0] + packets[1..] == packets;
    } else {
      var first, rest := packets[0], packets[1..];
      var tail := packets[1..j] + packets[j + 1..];
      forall i | 0 <= i < j - 1
        ensures !Clash(Insert(q, first), rest[i], rest[j - 1])
      {
        assert !Clash(q, packets[i + 1], x);
        InsertAddsNoClash(q, first, packets[i + 1], x);
      }
      FrontSplit(packets, j);
      MoveToFront(Insert(q, first), rest, j - 1);
      assert !Clash(q, first, x);
      SwapFirstTwo(q, first, x, tail);
    }
  }

  lemma FrontSplit(packets: seq<Packet>, j: nat)
    requires 0 < j < |packets|
    ensures var tail := packets[1..j] + packets[j + 1..];
            && [packets[1..][j - 1]] + packets[1..][..j - 1] + packets[1..][j..] == [packets[j]] + tail
            && [packets[j]] + packets[..j] + packets[j + 1..] == [packets[j]] + ([packets[0]] + tail)
  {
    assert packets[..j] == [packets[0]] + packets[1..j];
    assert packets[1..][..j - 1] == packets[1..j];
    assert packets[1..][j..] == packets[j + 1..];
  }

  lemma SwapFirstTwo(q: Queue, a: Packet, b: Packet, tail: seq<Packet>)
    requires !Clash(q, a, b)
    ensures InsertAll(Insert(q, a), [b] + tail).0 == InsertAll(q, [b] + ([a] + tail)).0
    ensures InsertAll(Insert(q, a), [b] + tail).1 + multiset{OutcomeOf(q, a)} == InsertAll(q, [b] + ([a] + tail)).1
  {
    hide Clash, Insert, OutcomeOf;
    SwapExactlyUnlessClash(q, a, b);
    assert ([b] + tail)[1..] == tail;
    assert ([b] + ([a] + tail))[1..] == [a] + tail;
    assert ([a] + tail)[1..] == tail;
    var (after, outcomes) := InsertAll(Insert(Insert(q, a), b), tail);
    assert outcomes + multiset{OutcomeOf(Insert(q, a), b)} + multiset{OutcomeOf(q, a)}
           == outcomes + multiset{OutcomeOf(q, a), OutcomeOf(Insert(q, a), b)};
    assert outcomes + multiset{OutcomeOf(Insert(q, b), a)} + multiset{OutcomeOf(q, b)}
           == outcomes + multiset{OutcomeOf(q, b), OutcomeOf(Insert(q, b), a)};
  }

  /**
   The order in which packets arrive between two pops cannot be observed: any
   rearrangement without clashes gives the same queue, hence the same future
   output, and the same counters.
   */
  lemma {:induction false} ReorderingInvisible(q: Queue, xs: seq<Packet>, ys: seq<Packet>)
    requires multiset(xs) == multiset(ys) && NoClashes(q, xs)
    ensures InsertAll(q, xs) == InsertAll(q, ys)
    decreases |xs|
  {
    hide Clash, Insert, OutcomeOf;
    if xs == [] {
      assert |ys| == |multiset(ys)|;
    } else {
      var x, rest := xs[0], xs[1..];
      assert xs == [x] + rest;
      assert x in multiset(ys);
      var j := First(ys, x);
      var others := ys[..j] + ys[j + 1..];
      LessOne(xs, ys, j);
      forall i | 0 <= i < j
        ensures !Clash(q, ys[i], ys[j])
      {
        assert others[i] in multiset(rest);
        ClashesWithNone(q, xs, ys[i]);
      }
      MoveToFront(q, ys, j);
      assert [x] + ys[..j] + ys[j + 1..] == [x] + others;
      RestClashesWithNone(q, xs);
      ReorderingInvisible(Insert(q, x), rest, others);
      assert ([x] + others)[1..] == others;
    }
  }

  lemma LessOne(xs: seq<Packet>, ys: seq<Packet>, j: nat)
    requires multiset(xs) == multiset(ys) && xs != [] && j < |ys| && ys[j] == xs[0]
    ensures multiset(ys[..j] + ys[j + 1..]) == multiset(xs[1..])
  {
    var x := xs[0];
    assert xs == [x] + xs[1..];
    assert ys == ys[..j] + [x] + ys[j + 1..];
    assert multiset(xs[1..]) == multiset([x] + xs[1..]) - multiset{x};
    assert multiset(ys[..j] + ys[j + 1..]) == multiset(ys[..j] + [x] + ys[j + 1..]) - multiset{x};
  }

  lemma ClashesWithNone(q: Queue, xs: seq<Packet>, y: Packet)
    requires xs != [] && NoClashes(q, xs) && y in xs[1..]
    ensures !Clash(q, y, xs[0])
  {
    var k :| 0 <= k < |xs[1..]| && xs[1..][k] == y;
    assert !Clash(q, xs[0], xs[k + 1]);
  }

  lemma RestClashesWithNone(q: Queue, xs: seq<Packet>)
    requires xs != [] && NoClashes(q, xs)
    ensures NoClashes(Insert(q, xs[0]), xs[1..])
  {
    forall i, k | 0 <= i < k < |xs[1..]|
      ensures !Clash(Insert(q, xs[0]), xs[1..][i], xs[1..][k])
    {
      assert !Clash(q, xs[i + 1], xs[k + 1]);
      InsertAddsNoClash(q, xs[0], xs[i + 1], xs[k + 1]);
    }
  }

  function First(packets: seq<Packet>, x: Packet): (j: nat)
    requires x in packets
    ensures j < |packets| && packets[j] == x
  {
    if packets[0] == x then 0 else 1 + First(packets[1..], x)
  }

  /** The arrivals of `packets`, one after the other. */
  function AsArrivals(packets: seq<Packet>): seq<Op> {
    seq(|packets|, i requires 0 <= i < |packets| => Arrive(packets[i]))
  }

  lemma CountNext(start: nat, ops: seq<Op>, op: Op, outcome: Outcome)
    ensures Count(start, ops + [op], outcome) == Count(start, ops, outcome) +
            if op.Arrive? && OutcomeOf(Run(start, ops), op.packet) == outcome then 1 else 0
  {
    hide Run, OutcomeOf;
    assert (ops + [op])[..|ops|] == ops;
  }

  /** The outcomes of arrivals in a row are what the counters count. */
  lemma {:induction false} CountInserts(start: nat, before: seq<Op>, packets: seq<Packet>, outcome: Outcome)
    ensures Count(start, before + AsArrivals(packets), outcome)
            == Count(start, before, outcome) + InsertAll(Run(start, before), packets).1[outcome]
    decreases |packets|
  {
    if packets == [] {
      assert before + AsArrivals(packets) == before;
    } else {
      var first := before + [Arrive(packets[0])];
      assert before + AsArrivals(packets) == first + AsArrivals(packets[1..]);
      hide Run, Count, Insert, AsArrivals, OutcomeOf;
      RunNext(start, before, Arrive(packets[0]));
      CountNext(start, before, Arrive(packets[0]), outcome);
      CountInserts(start, first, packets[1..], outcome);
    }
  }

  lemma {:induction false} RunInserts(start: nat, before: seq<Op>, packets: seq<Packet>)
    ensures Run(start, before + AsArrivals(packets)) == InsertAll(Run(start, before), packets).0
    ensures Outputs(start, before + AsArrivals(packets)) == Outputs(start, before)
    decreases |packets|
  {
    if packets == [] {
      assert before + AsArrivals(packets) == before;
    } else {
      var first := before + [Arrive(packets[0])];
      assert before + AsArrivals(packets) == first + AsArrivals(packets[1..]);
      hide Run, Outputs, Insert, AsArrivals;
      RunNext(start, before, Arrive(packets[0]));
      OutputsNext(start, before, Arrive(packets[0]));
      RunInserts(start, first, packets[1..]);
    }
  }

  lemma AlikeNext(start: nat, a: seq<Op>, b: seq<Op>, op: Op)
    requires Run(start, a) == Run(start, b) && Outputs(start, a) == Outputs(start, b)
    ensures Run(start, a + [op]) == Run(start, b + [op]) && Outputs(start, a + [op]) == Outputs(start, b + [op])
  {
    hide Run, Outputs, Insert, Pop, Popped;
    RunNext(start, a, op);
    RunNext(start, b, op);
    OutputsNext(start, a, op);
    OutputsNext(start, b, op);
  }

  lemma OneByOne(a: seq<Op>, later: seq<Op>)
    requires later != []
    ensures a + later == (a + [later[0]]) + later[1..]
  {
  }

  lemma {:induction false} SameContinuation(start: nat, a: seq<Op>, b: seq<Op>, later: seq<Op>)
    requires Run(start, a) == Run(start, b) && Outputs(start, a) == Outputs(start, b)
    ensures Run(start, a + later) == Run(start, b + later)
    ensures Outputs(start, a + later) == Outputs(start, b + later)
    decreases |later|
  {
    hide Run, Outputs;
    if later == [] {
      assert a + later == a && b + later == b;
    } else {
      AlikeNext(start, a, b, later[0]);
      OneByOne(a, later);
      OneByOne(b, later);
      SameContinuation(start, a + [later[0]], b + [later[0]], later[1..]);
    }
  }

  lemma {:induction false} SameCounts(start: nat, a: seq<Op>, b: seq<Op>, later: seq<Op>, outcome: Outcome)
    requires Run(start, a) == Run(start, b) && Count(start, a, outcome) == Count(start, b, outcome)
    ensures Count(start, a + later, outcome) == Count(start, b + later, outcome)
    decreases |later|
  {
    hide Run, Count, OutcomeOf, Insert, Pop;
    if later == [] {
      assert a + later == a && b + later == b;
    } else {
      CountNext(start, a, later[0], outcome);
      CountNext(start, b, later[0], outcome);
      RunNext(start, a, later[0]);
      RunNext(start, b, later[0]);
      OneByOne(a, later);
      OneByOne(b, later);
      SameCounts(start, a + [later[0]], b + [later[0]], later[1..], outcome);
    }
  }

  /** Within a history, rearranging the arrivals between two pops changes no output and no counter, then or later. */
  lemma ReorderingUnheard(start: nat, before: seq<Op>, xs: seq<Packet>, ys: seq<Packet>, later: seq<Op>,
                          outcome: Outcome)
    requires multiset(xs) == multiset(ys) && NoClashes(Run(start, before), xs)
    ensures Outputs(start, before + AsArrivals(xs) + later) == Outputs(start, before + AsArrivals(ys) + later)
    ensures Count(start, before + AsArrivals(xs) + later, outcome)
            == Count(start, before + AsArrivals(ys) + later, outcome)
  {
    hide Run, Outputs, Count, InsertAll, NoClashes, AsArrivals;
    ReorderingInvisible(Run(start, before), xs, ys);
    RunInserts(start, before, xs);
    RunInserts(start, before, ys);
    SameContinuation(start, before + AsArrivals(xs), before + AsArrivals(ys), later);
    CountInserts(start, before, xs, outcome);
    CountInserts(start, before, ys, outcome);
    SameCounts(start, before + AsArrivals(xs), before + AsArrivals(ys), later, outcome);
  }
}
