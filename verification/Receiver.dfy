/**
 The application side of audio reception: which session is played, when its
 playback task starts, and what its jitter buffer has been fed.
 */
module Receiver {
  import opened Options
  import opened PacketQueue
  import opened PacketHistory

  datatype BufferStart = ReceivingPackets(count: nat) | Started

  /**
   A stream as a value. `spawned` counts the playback tasks started for it;
   `startSeq` and `ops` are history: the number its queue began with, and all
   arrivals and pops since.
   */
  datatype StreamState = StreamState(
    sid: nat, queue: Queue, start: BufferStart, spawned: nat, startSeq: nat, ops: seq<Op>)

  function NewStream(sid: nat, seqNo: nat): StreamState {
    StreamState(sid, Queue(seqNo, []), ReceivingPackets(0), 0, seqNo, [])
  }

  /** `receive_audio`, where `delay` is DELAY_START_PACKETS. */
  function Received(s: StreamState, packet: Packet, delay: nat): StreamState {
    var s' := s.(queue := Insert(s.queue, packet), ops := s.ops + [Arrive(packet)]);
    match s.start
    case Started => s'
    case ReceivingPackets(count) =>
      if count + 1 > delay then s'.(start := Started, spawned := s.spawned + 1)
      else s'.(start := ReceivingPackets(count + 1))
  }

  /** `prepare_stream`: a newer session replaces the current one; a failed allocation leaves none. */
  function Prepared(current: Option<StreamState>, sid: nat, seqNo: nat, alloc: bool): Option<StreamState> {
    if current.Some? && current.value.sid >= sid then current
    else if alloc then Some(NewStream(sid, seqNo))
    else None
  }

  /** An audio packet, and whether memory for a stream was to be had; or a pop by the playback task. */
  datatype Event = Audio(sid: nat, packet: Packet, alloc: bool) | Play

  function React(current: Option<StreamState>, e: Event, delay: nat): Option<StreamState> {
    match e
    case Audio(sid, packet, alloc) =>
      var stream := Prepared(current, sid, packet.seqNo, alloc);
      if stream.Some? then Some(Received(stream.value, packet, delay)) else None
    case Play =>
      if current.Some? && current.value.start.Started?
      then Some(current.value.(queue := Pop(current.value.queue), ops := current.value.ops + [Take]))
      else current
  }

  function After(events: seq<Event>, delay: nat): Option<StreamState> {
    if events == [] then None
    else React(After(events[..|events| - 1], delay), events[|events| - 1], delay)
  }

  // ----- whole runs -----

  /**
   The stream was made by the event at `c`, since which nobody newer has
   spoken; `f` is the start, or just after an allocation that failed.
   */
  ghost predicate MadeBy(events: seq<Event>, s: StreamState, f: nat, c: nat) {
    && f <= c < |events|
    && events[c].Audio? && events[c].sid == s.sid && events[c].packet.seqNo == s.startSeq
    && (forall i | f <= i < c && events[i].Audio? :: events[i].sid < s.sid)
    && (forall i | c <= i < |events| && events[i].Audio? :: events[i].sid <= s.sid)
  }

  /** Its queue has seen every audio packet since, whatever its session, in order. */
  ghost predicate FedBy(events: seq<Event>, s: StreamState, c: nat)
    requires c <= |events|
  {
    && s.queue == Run(s.startSeq, s.ops)
    && Packets(s.ops) == Payloads(events[c..])
  }

  ghost function Packets(ops: seq<Op>): seq<Packet> {
    if ops == [] then [] else
    Packets(ops[..|ops| - 1]) + if ops[|ops| - 1].Arrive? then [ops[|ops| - 1].packet] else []
  }

  ghost function Payloads(events: seq<Event>): seq<Packet> {
    if events == [] then [] else
    Payloads(events[..|events| - 1]) + if events[|events| - 1].Audio? then [events[|events| - 1].packet] else []
  }

  /**
   What the events since a stream was made mean for its queue: every audio
   packet arrives, and a pop takes one out once playback has started, that is,
   after more than `delay` packets.
   */
  ghost function OpsTold(events: seq<Event>, delay: nat): seq<Op> {
    if events == [] then [] else
    var before := events[..|events| - 1];
    OpsTold(before, delay) +
    match events[|events| - 1]
    case Audio(_, packet, _) => [Arrive(packet)]
    case Play => if |Payloads(before)| > delay then [Take] else []
  }

  /** Playback starts with the first packet beyond the delay, once. */
  ghost predicate StartInv(s: StreamState, delay: nat) {
    var n := |Packets(s.ops)|;
    && n > 0
    && s.spawned == (if n > delay then 1 else 0)
    && s.start == if n > delay then Started else ReceivingPackets(n)
  }

  ghost predicate AfterFailure(events: seq<Event>, f: nat) {
    f <= |events| && (f == 0 || (events[f - 1].Audio? && !events[f - 1].alloc))
  }

  /**
   The stream, if there is one, belongs to the newest session heard since the
   last failed allocation, begins at that session's first packet, has been fed
   every packet from there on, has had one taken out by every pop since its
   playback started, and has started its playback task exactly once if and
   only if more than `delay` packets have come. Without a stream,
   nothing has been heard since the start or the last failure.
   */
  ghost predicate Explains(events: seq<Event>, current: Option<StreamState>, delay: nat, f: nat, c: nat) {
    && AfterFailure(events, f)
    && match current
       case Some(s) =>
         && MadeBy(events, s, f, c) && FedBy(events, s, c) && StartInv(s, delay)
         && s.ops == OpsTold(events[c..], delay)
       case None => forall i | f <= i < |events| :: !events[i].Audio?
  }

  ghost predicate Explained(events: seq<Event>, current: Option<StreamState>, delay: nat) {
    exists f: nat, c: nat :: Explains(events, current, delay, f, c)
  }

  lemma PacketsNext(ops: seq<Op>, op: Op)
    ensures Packets(ops + [op]) == Packets(ops) + if op.Arrive? then [op.packet] else []
  {
    assert (ops + [op])[..|ops|] == ops;
  }

  lemma PayloadsNext(events: seq<Event>, c: nat, e: Event)
    requires c <= |events|
    ensures Payloads((events + [e])[c..]) == Payloads(events[c..]) + if e.Audio? then [e.packet] else []
  {
    assert (events + [e])[c..] == events[c..] + [e];
    assert (events[c..] + [e])[..|events[c..]|] == events[c..];
  }

  lemma OpsToldNext(events: seq<Event>, c: nat, e: Event, delay: nat)
    requires c <= |events|
    ensures OpsTold((events + [e])[c..], delay) == OpsTold(events[c..], delay) +
            match e
            case Audio(_, packet, _) => [Arrive(packet)]
            case Play => if |Payloads(events[c..])| > delay then [Take] else []
  {
    hide Payloads;
    assert (events + [e])[c..] == events[c..] + [e];
    assert (events[c..] + [e])[..|events[c..]|] == events[c..];
  }

  lemma AfterNext(events: seq<Event>, e: Event, delay: nat)
    ensures After(events + [e], delay) == React(After(events, delay), e, delay)
  {
    hide React;
    assert (events + [e])[..|events|] == events;
  }

  lemma StreamFedOn(events: seq<Event>, e: Event, s: StreamState, f: nat, c: nat, delay: nat)
    requires Explains(events, Some(s), delay, f, c)
    requires e.Audio? ==> e.sid <= s.sid
    ensures Explains(events + [e], React(Some(s), e, delay), delay, f, c)
  {
    hide Insert, Pop, Run, Packets, Payloads, OpsTold;
    PayloadsNext(events, c, e);
    OpsToldNext(events, c, e, delay);
    if e.Audio? {
      PacketsNext(s.ops, Arrive(e.packet));
      RunNext(s.startSeq, s.ops, Arrive(e.packet));
    } else {
      PacketsNext(s.ops, Take);
      RunNext(s.startSeq, s.ops, Take);
    }
  }

  lemma StreamMade(events: seq<Event>, e: Event, f: nat, delay: nat)
    requires e.Audio? && AfterFailure(events, f)
    requires forall i | f <= i < |events| && events[i].Audio? :: events[i].sid < e.sid
    ensures var s := Received(NewStream(e.sid, e.packet.seqNo), e.packet, delay);
            Explains(events + [e], Some(s), delay, f, |events|)
  {
    hide Insert;
    assert [] + [Arrive(e.packet)] == [Arrive(e.packet)];
    PacketsNext([], Arrive(e.packet));
    RunNext(e.packet.seqNo, [], Arrive(e.packet));
    PayloadsNext(events, |events|, e);
    OpsToldNext(events, |events|, e, delay);
    hide Packets, Payloads, Run, OpsTold;
  }

  /** Any events explain the current stream. */
  lemma {:induction false} CurrentStream(events: seq<Event>, delay: nat) returns (f: nat, c: nat)
    ensures Explains(events, After(events, delay), delay, f, c)
    decreases |events|
  {
    hide Received, MadeBy, FedBy, StartInv;
    if events == [] {
      f, c := 0, 0;
    } else {
      var before, e := events[..|events| - 1], events[|events| - 1];
      assert events == before + [e];
      f, c := CurrentStream(before, delay);
      AfterNext(before, e, delay);
      f, c := ExplainedOn(before, After(before, delay), e, delay, f, c);
    }
  }

  lemma ExplainedOn(events: seq<Event>, current: Option<StreamState>, e: Event, delay: nat, f: nat, c: nat)
    returns (f': nat, c': nat)
    requires Explains(events, current, delay, f, c)
    ensures Explains(events + [e], React(current, e, delay), delay, f', c')
  {
    hide Received, FedBy, StartInv;
    f', c' := f, c;
    if current.Some? && (e.Audio? ==> e.sid <= current.value.sid) {
      StreamFedOn(events, e, current.value, f, c, delay);
    } else if e.Audio? && e.alloc {
      StreamMade(events, e, f, delay);
      c' := |events|;
    } else if e.Audio? {
      f' := |events| + 1;
    }
  }

  /** Over any events, the pops a stream's queue has seen are the pops since its playback started. */
  lemma PopsArePlays(events: seq<Event>, delay: nat) returns (f: nat, c: nat)
    requires After(events, delay).Some?
    ensures Explains(events, After(events, delay), delay, f, c)
    ensures Pops(After(events, delay).value.ops) == |Plays(events[c..], delay)|
  {
    hide After, Pops, OpsTold, Payloads;
    f, c := CurrentStream(events, delay);
    CountPlays(events[c..], delay);
  }

  /** When the pops of a started playback were. */
  ghost function Plays(events: seq<Event>, delay: nat): set<nat> {
    set i: nat | i < |events| && events[i].Play? && |Payloads(events[..i])| > delay
  }

  lemma PlaysNext(before: seq<Event>, e: Event, delay: nat)
    ensures |Plays(before + [e], delay)|
            == |Plays(before, delay)| + if e.Play? && |Payloads(before)| > delay then 1 else 0
  {
    hide Payloads;
    var n := |before|;
    assert forall i | 0 <= i <= n :: (before + [e])[..i] == before[..i];
    assert before[..n] == before;
    assert Plays(before + [e], delay)
           == Plays(before, delay) + if e.Play? && |Payloads(before)| > delay then {n} else {};
  }

  lemma {:induction false} CountPlays(events: seq<Event>, delay: nat)
    ensures Pops(OpsTold(events, delay)) == |Plays(events, delay)|
    decreases |events|
  {
    hide Payloads, Pops, Plays;
    if events == [] {
      assert Pops([]) == 0 by { PopsCounts([]); }
      assert |Plays([], delay)| == 0 by { NoPlays(delay); }
    } else {
      var before, e := events[..|events| - 1], events[|events| - 1];
      CountPlays(before, delay);
      PlaysNext(before, e, delay);
      assert events == before + [e];
      if e.Audio? {
        PopsNext(OpsTold(before, delay), [Arrive(e.packet)]);
      } else {
        PopsNext(OpsTold(before, delay), if |Payloads(before)| > delay then [Take] else []);
      }
    }
  }

  lemma NoPlays(delay: nat)
    ensures |Plays([], delay)| == 0
  {
  }

  lemma HistoryExplains(events: seq<Event>, delay: nat)
    ensures Explained(events, After(events, delay), delay)
  {
    hide Explains;
    var f, c := CurrentStream(events, delay);
  }

  lemma QueueIsRun(events: seq<Event>, s: StreamState, delay: nat)
    requires After(events, delay) == Some(s)
    ensures s.queue == Run(s.startSeq, s.ops)
  {
    hide After, Run, MadeBy, StartInv;
    var f, c := CurrentStream(events, delay);
  }

  /** The next pop returns the winner of its position. */
  lemma NextOutput(start: nat, ops: seq<Op>)
    ensures Popped(Run(start, ops)) == Won(start, ops + [Take], Pops(ops))
  {
    HistoryHolds(start, ops);
    assert Waiting(Run(start, ops), Pops(ops) - Pops(ops)) == Won(start, ops, Pops(ops));
    assert (ops + [Take])[..|ops|] == ops;
    TakeWinsNothing(start, ops + [Take], Pops(ops));
  }

  /**
   A stream starts its playback task on exactly one packet, the first beyond
   the delay, and no other event starts one.
   */
  lemma StartsOnFirstBeyondDelay(events: seq<Event>, e: Event, delay: nat)
    ensures var before, after := After(events, delay), After(events + [e], delay);
            after.Some? ==>
              after.value.spawned ==
              (if before.Some? && before.value.sid == after.value.sid then before.value.spawned else 0)
              + (if e.Audio? && |Packets(after.value.ops)| == delay + 1 then 1 else 0)
  {
    hide After, Run, Insert, Packets, MadeBy, FedBy;
    var before := After(events, delay);
    AfterNext(events, e, delay);
    var f, c := CurrentStream(events, delay);
    var g, d := CurrentStream(events + [e], delay);
    var after := After(events + [e], delay);
    if after.Some? {
      if before.Some? {
        PacketsNext(before.value.ops, if e.Audio? then Arrive(e.packet) else Take);
      }
      if e.Audio? {
        PacketsNext([], Arrive(e.packet));
        assert Packets([]) == [] by { NoPackets(); }
        assert [] + [Arrive(e.packet)] == [Arrive(e.packet)];
      }
    }
  }

  lemma NoPackets()
    ensures Packets([]) == []
  {
  }

  /** Without allocation failures, the session played is the newest ever heard. */
  lemma NewestSessionPlays(events: seq<Event>, delay: nat)
    requires forall i | 0 <= i < |events| && events[i].Audio? :: events[i].alloc
    ensures match After(events, delay)
            case Some(s) =>
              && (forall i | 0 <= i < |events| && events[i].Audio? :: events[i].sid <= s.sid)
              && (exists i | 0 <= i < |events| :: events[i].Audio? && events[i].sid == s.sid)
            case None =>
              forall i | 0 <= i < |events| :: !events[i].Audio?
  {
    hide After, FedBy, StartInv;
    var f, c := CurrentStream(events, delay);
  }

  // ----- packets of other sessions -----

  /** A packet is fed to a stream of another session exactly when its own session is older than the stream's. */
  lemma ForeignFedExactlyWhen(current: Option<StreamState>, sid: nat, packet: Packet, alloc: bool, delay: nat)
    ensures var after := React(current, Audio(sid, packet, alloc), delay);
            && (after.Some? && after.value.sid != sid <==> current.Some? && sid < current.value.sid)
            && (after.Some? ==>
                  && after.value.ops != [] && after.value.ops[|after.value.ops| - 1] == Arrive(packet)
                  && (sid < after.value.sid ==>
                        after.value.ops == current.value.ops + [Arrive(packet)]
                        && after.value.queue == Insert(current.value.queue, packet)))
  {
    hide Insert;
  }

  /** The packets of one session alone. */
  ghost function PayloadsOf(events: seq<Event>, sid: nat): seq<Packet> {
    if events == [] then [] else
    var e := events[|events| - 1];
    PayloadsOf(events[..|events| - 1], sid) + if e.Audio? && e.sid == sid then [e.packet] else []
  }

  lemma {:induction false} AllOfOneSession(events: seq<Event>, sid: nat)
    ensures |PayloadsOf(events, sid)| <= |Payloads(events)|
    ensures PayloadsOf(events, sid) == Payloads(events) <==>
            forall i | 0 <= i < |events| && events[i].Audio? :: events[i].sid == sid
    decreases |events|
  {
    if events != [] {
      var n := |events| - 1;
      AllOfOneSession(events[..n], sid);
      assert forall i | 0 <= i < n :: events[..n][i] == events[i];
      if PayloadsOf(events, sid) == Payloads(events) {
        assert |PayloadsOf(events, sid)| == |Payloads(events)|;
        assert events[n].Audio? ==> events[n].sid == sid;
        assert PayloadsOf(events[..n], sid) == PayloadsOf(events, sid)[..|PayloadsOf(events[..n], sid)|];
      }
    }
  }

  /** A stream has been fed its own session's packets alone exactly when nobody older has spoken since it was made. */
  lemma OwnSessionExactlyWhen(events: seq<Event>, delay: nat) returns (f: nat, c: nat)
    requires After(events, delay).Some?
    ensures Explains(events, After(events, delay), delay, f, c)
    ensures var s := After(events, delay).value;
            Packets(s.ops) == PayloadsOf(events[c..], s.sid) <==>
            forall i | c <= i < |events| && events[i].Audio? :: events[i].sid >= s.sid
  {
    hide After, Run, Packets, Payloads, PayloadsOf, StartInv;
    f, c := CurrentStream(events, delay);
    var s := After(events, delay).value;
    AllOfOneSession(events[c..], s.sid);
    assert forall i | c <= i < |events| :: events[c..][i - c] == events[i];
    assert forall i | 0 <= i < |events| - c :: events[c..][i] == events[c + i];
  }

  /** It does happen: after a packet of session 2, one of session 1 goes to the same stream. */
  lemma OlderSessionFed(a: Packet, b: Packet, delay: nat)
    ensures var s := After([Audio(2, a, true), Audio(1, b, true)], delay);
            s.Some? && s.value.sid == 2 && Packets(s.value.ops) == [a, b]
  {
    hide Insert;
    var first := [Audio(2, a, true)];
    assert first == [] + first && first + [Audio(1, b, true)] == [Audio(2, a, true), Audio(1, b, true)];
    AfterNext([], Audio(2, a, true), delay);
    AfterNext(first, Audio(1, b, true), delay);
    var s := After([Audio(2, a, true), Audio(1, b, true)], delay).value;
    assert s.ops == ([] + [Arrive(a)]) + [Arrive(b)];
    PacketsNext([], Arrive(a));
    PacketsNext([] + [Arrive(a)], Arrive(b));
  }

  // ----- the objects -----

  class Stream {
    const sid: nat
    const queue: Shared
    var start: BufferStart
    var spawned: nat
    ghost const startSeq: nat
    ghost var ops: seq<Op>
    ghost var played: seq<Option<Packet>>

    ghost function Objects(): set<object> {
      {this, queue, queue.queue, queue.queue.buffer}
    }

    ghost predicate Valid()
      reads Objects()
    {
      queue.Valid() && played == Outputs(startSeq, ops)
    }

    ghost function Abs(): StreamState
      reads Objects()
      requires Valid()
    {
      StreamState(sid, queue.Abs(), start, spawned, startSeq, ops)
    }

    constructor (sid: nat, seqNo: u64)
      ensures Valid() && fresh(Objects())
      ensures Abs() == NewStream(sid, seqNo)
    {
      var buffer := new Option<Packet>[MAX_QUEUED_PACKETS];
      var deque := new Deque(buffer);
      queue := new Shared(seqNo, deque);
      this.sid, start, spawned := sid, ReceivingPackets(0), 0;
      startSeq, ops, played := seqNo, [], [];
    }

    method ReceiveAudio(packet: Packet, delay: nat)
      requires Valid() && queue.headSeq + MAX_QUEUED_PACKETS < 0x1_0000_0000_0000_0000
      modifies Objects()
      ensures Valid() && Abs() == Received(old(Abs()), packet, delay)
    {
      hide Insert;
      var outcome := queue.InsertPacket(packet);
      OutputsNext(startSeq, ops, Arrive(packet));
      hide Outputs;
      ops := ops + [Arrive(packet)];
      if start.ReceivingPackets? {
        start := ReceivingPackets(start.count + 1);
        if start.count > delay {
          StartTask();
        }
      }
    }

    method StartTask()
      requires Valid()
      modifies this`start, this`spawned
      ensures Valid() && Abs() == old(Abs()).(start := Started, spawned := old(spawned) + 1)
    {
      spawned := spawned + 1;
      start := Started;
    }
  }

  /** `events` is history: all that has happened, which the objects are always the outcome of. */
  class Receiver {
    const delay: nat
    var stream: Stream?
    ghost var events: seq<Event>

    ghost function Objects(): set<object>
      reads this
    {
      {this} + if stream == null then {} else stream.Objects()
    }

    ghost function Abs(): Option<StreamState>
      reads this, if stream == null then {} else stream.Objects()
      requires stream != null ==> stream.Valid()
    {
      if stream == null then None else Some(stream.Abs())
    }

    ghost predicate Valid()
      reads this, Objects()
    {
      (stream != null ==> stream.Valid()) && Abs() == After(events, delay)
    }

    constructor (delay: nat)
      ensures Valid() && events == [] && this.delay == delay && stream == null
    {
      this.delay, stream, events := delay, null, [];
    }

    method PrepareStream(sid: nat, seqNo: u64, alloc: bool) returns (prepared: Stream?)
      requires stream != null ==> stream.Valid()
      modifies this`stream
      ensures prepared == stream && (stream != null ==> stream.Valid())
      ensures Abs() == Prepared(old(Abs()), sid, seqNo, alloc)
      ensures stream == old(stream) || stream == null || fresh(stream.Objects())
      ensures stream != null && stream != old(stream) ==> stream.queue.headSeq == seqNo
    {
      if stream == null || stream.sid < sid {
        if alloc {
          stream := new Stream(sid, seqNo);
        } else {
          stream := null;
        }
      }
      prepared := stream;
    }

    /**
     One turn of the application loop on an audio packet. Whatever came before,
     the objects are explained by the whole history afterwards.
     */
    method OnAudio(sid: nat, packet: Packet, alloc: bool)
      requires Valid() && packet.seqNo + MAX_QUEUED_PACKETS < 0x1_0000_0000_0000_0000
      requires stream != null ==> stream.queue.headSeq + MAX_QUEUED_PACKETS < 0x1_0000_0000_0000_0000
      modifies Objects()
      ensures Valid() && events == old(events) + [Audio(sid, packet, alloc)]
      ensures Explained(events, Abs(), delay)
      ensures stream == old(stream) || stream == null || fresh(stream.Objects())
    {
      hide After, Received, Prepared, Explained;
      var prepared := PrepareStream(sid, packet.seqNo, alloc);
      if prepared != null {
        prepared.ReceiveAudio(packet, delay);
      }
      events := events + [Audio(sid, packet, alloc)];
      AfterNext(old(events), Audio(sid, packet, alloc), delay);
      HistoryExplains(events, delay);
    }

    /**
     The playback task takes the next packet: the winner of this pop among all
     that has reached the stream. All it has been given so far is the outputs
     of the queue's whole history, which has one more pop now.
     */
    method Play() returns (packet: Option<Packet>)
      requires Valid() && stream != null && stream.start.Started?
      requires stream.queue.headSeq + 1 < 0x1_0000_0000_0000_0000
      modifies Objects()
      ensures Valid() && events == old(events) + [Event.Play] && stream == old(stream)
      ensures Explained(events, Abs(), delay)
      ensures packet == Won(stream.startSeq, stream.ops, Pops(old(stream.ops)))
      ensures stream.ops == old(stream.ops) + [Take]
      ensures stream.played == old(stream.played) + [packet] == Outputs(stream.startSeq, stream.ops)
    {
      hide After, Explained, Insert, Run, Pops, Outputs, Won;
      ghost var s := stream.Abs();
      packet := stream.queue.PopFront();
      OutputsNext(s.startSeq, s.ops, Take);
      stream.ops := stream.ops + [Take];
      stream.played := stream.played + [packet];
      events := events + [Event.Play];
      AfterNext(old(events), Event.Play, delay);
      HistoryExplains(events, delay);
      QueueIsRun(old(events), s, delay);
      NextOutput(s.startSeq, s.ops);
    }
  }
}
