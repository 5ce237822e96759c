/**
 The bounded channel: a sender and a receiver in different tasks around one heap
 block with a real-time queue in it, freed by whichever side goes last. The
 queue's own operations are atomic, first in, first out.
 */
module Channel {
  /**
   What the sending side does next. `Reserved` is `send` after `poll_reserve`
   came back ready; while still `Reserving`, its future may be dropped.
   */
  datatype Sender<T> =
    | SenderIdle
    | Reserving(value: T)
    | Reserved(value: T)
    | SenderNotifies
    | SenderFrees
    | SenderGone
    | SenderPanicked

  datatype Receiver =
    | ReceiverIdle
    | ReceiverNotifies
    | ReceiverFrees
    | ReceiverGone

  /**
   `txAlive` and `rxAlive` are the bits of the shared flags, `deleted` how often
   the block has been freed. The last three are history: the accepted items, the
   received ones and those drained when the queue was dropped.
   */
  datatype State<T> = State(
    capacity: nat, queue: seq<T>, txAlive: bool, rxAlive: bool, deleted: nat,
    tx: Sender<T>, rx: Receiver,
    sent: seq<T>, received: seq<T>, drained: seq<T>)

  datatype Step<T> =
    | TrySend(item: T)
    | BeginSend(item: T)
    | CancelSend
    | PollReserve
    | SendReserved
    | NotifyReceiver
    | DropSender
    | TryReceive
    | NotifySender
    | DropReceiver
    | Drain
    | Delete

  ghost predicate Init<T>(s: State<T>) {
    && s.queue == [] && s.txAlive && s.rxAlive && s.deleted == 0
    && s.tx == SenderIdle && s.rx == ReceiverIdle
    && s.sent == [] && s.received == [] && s.drained == []
  }

  ghost predicate Next<T>(s: State<T>, step: Step<T>, s': State<T>) {
    match step
    case TrySend(item) =>
      s.tx.SenderIdle? &&
      s' == if |s.queue| < s.capacity
            then s.(queue := s.queue + [item], sent := s.sent + [item], tx := SenderNotifies)
            else s
    case BeginSend(item) =>
      s.tx.SenderIdle? && s' == s.(tx := Reserving(item))
    case CancelSend =>
      s.tx.Reserving? && s' == s.(tx := SenderIdle)
    case PollReserve =>
      s.tx.Reserving? && s' == if |s.queue| < s.capacity then s.(tx := Reserved(s.tx.value)) else s
    case SendReserved =>
      s.tx.Reserved? &&
      s' == if |s.queue| < s.capacity
            then s.(queue := s.queue + [s.tx.value], sent := s.sent + [s.tx.value], tx := SenderNotifies)
            else s.(tx := SenderPanicked)
    case NotifyReceiver =>
      s.tx.SenderNotifies? && s' == s.(tx := SenderIdle)
    case DropSender =>
      s.tx.SenderIdle? && s' == s.(txAlive := false, tx := if s.rxAlive then SenderGone else SenderFrees)
    case TryReceive =>
      s.rx.ReceiverIdle? &&
      s' == if s.queue != []
            then s.(queue := s.queue[1..], received := s.received + [s.queue[0]], rx := ReceiverNotifies)
            else s
    case NotifySender =>
      s.rx.ReceiverNotifies? && s' == s.(rx := ReceiverIdle)
    case DropReceiver =>
      s.rx.ReceiverIdle? && s' == s.(rxAlive := false, rx := if s.txAlive then ReceiverGone else ReceiverFrees)
    case Drain =>
      (s.tx.SenderFrees? || s.rx.ReceiverFrees?) && s.queue != [] &&
      s' == s.(queue := s.queue[1..], drained := s.drained + [s.queue[0]])
    case Delete =>
      (s.tx.SenderFrees? || s.rx.ReceiverFrees?) && s.queue == [] &&
      s' == s.(deleted := s.deleted + 1,
               tx := if s.tx.SenderFrees? then SenderGone else s.tx,
               rx := if s.rx.ReceiverFrees? then ReceiverGone else s.rx)
  }

  ghost predicate FlagInv<T>(s: State<T>) {
    && (s.txAlive <==> !s.tx.SenderFrees? && !s.tx.SenderGone?)
    && (s.rxAlive <==> !s.rx.ReceiverFrees? && !s.rx.ReceiverGone?)
    && (s.tx.SenderFrees? ==> s.rx.ReceiverGone?)
    && (s.rx.ReceiverFrees? ==> s.tx.SenderGone?)
    && s.deleted == (if s.tx.SenderGone? && s.rx.ReceiverGone? then 1 else 0)
  }

  ghost predicate ItemInv<T>(s: State<T>) {
    && s.sent == s.received + s.drained + s.queue
    && |s.queue| <= s.capacity
    && (s.drained != [] ==> !s.txAlive && !s.rxAlive)
    && (s.tx.Reserved? ==> |s.queue| < s.capacity)
    && !s.tx.SenderPanicked?
    && (s.deleted > 0 ==> s.queue == [])
  }

  lemma NextKeepsInv<T>(s: State<T>, step: Step<T>, s': State<T>)
    requires FlagInv(s) && ItemInv(s) && Next(s, step, s')
    ensures FlagInv(s') && ItemInv(s')
  {
    FlagsKept(s, step, s');
    ItemsKept(s, step, s');
  }

  lemma FlagsKept<T>(s: State<T>, step: Step<T>, s': State<T>)
    requires FlagInv(s) && Next(s, step, s')
    ensures FlagInv(s')
  {
  }

  lemma ItemsKept<T>(s: State<T>, step: Step<T>, s': State<T>)
    requires FlagInv(s) && ItemInv(s) && Next(s, step, s')
    ensures ItemInv(s')
  {
    if step.TryReceive? || step.Drain? {
      if s.queue != [] {
        assert s.queue == [s.queue[0]] + s.queue[1..];
      }
    }
  }

  ghost predicate IsRun<T>(run: seq<State<T>>, steps: seq<Step<T>>) {
    && |run| == |steps| + 1 && Init(run[0])
    && (forall i | 0 <= i < |steps| :: Next(run[i], steps[i], run[i + 1]))
  }

  lemma {:induction false} RunInv<T>(run: seq<State<T>>, steps: seq<Step<T>>, i: nat)
    requires IsRun(run, steps) && i < |run|
    ensures FlagInv(run[i]) && ItemInv(run[i])
  {
    if i > 0 {
      RunInv(run, steps, i - 1);
      NextKeepsInv(run[i - 1], steps[i - 1], run[i]);
    }
  }

  /**
   Every accepted item is received, still queued, or drained when the queue is
   dropped, in the order it was sent; nothing drains while a side lives.
   */
  lemma ItemsConserved<T>(run: seq<State<T>>, steps: seq<Step<T>>, i: nat)
    requires IsRun(run, steps) && i < |run|
    ensures var s := run[i];
            && s.sent == s.received + s.drained + s.queue
            && |s.queue| <= s.capacity
            && (s.txAlive || s.rxAlive ==> s.drained == [])
            && (s.deleted > 0 ==> s.sent == s.received + s.drained)
  {
    RunInv(run, steps, i);
  }

  /** The block is freed at most once, exactly when both sides are gone, and by the one that went last. */
  lemma FreedByTheLast<T>(run: seq<State<T>>, steps: seq<Step<T>>, i: nat)
    requires IsRun(run, steps) && i < |run|
    ensures run[i].deleted <= 1
    ensures run[i].deleted == 1 <==> run[i].tx.SenderGone? && run[i].rx.ReceiverGone?
    ensures !(run[i].tx.SenderFrees? && run[i].rx.ReceiverFrees?)
    ensures i < |steps| && run[i + 1].deleted != run[i].deleted ==>
              !run[i].txAlive && !run[i].rxAlive && steps[i].Delete? && run[i].queue == []
  {
    RunInv(run, steps, i);
    if i < |steps| {
      assert Next(run[i], steps[i], run[i + 1]);
    }
  }

  /** With a single sender, a slot seen free stays free until `send` fills it: the panic is never reached. */
  lemma SendNeverPanics<T>(run: seq<State<T>>, steps: seq<Step<T>>, i: nat)
    requires IsRun(run, steps) && i < |run|
    ensures !run[i].tx.SenderPanicked?
    ensures i < |steps| && steps[i].SendReserved? ==>
              run[i].tx.Reserved? && run[i + 1].sent == run[i].sent + [run[i].tx.value]
  {
    RunInv(run, steps, i);
    if i < |steps| {
      assert Next(run[i], steps[i], run[i + 1]);
    }
  }

  /** Once both ends have been dropped, the side left to free the block drains and deletes it unaided. */
  lemma FreeingFinishes<T>(run: seq<State<T>>, steps: seq<Step<T>>, i: nat)
    requires IsRun(run, steps) && i < |steps| && !run[i].txAlive && !run[i].rxAlive
    ensures run[i].deleted == 0 && (steps[i].Drain? || steps[i].Delete?)
    ensures steps[i].Drain? ==> |run[i + 1].queue| == |run[i].queue| - 1
    ensures steps[i].Delete? ==> run[i + 1].deleted == 1
  {
    RunInv(run, steps, i);
    assert Next(run[i], steps[i], run[i + 1]);
  }

  // ----- what each call does -----

  /** A receive takes the oldest item not yet received, and comes back empty only if all that was sent has been. */
  lemma ReceiveTakesOldest<T>(run: seq<State<T>>, steps: seq<Step<T>>, i: nat)
    requires IsRun(run, steps) && i < |steps| && steps[i].TryReceive?
    ensures var before, after := run[i], run[i + 1];
            && before.received <= before.sent && after.sent == before.sent
            && (before.received == before.sent ==> after == before)
            && (before.received != before.sent ==>
                  after.received == before.received + [before.sent[|before.received|]] && after.rx.ReceiverNotifies?)
  {
    RunInv(run, steps, i);
    assert Next(run[i], steps[i], run[i + 1]);
  }

  /** Room for another item: fewer than `capacity` have been sent and not received. */
  predicate HasRoom<T>(s: State<T>) {
    |s.sent| - |s.received| < s.capacity
  }

  /** A send that does not wait is accepted exactly if there is room, and a waiting one goes on exactly then. */
  lemma SendNeedsRoom<T>(run: seq<State<T>>, steps: seq<Step<T>>, i: nat)
    requires IsRun(run, steps) && i < |steps|
    ensures run[i + 1].capacity == run[i].capacity
    ensures steps[i].TrySend? && HasRoom(run[i]) ==>
              run[i + 1].sent == run[i].sent + [steps[i].item] && run[i + 1].tx.SenderNotifies?
    ensures steps[i].TrySend? && !HasRoom(run[i]) ==> run[i + 1] == run[i]
    ensures steps[i].PollReserve? ==> (run[i + 1].tx.Reserved? <==> HasRoom(run[i]))
    ensures run[i + 1].sent != run[i].sent ==> steps[i].TrySend? || steps[i].SendReserved?
  {
    RunInv(run, steps, i);
    assert Next(run[i], steps[i], run[i + 1]);
  }

  /** What a waiting send delivers in the end is the value it was called with. */
  lemma {:induction false} SendKeepsValue<T>(run: seq<State<T>>, steps: seq<Step<T>>, i: nat) returns (q: nat)
    requires IsRun(run, steps) && i < |run| && (run[i].tx.Reserving? || run[i].tx.Reserved?)
    ensures q < i && steps[q] == BeginSend(run[i].tx.value)
    ensures forall j | q < j < i :: !steps[j].BeginSend? && !steps[j].CancelSend? && !steps[j].SendReserved?
    ensures i < |steps| && steps[i].SendReserved? ==> run[i + 1].sent == run[i].sent + [steps[q].item]
  {
    if i < |steps| {
      SendNeverPanics(run, steps, i);
    }
    if i == 0 {
      assert false;
    } else {
      assert Next(run[i - 1], steps[i - 1], run[i]);
      if steps[i - 1].BeginSend? {
        q := i - 1;
      } else {
        q := SendKeepsValue(run, steps, i - 1);
      }
    }
  }

  // ----- nobody is stuck -----

  lemma RunLonger<T>(run: seq<State<T>>, steps: seq<Step<T>>, step: Step<T>, s': State<T>)
    returns (run': seq<State<T>>, steps': seq<Step<T>>)
    requires IsRun(run, steps) && |run| == |steps| + 1 && Next(run[|steps|], step, s')
    ensures run' == run + [s'] && steps' == steps + [step]
    ensures IsRun(run', steps') && |run'| == |steps'| + 1 && run'[|steps'|] == s'
  {
    hide Next;
    run', steps' := run + [s'], steps + [step];
    forall i | 0 <= i < |steps'|
      ensures Next(run'[i], steps'[i], run'[i + 1])
    {
      if i < |steps| {
        assert Next(run[i], steps[i], run[i + 1]);
      }
    }
  }

  /** The receiver alone can always fetch all that has been sent, one item after the other. */
  lemma {:induction false} AllCanBeReceived<T>(run: seq<State<T>>, steps: seq<Step<T>>)
    returns (run': seq<State<T>>, steps': seq<Step<T>>)
    requires IsRun(run, steps) && run[|steps|].rxAlive
    ensures IsRun(run', steps') && steps <= steps'
    ensures forall k | |steps| <= k < |steps'| :: steps'[k].TryReceive? || steps'[k].NotifySender?
    ensures run'[|steps'|].received == run'[|steps'|].sent == run[|steps|].sent && run'[|steps'|].rx.ReceiverIdle?
    decreases |run[|steps|].queue|, if run[|steps|].rx.ReceiverNotifies? then 1 else 0
  {
    var n := |steps|;
    var s := run[n];
    RunInv(run, steps, n);
    if s.rx.ReceiverNotifies? {
      run', steps' := RunLonger(run, steps, NotifySender, s.(rx := ReceiverIdle));
      run', steps' := AllCanBeReceived(run', steps');
    } else if s.queue != [] {
      var s' := s.(queue := s.queue[1..], received := s.received + [s.queue[0]], rx := ReceiverNotifies);
      run', steps' := RunLonger(run, steps, TryReceive, s');
      run', steps' := AllCanBeReceived(run', steps');
    } else {
      run', steps' := run, steps;
    }
  }

  /** While there is room an idle sender can send at once, or by reserving first. */
  lemma RoomCanBeUsed<T>(run: seq<State<T>>, steps: seq<Step<T>>, item: T)
    returns (tried: seq<State<T>>, reserved: seq<State<T>>)
    requires IsRun(run, steps) && run[|steps|].tx.SenderIdle? && HasRoom(run[|steps|])
    ensures IsRun(tried, steps + [TrySend(item), NotifyReceiver])
    ensures IsRun(reserved, steps + [BeginSend(item), PollReserve, SendReserved, NotifyReceiver])
    ensures tried[|tried| - 1] == reserved[|reserved| - 1]
    ensures tried[|tried| - 1].sent == run[|steps|].sent + [item] && tried[|tried| - 1].tx.SenderIdle?
  {
    var s := run[|steps|];
    RunInv(run, steps, |steps|);
    hide IsRun;
    var full := s.(queue := s.queue + [item], sent := s.sent + [item], tx := SenderNotifies);
    var steps';
    tried, steps' := RunLonger(run, steps, TrySend(item), full);
    tried, steps' := RunLonger(tried, steps', NotifyReceiver, full.(tx := SenderIdle));
    assert steps' == steps + [TrySend(item), NotifyReceiver];
    reserved, steps' := RunLonger(run, steps, BeginSend(item), s.(tx := Reserving(item)));
    reserved, steps' := RunLonger(reserved, steps', PollReserve, s.(tx := Reserved(item)));
    reserved, steps' := RunLonger(reserved, steps', SendReserved, full);
    reserved, steps' := RunLonger(reserved, steps', NotifyReceiver, full.(tx := SenderIdle));
    assert steps' == steps + [BeginSend(item), PollReserve, SendReserved, NotifyReceiver];
  }

  /** How much is left to do before the block is gone. */
  function Distance<T>(s: State<T>): nat {
    |s.queue| + (if s.deleted == 0 then 1 else 0)
    + (match s.tx
       case SenderGone => 0
       case SenderFrees => 1
       case SenderIdle => 2
       case SenderNotifies => 3
       case Reserving(_) => 3
       case Reserved(_) => 5
       case SenderPanicked => 6)
    + (match s.rx
       case ReceiverGone => 0
       case ReceiverFrees => 1
       case ReceiverIdle => 2
       case ReceiverNotifies => 3)
  }

  lemma FinishingStep<T>(s: State<T>) returns (step: Step<T>, s': State<T>)
    requires FlagInv(s) && ItemInv(s) && s.deleted == 0
    ensures Next(s, step, s') && Distance(s') < Distance(s)
  {
    if s.tx.SenderIdle? {
      step, s' := DropSender, s.(txAlive := false, tx := if s.rxAlive then SenderGone else SenderFrees);
    } else if s.tx.SenderNotifies? {
      step, s' := NotifyReceiver, s.(tx := SenderIdle);
    } else if s.tx.Reserving? {
      step, s' := CancelSend, s.(tx := SenderIdle);
    } else if s.tx.Reserved? {
      step := SendReserved;
      s' := s.(queue := s.queue + [s.tx.value], sent := s.sent + [s.tx.value], tx := SenderNotifies);
    } else if s.rx.ReceiverIdle? {
      step := DropReceiver;
      s' := s.(rxAlive := false, rx := if s.txAlive then ReceiverGone else ReceiverFrees);
    } else if s.rx.ReceiverNotifies? {
      step, s' := NotifySender, s.(rx := ReceiverIdle);
    } else if s.queue != [] {
      step, s' := Drain, s.(queue := s.queue[1..], drained := s.drained + [s.queue[0]]);
    } else {
      step := Delete;
      s' := s.(deleted := s.deleted + 1,
               tx := if s.tx.SenderFrees? then SenderGone else s.tx,
               rx := if s.rx.ReceiverFrees? then ReceiverGone else s.rx);
    }
  }

  /** Whatever the two sides are doing, they can end it, drop their ends and have the block freed. */
  lemma {:induction false} CanBeFreed<T>(run: seq<State<T>>, steps: seq<Step<T>>)
    returns (run': seq<State<T>>, steps': seq<Step<T>>)
    requires IsRun(run, steps)
    ensures IsRun(run', steps') && steps <= steps' && run'[|steps'|].deleted == 1
    ensures run'[|steps'|].sent == run'[|steps'|].received + run'[|steps'|].drained
    decreases Distance(run[|steps|])
  {
    RunInv(run, steps, |steps|);
    if run[|steps|].deleted > 0 {
      run', steps' := run, steps;
      assert run[|steps|].queue == [];
    } else {
      hide FlagInv, ItemInv, Next, Distance;
      var step, s' := FinishingStep(run[|steps|]);
      run', steps' := RunLonger(run, steps, step, s');
      run', steps' := CanBeFreed(run', steps');
    }
  }
}
