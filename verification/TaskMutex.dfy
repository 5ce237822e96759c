/**
 The asynchronous mutex around the packet queue, with the tasks that poll it,
 sleep, and wake each other through the waker set.

 A poll swaps the flag first and registers afterwards; a release stores the
 flag first, swaps the waker set afterwards, and then notifies one task after
 the other. Each of these is a step of its own, and so is each access to the
 queue. A notification is a flag that stays up until its task waits for it,
 here or, while it has no call of this mutex under way, anywhere else.
 */
module TaskMutex {
  import opened Options
  import opened PacketQueue
  import opened PacketHistory

  /** Where a task stands in a `receive_packet` or `pop_front` call. */
  datatype Task =
    | Away
    | Polling(op: Op)
    | PollFailed(op: Op)
    | Asleep(op: Op)
    | Guarding(op: Op)
    | Working(op: Op, seen: Queue)
    | Done
    | Unlocked
    | Waking(batch: set<nat>, number: nat)

  /** One finished access to the queue. */
  datatype Entry = Entry(task: nat, op: Op, result: Option<Packet>)

  /**
   `bits` is the waker set and `notified` the pending notifications. `log`,
   `swaps`, `since` and `calls` are history: the accesses in the order of their
   stores, the number of waker set swaps, how many there had been when each task
   last registered, and the operations each task has called.
   */
  datatype State = State(
    flag: bool, bits: set<nat>, notified: set<nat>, tasks: seq<Task>, queue: Queue,
    log: seq<Entry>, swaps: nat, since: seq<nat>, calls: seq<seq<Op>>)

  datatype Step =
    | Call(t: nat, op: Op)
    | SwapFlag(t: nat)
    | Register(t: nat)
    | WakeUp(t: nat)
    | ReadQueue(t: nat)
    | WriteQueue(t: nat)
    | StoreFlag(t: nat)
    | SwapBits(t: nat)
    | Notify(t: nat, u: nat)
    | Finish(t: nat)
    | WaitElsewhere(t: nat)
    | Spurious(t: nat)

  ghost predicate Init(s: State, start: nat) {
    && !s.flag && s.bits == {} && s.notified == {} && s.log == [] && s.swaps == 0
    && s.queue == Queue(start, [])
    && Shape(s)
    && (forall t | 0 <= t < |s.tasks| :: s.tasks[t] == Away && s.since[t] == 0 && s.calls[t] == [])
  }

  function Apply(q: Queue, op: Op): Queue {
    match op case Arrive(packet) => Insert(q, packet) case Take => Pop(q)
  }

  function Result(q: Queue, op: Op): Option<Packet> {
    if op.Take? then Popped(q) else None
  }

  ghost predicate Next(s: State, step: Step, s': State)
    requires Shape(s)
  {
    var t := step.t;
    t < |s.tasks| &&
    match (step, s.tasks[t])
    case (Call(_, op), Away) =>
      s' == s.(tasks := s.tasks[t := Polling(op)], calls := s.calls[t := s.calls[t] + [op]])
    case (SwapFlag(_), Polling(op)) =>
      s' == s.(flag := true, tasks := s.tasks[t := if s.flag then PollFailed(op) else Guarding(op)])
    case (Register(_), PollFailed(op)) =>
      s' == s.(bits := s.bits + {t}, tasks := s.tasks[t := Asleep(op)], since := s.since[t := s.swaps])
    case (WakeUp(_), Asleep(op)) =>
      t in s.notified && s' == s.(notified := s.notified - {t}, tasks := s.tasks[t := Polling(op)])
    case (ReadQueue(_), Guarding(op)) =>
      s' == s.(tasks := s.tasks[t := Working(op, s.queue)])
    case (WriteQueue(_), Working(op, seen)) =>
      s' == s.(queue := Apply(seen, op), tasks := s.tasks[t := Done],
               log := s.log + [Entry(t, op, Result(seen, op))])
    case (StoreFlag(_), Done) =>
      s' == s.(flag := false, tasks := s.tasks[t := Unlocked])
    case (SwapBits(_), Unlocked) =>
      s' == s.(bits := {}, swaps := s.swaps + 1, tasks := s.tasks[t := Waking(s.bits, s.swaps + 1)])
    case (Notify(_, u), Waking(batch, number)) =>
      u in batch && s' == s.(notified := s.notified + {u}, tasks := s.tasks[t := Waking(batch - {u}, number)])
    case (Finish(_), Waking(batch, _)) =>
      batch == {} && s' == s.(tasks := s.tasks[t := Away])
    case (WaitElsewhere(_), Away) =>
      t in s.notified && s' == s.(notified := s.notified - {t})
    case (Spurious(_), _) =>
      s' == s.(notified := s.notified + {t})
    case _ => false
  }

  /** The history sequences have an entry per task. */
  ghost predicate Shape(s: State) {
    |s.since| == |s.calls| == |s.tasks|
  }

  /** A live guard: from the successful swap to the store that releases. */
  predicate HasGuard(task: Task) {
    task.Guarding? || task.Working? || task.Done?
  }

  /** The operation a task has called and not yet entered in the log. */
  function Outstanding(task: Task): seq<Op> {
    if task.Polling? || task.PollFailed? || task.Asleep? || task.Guarding? || task.Working? then [task.op] else []
  }

  // ----- mutual exclusion and linearisation -----

  /** The flag is up exactly while one guard is live, and never are there two. */
  ghost predicate ExclusionInv(s: State) {
    && (forall t, u | 0 <= t < |s.tasks| && 0 <= u < |s.tasks| && HasGuard(s.tasks[t]) && HasGuard(s.tasks[u]) ::
          t == u)
    && (s.flag <==> exists t | 0 <= t < |s.tasks| :: HasGuard(s.tasks[t]))
    && (forall t | 0 <= t < |s.tasks| && s.tasks[t].Working? :: s.tasks[t].seen == s.queue)
  }

  ghost function Ops(log: seq<Entry>): seq<Op> {
    seq(|log|, i requires 0 <= i < |log| => log[i].op)
  }

  ghost function Results(log: seq<Entry>): seq<Option<Packet>> {
    if log == [] then [] else
    Results(log[..|log| - 1]) + if log[|log| - 1].op.Take? then [log[|log| - 1].result] else []
  }

  /** The operations one task has in the log, in their order. */
  ghost function OpsOf(log: seq<Entry>, t: nat): seq<Op> {
    if log == [] then [] else
    OpsOf(log[..|log| - 1], t) + if log[|log| - 1].task == t then [log[|log| - 1].op] else []
  }

  /** The queue, and every result handed out, are those of running the log alone from the start. */
  ghost predicate LinearInv(s: State, start: nat) {
    && s.queue == Run(start, Ops(s.log))
    && Results(s.log) == Outputs(start, Ops(s.log))
  }

  /** Every call is in the log once, with its own operation, from its store on. */
  ghost predicate CallsInv(s: State)
    requires Shape(s)
  {
    forall t | 0 <= t < |s.tasks| ::
      s.calls[t] == OpsOf(s.log, t) + Outstanding(s.tasks[t])
  }

  lemma ExclusionKept(s: State, step: Step, s': State)
    requires Shape(s) && ExclusionInv(s) && Next(s, step, s')
    ensures Shape(s') && ExclusionInv(s')
  {
    var t := step.t;
    GuardsChange(s, step, s');
    SeenKept(s, step, s');
    hide Next, HasGuard;
    if s.flag && !step.StoreFlag? {
      var g :| 0 <= g < |s.tasks| && HasGuard(s.tasks[g]);
      assert HasGuard(s'.tasks[g]);
    }
    if !s.flag && step.SwapFlag? {
      assert HasGuard(s'.tasks[t]);
    }
  }

  /** Guards come by finding the flag down, and go by lowering it. */
  lemma GuardsChange(s: State, step: Step, s': State)
    requires Shape(s) && Next(s, step, s')
    ensures Shape(s') && |s'.tasks| == |s.tasks| && step.t < |s.tasks|
    ensures forall u | 0 <= u < |s.tasks| ::
              HasGuard(s'.tasks[u]) <==>
              (step == SwapFlag(u) && !s.flag) || (HasGuard(s.tasks[u]) && step != StoreFlag(u))
    ensures step.StoreFlag? ==> HasGuard(s.tasks[step.t])
    ensures s'.flag == (step.SwapFlag? || (s.flag && !step.StoreFlag?))
  {
    hide Apply, Result;
  }

  lemma SeenKept(s: State, step: Step, s': State)
    requires Shape(s) && ExclusionInv(s) && Next(s, step, s')
    ensures forall t | 0 <= t < |s'.tasks| && s'.tasks[t].Working? :: s'.tasks[t].seen == s'.queue
  {
    hide Apply, Result;
    if step.WriteQueue? {
      assert HasGuard(s.tasks[step.t]);
      assert forall t | 0 <= t < |s.tasks| && t != step.t :: !HasGuard(s.tasks[t]);
    }
  }

  lemma LogGrows(log: seq<Entry>, e: Entry)
    ensures Ops(log + [e]) == Ops(log) + [e.op]
    ensures Results(log + [e]) == Results(log) + if e.op.Take? then [e.result] else []
    ensures forall t :: OpsOf(log + [e], t) == OpsOf(log, t) + if e.task == t then [e.op] else []
  {
    assert (log + [e])[..|log|] == log;
  }

  /** The one step that touches the queue: the guard has kept what it read current. */
  lemma WriteLinearises(s: State, t: nat, s': State, start: nat)
    requires Shape(s) && ExclusionInv(s) && LinearInv(s, start) && CallsInv(s) && Next(s, WriteQueue(t), s')
    ensures LinearInv(s', start) && CallsInv(s')
  {
    hide Insert, Pop, Popped, Run, Outputs, Results, OpsOf, Ops;
    var e := s'.log[|s.log|];
    assert s'.log == s.log + [e];
    LogGrows(s.log, e);
    RunNext(start, Ops(s.log), e.op);
    OutputsNext(start, Ops(s.log), e.op);
  }

  lemma LinearKept(s: State, step: Step, s': State, start: nat)
    requires Shape(s) && ExclusionInv(s) && LinearInv(s, start) && CallsInv(s) && Next(s, step, s')
    ensures LinearInv(s', start) && CallsInv(s')
  {
    hide Results, OpsOf, Ops, Run, Outputs;
    if step.WriteQueue? {
      WriteLinearises(s, step.t, s', start);
    } else {
      OthersLogNothing(s, step, s');
      hide Next, Outstanding;
    }
  }

  lemma OthersLogNothing(s: State, step: Step, s': State)
    requires Shape(s) && Next(s, step, s') && !step.WriteQueue?
    ensures Shape(s') && |s'.tasks| == |s.tasks| && s'.queue == s.queue && s'.log == s.log
    ensures forall t | 0 <= t < |s.tasks| ::
              || (s'.calls[t] == s.calls[t] && Outstanding(s'.tasks[t]) == Outstanding(s.tasks[t]))
              || (Outstanding(s.tasks[t]) == [] && s'.calls[t] == s.calls[t] + Outstanding(s'.tasks[t]))
  {
    hide Apply, Result;
  }

  // ----- wakeups -----

  /** Whether some `wake_all` in flight has yet to notify `t`; `number` tells which swap it began with. */
  ghost predicate InFlight(s: State, t: nat, number: nat) {
    exists u | 0 <= u < |s.tasks| :: s.tasks[u].Waking? && s.tasks[u].number == number && t in s.tasks[u].batch
  }

  /**
   A sleeping task is in the waker set if no swap came since it registered;
   otherwise the first such swap took it, and has notified it or is about to.
   */
  ghost predicate WakeInv(s: State)
    requires Shape(s)
  {
    && (forall t | t in s.bits :: t < |s.tasks| && s.since[t] == s.swaps)
    && (forall t | 0 <= t < |s.tasks| :: s.since[t] <= s.swaps)
    && (forall t | 0 <= t < |s.tasks| && s.tasks[t].Asleep? ::
          if s.since[t] == s.swaps then t in s.bits
          else t in s.notified || InFlight(s, t, s.since[t] + 1))
  }

  lemma FlightGoesOn(s: State, step: Step, s': State, t: nat, number: nat)
    requires Shape(s) && Next(s, step, s') && InFlight(s, t, number)
    ensures InFlight(s', t, number) || (step.Notify? && step.u == t)
  {
    var u :| 0 <= u < |s.tasks| && s.tasks[u].Waking? && s.tasks[u].number == number && t in s.tasks[u].batch;
    if !(step.Notify? && step.u == t) {
      assert s'.tasks[u].Waking? && s'.tasks[u].number == number && t in s'.tasks[u].batch;
    }
  }

  lemma WakeKept(s: State, step: Step, s': State)
    requires Shape(s) && WakeInv(s) && Next(s, step, s')
    ensures WakeInv(s')
  {
    hide InFlight;
    forall t | 0 <= t < |s'.tasks| && s'.tasks[t].Asleep?
      ensures if s'.since[t] == s'.swaps then t in s'.bits
              else t in s'.notified || InFlight(s', t, s'.since[t] + 1)
    {
      if s.tasks[t].Asleep? {
        if s.since[t] < s.swaps && t !in s.notified {
          FlightGoesOn(s, step, s', t, s.since[t] + 1);
        } else if step.SwapBits? && s.since[t] == s.swaps {
          TakenBySwap(s, step, s', t);
        }
      }
    }
  }

  lemma TakenBySwap(s: State, step: Step, s': State, t: nat)
    requires Shape(s) && Next(s, step, s') && step.SwapBits? && t in s.bits
    ensures InFlight(s', t, s'.swaps)
  {
    assert s'.tasks[step.t].Waking?;
  }

  // ----- whole runs -----

  ghost predicate IsRun(run: seq<State>, steps: seq<Step>, start: nat) {
    && |run| == |steps| + 1 && Init(run[0], start)
    && (forall i | 0 <= i < |steps| :: Shape(run[i]) && Next(run[i], steps[i], run[i + 1]))
  }

  ghost predicate Inv(s: State, start: nat) {
    Shape(s) && ExclusionInv(s) && LinearInv(s, start) && CallsInv(s) && WakeInv(s)
  }

  lemma {:induction false} RunInv(run: seq<State>, steps: seq<Step>, start: nat, i: nat)
    requires IsRun(run, steps, start) && i < |run|
    ensures Inv(run[i], start)
  {
    hide Next;
    if i == 0 {
      assert Ops(run[0].log) == [];
    } else {
      RunInv(run, steps, start, i - 1);
      ExclusionKept(run[i - 1], steps[i - 1], run[i]);
      LinearKept(run[i - 1], steps[i - 1], run[i], start);
      WakeKept(run[i - 1], steps[i - 1], run[i]);
    }
  }

  /** In every reachable state the flag is up iff exactly one guard is live, and only its holder is at the queue. */
  lemma MutualExclusion(run: seq<State>, steps: seq<Step>, start: nat, i: nat)
    requires IsRun(run, steps, start) && i < |run|
    ensures run[i].flag <==> exists t | 0 <= t < |run[i].tasks| :: HasGuard(run[i].tasks[t])
    ensures forall t, u | 0 <= t < u < |run[i].tasks| :: !(HasGuard(run[i].tasks[t]) && HasGuard(run[i].tasks[u]))
    ensures i < |steps| && run[i + 1].queue != run[i].queue ==>
              steps[i].t < |run[i].tasks| && HasGuard(run[i].tasks[steps[i].t])
  {
    RunInv(run, steps, start, i);
    if i < |steps| {
      assert Next(run[i], steps[i], run[i + 1]);
    }
  }

  lemma {:induction false} LogOnlyGrows(run: seq<State>, steps: seq<Step>, start: nat, i: nat, j: nat)
    requires IsRun(run, steps, start) && i <= j < |run|
    ensures run[i].log <= run[j].log
    decreases j
  {
    hide Apply, Result;
    if i < j {
      LogOnlyGrows(run, steps, start, i, j - 1);
      assert Next(run[j - 1], steps[j - 1], run[j]);
    }
  }

  /** The operations `t` has called, by the steps taken. */
  ghost function Called(steps: seq<Step>, t: nat): seq<Op> {
    if steps == [] then [] else
    var last := steps[|steps| - 1];
    Called(steps[..|steps| - 1], t) + if last.Call? && last.t == t then [last.op] else []
  }

  lemma CallsByStep(s: State, step: Step, s': State, t: nat)
    requires Shape(s) && Next(s, step, s') && t < |s.tasks|
    ensures |s'.calls| == |s.calls|
    ensures s'.calls[t] == s.calls[t] + if step.Call? && step.t == t then [step.op] else []
  {
    hide Apply, Result;
  }

  lemma {:induction false} CallsTold(run: seq<State>, steps: seq<Step>, start: nat, i: nat, t: nat)
    requires IsRun(run, steps, start) && i < |run| && t < |run[i].tasks|
    ensures |run[i].calls| == |run[i].tasks| && run[i].calls[t] == Called(steps[..i], t)
  {
    hide Next;
    if i > 0 {
      GuardsChange(run[i - 1], steps[i - 1], run[i]);
      CallsTold(run, steps, start, i - 1, t);
      CallsByStep(run[i - 1], steps[i - 1], run[i], t);
      assert steps[..i][..i - 1] == steps[..i - 1];
    }
  }

  /**
   Concurrent calls linearise: the queue and all results are those of one
   sequential run over the log, in which the operations of each task are those
   it called, in its order, less the one under way. A call's entry is made
   between its beginning and its end and the log only grows, so calls that do
   not overlap stand in their real order.
   */
  lemma CallsLinearise(run: seq<State>, steps: seq<Step>, start: nat, i: nat, j: nat)
    requires IsRun(run, steps, start) && i <= j < |run|
    ensures run[j].queue == Run(start, Ops(run[j].log))
    ensures Results(run[j].log) == Outputs(start, Ops(run[j].log))
    ensures run[i].log <= run[j].log
    ensures |run[j].calls| == |run[j].tasks|
    ensures forall t | 0 <= t < |run[j].tasks| ::
              run[j].calls[t] == OpsOf(run[j].log, t) + Outstanding(run[j].tasks[t]) == Called(steps[..j], t)
  {
    RunInv(run, steps, start, j);
    LogOnlyGrows(run, steps, start, i, j);
    forall t: nat | t < |run[j].tasks|
      ensures run[j].calls[t] == Called(steps[..j], t)
    {
      CallsTold(run, steps, start, j, t);
    }
  }

  ghost predicate InAnyBatch(s: State, t: nat) {
    exists u | 0 <= u < |s.tasks| :: s.tasks[u].Waking? && t in s.tasks[u].batch
  }

  /**
   A task that registered and has not polled again has its bit in the waker
   set, a pending notification, or a place in a `wake_all` in flight. If the
   first `wake_all` to swap after it registered is over, it has been notified.
   Without a wake pending or in flight it registered after the last swap.
   */
  lemma SleepersAccountedFor(run: seq<State>, steps: seq<Step>, start: nat, i: nat, t: nat)
    requires IsRun(run, steps, start) && i < |run|
    requires t < |run[i].tasks| && run[i].tasks[t].Asleep?
    ensures t in run[i].bits || t in run[i].notified || InAnyBatch(run[i], t)
    ensures |run[i].since| == |run[i].tasks|
    ensures run[i].since[t] < run[i].swaps && !InFlight(run[i], t, run[i].since[t] + 1) ==> t in run[i].notified
    ensures t !in run[i].notified && !InAnyBatch(run[i], t) ==> t in run[i].bits && run[i].since[t] == run[i].swaps
  {
    RunInv(run, steps, start, i);
    var s := run[i];
    if InFlight(s, t, s.since[t] + 1) {
      var u :| 0 <= u < |s.tasks| && s.tasks[u].Waking? && t in s.tasks[u].batch;
    }
  }

  // ----- calls can finish -----

  /** How many kinds of steps are left to a task that has the guard, or is done with it. */
  function Todo(task: Task): nat {
    match task
    case Guarding(_) => 5
    case Working(_, _) => 4
    case Done => 3
    case Unlocked => 2
    case Waking(_, _) => 1
    case _ => 0
  }

  function BatchOf(task: Task): set<nat> {
    if task.Waking? then task.batch else {}
  }

  /** What a call that has got the guard at `s` has done once it is back, if nobody else takes a step. */
  ghost predicate FinishedFrom(s: State, t: nat, s': State)
    requires t < |s.tasks|
  {
    var task := s.tasks[t];
    && s'.tasks == s.tasks[t := Away]
    && s'.flag == (s.flag && !HasGuard(task))
    && (if task.Waking? then s'.bits == s.bits && s'.notified == s.notified + task.batch
        else s'.bits == {} && s'.notified == s.notified + s.bits)
    && (if task.Guarding? || task.Working?
        then s'.queue == Apply(s.queue, task.op) && s'.log == s.log + [Entry(t, task.op, Result(s.queue, task.op))]
        else s'.queue == s.queue && s'.log == s.log)
  }

  lemma RunLonger(run: seq<State>, steps: seq<Step>, start: nat, step: Step, s': State)
    returns (run': seq<State>, steps': seq<Step>)
    requires IsRun(run, steps, start) && Shape(run[|steps|]) && Next(run[|steps|], step, s')
    ensures run' == run + [s'] && steps' == steps + [step] && IsRun(run', steps', start) && run'[|steps'|] == s'
  {
    hide Next, Init;
    run', steps' := run + [s'], steps + [step];
    forall i | 0 <= i < |steps'|
      ensures Shape(run'[i]) && Next(run'[i], steps'[i], run'[i + 1])
    {
      if i < |steps| {
        assert Next(run[i], steps[i], run[i + 1]);
      }
    }
  }

  lemma FinishingStep(s: State, t: nat) returns (step: Step, s': State)
    requires Shape(s) && t < |s.tasks| && Todo(s.tasks[t]) > 0
    requires s.tasks[t].Working? ==> s.tasks[t].seen == s.queue
    ensures step.t == t && !step.Spurious? && Next(s, step, s')
    ensures Todo(s'.tasks[t]) < Todo(s.tasks[t])
            || (Todo(s'.tasks[t]) == Todo(s.tasks[t]) && BatchOf(s'.tasks[t]) < BatchOf(s.tasks[t]))
    ensures Todo(s'.tasks[t]) == 0 ==> FinishedFrom(s, t, s')
    ensures forall s'' :: Todo(s'.tasks[t]) > 0 && FinishedFrom(s', t, s'') ==> FinishedFrom(s, t, s'')
  {
    hide Apply, Result;
    match s.tasks[t]
    case Guarding(op) =>
      step, s' := ReadQueue(t), s.(tasks := s.tasks[t := Working(op, s.queue)]);
    case Working(op, seen) =>
      step := WriteQueue(t);
      s' := s.(queue := Apply(seen, op), tasks := s.tasks[t := Done], log := s.log + [Entry(t, op, Result(seen, op))]);
    case Done =>
      step, s' := StoreFlag(t), s.(flag := false, tasks := s.tasks[t := Unlocked]);
    case Unlocked =>
      step := SwapBits(t);
      s' := s.(bits := {}, swaps := s.swaps + 1, tasks := s.tasks[t := Waking(s.bits, s.swaps + 1)]);
    case Waking(batch, number) =>
      if batch == {} {
        step, s' := Finish(t), s.(tasks := s.tasks[t := Away]);
      } else {
        var u :| u in batch;
        step, s' := Notify(t, u), s.(notified := s.notified + {u}, tasks := s.tasks[t := Waking(batch - {u}, number)]);
        assert s.notified + {u} + (batch - {u}) == s.notified + batch;
      }
    case _ =>
      assert false;
  }

  /**
   From every reachable state, whoever has the guard, or is still waking
   others, can finish by steps of its own: the operation takes effect, the flag
   is lowered, and everybody in the waker set is notified.
   */
  lemma {:induction false} GuardCanFinish(run: seq<State>, steps: seq<Step>, start: nat, t: nat)
    returns (run': seq<State>, steps': seq<Step>)
    requires IsRun(run, steps, start) && t < |run[|steps|].tasks| && Todo(run[|steps|].tasks[t]) > 0
    ensures IsRun(run', steps', start) && run <= run' && steps <= steps'
    ensures forall k | |steps| <= k < |steps'| :: steps'[k].t == t && !steps'[k].Spurious?
    ensures FinishedFrom(run[|steps|], t, run'[|steps'|])
    decreases Todo(run[|steps|].tasks[t]), BatchOf(run[|steps|].tasks[t])
  {
    hide Next, Init, FinishedFrom, Todo, BatchOf, LinearInv, CallsInv, WakeInv;
    RunInv(run, steps, start, |steps|);
    var s := run[|steps|];
    var step, s' := FinishingStep(s, t);
    GuardsChange(s, step, s');
    run', steps' := RunLonger(run, steps, start, step, s');
    if Todo(s'.tasks[t]) > 0 {
      run', steps' := GuardCanFinish(run', steps', start, t);
    }
  }

  /** On a free mutex a call can be made and finished by steps of its own. */
  lemma CallCanFinish(run: seq<State>, steps: seq<Step>, start: nat, t: nat, op: Op)
    returns (run': seq<State>, steps': seq<Step>)
    requires IsRun(run, steps, start) && t < |run[|steps|].tasks|
    requires run[|steps|].tasks[t] == Away && !run[|steps|].flag
    ensures IsRun(run', steps', start) && steps + [Call(t, op)] <= steps'
    ensures forall k | |steps| <= k < |steps'| :: steps'[k].t == t && !steps'[k].Spurious?
    ensures var s, s' := run[|steps|], run'[|steps'|];
            && s'.tasks == s.tasks && !s'.flag && s'.queue == Apply(s.queue, op)
            && s'.log == s.log + [Entry(t, op, Result(s.queue, op))]
            && s'.bits == {} && s'.notified == s.notified + s.bits
  {
    RunInv(run, steps, start, |steps|);
    hide Apply, Result, Init, ExclusionInv, LinearInv, CallsInv, WakeInv;
    var s := run[|steps|];
    var s1 := s.(tasks := s.tasks[t := Polling(op)], calls := s.calls[t := s.calls[t] + [op]]);
    run', steps' := RunLonger(run, steps, start, Call(t, op), s1);
    var s2 := s1.(flag := true, tasks := s1.tasks[t := Guarding(op)]);
    run', steps' := RunLonger(run', steps', start, SwapFlag(t), s2);
    hide Next;
    run', steps' := GuardCanFinish(run', steps', start, t);
  }

  /**
   Whatever others do, a task can call at any time, its poll is over after one
   step, having got the guard or not, one that has not gets itself into the
   waker set, and one asleep there polls again once it has been notified.
   */
  lemma CallerGoesOn(run: seq<State>, steps: seq<Step>, start: nat, t: nat, op: Op) returns (step: Step, s': State)
    requires IsRun(run, steps, start) && t < |run[|steps|].tasks|
    requires var task := run[|steps|].tasks[t];
             task == Away || task.Polling? || task.PollFailed? || (task.Asleep? && t in run[|steps|].notified)
    ensures Shape(run[|steps|]) && Next(run[|steps|], step, s') && step.t == t && |s'.tasks| == |run[|steps|].tasks|
    ensures var task, task' := run[|steps|].tasks[t], s'.tasks[t];
            && (task == Away ==> task' == Polling(op))
            && (task.Polling? ==> task' == if run[|steps|].flag then PollFailed(task.op) else Guarding(task.op))
            && (task.PollFailed? ==> task' == Asleep(task.op) && t in s'.bits)
            && (task.Asleep? ==> task' == Polling(task.op) && t !in s'.notified)
  {
    hide Init, ExclusionInv, LinearInv, CallsInv, WakeInv, Apply, Result;
    RunInv(run, steps, start, |steps|);
    var s := run[|steps|];
    var task := s.tasks[t];
    if task == Away {
      step, s' := Call(t, op), s.(tasks := s.tasks[t := Polling(op)], calls := s.calls[t := s.calls[t] + [op]]);
    } else if task.Polling? {
      step := SwapFlag(t);
      s' := s.(flag := true, tasks := s.tasks[t := if s.flag then PollFailed(task.op) else Guarding(task.op)]);
    } else if task.PollFailed? {
      step := Register(t);
      s' := s.(bits := s.bits + {t}, tasks := s.tasks[t := Asleep(task.op)], since := s.since[t := s.swaps]);
    } else {
      step, s' := WakeUp(t), s.(notified := s.notified - {t}, tasks := s.tasks[t := Polling(task.op)]);
    }
  }

  // ----- the wakeup that is lost -----

  /** The mutex is free and no release is under way that has yet to swap the waker set. */
  ghost predicate Quiet(s: State) {
    !s.flag && forall u | 0 <= u < |s.tasks| :: !s.tasks[u].Unlocked?
  }

  /** Asleep on a free mutex with nothing on its way to wake it. */
  ghost predicate Stranded(s: State, t: nat) {
    && t < |s.tasks| && s.tasks[t].Asleep?
    && Quiet(s) && t !in s.notified && !InAnyBatch(s, t)
  }

  /** Only a registration strands a task, and only one made when the mutex is quiet and no wake is pending for it. */
  lemma StrandedByStep(s: State, step: Step, s': State, t: nat)
    requires Shape(s) && ExclusionInv(s) && WakeInv(s) && Next(s, step, s')
    ensures !Stranded(s, t) ==>
              (Stranded(s', t) <==> step == Register(t) && Quiet(s) && t !in s.notified && !InAnyBatch(s, t))
  {
    if step == Register(t) {
      RegisterKeepsRest(s, t, s');
    } else if Stranded(s', t) && !Stranded(s, t) {
      assert s.tasks[t].Asleep?;
      if InAnyBatch(s, t) {
        var u :| 0 <= u < |s.tasks| && s.tasks[u].Waking? && t in s.tasks[u].batch;
        FlightGoesOn(s, step, s', t, s.tasks[u].number);
        assert false;
      } else if t in s.notified {
        assert false;
      } else if !Quiet(s) {
        QuietBySwapOnly(s, step, s');
        TakenBySwap(s, step, s', t);
        assert false;
      }
    }
  }

  lemma RegisterKeepsRest(s: State, t: nat, s': State)
    requires Shape(s) && Next(s, Register(t), s')
    ensures Quiet(s') <==> Quiet(s)
    ensures InAnyBatch(s', t) <==> InAnyBatch(s, t)
  {
    assert forall u | 0 <= u < |s.tasks| :: s'.tasks[u].Waking? ==> s'.tasks[u] == s.tasks[u];
    assert forall u | 0 <= u < |s.tasks| :: s.tasks[u].Waking? ==> s'.tasks[u] == s.tasks[u];
    assert forall u | 0 <= u < |s.tasks| :: s.tasks[u].Unlocked? <==> s'.tasks[u].Unlocked?;
  }

  lemma QuietBySwapOnly(s: State, step: Step, s': State)
    requires Shape(s) && Next(s, step, s') && !Quiet(s) && Quiet(s')
    ensures step.SwapBits?
  {
    if !s.flag {
      var u :| 0 <= u < |s.tasks| && s.tasks[u].Unlocked?;
      assert !s'.tasks[u].Unlocked?;
    }
    if s.flag {
      LoweredFlagLeavesUnlocked(s, step, s');
    }
  }

  lemma LoweredFlagLeavesUnlocked(s: State, step: Step, s': State)
    requires Shape(s) && Next(s, step, s') && s.flag
    ensures s'.flag || (step.t < |s'.tasks| && s'.tasks[step.t].Unlocked?)
  {
  }

  /** A stranded task stays so until somebody polls the mutex or a notification comes out of nowhere. */
  lemma StrandedGoesOn(s: State, step: Step, s': State, t: nat)
    requires Shape(s) && ExclusionInv(s) && Next(s, step, s') && Stranded(s, t)
    ensures Stranded(s', t) <==> !step.SwapFlag? && step != Spurious(t)
  {
    hide Apply, Result;
    assert forall u | 0 <= u < |s.tasks| :: !HasGuard(s.tasks[u]) && !s.tasks[u].Unlocked?;
    if !step.SwapFlag? && step != Spurious(t) {
      assert s'.tasks[t] == s.tasks[t];
      forall u | 0 <= u < |s.tasks|
        ensures !s'.tasks[u].Unlocked? && (s'.tasks[u].Waking? ==> t !in s'.tasks[u].batch)
      {
        assert !(s.tasks[u].Waking? && t in s.tasks[u].batch);
      }
    }
  }

  // ----- the same, told by what has happened -----

  /** At time `i`, something of `opens` has happened and nothing of `closes` since. */
  ghost predicate Pending(opens: set<nat>, closes: set<nat>, i: nat) {
    exists a | a in opens :: a < i && forall j | a < j < i :: j !in closes
  }

  lemma PendingNext(opens: set<nat>, closes: set<nat>, i: nat)
    ensures Pending(opens, closes, i + 1) <==> i in opens || (Pending(opens, closes, i) && i !in closes)
  {
    if Pending(opens, closes, i) && i !in closes {
      var a :| a in opens && a < i && forall j | a < j < i :: j !in closes;
    }
    if Pending(opens, closes, i + 1) && i !in opens {
      var a :| a in opens && a < i + 1 && forall j | a < j < i + 1 :: j !in closes;
    }
  }

  ghost function FlagSwaps(steps: seq<Step>): set<nat> {
    set k: nat | k < |steps| && steps[k].SwapFlag?
  }

  ghost function Releases(steps: seq<Step>): set<nat> {
    set k: nat | k < |steps| && steps[k].StoreFlag?
  }

  /** When `step` was taken. */
  ghost function Times(steps: seq<Step>, step: Step): set<nat> {
    set k: nat | k < |steps| && steps[k] == step
  }

  ghost function Notices(steps: seq<Step>, t: nat): set<nat> {
    set k: nat | k < |steps| && IsNotice(steps[k], t)
  }

  predicate IsNotice(step: Step, t: nat) {
    step == Spurious(t) || (step.Notify? && step.u == t)
  }

  /** When `t` waited and was let go by its pending notification, which that used up. */
  ghost function Waits(steps: seq<Step>, t: nat): set<nat> {
    set k: nat | k < |steps| && EndsWait(steps[k], t)
  }

  predicate EndsWait(step: Step, t: nat) {
    step == WakeUp(t) || step == WaitElsewhere(t)
  }

  ghost function Swaps(steps: seq<Step>): set<nat> {
    set k: nat | k < |steps| && steps[k].SwapBits?
  }

  /** When `u` swapped the waker set with `t` in it: registered and not taken by an earlier swap. */
  ghost function Takes(steps: seq<Step>, u: nat, t: nat): set<nat> {
    set k: nat | k < |steps| && steps[k] == SwapBits(u) && Pending(Times(steps, Register(t)), Swaps(steps), k)
  }

  lemma InTimes(steps: seq<Step>, k: nat, t: nat, u: nat)
    requires k < |steps|
    ensures k in FlagSwaps(steps) <==> steps[k].SwapFlag?
    ensures k in Releases(steps) <==> steps[k].StoreFlag?
    ensures k in Times(steps, StoreFlag(u)) <==> steps[k] == StoreFlag(u)
    ensures k in Times(steps, SwapBits(u)) <==> steps[k] == SwapBits(u)
    ensures k in Notices(steps, t) <==> IsNotice(steps[k], t)
    ensures k in Waits(steps, t) <==> EndsWait(steps[k], t)
    ensures k in Times(steps, Register(t)) <==> steps[k] == Register(t)
    ensures k in Swaps(steps) <==> steps[k].SwapBits?
    ensures k in Takes(steps, u, t) <==>
              steps[k] == SwapBits(u) && Pending(Times(steps, Register(t)), Swaps(steps), k)
    ensures k in Times(steps, Notify(u, t)) <==> steps[k] == Notify(u, t)
  {
    hide Pending, IsNotice, EndsWait;
  }

  ghost predicate IsUnlocked(s: State, u: nat) {
    u < |s.tasks| && s.tasks[u].Unlocked?
  }

  ghost predicate InBatch(s: State, u: nat, t: nat) {
    u < |s.tasks| && s.tasks[u].Waking? && t in s.tasks[u].batch
  }

  lemma QuietMeans(s: State, t: nat)
    ensures Quiet(s) <==> !s.flag && forall u: nat :: !IsUnlocked(s, u)
    ensures InAnyBatch(s, t) <==> exists u: nat :: InBatch(s, u, t)
  {
    if u: nat :| u < |s.tasks| && s.tasks[u].Unlocked? {
      assert IsUnlocked(s, u);
    }
    if u: nat :| u < |s.tasks| && s.tasks[u].Waking? && t in s.tasks[u].batch {
      assert InBatch(s, u, t);
    }
  }

  lemma StepTells(s: State, step: Step, s': State, t: nat, u: nat)
    requires Shape(s) && Next(s, step, s')
    ensures s'.flag <==> step.SwapFlag? || (s.flag && !step.StoreFlag?)
    ensures IsUnlocked(s', u) <==> step == StoreFlag(u) || (IsUnlocked(s, u) && step != SwapBits(u))
    ensures t in s'.notified <==> IsNotice(step, t) || (t in s.notified && !EndsWait(step, t))
    ensures t in s'.bits <==> step == Register(t) || (t in s.bits && !step.SwapBits?)
    ensures InBatch(s', u, t) <==> (step == SwapBits(u) && t in s.bits) || (InBatch(s, u, t) && step != Notify(u, t))
  {
    hide Apply, Result;
  }

  /** Flag, waker set, batches and notifications are those read off the steps taken before `i`. */
  ghost predicate Told(s: State, steps: seq<Step>, i: nat, t: nat, u: nat) {
    && (s.flag <==> Pending(FlagSwaps(steps), Releases(steps), i))
    && (IsUnlocked(s, u) <==> Pending(Times(steps, StoreFlag(u)), Times(steps, SwapBits(u)), i))
    && (t in s.notified <==> Pending(Notices(steps, t), Waits(steps, t), i))
    && (t in s.bits <==> Pending(Times(steps, Register(t)), Swaps(steps), i))
    && (InBatch(s, u, t) <==> Pending(Takes(steps, u, t), Times(steps, Notify(u, t)), i))
  }

  lemma NothingToldYet(s: State, steps: seq<Step>, start: nat, t: nat, u: nat)
    requires Init(s, start)
    ensures Told(s, steps, 0, t, u)
  {
    hide FlagSwaps, Releases, Times, Notices, Waits, Swaps, Takes;
  }

  lemma ToldNext(s: State, steps: seq<Step>, i: nat, s': State, t: nat, u: nat)
    requires i < |steps| && Shape(s) && Next(s, steps[i], s') && Told(s, steps, i, t, u)
    ensures Told(s', steps, i + 1, t, u)
  {
    StepTells(s, steps[i], s', t, u);
    hide Next, Shape, Pending, IsUnlocked, InBatch, IsNotice, EndsWait;
    InTimes(steps, i, t, u);
    hide FlagSwaps, Releases, Times, Notices, Waits, Swaps, Takes;
    PendingNext(FlagSwaps(steps), Releases(steps), i);
    PendingNext(Times(steps, StoreFlag(u)), Times(steps, SwapBits(u)), i);
    PendingNext(Notices(steps, t), Waits(steps, t), i);
    PendingNext(Times(steps, Register(t)), Swaps(steps), i);
    PendingNext(Takes(steps, u, t), Times(steps, Notify(u, t)), i);
  }

  lemma {:induction false} EventsTell(run: seq<State>, steps: seq<Step>, start: nat, i: nat, t: nat, u: nat)
    requires IsRun(run, steps, start) && i < |run|
    ensures Told(run[i], steps, i, t, u)
  {
    hide Told, Next, Init;
    if i == 0 {
      NothingToldYet(run[0], steps, start, t, u);
    } else {
      EventsTell(run, steps, start, i - 1, t, u);
      ToldNext(run[i - 1], steps, i - 1, run[i], t, u);
    }
  }

  /**
   A wakeup is lost at `r`: `t` registers when the flag has been lowered since
   it was last swapped, everybody who lowered it has swapped the waker set
   since, every swap that took `t` has been followed by its notification, and
   every notification of `t` has ended a wait of its own, here or elsewhere.
   */
  ghost predicate Slips(steps: seq<Step>, t: nat, r: nat) {
    && r in Times(steps, Register(t))
    && !Pending(FlagSwaps(steps), Releases(steps), r)
    && (forall u: nat :: !Pending(Times(steps, StoreFlag(u)), Times(steps, SwapBits(u)), r))
    && (forall u: nat :: !Pending(Takes(steps, u, t), Times(steps, Notify(u, t)), r))
    && !Pending(Notices(steps, t), Waits(steps, t), r)
  }

  lemma SlipsAt(run: seq<State>, steps: seq<Step>, start: nat, t: nat, r: nat)
    requires IsRun(run, steps, start)
    ensures Slips(steps, t, r) <==>
            r < |steps| && steps[r] == Register(t)
            && Quiet(run[r]) && t !in run[r].notified && !InAnyBatch(run[r], t)
  {
    hide Next, Pending, Quiet, InAnyBatch, IsUnlocked, InBatch;
    if r < |run| {
      QuietMeans(run[r], t);
      EventsTell(run, steps, start, r, t, 0);
      forall u: nat
        ensures IsUnlocked(run[r], u) <==> Pending(Times(steps, StoreFlag(u)), Times(steps, SwapBits(u)), r)
      {
        EventsTell(run, steps, start, r, t, u);
      }
      forall u: nat
        ensures InBatch(run[r], u, t) <==> Pending(Takes(steps, u, t), Times(steps, Notify(u, t)), r)
      {
        EventsTell(run, steps, start, r, t, u);
      }
      hide Takes, Times, Notices, Waits, FlagSwaps, Releases;
      assert r in Times(steps, Register(t)) <==> r < |steps| && steps[r] == Register(t) by {
        if r < |steps| {
          InTimes(steps, r, t, 0);
        }
      }
    }
  }

  /** Nobody polls the mutex and no notification of `t` comes out of nowhere from `r + 1` to `i`. */
  ghost predicate Undisturbed(steps: seq<Step>, t: nat, r: nat, i: nat)
    requires i <= |steps|
  {
    forall j | r < j < i :: !steps[j].SwapFlag? && steps[j] != Spurious(t)
  }

  lemma {:induction false} StrandedSince(run: seq<State>, steps: seq<Step>, start: nat, i: nat, t: nat) returns (r: nat)
    requires IsRun(run, steps, start) && i < |run| && Stranded(run[i], t)
    ensures r < i && Slips(steps, t, r) && Undisturbed(steps, t, r, i)
  {
    hide Next, Shape, WakeInv, ExclusionInv, LinearInv, CallsInv, Stranded, Slips, Pending;
    if i == 0 {
      InitStrandsNobody(run[0], start, t);
      assert false;
    } else {
      RunInv(run, steps, start, i - 1);
      if Stranded(run[i - 1], t) {
        r := StrandedSince(run, steps, start, i - 1, t);
        StrandedGoesOn(run[i - 1], steps[i - 1], run[i], t);
      } else {
        r := i - 1;
        StrandedByStep(run[r], steps[r], run[i], t);
        SlipsAt(run, steps, start, t, r);
      }
    }
  }

  lemma InitStrandsNobody(s: State, start: nat, t: nat)
    requires Init(s, start)
    ensures !Stranded(s, t)
  {
  }

  lemma {:induction false} SlipStrands(run: seq<State>, steps: seq<Step>, start: nat, r: nat, i: nat, t: nat)
    requires IsRun(run, steps, start) && r < i < |run|
    requires Slips(steps, t, r) && Undisturbed(steps, t, r, i)
    ensures Stranded(run[i], t)
    decreases i
  {
    hide Next, Shape, WakeInv, ExclusionInv, LinearInv, CallsInv, Stranded, Slips, Pending;
    RunInv(run, steps, start, i - 1);
    if r == i - 1 {
      SlipsAt(run, steps, start, t, r);
      SlippingStrands(run[r], t, run[i]);
    } else {
      SlipStrands(run, steps, start, r, i - 1, t);
      StrandedGoesOn(run[i - 1], steps[i - 1], run[i], t);
    }
  }

  lemma SlippingStrands(s: State, t: nat, s': State)
    requires Shape(s) && Next(s, Register(t), s') && Quiet(s) && t !in s.notified && !InAnyBatch(s, t)
    ensures Stranded(s', t)
  {
    RegisterKeepsRest(s, t, s');
  }

  /**
   "No waiter sleeps while the mutex is free" fails in exactly one way: some
   registration slipped past a release, and nobody has polled the mutex since.
   The condition is read off the steps taken alone.
   */
  lemma StrandedExactlyWhen(run: seq<State>, steps: seq<Step>, start: nat, i: nat, t: nat)
    requires IsRun(run, steps, start) && i < |run|
    ensures Stranded(run[i], t) <==> exists r: nat | r < i :: Slips(steps, t, r) && Undisturbed(steps, t, r, i)
  {
    hide Next, Init, Stranded, Slips, Undisturbed;
    if Stranded(run[i], t) {
      var r := StrandedSince(run, steps, start, i, t);
    }
    if r: nat :| r < i && Slips(steps, t, r) && Undisturbed(steps, t, r, i) {
      SlipStrands(run, steps, start, r, i, t);
    }
  }

  /** A task about to register lost to a guard at its last swap and has done nothing since. */
  lemma {:induction false} FailedSwap(run: seq<State>, steps: seq<Step>, start: nat, i: nat, t: nat) returns (q: nat)
    requires IsRun(run, steps, start) && i < |run|
    requires t < |run[i].tasks| && run[i].tasks[t].PollFailed?
    ensures q < i && steps[q] == SwapFlag(t) && run[q].flag
    ensures forall j | q < j <= i :: t < |run[j].tasks| && run[j].tasks[t].PollFailed?
  {
    if i == 0 {
      assert false;
    } else {
      assert Next(run[i - 1], steps[i - 1], run[i]);
      if run[i - 1].tasks[t].PollFailed? {
        q := FailedSwap(run, steps, start, i - 1, t);
      } else {
        q := i - 1;
      }
    }
  }

  lemma {:induction false} LastRelease(run: seq<State>, steps: seq<Step>, start: nat, q: nat, i: nat) returns (a: nat)
    requires IsRun(run, steps, start) && q <= i < |run| && run[q].flag && !run[i].flag
    ensures q <= a < i && steps[a].StoreFlag?
    ensures forall j | a < j < i :: !steps[j].SwapFlag?
    decreases i
  {
    StepTells(run[i - 1], steps[i - 1], run[i], 0, 0);
    hide Next;
    if run[i - 1].flag {
      a := i - 1;
    } else {
      a := LastRelease(run, steps, start, q, i - 1);
    }
  }

  /**
   The slip is between the two halves of one poll: after the swap at `q` that
   found the flag up, and before the registration at `r`, the flag was lowered
   for good and the waker set swapped by the task that lowered it.
   */
  lemma SlipSplitsPoll(run: seq<State>, steps: seq<Step>, start: nat, t: nat, r: nat) returns (q: nat, a: nat, b: nat)
    requires IsRun(run, steps, start) && Slips(steps, t, r)
    ensures q < a < b < r < |steps| && steps[r] == Register(t)
    ensures steps[q] == SwapFlag(t) && run[q].flag
    ensures steps[a].StoreFlag? && steps[b] == SwapBits(steps[a].t)
    ensures forall j | a < j < r :: !steps[j].SwapFlag?
    ensures forall j | q < j <= r :: t < |run[j].tasks| && run[j].tasks[t].PollFailed?
  {
    SlipsAt(run, steps, start, t, r);
    assert run[r].tasks[t].PollFailed? by {
      assert Next(run[r], steps[r], run[r + 1]);
    }
    q := FailedSwap(run, steps, start, r, t);
    StepTells(run[q], steps[q], run[q + 1], 0, 0);
    hide Next;
    a := LastRelease(run, steps, start, q + 1, r);
    assert a in Times(steps, StoreFlag(steps[a].t));
    assert !Pending(Times(steps, StoreFlag(steps[a].t)), Times(steps, SwapBits(steps[a].t)), r);
    b :| a < b < r && b in Times(steps, SwapBits(steps[a].t));
  }

  function SlipSteps(op: Op): (steps: seq<Step>)
    ensures |steps| == 10
  {
    [Call(0, op), SwapFlag(0), Call(1, op), SwapFlag(1), ReadQueue(0), WriteQueue(0),
     StoreFlag(0), SwapBits(0), Finish(0), Register(1)]
  }

  /** Task 0 locks, and task 1 fails to. */
  ghost function SlipLocking(op: Op): (run: seq<State>)
    ensures |run| == 5 && Init(run[0], 0)
    ensures forall i | 0 <= i < 4 :: Shape(run[i]) && Next(run[i], SlipSteps(op)[i], run[i + 1])
    ensures run[4] == State(true, {}, {}, [Guarding(op), PollFailed(op)], Queue(0, []), [], 0, [0, 0], [[op], [op]])
  {
    assert [] + [op] == [op];
    var s0 := State(false, {}, {}, [Away, Away], Queue(0, []), [], 0, [0, 0], [[], []]);
    var s1 := s0.(tasks := s0.tasks[0 := Polling(op)], calls := s0.calls[0 := [op]]);
    var s2 := s1.(flag := true, tasks := s1.tasks[0 := Guarding(op)]);
    var s3 := s2.(tasks := s2.tasks[1 := Polling(op)], calls := s2.calls[1 := [op]]);
    var s4 := s3.(flag := true, tasks := s3.tasks[1 := PollFailed(op)]);
    [s0, s1, s2, s3, s4]
  }

  /** Task 0 uses the queue and lowers the flag. */
  ghost function SlipUsing(op: Op, s0: State): (run: seq<State>)
    requires s0 == State(true, {}, {}, [Guarding(op), PollFailed(op)], Queue(0, []), [], 0, [0, 0], [[op], [op]])
    ensures |run| == 4 && run[0] == s0
    ensures forall i | 0 <= i < 3 :: Shape(run[i]) && Next(run[i], SlipSteps(op)[4 + i], run[i + 1])
    ensures run[3] == State(
      false, {}, {}, [Unlocked, PollFailed(op)], run[3].queue, run[3].log, 0, [0, 0], [[op], [op]])
  {
    hide Apply, Result;
    var s1 := s0.(tasks := s0.tasks[0 := Working(op, s0.queue)]);
    var s2 := s1.(queue := Apply(s0.queue, op), tasks := s1.tasks[0 := Done],
                  log := s1.log + [Entry(0, op, Result(s0.queue, op))]);
    var s3 := s2.(flag := false, tasks := s2.tasks[0 := Unlocked]);
    [s0, s1, s2, s3]
  }

  /** Task 0 is done with waking before task 1 registers. */
  ghost function SlipWaking(op: Op, s0: State): (run: seq<State>)
    requires s0 == State(false, {}, {}, [Unlocked, PollFailed(op)], s0.queue, s0.log, 0, [0, 0], [[op], [op]])
    ensures |run| == 4 && run[0] == s0
    ensures forall i | 0 <= i < 3 :: Shape(run[i]) && Next(run[i], SlipSteps(op)[7 + i], run[i + 1])
    ensures Stranded(run[3], 1) && run[3].tasks[0] == Away && run[3].notified == {}
  {
    var s1 := s0.(bits := {}, swaps := 1, tasks := s0.tasks[0 := Waking({}, 1)]);
    var s2 := s1.(tasks := s1.tasks[0 := Away]);
    var s3 := s2.(bits := {1}, tasks := s2.tasks[1 := Asleep(op)], since := s2.since[1 := 1]);
    [s0, s1, s2, s3]
  }

  /** It does fail: two tasks, ten steps, one of them asleep on a free mutex with nothing on its way to wake it. */
  lemma SlipHappens(op: Op) returns (run: seq<State>, steps: seq<Step>)
    ensures IsRun(run, steps, 0) && |steps| == 10 && Stranded(run[10], 1)
    ensures run[10].tasks[0] == Away && run[10].notified == {}
  {
    hide Next, Init, Stranded, SlipSteps, SlipLocking, SlipUsing, SlipWaking;
    var locking := SlipLocking(op);
    var using := SlipUsing(op, locking[4]);
    var waking := SlipWaking(op, using[3]);
    run, steps := locking[..4] + using[..3] + waking, SlipSteps(op);
    forall i | 0 <= i < 10
      ensures Shape(run[i]) && Next(run[i], steps[i], run[i + 1])
    {
      if i >= 7 {
        assert Next(waking[i - 7], steps[7 + (i - 7)], waking[i - 6]);
      } else if i >= 4 {
        assert Next(using[i - 4], steps[4 + (i - 4)], using[i - 3]);
      }
    }
  }
}
