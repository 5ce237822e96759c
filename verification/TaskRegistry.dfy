/**
 The global table of running tasks: one slot each, claimed and cleared by
 atomic operations while other tasks do the same. Slots are counted from 0;
 their number is whatever the table has.
 */
module TaskRegistry {
  import opened Options

  /**
   What a task is doing to the table: scanning for a free slot to claim, or,
   once registered, scanning for itself as `TaskId::current` does.
   */
  datatype Task =
    | Unregistered
    | Claiming(next: nat)
    | Live(id: nat)
    | Scanning(id: nat, next: nat)
    | Found(id: nat, answer: nat)
    | Panicked

  /** Slots hold the pointer of the task that claimed them, here its index. */
  datatype State = State(slots: seq<Option<nat>>, tasks: seq<Task>)

  datatype Step =
    | Begin(t: nat)
    | TryClaim(t: nat)
    | Clear(t: nat)
    | StartScan(t: nat)
    | Look(t: nat)
    | EndScan(t: nat)

  ghost predicate Init(s: State) {
    && (forall i | 0 <= i < |s.slots| :: s.slots[i] == None)
    && (forall t | 0 <= t < |s.tasks| :: s.tasks[t] == Unregistered)
  }

  ghost predicate Next(s: State, step: Step, s': State) {
    var t := step.t;
    t < |s.tasks| &&
    match (step, s.tasks[t])
    case (Begin(_), Unregistered) =>
      s' == s.(tasks := s.tasks[t := Claiming(0)])
    case (TryClaim(_), Claiming(i)) =>
      s' == if i >= |s.slots| then s.(tasks := s.tasks[t := Panicked])
            else if s.slots[i] == None then State(s.slots[i := Some(t)], s.tasks[t := Live(i)])
            else s.(tasks := s.tasks[t := Claiming(i + 1)])
    case (Clear(_), Live(id)) =>
      id < |s.slots| && s' == State(s.slots[id := None], s.tasks[t := Unregistered])
    case (StartScan(_), Live(id)) =>
      s' == s.(tasks := s.tasks[t := Scanning(id, 0)])
    case (Look(_), Scanning(id, j)) =>
      s' == if j >= |s.slots| then s.(tasks := s.tasks[t := Panicked])
            else if s.slots[j] == Some(t) then s.(tasks := s.tasks[t := Found(id, j)])
            else s.(tasks := s.tasks[t := Scanning(id, j + 1)])
    case (EndScan(_), Found(id, _)) =>
      s' == s.(tasks := s.tasks[t := Live(id)])
    case _ => false
  }

  /** The slot a registered task got, which is the id its waker carries. */
  function SlotOf(task: Task): Option<nat> {
    match task
    case Live(id) => Some(id)
    case Scanning(id, _) => Some(id)
    case Found(id, _) => Some(id)
    case _ => None
  }

  /** The table and the tasks agree on who has which slot. */
  ghost predicate TableInv(s: State) {
    && (forall i | 0 <= i < |s.slots| && s.slots[i].Some? ::
          s.slots[i].value < |s.tasks| && SlotOf(s.tasks[s.slots[i].value]) == Some(i))
    && (forall t | 0 <= t < |s.tasks| && SlotOf(s.tasks[t]).Some? ::
          SlotOf(s.tasks[t]).value < |s.slots| && s.slots[SlotOf(s.tasks[t]).value] == Some(t))
  }

  /** A scan has not gone past its task's own slot, and ends there. */
  ghost predicate ScanInv(task: Task) {
    match task
    case Scanning(id, next) => next <= id
    case Found(id, answer) => answer == id
    case _ => true
  }

  ghost predicate Inv(s: State) {
    TableInv(s) && forall t | 0 <= t < |s.tasks| :: ScanInv(s.tasks[t])
  }

  lemma ClaimKeepsTable(s: State, t: nat, id: nat)
    requires TableInv(s) && t < |s.tasks| && SlotOf(s.tasks[t]) == None
    requires id < |s.slots| && s.slots[id] == None
    ensures TableInv(State(s.slots[id := Some(t)], s.tasks[t := Live(id)]))
  {
  }

  lemma ClearKeepsTable(s: State, t: nat, id: nat)
    requires TableInv(s) && t < |s.tasks| && SlotOf(s.tasks[t]) == Some(id) && id < |s.slots|
    ensures TableInv(State(s.slots[id := None], s.tasks[t := Unregistered]))
  {
  }

  lemma SameSlotKeepsTable(s: State, t: nat, task: Task)
    requires TableInv(s) && t < |s.tasks| && SlotOf(task) == SlotOf(s.tasks[t])
    ensures TableInv(s.(tasks := s.tasks[t := task]))
  {
  }

  lemma TableKept(s: State, step: Step, s': State)
    requires Inv(s) && Next(s, step, s')
    ensures TableInv(s')
  {
    var t := step.t;
    var id := SlotOf(s.tasks[t]);
    assert id.Some? ==> id.value < |s.slots| && s.slots[id.value] == Some(t);
    assert ScanInv(s.tasks[t]);
    hide TableInv;
    if SlotOf(s'.tasks[t]) == id {
      SameSlotKeepsTable(s, t, s'.tasks[t]);
    } else if step.Clear? {
      ClearKeepsTable(s, t, id.value);
    } else {
      ClaimKeepsTable(s, t, s'.tasks[t].id);
    }
  }

  lemma ScanKept(s: State, step: Step, s': State)
    requires Inv(s) && Next(s, step, s')
    ensures forall t | 0 <= t < |s'.tasks| :: ScanInv(s'.tasks[t])
  {
    var t := step.t;
    var id := SlotOf(s.tasks[t]);
    assert id.Some? ==> id.value < |s.slots| && s.slots[id.value] == Some(t);
    hide TableInv;
    assert ScanInv(s.tasks[t]);
  }

  lemma NextKeepsInv(s: State, step: Step, s': State)
    requires Inv(s) && Next(s, step, s')
    ensures Inv(s')
  {
    TableKept(s, step, s');
    ScanKept(s, step, s');
    hide TableInv, ScanInv, Next;
  }

  ghost predicate IsRun(run: seq<State>, steps: seq<Step>) {
    && |run| == |steps| + 1 && Init(run[0])
    && (forall i | 0 <= i < |steps| :: Next(run[i], steps[i], run[i + 1]))
  }

  lemma {:induction false} RunInv(run: seq<State>, steps: seq<Step>, i: nat)
    requires IsRun(run, steps) && i < |run|
    ensures Inv(run[i])
  {
    if i > 0 {
      RunInv(run, steps, i - 1);
      NextKeepsInv(run[i - 1], steps[i - 1], run[i]);
    }
  }

  /** Each registered task occupies exactly its one slot, and no two share one. */
  lemma OneSlotEach(run: seq<State>, steps: seq<Step>, i: nat, t: nat, u: nat)
    requires IsRun(run, steps) && i < |run|
    requires t < |run[i].tasks| && SlotOf(run[i].tasks[t]).Some?
    ensures var s := run[i];
            forall j | 0 <= j < |s.slots| :: s.slots[j] == Some(t) <==> j == SlotOf(s.tasks[t]).value
    ensures u < |run[i].tasks| && SlotOf(run[i].tasks[u]) == SlotOf(run[i].tasks[t]) ==> u == t
  {
    RunInv(run, steps, i);
  }

  /**
   However other tasks come and go during its scan, a registered task finds
   itself, at the id its waker carries, and never runs off the table.
   */
  lemma ScanFindsWakerId(run: seq<State>, steps: seq<Step>, i: nat)
    requires IsRun(run, steps) && i < |steps| && steps[i].Look?
    ensures var t := steps[i].t;
            && t < |run[i + 1].tasks|
            && run[i + 1].tasks[t] != Panicked
            && SlotOf(run[i + 1].tasks[t]) == SlotOf(run[i].tasks[t])
            && (run[i + 1].tasks[t].Found? ==> Some(run[i + 1].tasks[t].answer) == SlotOf(run[i].tasks[t]))
  {
    RunInv(run, steps, i);
    RunInv(run, steps, i + 1);
    assert Next(run[i], steps[i], run[i + 1]);
  }

  // ----- whole registrations and scans -----

  /** How often `t` has tried to claim a slot, or looked at one, from step `i` up to `j`. */
  ghost function TriesIn(steps: seq<Step>, t: nat, i: nat, j: nat): nat
    requires i <= j <= |steps|
    decreases j
  {
    if i == j then 0 else
    TriesIn(steps, t, i, j - 1) + if steps[j - 1] == TryClaim(t) || steps[j - 1] == Look(t) then 1 else 0
  }

  /** A task still claiming or scanning has tried, since it began, just the slots behind it. */
  lemma {:induction false} TriedSince(run: seq<State>, steps: seq<Step>, i: nat, j: nat, t: nat)
    requires IsRun(run, steps) && i < j < |run| && (steps[i] == Begin(t) || steps[i] == StartScan(t))
    requires forall k | i < k < j :: steps[k] != Begin(t) && steps[k] != StartScan(t)
    requires t < |run[j].tasks|
    ensures run[j].tasks[t].Claiming? ==> run[j].tasks[t].next == TriesIn(steps, t, i + 1, j) && steps[i] == Begin(t)
    ensures run[j].tasks[t].Scanning? ==>
              run[j].tasks[t].next == TriesIn(steps, t, i + 1, j) && steps[i] == StartScan(t)
    decreases j
  {
    assert Next(run[j - 1], steps[j - 1], run[j]);
    if j > i + 1 {
      TriedSince(run, steps, i, j - 1, t);
    }
  }

  /**
   The n-th attempt of a registration looks at slot n, and takes it exactly if
   it is free at that moment: so a task gets the first slot free when it came by.
   */
  lemma AttemptsGoInOrder(run: seq<State>, steps: seq<Step>, i: nat, j: nat, t: nat)
    requires IsRun(run, steps) && i < j < |steps| && steps[i] == Begin(t) && steps[j] == TryClaim(t)
    requires forall k | i < k < j :: steps[k] != Begin(t) && steps[k] != StartScan(t)
    ensures var n, s, s' := TriesIn(steps, t, i + 1, j), run[j], run[j + 1];
            && t < |s.tasks| && |s'.tasks| == |s.tasks|
            && (n >= |s.slots| <==> s'.tasks[t] == Panicked)
            && (n < |s.slots| && s.slots[n] == None <==> SlotOf(s'.tasks[t]) == Some(n))
            && s'.slots == if n < |s.slots| && s.slots[n] == None then s.slots[n := Some(t)] else s.slots
  {
    assert Next(run[j], steps[j], run[j + 1]);
    TriedSince(run, steps, i, j, t);
  }

  /** A scan by the holder of slot `id` ends with its look number `id`, and not before, whoever comes and goes. */
  lemma ScanEndsAtOwnSlot(run: seq<State>, steps: seq<Step>, i: nat, j: nat, t: nat)
    requires IsRun(run, steps) && i < j < |steps| && steps[i] == StartScan(t) && steps[j] == Look(t)
    requires forall k | i < k < j :: steps[k] != Begin(t) && steps[k] != StartScan(t)
    ensures t < |run[j].tasks| && SlotOf(run[j].tasks[t]).Some? && |run[j + 1].tasks| == |run[j].tasks|
    ensures var id, n := SlotOf(run[j].tasks[t]).value, TriesIn(steps, t, i + 1, j);
            n <= id && run[j + 1].tasks[t] == if n == id then Found(id, id) else Scanning(id, n + 1)
  {
    RunInv(run, steps, j);
    assert Next(run[j], steps[j], run[j + 1]);
    TriedSince(run, steps, i, j, t);
    assert ScanInv(run[j].tasks[t]);
  }

  /** A task that leaves gives back its own slot and no other. */
  lemma LeavingFreesSlot(run: seq<State>, steps: seq<Step>, i: nat)
    requires IsRun(run, steps) && i < |steps| && steps[i].Clear?
    ensures var t := steps[i].t;
            && t < |run[i].tasks| && SlotOf(run[i].tasks[t]).Some? && |run[i + 1].slots| == |run[i].slots|
            && (forall k | 0 <= k < |run[i].slots| ::
                  run[i + 1].slots[k] == if run[i].slots[k] == Some(t) then None else run[i].slots[k])
  {
    RunInv(run, steps, i);
    assert Next(run[i], steps[i], run[i + 1]);
  }

  lemma {:induction false} ClaimOn(run: seq<State>, steps: seq<Step>, t: nat, free: nat)
    returns (run': seq<State>, steps': seq<Step>)
    requires IsRun(run, steps) && |run| == |steps| + 1 && t < |run[|steps|].tasks|
    requires run[|steps|].tasks[t].Claiming? && run[|steps|].tasks[t].next <= free < |run[|steps|].slots|
    requires run[|steps|].slots[free] == None && forall k | 0 <= k < free :: run[|steps|].slots[k].Some?
    ensures IsRun(run', steps') && |run'| == |steps'| + 1 && steps <= steps'
    ensures forall k | |steps| <= k < |steps'| :: steps'[k] == TryClaim(t)
    ensures var s := run[|steps|];
            run'[|steps'|] == State(s.slots[free := Some(t)], s.tasks[t := Live(free)])
    decreases free - run[|steps|].tasks[t].next
  {
    var s := run[|steps|];
    var n := s.tasks[t].next;
    hide IsRun;
    if n == free {
      run', steps' := Longer(run, steps, TryClaim(t), State(s.slots[n := Some(t)], s.tasks[t := Live(n)]));
    } else {
      run', steps' := Longer(run, steps, TryClaim(t), s.(tasks := s.tasks[t := Claiming(n + 1)]));
      run', steps' := ClaimOn(run', steps', t, free);
    }
  }

  /** While a slot is free, a task alone gets the first free one. */
  lemma CanRegister(run: seq<State>, steps: seq<Step>, t: nat, free: nat)
    returns (run': seq<State>, steps': seq<Step>)
    requires IsRun(run, steps) && |run| == |steps| + 1
    requires t < |run[|steps|].tasks| && run[|steps|].tasks[t] == Unregistered
    requires free < |run[|steps|].slots| && run[|steps|].slots[free] == None
    requires forall k | 0 <= k < free :: run[|steps|].slots[k].Some?
    ensures IsRun(run', steps') && steps <= steps'
    ensures forall k | |steps| <= k < |steps'| :: steps'[k] == Begin(t) || steps'[k] == TryClaim(t)
    ensures var s := run[|steps|];
            run'[|steps'|] == State(s.slots[free := Some(t)], s.tasks[t := Live(free)])
  {
    var s := run[|steps|];
    run', steps' := Longer(run, steps, Begin(t), s.(tasks := s.tasks[t := Claiming(0)]));
    run', steps' := ClaimOn(run', steps', t, free);
  }

  lemma {:induction false} LookOn(run: seq<State>, steps: seq<Step>, t: nat)
    returns (run': seq<State>, steps': seq<Step>)
    requires IsRun(run, steps) && |run| == |steps| + 1
    requires t < |run[|steps|].tasks| && run[|steps|].tasks[t].Scanning?
    requires run[|steps|].tasks[t].next <= run[|steps|].tasks[t].id
    ensures IsRun(run', steps') && |run'| == |steps'| + 1 && steps <= steps'
    ensures forall k | |steps| <= k < |steps'| :: steps'[k] == Look(t)
    ensures var s, id := run[|steps|], run[|steps|].tasks[t].id;
            run'[|steps'|] == s.(tasks := s.tasks[t := Found(id, id)])
    decreases run[|steps|].tasks[t].id - run[|steps|].tasks[t].next
  {
    var s := run[|steps|];
    var id, n := s.tasks[t].id, s.tasks[t].next;
    RunInv(run, steps, |steps|);
    assert SlotOf(s.tasks[t]) == Some(id);
    if n == id {
      run', steps' := Longer(run, steps, Look(t), s.(tasks := s.tasks[t := Found(id, id)]));
    } else {
      assert s.slots[n] != Some(t);
      hide IsRun, Inv;
      run', steps' := Longer(run, steps, Look(t), s.(tasks := s.tasks[t := Scanning(id, n + 1)]));
      run', steps' := LookOn(run', steps', t);
    }
  }

  /** A registered task can at any time find itself, and leave. */
  lemma CanScanAndLeave(run: seq<State>, steps: seq<Step>, t: nat)
    returns (run': seq<State>, steps': seq<Step>, found: nat)
    requires IsRun(run, steps) && |run| == |steps| + 1
    requires t < |run[|steps|].tasks| && run[|steps|].tasks[t].Live?
    ensures IsRun(run', steps') && steps <= steps' && found <= |steps'|
    ensures forall k | |steps| <= k < |steps'| :: steps'[k].t == t
    ensures var s, id := run[|steps|], run[|steps|].tasks[t].id;
            && run'[found] == s.(tasks := s.tasks[t := Found(id, id)])
            && id < |s.slots| && run'[|steps'|] == State(s.slots[id := None], s.tasks[t := Unregistered])
  {
    var s := run[|steps|];
    var id := s.tasks[t].id;
    RunInv(run, steps, |steps|);
    assert SlotOf(s.tasks[t]) == Some(id);
    run', steps' := Longer(run, steps, StartScan(t), s.(tasks := s.tasks[t := Scanning(id, 0)]));
    run', steps' := LookOn(run', steps', t);
    found := |steps'|;
    run', steps' := Longer(run', steps', EndScan(t), s);
    run', steps' := Longer(run', steps', Clear(t), State(s.slots[id := None], s.tasks[t := Unregistered]));
  }

  // ----- when all slots are taken -----

  /** How far down the table a task has got: looking for a slot, or in one. */
  function Position(task: Task): nat {
    match task
    case Claiming(next) => next
    case Live(id) => id
    case Scanning(id, _) => id
    case Found(id, _) => id
    case _ => 0
  }

  ghost function Reached(s: State, k: nat): set<nat> {
    set t: nat | t < |s.tasks| && Position(s.tasks[t]) >= k
  }

  /** Whoever passes a slot leaves its holder behind, so fewer and fewer get further and further. */
  ghost predicate CrowdInv(s: State) {
    forall k: nat | Reached(s, k) != {} :: |Reached(s, k)| + k <= |s.tasks|
  }

  lemma NotMore(a: set<nat>, b: set<nat>)
    requires a <= b
    ensures |a| <= |b|
  {
    assert b == a + (b - a);
  }

  lemma {:induction false} UpTo(n: nat, a: set<nat>)
    requires forall t | t in a :: t < n
    ensures |a| <= n
  {
    if n > 0 {
      UpTo(n - 1, a - {n - 1});
    } else {
      assert a == {};
    }
  }

  lemma CrowdInitially(s: State)
    requires Init(s)
    ensures CrowdInv(s)
  {
    forall k: nat | Reached(s, k) != {}
      ensures |Reached(s, k)| + k <= |s.tasks|
    {
      UpTo(|s.tasks|, Reached(s, k));
      assert k == 0;
    }
  }

  lemma CrowdKept(s: State, step: Step, s': State)
    requires TableInv(s) && CrowdInv(s) && Next(s, step, s')
    ensures CrowdInv(s')
  {
    var t := step.t;
    hide CrowdInv;
    if Position(s'.tasks[t]) <= Position(s.tasks[t]) {
      FallingBackKeepsCrowd(s, t, s');
    } else {
      PassingKeepsCrowd(s, t, s');
    }
  }

  lemma FallingBackKeepsCrowd(s: State, t: nat, s': State)
    requires CrowdInv(s) && t < |s.tasks| && |s'.tasks| == |s.tasks|
    requires s'.tasks == s.tasks[t := s'.tasks[t]] && Position(s'.tasks[t]) <= Position(s.tasks[t])
    ensures CrowdInv(s')
  {
    forall k: nat | Reached(s', k) != {}
      ensures |Reached(s', k)| + k <= |s'.tasks|
    {
      assert Reached(s', k) <= Reached(s, k);
      NotMore(Reached(s', k), Reached(s, k));
    }
  }

  lemma PassingKeepsCrowd(s: State, t: nat, s': State)
    requires TableInv(s) && CrowdInv(s) && t < |s.tasks| && s.tasks[t].Claiming?
    requires s.tasks[t].next < |s.slots| && s.slots[s.tasks[t].next].Some?
    requires s' == s.(tasks := s.tasks[t := Claiming(s.tasks[t].next + 1)])
    ensures CrowdInv(s')
  {
    var i := s.tasks[t].next;
    var holder := s.slots[i].value;
    forall k: nat | Reached(s', k) != {}
      ensures |Reached(s', k)| + k <= |s'.tasks|
    {
      if k == i + 1 {
        assert Reached(s', k) <= Reached(s, i) - {holder};
        NotMore(Reached(s', k), Reached(s, i) - {holder});
        assert holder in Reached(s, i);
      } else {
        assert Reached(s', k) == Reached(s, k);
      }
    }
  }

  lemma {:induction false} NobodyPanics(run: seq<State>, steps: seq<Step>, i: nat)
    requires IsRun(run, steps) && i < |run| && |run[0].tasks| <= |run[0].slots|
    ensures CrowdInv(run[i]) && forall t | 0 <= t < |run[i].tasks| :: run[i].tasks[t] != Panicked
    ensures |run[i].tasks| == |run[0].tasks| && |run[i].slots| == |run[0].slots|
  {
    hide CrowdInv, TableInv;
    if i == 0 {
      CrowdInitially(run[0]);
    } else {
      NobodyPanics(run, steps, i - 1);
      RunInv(run, steps, i - 1);
      var s, step, s' := run[i - 1], steps[i - 1], run[i];
      CrowdKept(s, step, s');
      NobodyRunsOff(s, step.t);
      assert s'.tasks[step.t] != Panicked by { OwnSlotInTable(s, step.t); }
    }
  }

  lemma NobodyRunsOff(s: State, t: nat)
    requires CrowdInv(s) && t < |s.tasks| <= |s.slots|
    ensures Position(s.tasks[t]) < |s.slots|
  {
    var k := Position(s.tasks[t]);
    assert t in Reached(s, k);
  }

  lemma OwnSlotInTable(s: State, t: nat)
    requires Inv(s) && t < |s.tasks|
    ensures s.tasks[t].Scanning? ==> s.tasks[t].next < |s.slots|
  {
  }

  /** The table with the first `k` slots taken by the first `k` tasks. */
  ghost function Filled(slots: nat, tasks: nat, k: nat): State {
    State(
      seq(slots, (i: nat) => if i < k then Some(i) else None),
      seq(tasks, (t: nat) => if t < k then Live(t) else Unregistered))
  }

  lemma RestingRun(s: State)
    requires Init(s)
    ensures IsRun([s], [])
  {
  }

  lemma RunLonger(run: seq<State>, steps: seq<Step>, step: Step, s': State)
    requires IsRun(run, steps) && Next(run[|steps|], step, s')
    ensures IsRun(run + [s'], steps + [step])
  {
    hide Next;
    forall i | 0 <= i < |steps| + 1
      ensures Next((run + [s'])[i], (steps + [step])[i], (run + [s'])[i + 1])
    {
      if i < |steps| {
        assert Next(run[i], steps[i], run[i + 1]);
      }
    }
  }

  /** One task after the other takes the next slot, the last of them looking at slot `p`. */
  lemma {:induction false} FillTable(slots: nat, tasks: nat, k: nat, p: nat) returns (run: seq<State>, steps: seq<Step>)
    requires p <= k <= slots && k < tasks
    ensures IsRun(run, steps) && |run| == |steps| + 1 && run[0] == Filled(slots, tasks, 0)
    ensures var s := Filled(slots, tasks, k);
            run[|steps|] == s.(tasks := s.tasks[k := Claiming(p)])
    decreases k, p
  {
    hide IsRun, TableInv;
    var s := Filled(slots, tasks, k);
    var s' := s.(tasks := s.tasks[k := Claiming(p)]);
    if p > 0 {
      run, steps := FillTable(slots, tasks, k, p - 1);
      run, steps := Longer(run, steps, TryClaim(k), s');
    } else {
      if k == 0 {
        run, steps := [s], [];
        RestingRun(s);
      } else {
        run, steps := FillTable(slots, tasks, k - 1, k - 1);
        run, steps := Longer(run, steps, TryClaim(k - 1), s);
      }
      run, steps := Longer(run, steps, Begin(k), s');
    }
  }

  lemma Longer(run: seq<State>, steps: seq<Step>, step: Step, s': State) returns (run': seq<State>, steps': seq<Step>)
    requires IsRun(run, steps) && |run| == |steps| + 1 && Next(run[|steps|], step, s')
    ensures IsRun(run', steps') && |run'| == |steps'| + 1
    ensures run' == run + [s'] && steps' == steps + [step]
    ensures run'[0] == run[0] && run'[|steps'|] == s'
  {
    RunLonger(run, steps, step, s');
    run', steps' := run + [s'], steps + [step];
  }

  ghost predicate CanPanic(slots: nat, tasks: nat) {
    exists run: seq<State>, steps: seq<Step>, i: nat, t: nat ::
      && IsRun(run, steps) && |run[0].slots| == slots && |run[0].tasks| == tasks
      && i < |run| && t < |run[i].tasks| && run[i].tasks[t] == Panicked
  }

  /** Some interleaving of claims and clears makes a registration panic if and only if tasks outnumber slots. */
  lemma PanicsExactlyWhen(slots: nat, tasks: nat)
    ensures CanPanic(slots, tasks) <==> tasks > slots
  {
    hide Next, Filled;
    if CanPanic(slots, tasks) {
      var run: seq<State>, steps: seq<Step>, i: nat, t: nat :|
        && IsRun(run, steps) && |run[0].slots| == slots && |run[0].tasks| == tasks
        && i < |run| && t < |run[i].tasks| && run[i].tasks[t] == Panicked;
      if tasks <= slots {
        NobodyPanics(run, steps, i);
      }
    }
    if tasks > slots {
      var run, steps := FillTable(slots, tasks, slots, slots);
      LastOneOut(slots, tasks, run, steps);
    }
  }

  lemma LastOneOut(slots: nat, tasks: nat, run: seq<State>, steps: seq<Step>)
    requires tasks > slots && IsRun(run, steps) && run[0] == Filled(slots, tasks, 0)
    requires var s := Filled(slots, tasks, slots);
             run[|steps|] == s.(tasks := s.tasks[slots := Claiming(slots)])
    ensures CanPanic(slots, tasks)
  {
    var last := run[|steps|];
    var s' := last.(tasks := last.tasks[slots := Panicked]);
    var run', steps' := Longer(run, steps, TryClaim(slots), s');
    assert run'[|steps'|].tasks[slots] == Panicked;
  }
}
