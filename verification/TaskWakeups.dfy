/**
 All waker sets and the task table together. A task registers in one set and
 then waits; a set is swapped out as a batch of ids, each id is looked up in the
 table when its turn comes, and the task found there is notified. Nobody else
 notifies tasks.
 */
module TaskWakeups {
  import opened Options

  /** A task of the executor. Registering in a set and waiting are one step: the task does nothing in between. */
  datatype Task =
    | Unregistered
    | Running(id: nat)
    | Sleeping(id: nat)

  /** A `wake_all` or `wake_from_isr`: the ids still to look up, and the task looked up and not yet notified. */
  datatype Batch = Batch(ids: set<nat>, loaded: Option<nat>)

  /** Where a wake can be on its way. */
  datatype Place = InSet(w: nat) | InBatch(b: nat) | Loaded(b: nat) | Notified

  /** `slots` is the task table and `sets` the waker sets; `place` is history: where each task's last wake is. */
  datatype State = State(
    slots: seq<Option<nat>>, tasks: seq<Task>, sets: seq<set<nat>>, batches: seq<Batch>,
    notified: set<nat>, place: seq<Place>)

  datatype Step =
    | Claim(t: nat, id: nat)
    | Clear(t: nat)
    | Sleep(t: nat, w: nat)
    | WakeUp(t: nat)
    | Swap(w: nat)
    | Load(b: nat, id: nat)
    | Notify(b: nat)

  ghost predicate Init(s: State) {
    && (forall i | 0 <= i < |s.slots| :: s.slots[i] == None)
    && (forall t | 0 <= t < |s.tasks| :: s.tasks[t] == Unregistered)
    && (forall w | 0 <= w < |s.sets| :: s.sets[w] == {})
    && s.batches == [] && s.notified == {} && |s.place| == |s.tasks|
  }

  ghost predicate Next(s: State, step: Step, s': State)
    requires |s.place| == |s.tasks|
  {
    match step
    case Claim(t, id) =>
      t < |s.tasks| && s.tasks[t].Unregistered? && id < |s.slots| && s.slots[id] == None &&
      s' == s.(slots := s.slots[id := Some(t)], tasks := s.tasks[t := Running(id)])
    case Clear(t) =>
      t < |s.tasks| && s.tasks[t].Running? && s.tasks[t].id < |s.slots| &&
      s' == s.(slots := s.slots[s.tasks[t].id := None], tasks := s.tasks[t := Unregistered])
    case Sleep(t, w) =>
      t < |s.tasks| && s.tasks[t].Running? && w < |s.sets| &&
      s' == s.(sets := s.sets[w := s.sets[w] + {s.tasks[t].id}], tasks := s.tasks[t := Sleeping(s.tasks[t].id)],
               place := s.place[t := InSet(w)])
    case WakeUp(t) =>
      t < |s.tasks| && s.tasks[t].Sleeping? && t in s.notified &&
      s' == s.(notified := s.notified - {t}, tasks := s.tasks[t := Running(s.tasks[t].id)])
    case Swap(w) =>
      w < |s.sets| &&
      s' == s.(sets := s.sets[w := {}], batches := s.batches + [Batch(s.sets[w], None)],
               place := Moved(s.place, InSet(w), InBatch(|s.batches|)))
    case Load(b, id) =>
      b < |s.batches| && id in s.batches[b].ids && s.batches[b].loaded == None &&
      var found := if id < |s.slots| then s.slots[id] else None;
      s' == s.(batches := s.batches[b := Batch(s.batches[b].ids - {id}, found)],
               place := if found.Some? then Put(s.place, found.value, Loaded(b)) else s.place)
    case Notify(b) =>
      b < |s.batches| && s.batches[b].loaded.Some? &&
      var t := s.batches[b].loaded.value;
      s' == s.(batches := s.batches[b := s.batches[b].(loaded := None)], notified := s.notified + {t},
               place := Put(s.place, t, Notified))
  }

  function Moved(place: seq<Place>, from: Place, to: Place): (moved: seq<Place>)
    ensures |moved| == |place|
  {
    seq(|place|, t requires 0 <= t < |place| => if place[t] == from then to else place[t])
  }

  function Put(place: seq<Place>, t: nat, to: Place): seq<Place> {
    if t < |place| then place[t := to] else place
  }

  function IdOf(task: Task): Option<nat> {
    match task
    case Unregistered => None
    case Running(id) => Some(id)
    case Sleeping(id) => Some(id)
  }

  /** Whether a wake for `t` is on its way at `p`: its id in a set or a batch, or its pointer or notification. */
  ghost predicate Holds(s: State, t: nat, p: Place)
    requires t < |s.tasks|
  {
    match p
    case InSet(w) => w < |s.sets| && IdOf(s.tasks[t]).Some? && IdOf(s.tasks[t]).value in s.sets[w]
    case InBatch(b) => b < |s.batches| && IdOf(s.tasks[t]).Some? && IdOf(s.tasks[t]).value in s.batches[b].ids
    case Loaded(b) => b < |s.batches| && s.batches[b].loaded == Some(t)
    case Notified => t in s.notified
  }

  ghost predicate TableInv(s: State) {
    && (forall i | 0 <= i < |s.slots| && s.slots[i].Some? ::
          s.slots[i].value < |s.tasks| && IdOf(s.tasks[s.slots[i].value]) == Some(i))
    && (forall t | 0 <= t < |s.tasks| && IdOf(s.tasks[t]).Some? ::
          IdOf(s.tasks[t]).value < |s.slots| && s.slots[IdOf(s.tasks[t]).value] == Some(t))
  }

  ghost predicate Taken(s: State, id: nat) {
    id < |s.slots| && s.slots[id].Some?
  }

  /** Ids and pointers under way belong to registered tasks. */
  ghost predicate NoStrays(s: State) {
    && (forall w, id | 0 <= w < |s.sets| && id in s.sets[w] :: Taken(s, id))
    && (forall b, id | 0 <= b < |s.batches| && id in s.batches[b].ids :: Taken(s, id))
    && (forall b | 0 <= b < |s.batches| && s.batches[b].loaded.Some? :: s.batches[b].loaded.value < |s.tasks|)
    && (forall t | t in s.notified :: t < |s.tasks|)
  }

  /** A sleeping task's wake is in one place, and no other task has one anywhere. */
  ghost predicate OnePlace(s: State)
    requires |s.place| == |s.tasks|
  {
    forall t: nat, p | t < |s.tasks| :: Holds(s, t, p) <==> s.tasks[t].Sleeping? && p == s.place[t]
  }

  ghost predicate Inv(s: State) {
    |s.place| == |s.tasks| && TableInv(s) && NoStrays(s) && OnePlace(s)
  }

  lemma InitInv(s: State)
    requires Init(s)
    ensures Inv(s)
  {
  }

  lemma ClaimKeepsTable(s: State, t: nat, id: nat, s': State)
    requires TableInv(s) && t < |s.tasks| && IdOf(s.tasks[t]) == None && id < |s.slots| && s.slots[id] == None
    requires s'.slots == s.slots[id := Some(t)] && s'.tasks == s.tasks[t := Running(id)]
    ensures TableInv(s')
  {
  }

  lemma ClearKeepsTable(s: State, t: nat, id: nat, s': State)
    requires TableInv(s) && t < |s.tasks| && IdOf(s.tasks[t]) == Some(id) && id < |s.slots|
    requires s'.slots == s.slots[id := None] && s'.tasks == s.tasks[t := Unregistered]
    ensures TableInv(s')
  {
  }

  lemma SameIdsKeepTable(s: State, s': State)
    requires TableInv(s) && s'.slots == s.slots && |s'.tasks| == |s.tasks|
    requires forall t | 0 <= t < |s.tasks| :: IdOf(s'.tasks[t]) == IdOf(s.tasks[t])
    ensures TableInv(s')
  {
  }

  lemma TableKept(s: State, step: Step, s': State)
    requires |s.place| == |s.tasks| && TableInv(s) && Next(s, step, s')
    ensures TableInv(s')
  {
    hide TableInv;
    match step
    case Claim(t, id) => ClaimKeepsTable(s, t, id, s');
    case Clear(t) => ClearKeepsTable(s, t, s.tasks[t].id, s');
    case _ => SameIdsKeepTable(s, s');
  }

  /** A running task holds no wake, so its slot can be given up without leaving its id behind. */
  lemma RunningHoldsNothing(s: State, t: nat)
    requires Inv(s) && t < |s.tasks| && s.tasks[t].Running?
    ensures forall w | 0 <= w < |s.sets| :: s.tasks[t].id !in s.sets[w]
    ensures forall b | 0 <= b < |s.batches| :: s.tasks[t].id !in s.batches[b].ids && s.batches[b].loaded != Some(t)
    ensures t !in s.notified
  {
    forall w: nat | w < |s.sets|
      ensures s.tasks[t].id !in s.sets[w]
    {
      assert !Holds(s, t, InSet(w));
    }
    forall b: nat | b < |s.batches|
      ensures s.tasks[t].id !in s.batches[b].ids && s.batches[b].loaded != Some(t)
    {
      assert !Holds(s, t, InBatch(b)) && !Holds(s, t, Loaded(b));
    }
    assert !Holds(s, t, Notified);
  }

  lemma TakenKept(s: State, step: Step, s': State, id: nat)
    requires |s.place| == |s.tasks| && Next(s, step, s') && Taken(s, id)
    requires step.Clear? ==> id != s.tasks[step.t].id
    ensures Taken(s', id)
  {
  }

  lemma TakenByTask(s: State, id: nat)
    requires TableInv(s) && Taken(s, id)
    ensures s.slots[id].value < |s.tasks|
  {
  }

  lemma StraysKept(s: State, step: Step, s': State)
    requires Inv(s) && Next(s, step, s')
    ensures NoStrays(s')
  {
    if step.Clear? {
      RunningHoldsNothing(s, step.t);
    } else if step.Load? && Taken(s, step.id) {
      TakenByTask(s, step.id);
    }
    if step.Sleep? {
      assert Taken(s, s.tasks[step.t].id);
    }
    hide OnePlace, TableInv;
    forall id | Taken(s, id) && (step.Clear? ==> id != s.tasks[step.t].id)
      ensures Taken(s', id)
    {
      TakenKept(s, step, s', id);
    }
    hide Taken;
  }

  lemma OnePlaceKept(s: State, step: Step, s': State)
    requires Inv(s) && Next(s, step, s')
    ensures |s'.place| == |s'.tasks| && OnePlace(s')
  {
    forall t: nat, p | t < |s'.tasks|
      ensures Holds(s', t, p) <==> s'.tasks[t].Sleeping? && p == s'.place[t]
    {
      match step
      case Claim(u, id) => ClaimMovesNothing(s, u, id, s', t, p);
      case Clear(u) => ClearMovesNothing(s, u, s', t, p);
      case Sleep(u, w) => SleepPlaces(s, u, w, s', t, p);
      case WakeUp(u) => WakeUpTakes(s, u, s', t, p);
      case Swap(w) => SwapMoves(s, w, s', t, p);
      case Load(b, id) => LoadMoves(s, b, id, s', t, p);
      case Notify(b) => NotifyMoves(s, b, s', t, p);
    }
  }

  lemma ClaimMovesNothing(s: State, u: nat, id: nat, s': State, t: nat, p: Place)
    requires Inv(s) && Next(s, Claim(u, id), s') && t < |s.tasks|
    ensures Holds(s', t, p) <==> s'.tasks[t].Sleeping? && p == s'.place[t]
  {
    assert !Taken(s, id);
    assert Holds(s, t, p) <==> s.tasks[t].Sleeping? && p == s.place[t];
  }

  lemma ClearMovesNothing(s: State, u: nat, s': State, t: nat, p: Place)
    requires Inv(s) && Next(s, Clear(u), s') && t < |s.tasks|
    ensures Holds(s', t, p) <==> s'.tasks[t].Sleeping? && p == s'.place[t]
  {
    assert Holds(s, t, p) <==> s.tasks[t].Sleeping? && p == s.place[t];
  }

  lemma SleepPlaces(s: State, u: nat, w: nat, s': State, t: nat, p: Place)
    requires Inv(s) && Next(s, Sleep(u, w), s') && t < |s.tasks|
    ensures Holds(s', t, p) <==> s'.tasks[t].Sleeping? && p == s'.place[t]
  {
    assert Holds(s, t, p) <==> s.tasks[t].Sleeping? && p == s.place[t];
    DifferentIds(s, t, u);
  }

  lemma DifferentIds(s: State, t: nat, u: nat)
    requires TableInv(s) && t < |s.tasks| && u < |s.tasks|
    ensures IdOf(s.tasks[t]).Some? && IdOf(s.tasks[t]) == IdOf(s.tasks[u]) ==> t == u
  {
  }

  lemma WakeUpTakes(s: State, u: nat, s': State, t: nat, p: Place)
    requires Inv(s) && Next(s, WakeUp(u), s') && t < |s.tasks|
    ensures Holds(s', t, p) <==> s'.tasks[t].Sleeping? && p == s'.place[t]
  {
    assert Holds(s, t, p) <==> s.tasks[t].Sleeping? && p == s.place[t];
    assert Holds(s, u, Notified) ==> s.place[u] == Notified;
  }

  lemma SwapMoves(s: State, w: nat, s': State, t: nat, p: Place)
    requires Inv(s) && Next(s, Swap(w), s') && t < |s.tasks|
    ensures Holds(s', t, p) <==> s'.tasks[t].Sleeping? && p == s'.place[t]
  {
    assert Holds(s, t, p) <==> s.tasks[t].Sleeping? && p == s.place[t];
    assert Holds(s, t, InSet(w)) <==> s.tasks[t].Sleeping? && InSet(w) == s.place[t];
    assert !Holds(s, t, InBatch(|s.batches|)) && !Holds(s, t, Loaded(|s.batches|));
  }

  lemma LoadMoves(s: State, b: nat, id: nat, s': State, t: nat, p: Place)
    requires Inv(s) && Next(s, Load(b, id), s') && t < |s.tasks|
    ensures Holds(s', t, p) <==> s'.tasks[t].Sleeping? && p == s'.place[t]
  {
    assert Holds(s, t, p) <==> s.tasks[t].Sleeping? && p == s.place[t];
    assert Taken(s, id);
    var u := s.slots[id].value;
    assert Holds(s, u, InBatch(b));
    DifferentIds(s, u, t);
  }

  lemma NotifyMoves(s: State, b: nat, s': State, t: nat, p: Place)
    requires Inv(s) && Next(s, Notify(b), s') && t < |s.tasks|
    ensures Holds(s', t, p) <==> s'.tasks[t].Sleeping? && p == s'.place[t]
  {
    assert Holds(s, t, p) <==> s.tasks[t].Sleeping? && p == s.place[t];
    assert Holds(s, s.batches[b].loaded.value, Loaded(b));
  }

  ghost predicate IsRun(run: seq<State>, steps: seq<Step>) {
    && |run| == |steps| + 1 && Init(run[0])
    && (forall i | 0 <= i < |steps| :: |run[i].place| == |run[i].tasks| && Next(run[i], steps[i], run[i + 1]))
  }

  lemma {:induction false} RunInv(run: seq<State>, steps: seq<Step>, i: nat)
    requires IsRun(run, steps) && i < |run|
    ensures Inv(run[i])
  {
    if i == 0 {
      InitInv(run[0]);
    } else {
      RunInv(run, steps, i - 1);
      hide Next, TableInv, NoStrays, OnePlace;
      TableKept(run[i - 1], steps[i - 1], run[i]);
      StraysKept(run[i - 1], steps[i - 1], run[i]);
      OnePlaceKept(run[i - 1], steps[i - 1], run[i]);
    }
  }

  /**
   Over all sets together, a sleeping task has exactly one wake on its way: its
   bit, its place in a batch, its pointer or its notification. A task that runs
   has none, so it never finds a notification left over from an earlier wait.
   */
  lemma OneWakeEach(run: seq<State>, steps: seq<Step>, i: nat, t: nat)
    requires IsRun(run, steps) && i < |run| && t < |run[i].tasks|
    ensures run[i].tasks[t].Sleeping? ==>
              exists p :: Holds(run[i], t, p) && forall q | Holds(run[i], t, q) :: q == p
    ensures !run[i].tasks[t].Sleeping? ==> forall p :: !Holds(run[i], t, p)
  {
    RunInv(run, steps, i);
    assert run[i].tasks[t].Sleeping? ==> Holds(run[i], t, run[i].place[t]);
  }

  /**
   No wake goes astray, although the table may change while a batch is worked
   off: every id in a set or a batch is the slot of a sleeping task, and every
   notification goes to a task asleep at that moment.
   */
  lemma NoWakeGoesAstray(run: seq<State>, steps: seq<Step>, i: nat)
    requires IsRun(run, steps) && i < |run|
    ensures var s := run[i];
            && (forall w, id | 0 <= w < |s.sets| && id in s.sets[w] :: SleepsIn(s, id))
            && (forall b, id | 0 <= b < |s.batches| && id in s.batches[b].ids :: SleepsIn(s, id))
            && (forall b | 0 <= b < |s.batches| && s.batches[b].loaded.Some? ::
                  s.batches[b].loaded.value < |s.tasks| && s.tasks[s.batches[b].loaded.value].Sleeping?)
  {
    RunInv(run, steps, i);
    var s := run[i];
    forall w: nat, id | w < |s.sets| && id in s.sets[w]
      ensures SleepsIn(s, id)
    {
      assert Taken(s, id) && Holds(s, s.slots[id].value, InSet(w));
    }
    forall b: nat, id | b < |s.batches| && id in s.batches[b].ids
      ensures SleepsIn(s, id)
    {
      assert Taken(s, id) && Holds(s, s.slots[id].value, InBatch(b));
    }
    forall b: nat | b < |s.batches| && s.batches[b].loaded.Some?
      ensures s.batches[b].loaded.value < |s.tasks| && s.tasks[s.batches[b].loaded.value].Sleeping?
    {
      assert Holds(s, s.batches[b].loaded.value, Loaded(b));
    }
  }

  /** The slot `id` belongs to a task that is asleep. */
  ghost predicate SleepsIn(s: State, id: nat) {
    && id < |s.slots| && s.slots[id].Some? && s.slots[id].value < |s.tasks|
    && s.tasks[s.slots[id].value] == Sleeping(id)
  }

  // ----- wakes arrive -----

  /** How many steps a sleeping task's wake is away from waking it. */
  ghost function Distance(s: State, t: nat): nat
    requires t < |s.place| == |s.tasks|
  {
    if !s.tasks[t].Sleeping? then 0 else
    match s.place[t]
    case InSet(_) => 4
    case InBatch(b) => if b < |s.batches| && s.batches[b].loaded.Some? then 4 else 3
    case Loaded(_) => 2
    case Notified => 1
  }

  /** The step that takes the wake on its way further. */
  lemma WakeGoesOn(s: State, t: nat) returns (step: Step, s': State)
    requires Inv(s) && t < |s.tasks| && s.tasks[t].Sleeping?
    ensures Next(s, step, s') && |s'.place| == |s'.tasks| == |s.tasks|
    ensures step == WakeUp(t) || step.Swap? || step.Load? || step.Notify?
    ensures Distance(s', t) < Distance(s, t)
    ensures if step == WakeUp(t) then s'.tasks[t] == Running(s.tasks[t].id) else s'.tasks == s.tasks
  {
    var id, p := s.tasks[t].id, s.place[t];
    assert Holds(s, t, p);
    assert s.slots[id] == Some(t);
    match p
    case InSet(w) =>
      step := Swap(w);
      s' := s.(sets := s.sets[w := {}], batches := s.batches + [Batch(s.sets[w], None)],
               place := Moved(s.place, InSet(w), InBatch(|s.batches|)));
    case InBatch(b) =>
      if s.batches[b].loaded.Some? {
        step, s' := NotifyStep(s, b);
        assert !Holds(s, t, Loaded(b));
      } else {
        step := Load(b, id);
        s' := s.(batches := s.batches[b := Batch(s.batches[b].ids - {id}, Some(t))],
                 place := Put(s.place, t, Loaded(b)));
      }
    case Loaded(b) =>
      step, s' := NotifyStep(s, b);
    case Notified =>
      step := WakeUp(t);
      s' := s.(notified := s.notified - {t}, tasks := s.tasks[t := Running(id)]);
  }

  lemma NotifyStep(s: State, b: nat) returns (step: Step, s': State)
    requires |s.place| == |s.tasks| && b < |s.batches| && s.batches[b].loaded.Some?
    ensures step == Notify(b) && Next(s, step, s') && s'.tasks == s.tasks && |s'.place| == |s.place|
    ensures s'.batches == s.batches[b := s.batches[b].(loaded := None)]
    ensures s'.place == Put(s.place, s.batches[b].loaded.value, Notified)
  {
    var t := s.batches[b].loaded.value;
    step := Notify(b);
    s' := s.(batches := s.batches[b := s.batches[b].(loaded := None)], notified := s.notified + {t},
             place := Put(s.place, t, Notified));
  }

  lemma RunLonger(run: seq<State>, steps: seq<Step>, step: Step, s': State)
    returns (run': seq<State>, steps': seq<Step>)
    requires IsRun(run, steps) && |run[|steps|].place| == |run[|steps|].tasks| && Next(run[|steps|], step, s')
    ensures run' == run + [s'] && steps' == steps + [step] && IsRun(run', steps') && run'[|steps'|] == s'
  {
    hide Next, Init;
    run', steps' := run + [s'], steps + [step];
    forall i | 0 <= i < |steps'|
      ensures |run'[i].place| == |run'[i].tasks| && Next(run'[i], steps'[i], run'[i + 1])
    {
      if i < |steps| {
        assert Next(run[i], steps[i], run[i + 1]);
      }
    }
  }

  lemma SameShape(s: State)
    requires Inv(s)
    ensures |s.place| == |s.tasks|
  {
  }

  /**
   Whatever set a sleeping task is in, and however far it and others have been
   swapped out and looked up, at most four steps of swapping, looking up,
   notifying and waking up get it running again.
   */
  lemma {:induction false} SleeperCanWake(run: seq<State>, steps: seq<Step>, t: nat)
    returns (run': seq<State>, steps': seq<Step>)
    requires IsRun(run, steps) && t < |run[|steps|].tasks| && run[|steps|].tasks[t].Sleeping?
    ensures IsRun(run', steps') && run <= run' && steps <= steps' && |steps| < |steps'| <= |steps| + 4
    ensures forall k | |steps| <= k < |steps'| - 1 :: steps'[k].Swap? || steps'[k].Load? || steps'[k].Notify?
    ensures steps'[|steps'| - 1] == WakeUp(t)
    ensures run'[|steps'|].tasks == run[|steps|].tasks[t := Running(run[|steps|].tasks[t].id)]
    ensures |run[|steps|].place| == |run[|steps|].tasks| && |steps'| <= |steps| + Distance(run[|steps|], t)
    decreases if |run[|steps|].place| == |run[|steps|].tasks| then Distance(run[|steps|], t) else 0
  {
    RunInv(run, steps, |steps|);
    SameShape(run[|steps|]);
    hide IsRun, Inv, Next, Init, Distance;
    var s := run[|steps|];
    var step, s' := WakeGoesOn(s, t);
    run', steps' := RunLonger(run, steps, step, s');
    if step != WakeUp(t) {
      run', steps' := SleeperCanWake(run', steps', t);
    }
  }

  /** A running task can always go to sleep in any set, or give its slot up, which leaves that slot to anybody. */
  lemma RunningGoesOn(run: seq<State>, steps: seq<Step>, t: nat, w: nat, u: nat)
    returns (asleep: State, cleared: State, claimed: State)
    requires IsRun(run, steps) && t < |run[|steps|].tasks| && run[|steps|].tasks[t].Running?
    requires w < |run[|steps|].sets| && u < |run[|steps|].tasks| && run[|steps|].tasks[u].Unregistered?
    ensures var s, id := run[|steps|], run[|steps|].tasks[t].id;
            && |s.place| == |s.tasks|
            && Next(s, Sleep(t, w), asleep) && asleep.tasks[t] == Sleeping(id) && id in asleep.sets[w]
            && Next(s, Clear(t), cleared) && cleared.tasks[t] == Unregistered && |cleared.place| == |cleared.tasks|
            && Next(cleared, Claim(u, id), claimed) && claimed.tasks[u] == Running(id)
  {
    RunInv(run, steps, |steps|);
    var s := run[|steps|];
    var id := s.tasks[t].id;
    asleep := s.(sets := s.sets[w := s.sets[w] + {id}], tasks := s.tasks[t := Sleeping(id)],
                 place := s.place[t := InSet(w)]);
    cleared := s.(slots := s.slots[id := None], tasks := s.tasks[t := Unregistered]);
    claimed := cleared.(slots := cleared.slots[id := Some(u)], tasks := cleared.tasks[u := Running(id)]);
  }
}
