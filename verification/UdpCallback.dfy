/**
 Replacing and freeing the UDP receive callback while packets keep arriving.

 One thread owns the socket and calls `on_receive` and finally drops it; the
 network stack's thread calls `dispatch` for each packet. They share two event
 flags. The stack's load of the registered callback pointer and the flag clear
 at the top of `dispatch` are taken to be one step: between the two, `dispatch`
 has announced itself to nobody.
 */
module UdpCallback {
  import opened Options

  /** What the owner does once no callback is left: install the next one, or go away. */
  datatype Goal = Install(cb: nat) | Vanish

  /** The owner's next action. */
  datatype Owner =
    | Ready
    | SetStop(prev: nat, goal: Goal)
    | Unregister(prev: nat, goal: Goal)
    | AwaitSafe(prev: nat, goal: Goal)
    | Free(prev: nat, goal: Goal)
    | ClearFlags(goal: Goal)
    | SetSafe(goal: Goal)
    | Register(cb: nat)
    | Keep(cb: nat)
    | Gone

  /** The dispatcher's next action, with the callback it works on. */
  datatype Dispatcher =
    | Waiting
    | Entered(cb: nat, stop: bool)
    | InClosure(cb: nat)
    | AfterClosure(cb: nat)

  /**
   `next` is the first callback not allocated yet; `freed` lists the callbacks
   freed, in order.
   */
  datatype State = State(
    safe: bool, stop: bool,
    registered: Option<nat>, receiveCb: Option<nat>,
    next: nat, live: set<nat>, freed: seq<nat>,
    owner: Owner, d: Dispatcher)

  datatype Step = OwnerCalls(goal: Goal) | OwnerSteps | Packet | DispatcherSteps

  function Initial(): State {
    State(false, false, None, None, 0, {}, [], Ready, Waiting)
  }

  /** `safely_free_receive_callback` begins by taking the stored box; with none stored it does nothing. */
  function StartQuiesce(s: State, goal: Goal): State {
    match s.receiveCb
    case Some(prev) => s.(receiveCb := None, owner := SetStop(prev, goal))
    case None => s.(owner := SetSafe(goal))
  }

  ghost predicate Next(s: State, step: Step, s': State) {
    match step
    case OwnerCalls(goal) =>
      s.owner == Ready &&
      (match goal
       case Install(cb) =>
         // a failed allocation returns before anything else happens
         cb == s.next && s' == StartQuiesce(s.(next := s.next + 1, live := s.live + {cb}), goal)
       case Vanish => s' == StartQuiesce(s, goal))
    case OwnerSteps =>
      (match s.owner
       case SetStop(prev, goal) => s' == s.(stop := true, owner := Unregister(prev, goal))
       case Unregister(prev, goal) => s' == s.(registered := None, owner := AwaitSafe(prev, goal))
       case AwaitSafe(prev, goal) => s.safe && s' == s.(owner := Free(prev, goal))
       case Free(prev, goal) => s' == s.(live := s.live - {prev}, freed := s.freed + [prev], owner := ClearFlags(goal))
       case ClearFlags(goal) => s' == s.(safe := false, stop := false, owner := SetSafe(goal))
       case SetSafe(Install(cb)) => s' == s.(safe := true, owner := Register(cb))
       case SetSafe(Vanish) => s' == s.(owner := Gone)
       case Register(cb) => s' == s.(registered := Some(cb), owner := Keep(cb))
       case Keep(cb) => s' == s.(receiveCb := Some(cb), owner := Ready)
       case _ => false)
    case Packet =>
      s.d == Waiting && s.registered.Some? &&
      s' == s.(safe := false, d := Entered(s.registered.value, s.stop))
    case DispatcherSteps =>
      (match s.d
       case Waiting => false
       case Entered(cb, stop) =>
         s' == if stop then s.(safe := true, d := Waiting) else s.(d := InClosure(cb))
       case InClosure(cb) => s' == s.(d := AfterClosure(cb))
       case AfterClosure(cb) => s' == s.(safe := true, d := Waiting))
  }

  // ----- the invariant -----

  function Pending(goal: Goal): set<nat> {
    match goal case Install(cb) => {cb} case Vanish => {}
  }

  /** The callbacks somebody is still responsible for. */
  function Held(s: State): set<nat> {
    var stored := if s.receiveCb.Some? then {s.receiveCb.value} else {};
    match s.owner
    case Ready => stored
    case SetStop(prev, goal) => {prev} + Pending(goal)
    case Unregister(prev, goal) => {prev} + Pending(goal)
    case AwaitSafe(prev, goal) => {prev} + Pending(goal)
    case Free(prev, goal) => {prev} + Pending(goal)
    case ClearFlags(goal) => Pending(goal)
    case SetSafe(goal) => Pending(goal)
    case Register(cb) => {cb}
    case Keep(cb) => {cb}
    case Gone => {}
  }

  /** The one callback a dispatch may be working on. */
  function Target(s: State): Option<nat> {
    match s.owner
    case Ready => s.receiveCb
    case SetStop(prev, _) => Some(prev)
    case Unregister(prev, _) => Some(prev)
    case AwaitSafe(prev, _) => Some(prev)
    case Keep(cb) => Some(cb)
    case _ => None
  }

  ghost predicate OwnerInv(s: State) {
    && (!s.owner.Ready? ==> s.receiveCb == None)
    && (match s.owner
        case AwaitSafe(_, _) => s.registered == None
        case _ => s.registered == Target(s))
    && (s.owner.SetStop? || s.owner.Unregister? || s.owner.AwaitSafe? || s.owner.Free? ==>
          s.owner.goal.Install? ==> s.owner.prev != s.owner.goal.cb)
    && (s.stop <==> s.owner.Unregister? || s.owner.AwaitSafe? || s.owner.Free? || s.owner.ClearFlags?)
  }

  /** CALLBACK_SAFE is down exactly while a dispatch is in flight, or while there is nothing to dispatch to. */
  ghost predicate DispatchInv(s: State) {
    && (s.d != Waiting ==> Target(s) == Some(s.d.cb))
    && (s.safe <==> s.d == Waiting && (Target(s).Some? || s.owner.Free? || s.owner.ClearFlags? || s.owner.Register?))
    && (s.d.Entered? && s.d.stop ==> s.stop)
  }

  /** Every callback ever allocated is live or freed, never both, and freed once only. */
  ghost predicate Ledger(live: set<nat>, freed: seq<nat>, next: nat) {
    && (forall cb | cb in live :: cb < next && cb !in freed)
    && (forall cb: nat | cb < next :: cb in live || cb in freed)
    && (forall i | 0 <= i < |freed| :: freed[i] < next)
    && (forall i, j | 0 <= i < j < |freed| :: freed[i] != freed[j])
  }

  ghost predicate MemoryInv(s: State) {
    s.live == Held(s) && Ledger(s.live, s.freed, s.next)
  }

  ghost predicate Inv(s: State) {
    OwnerInv(s) && DispatchInv(s) && MemoryInv(s)
  }

  lemma LedgerAllocates(live: set<nat>, freed: seq<nat>, next: nat)
    requires Ledger(live, freed, next)
    ensures Ledger(live + {next}, freed, next + 1)
  {
  }

  lemma LedgerFrees(live: set<nat>, freed: seq<nat>, next: nat, cb: nat)
    requires Ledger(live, freed, next) && cb in live
    ensures Ledger(live - {cb}, freed + [cb], next)
  {
    assert (freed + [cb])[|freed|] == cb;
    assert forall c | c in freed :: c in freed + [cb];
    assert forall c | c in freed + [cb] :: c in freed || c == cb;
  }

  lemma MemoryKept(s: State, step: Step, s': State)
    requires OwnerInv(s) && MemoryInv(s) && Next(s, step, s')
    ensures MemoryInv(s')
  {
    hide Ledger;
    if step.OwnerCalls? && step.goal.Install? {
      LedgerAllocates(s.live, s.freed, s.next);
      assert s.next !in s.live by { LedgerFresh(s.live, s.freed, s.next); }
    } else if step.OwnerSteps? && s.owner.Free? {
      LedgerFrees(s.live, s.freed, s.next, s.owner.prev);
    }
  }

  lemma LedgerFresh(live: set<nat>, freed: seq<nat>, next: nat)
    requires Ledger(live, freed, next)
    ensures next !in live && next !in freed
  {
  }

  lemma NextKeepsInv(s: State, step: Step, s': State)
    requires Inv(s) && Next(s, step, s')
    ensures Inv(s')
  {
    MemoryKept(s, step, s');
  }

  ghost predicate IsRun(run: seq<State>, steps: seq<Step>) {
    && |run| == |steps| + 1 && run[0] == Initial()
    && (forall i | 0 <= i < |steps| :: Next(run[i], steps[i], run[i + 1]))
  }

  lemma {:induction false} RunInv(run: seq<State>, steps: seq<Step>, i: nat)
    requires IsRun(run, steps) && i < |run|
    ensures Inv(run[i])
  {
    if i > 0 {
      RunInv(run, steps, i - 1);
      NextKeepsInv(run[i - 1], steps[i - 1], run[i]);
    }
  }

  // ----- what holds in every run -----

  /** Whatever callback a dispatch has entered stays allocated until that dispatch is over. */
  lemma DispatchNeverTouchesFreed(run: seq<State>, steps: seq<Step>, i: nat)
    requires IsRun(run, steps) && i < |run|
    ensures run[i].d != Waiting ==> run[i].d.cb in run[i].live && run[i].d.cb !in run[i].freed
    ensures run[i].registered.Some? ==> run[i].registered.value in run[i].live
    ensures i < |steps| && steps[i].OwnerSteps? && run[i].owner.Free? ==> run[i].d == Waiting
  {
    RunInv(run, steps, i);
  }

  /** No callback is freed twice; once the socket is gone, all have been freed and no flag is up. */
  lemma EachFreedExactlyOnce(run: seq<State>, steps: seq<Step>, i: nat)
    requires IsRun(run, steps) && i < |run|
    ensures forall j, k | 0 <= j < k < |run[i].freed| :: run[i].freed[j] != run[i].freed[k]
    ensures run[i].owner == Gone ==>
              && run[i].live == {} && run[i].d == Waiting && run[i].registered == None
              && !run[i].safe && !run[i].stop
              && (forall cb: nat :: cb in run[i].freed <==> cb < run[i].next)
  {
    RunInv(run, steps, i);
  }

  /** Between calls the flags are empty exactly when no callback is installed and none is in flight. */
  lemma FlagsMatchInstallation(run: seq<State>, steps: seq<Step>, i: nat)
    requires IsRun(run, steps) && i < |run| && (run[i].owner == Ready || run[i].owner == Gone)
    ensures !run[i].stop
    ensures run[i].receiveCb == None ==> !run[i].safe && run[i].d == Waiting && run[i].registered == None
    ensures run[i].receiveCb.Some? ==> (run[i].safe <==> run[i].d == Waiting) && run[i].registered == run[i].receiveCb
  {
    RunInv(run, steps, i);
  }

  /** The stop flag is up from the first step of a quiesce until the flags are reset after freeing. */
  lemma StopCoversQuiesce(run: seq<State>, steps: seq<Step>, i: nat)
    requires IsRun(run, steps) && i < |run|
    ensures run[i].stop <==>
            run[i].owner.Unregister? || run[i].owner.AwaitSafe? || run[i].owner.Free? || run[i].owner.ClearFlags?
    ensures run[i].owner.AwaitSafe? || run[i].owner.Free? || run[i].owner.ClearFlags? ==> run[i].registered == None
  {
    RunInv(run, steps, i);
  }

  /**
   A dispatch that entered after the stop flag went up never reaches the
   closure, whatever the owner does before the dispatch goes on.
   */
  lemma {:induction false} StopTurnsBack(run: seq<State>, steps: seq<Step>, i: nat, j: nat)
    requires IsRun(run, steps) && i < |steps| && steps[i] == Packet && run[i].stop
    requires i < j < |run| && forall k | i < k < j :: steps[k] != DispatcherSteps
    ensures run[j].d == run[i + 1].d && run[j].d.Entered? && run[j].d.stop
    ensures j < |steps| && steps[j] == DispatcherSteps ==> run[j + 1].d == Waiting
    decreases j
  {
    assert Next(run[j - 1], steps[j - 1], run[j]);
    if j > i + 1 {
      StopTurnsBack(run, steps, i, j - 1);
    }
    if j < |steps| {
      assert Next(run[j], steps[j], run[j + 1]);
    }
  }

  function Distance(d: Dispatcher): nat {
    match d
    case Waiting => 0
    case AfterClosure(_) => 1
    case InClosure(_) => 2
    case Entered(_, stop) => if stop then 1 else 3
  }

  /**
   The owner never waits in vain: while it waits, either the flag is up, or a
   dispatch is in flight whose remaining steps, at most three, put it up; no
   new dispatch can start, and no step but the owner's own takes it down again.
   */
  lemma WaitEnds(run: seq<State>, steps: seq<Step>, i: nat)
    requires IsRun(run, steps) && i < |run| && run[i].owner.AwaitSafe?
    ensures run[i].safe <==> Distance(run[i].d) == 0
    ensures Distance(run[i].d) <= 3
    ensures i < |steps| && steps[i] != OwnerSteps ==>
              && run[i + 1].owner == run[i].owner
              && Distance(run[i + 1].d) == Distance(run[i].d) - 1
  {
    RunInv(run, steps, i);
    if i < |steps| {
      assert Next(run[i], steps[i], run[i + 1]);
    }
  }

  /** What a dispatch in flight does next; nothing it does has to wait. */
  function Dispatched(s: State): (s': State)
    requires s.d != Waiting
    ensures Next(s, DispatcherSteps, s') && Distance(s'.d) == Distance(s.d) - 1
  {
    match s.d
    case Entered(cb, stop) => if stop then s.(safe := true, d := Waiting) else s.(d := InClosure(cb))
    case InClosure(cb) => s.(d := AfterClosure(cb))
    case AfterClosure(cb) => s.(safe := true, d := Waiting)
  }

  /** From every reachable state in which the owner waits, at most three dispatcher steps let it go on to free. */
  lemma {:induction false} WaitCanEnd(run: seq<State>, steps: seq<Step>) returns (run': seq<State>, steps': seq<Step>)
    requires IsRun(run, steps) && run[|steps|].owner.AwaitSafe?
    ensures IsRun(run', steps') && steps <= steps' && |steps'| <= |steps| + 4
    ensures forall k | |steps| <= k < |steps'| - 1 :: steps'[k] == DispatcherSteps
    ensures run'[|steps'|].owner.Free? && run'[|steps'|].owner.prev == run[|steps|].owner.prev
    ensures |steps'| == |steps| + 1 + Distance(run[|steps|].d)
    decreases Distance(run[|steps|].d)
  {
    var n := |steps|;
    var s := run[n];
    RunInv(run, steps, n);
    WaitEnds(run, steps, n);
    hide Inv, Initial;
    if s.d == Waiting {
      run', steps' := run + [s.(owner := Free(s.owner.prev, s.owner.goal))], steps + [OwnerSteps];
      assert Next(s, OwnerSteps, run'[n + 1]);
      RunLonger(run, steps, OwnerSteps, run'[n + 1]);
    } else {
      RunLonger(run, steps, DispatcherSteps, Dispatched(s));
      run', steps' := WaitCanEnd(run + [Dispatched(s)], steps + [DispatcherSteps]);
    }
  }

  lemma RunLonger(run: seq<State>, steps: seq<Step>, step: Step, s': State)
    requires IsRun(run, steps) && Next(run[|steps|], step, s')
    ensures IsRun(run + [s'], steps + [step])
  {
    hide Next;
    forall i | 0 <= i < |steps| + 1
      ensures Next((run + [s'])[i], (steps + [step])[i], (run + [s'])[i + 1])
    {
      if i < |steps| {
        assert Next(run[i], steps[i], run[i + 1]);
      }
    }
  }

  // ----- what a whole call does -----

  /** The callbacks freed so far once a call made at `s` has let the one installed then go. */
  function FreedAfter(s: State): seq<nat> {
    s.freed + if s.receiveCb.Some? then [s.receiveCb.value] else []
  }

  /** How far the owner is, at `s`, with the call `goal` it made at `at`. */
  ghost predicate InCall(at: State, goal: Goal, s: State) {
    match s.owner
    case SetStop(prev, g) => g == goal && at.receiveCb == Some(prev) && s.freed == at.freed
    case Unregister(prev, g) => g == goal && at.receiveCb == Some(prev) && s.freed == at.freed
    case AwaitSafe(prev, g) => g == goal && at.receiveCb == Some(prev) && s.freed == at.freed
    case Free(prev, g) => g == goal && at.receiveCb == Some(prev) && s.freed == at.freed
    case ClearFlags(g) => g == goal && s.freed == FreedAfter(at)
    case SetSafe(g) => g == goal && s.freed == FreedAfter(at)
    case Register(cb) => goal == Install(cb) && s.freed == FreedAfter(at)
    case Keep(cb) => goal == Install(cb) && s.freed == FreedAfter(at)
    case Ready => goal.Install? && s.receiveCb == Some(goal.cb) && s.freed == FreedAfter(at)
    case Gone => goal == Vanish && s.freed == FreedAfter(at)
  }

  lemma InCallKept(at: State, goal: Goal, s: State, step: Step, s': State)
    requires InCall(at, goal, s) && Next(s, step, s') && !step.OwnerCalls?
    ensures InCall(at, goal, s')
  {
  }

  lemma InCallAtOnce(at: State, goal: Goal, s': State)
    requires Next(at, OwnerCalls(goal), s')
    ensures InCall(at, goal, s')
  {
  }

  lemma {:induction false} CallGoesOn(run: seq<State>, steps: seq<Step>, i: nat, j: nat)
    requires IsRun(run, steps) && i < j < |run| && steps[i].OwnerCalls?
    requires forall k | i < k < j :: !steps[k].OwnerCalls?
    ensures InCall(run[i], steps[i].goal, run[j])
    decreases j
  {
    hide InCall, Next, Initial;
    if j > i + 1 {
      CallGoesOn(run, steps, i, j - 1);
      InCallKept(run[i], steps[i].goal, run[j - 1], steps[j - 1], run[j]);
    } else {
      InCallAtOnce(run[i], steps[i].goal, run[j]);
    }
  }

  /**
   An `on_receive` that has come back has its own callback stored and
   registered, a drop leaves none; either has freed, of all callbacks, just the
   one that was installed when it was called.
   */
  lemma CallDoesItsJob(run: seq<State>, steps: seq<Step>, i: nat, j: nat)
    requires IsRun(run, steps) && i < j < |run| && steps[i].OwnerCalls?
    requires forall k | i < k < j :: !steps[k].OwnerCalls?
    requires run[j].owner == Ready || run[j].owner == Gone
    ensures match steps[i].goal
            case Install(cb) =>
              && run[j].owner == Ready && cb == run[i].next
              && run[j].receiveCb == run[j].registered == Some(cb) && run[j].live == {cb}
            case Vanish =>
              run[j].owner == Gone && run[j].receiveCb == run[j].registered == None && run[j].live == {}
    ensures run[j].freed == run[i].freed + if run[i].receiveCb.Some? then [run[i].receiveCb.value] else []
  {
    CallGoesOn(run, steps, i, j);
    RunInv(run, steps, j);
    assert Next(run[i], steps[i], run[i + 1]);
  }

  /** How many owner steps are left of a call. */
  function Left(owner: Owner): nat {
    match owner
    case Ready => 0
    case Gone => 0
    case Keep(_) => 1
    case Register(_) => 2
    case SetSafe(_) => 3
    case ClearFlags(_) => 4
    case Free(_, _) => 5
    case AwaitSafe(_, _) => 6
    case Unregister(_, _) => 7
    case SetStop(_, _) => 8
  }

  lemma OwnerStepsOn(s: State) returns (s': State)
    requires Left(s.owner) > 0 && (s.owner.AwaitSafe? ==> s.safe)
    ensures Next(s, OwnerSteps, s') && Left(s'.owner) < Left(s.owner)
  {
    match s.owner
    case SetStop(prev, goal) => s' := s.(stop := true, owner := Unregister(prev, goal));
    case Unregister(prev, goal) => s' := s.(registered := None, owner := AwaitSafe(prev, goal));
    case AwaitSafe(prev, goal) => s' := s.(owner := Free(prev, goal));
    case Free(prev, goal) => s' := s.(live := s.live - {prev}, freed := s.freed + [prev], owner := ClearFlags(goal));
    case ClearFlags(goal) => s' := s.(safe := false, stop := false, owner := SetSafe(goal));
    case SetSafe(goal) =>
      s' := if goal.Install? then s.(safe := true, owner := Register(goal.cb)) else s.(owner := Gone);
    case Register(cb) => s' := s.(registered := Some(cb), owner := Keep(cb));
    case Keep(cb) => s' := s.(receiveCb := Some(cb), owner := Ready);
    case _ => s' := s;
  }

  /** From every reachable state the call under way, if any, can come to its end, however the dispatcher stands. */
  lemma {:induction false} CallCanEnd(run: seq<State>, steps: seq<Step>) returns (run': seq<State>, steps': seq<Step>)
    requires IsRun(run, steps)
    ensures IsRun(run', steps') && steps <= steps' && run <= run'
    ensures forall k | |steps| <= k < |steps'| :: steps'[k] == OwnerSteps || steps'[k] == DispatcherSteps
    ensures run'[|steps'|].owner == Ready || run'[|steps'|].owner == Gone
    decreases Left(run[|steps|].owner), Distance(run[|steps|].d)
  {
    var s := run[|steps|];
    RunInv(run, steps, |steps|);
    if Left(s.owner) == 0 {
      run', steps' := run, steps;
    } else if s.owner.AwaitSafe? && !s.safe {
      WaitEnds(run, steps, |steps|);
      var s' := Dispatched(s);
      assert s'.owner == s.owner;
      RunLonger(run, steps, DispatcherSteps, s');
      run', steps' := CallCanEnd(run + [s'], steps + [DispatcherSteps]);
    } else {
      var s' := OwnerStepsOn(s);
      RunLonger(run, steps, OwnerSteps, s');
      run', steps' := CallCanEnd(run + [s'], steps + [OwnerSteps]);
    }
  }

  /** Between calls a callback can always be replaced by a new one, or the socket dropped. */
  lemma CallCanBeMade(run: seq<State>, steps: seq<Step>, vanish: bool) returns (run': seq<State>, steps': seq<Step>)
    requires IsRun(run, steps) && run[|steps|].owner == Ready
    ensures IsRun(run', steps') && steps < steps' && steps'[|steps|].OwnerCalls?
    ensures var last, cb := run'[|steps'|], run[|steps|].next;
            if vanish then last.owner == Gone && last.live == {}
            else last.owner == Ready && last.receiveCb == last.registered == Some(cb) && last.live == {cb}
  {
    var s := run[|steps|];
    var goal := if vanish then Vanish else Install(s.next);
    var s' := StartQuiesce(if vanish then s else s.(next := s.next + 1, live := s.live + {s.next}), goal);
    RunLonger(run, steps, OwnerCalls(goal), s');
    var i := |steps|;
    run', steps' := CallCanEnd(run + [s'], steps + [OwnerCalls(goal)]);
    assert steps'[i] == OwnerCalls(goal) && run'[i] == s;
    assert run'[i + 1] == s' && s'.owner != Ready && s'.owner != Gone;
    CallDoesItsJob(run', steps', i, |steps'|);
  }

  /** How many dispatcher steps there were from `i` up to `j`. */
  ghost function DispatcherStepsIn(steps: seq<Step>, i: nat, j: nat): nat
    requires i <= j <= |steps|
    decreases j
  {
    if i == j then 0 else DispatcherStepsIn(steps, i, j - 1) + if steps[j - 1].DispatcherSteps? then 1 else 0
  }

  /**
   A packet that finds the stop flag down is given to the closure of the
   callback registered then, whatever the owner does meanwhile: three
   dispatcher steps enter it, leave it and put the flag up.
   */
  lemma {:induction false} PacketReachesClosure(run: seq<State>, steps: seq<Step>, i: nat, j: nat)
    requires IsRun(run, steps) && i < j < |run| && steps[i] == Packet && !run[i].stop
    requires forall k | i < k < j :: steps[k] != Packet
    ensures run[i].registered.Some?
    ensures var cb, n := run[i].registered.value, DispatcherStepsIn(steps, i + 1, j);
            && n <= 3
            && run[j].d == [Entered(cb, false), InClosure(cb), AfterClosure(cb), Waiting][n]
    ensures DispatcherStepsIn(steps, i + 1, j) < 3 ==> !run[j].safe
    decreases j
  {
    hide Next, Inv, Initial;
    PacketEnters(run[i], run[i + 1]);
    if j > i + 1 {
      PacketReachesClosure(run, steps, i, j - 1);
      DispatchMoves(run[j - 1], steps[j - 1], run[j]);
    }
    RunInv(run, steps, j);
    SafeMeansIdle(run[j]);
  }

  lemma PacketEnters(s: State, s': State)
    requires Next(s, Packet, s')
    ensures s.registered.Some? && s'.d == Entered(s.registered.value, s.stop)
  {
  }

  lemma DispatchMoves(s: State, step: Step, s': State)
    requires Next(s, step, s') && step != Packet
    ensures if step != DispatcherSteps then s'.d == s.d
            else match s.d
                 case Waiting => false
                 case Entered(cb, stop) => s'.d == if stop then Waiting else InClosure(cb)
                 case InClosure(cb) => s'.d == AfterClosure(cb)
                 case AfterClosure(cb) => s'.d == Waiting
  {
  }

  lemma SafeMeansIdle(s: State)
    requires Inv(s)
    ensures s.safe ==> s.d == Waiting
  {
  }

  /** A packet for a registered callback can be taken whenever no other is being dispatched, and dispatched at once. */
  lemma PacketCanBeTaken(run: seq<State>, steps: seq<Step>) returns (s': State)
    requires IsRun(run, steps) && run[|steps|].d == Waiting && run[|steps|].registered.Some?
    ensures Next(run[|steps|], Packet, s') && s'.d == Entered(run[|steps|].registered.value, run[|steps|].stop)
    ensures Next(s', DispatcherSteps, Dispatched(s')) && Distance(Dispatched(s').d) < Distance(s'.d)
  {
    var s := run[|steps|];
    s' := s.(safe := false, d := Entered(s.registered.value, s.stop));
  }

  // ----- why the entry has to be one step -----

  /** The same with the entry split: `loaded` is a pointer the stack has loaded and not yet passed to `dispatch`. */
  datatype Split = Split(s: State, loaded: Option<nat>)

  datatype SplitStep = Whole(step: Step) | LoadPointer | Enter

  ghost predicate SplitNext(l: Split, step: SplitStep, l': Split) {
    match step
    case Whole(step) =>
      step != Packet && Next(l.s, step, l'.s) && l' == l.(s := l'.s)
    case LoadPointer =>
      l.s.d == Waiting && l.loaded == None && l.s.registered.Some? && l' == l.(loaded := l.s.registered)
    case Enter =>
      l.s.d == Waiting && l.loaded.Some? &&
      l' == Split(l.s.(safe := false, d := Entered(l.loaded.value, l.s.stop)), None)
  }

  ghost predicate IsSplitRun(run: seq<Split>, steps: seq<SplitStep>) {
    && |run| == |steps| + 1 && run[0] == Split(Initial(), None)
    && (forall i | 0 <= i < |steps| :: SplitNext(run[i], steps[i], run[i + 1]))
  }

  lemma SplitLonger(run: seq<Split>, steps: seq<SplitStep>, step: SplitStep, l': Split)
    returns (run': seq<Split>, steps': seq<SplitStep>)
    requires IsSplitRun(run, steps) && |run| == |steps| + 1 && SplitNext(run[|steps|], step, l')
    ensures IsSplitRun(run', steps') && |run'| == |steps'| + 1 && run'[|steps'|] == l'
    ensures |steps'| == |steps| + 1
  {
    hide SplitNext;
    run', steps' := run + [l'], steps + [step];
    forall i | 0 <= i < |steps'|
      ensures SplitNext(run'[i], steps'[i], run'[i + 1])
    {
      if i < |steps| {
        assert SplitNext(run[i], steps[i], run[i + 1]);
      }
    }
  }

  /** A callback is installed and the stack has loaded the pointer to it. */
  lemma LoadedTooEarly() returns (run: seq<Split>, steps: seq<SplitStep>)
    ensures IsSplitRun(run, steps) && |run| == |steps| + 1 == 6
    ensures run[5] == Split(State(true, false, Some(0), Some(0), 1, {0}, [], Ready, Waiting), Some(0))
  {
    var s := Initial();
    run, steps := [Split(s, None)], [];
    s := s.(next := 1, live := {0}, owner := SetSafe(Install(0)));
    run, steps := SplitLonger(run, steps, Whole(OwnerCalls(Install(0))), Split(s, None));
    s := s.(safe := true, owner := Register(0));
    run, steps := SplitLonger(run, steps, Whole(OwnerSteps), Split(s, None));
    s := s.(registered := Some(0), owner := Keep(0));
    run, steps := SplitLonger(run, steps, Whole(OwnerSteps), Split(s, None));
    s := s.(receiveCb := Some(0), owner := Ready);
    run, steps := SplitLonger(run, steps, Whole(OwnerSteps), Split(s, None));
    run, steps := SplitLonger(run, steps, LoadPointer, Split(s, Some(0)));
  }

  /**
   Were loading the pointer and clearing the flag two steps, the owner could
   quiesce and free in between: a run that ends in a freed callback.
   */
  lemma SplitEntryMeetsFreed() returns (run: seq<Split>, steps: seq<SplitStep>)
    ensures IsSplitRun(run, steps) && |steps| == 11
    ensures var s := run[11].s;
            s.d == Entered(0, true) && 0 in s.freed && 0 !in s.live
  {
    run, steps := LoadedTooEarly();
    var s := run[5].s;
    s := s.(receiveCb := None, owner := SetStop(0, Vanish));
    run, steps := SplitLonger(run, steps, Whole(OwnerCalls(Vanish)), Split(s, Some(0)));
    s := s.(stop := true, owner := Unregister(0, Vanish));
    run, steps := SplitLonger(run, steps, Whole(OwnerSteps), Split(s, Some(0)));
    s := s.(registered := None, owner := AwaitSafe(0, Vanish));
    run, steps := SplitLonger(run, steps, Whole(OwnerSteps), Split(s, Some(0)));
    s := s.(owner := Free(0, Vanish));
    run, steps := SplitLonger(run, steps, Whole(OwnerSteps), Split(s, Some(0)));
    s := s.(live := {}, freed := [0], owner := ClearFlags(Vanish));
    run, steps := SplitLonger(run, steps, Whole(OwnerSteps), Split(s, Some(0)));
    s := s.(safe := false, d := Entered(0, true));
    run, steps := SplitLonger(run, steps, Enter, Split(s, None));
  }
}
