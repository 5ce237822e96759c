/**
 The reference-counted heap box, with its handles cloned and dropped by
 different tasks. The count is changed before a clone exists and before the
 last handle frees the value, each by one atomic operation.
 */
module SharedBox {
  /**
   `handles` maps each live handle to the task that holds it. `freeing` are the
   dropped handles whose decrement found a count of one; `freed` is how often
   the value has been freed. `inserts` lists the packets that have reached the
   value, a packet queue, by the handle each came through: `receive_packet`
   borrows its handle for as long as it runs, so the handle is live then.
   */
  datatype State = State(
    refcount: nat, handles: map<nat, nat>, next: nat, freeing: set<nat>, freed: nat, inserts: seq<nat>)

  datatype Step =
    | Clone(handle: nat, task: nat)
    | Move(handle: nat, task: nat)
    | Drop(handle: nat)
    | Free(handle: nat)
    | Insert(handle: nat)

  ghost predicate Init(s: State, task: nat) {
    s == State(1, map[0 := task], 1, {}, 0, [])
  }

  ghost predicate Next(s: State, step: Step, s': State) {
    match step
    case Clone(handle, task) =>
      handle in s.handles &&
      s' == s.(refcount := s.refcount + 1, handles := s.handles[s.next := task], next := s.next + 1)
    case Move(handle, task) =>
      handle in s.handles && s' == s.(handles := s.handles[handle := task])
    case Drop(handle) =>
      handle in s.handles && s.refcount > 0 &&
      s' == s.(refcount := s.refcount - 1, handles := s.handles - {handle},
               freeing := s.freeing + if s.refcount == 1 then {handle} else {})
    case Free(handle) =>
      handle in s.freeing && s' == s.(freeing := s.freeing - {handle}, freed := s.freed + 1)
    case Insert(handle) =>
      handle in s.handles && s' == s.(inserts := s.inserts + [handle])
  }

  ghost predicate Inv(s: State) {
    && s.refcount == |s.handles|
    && (forall h | h in s.handles :: h < s.next)
    && |s.freeing| + s.freed == (if s.refcount == 0 then 1 else 0)
  }

  /** `SharedBox::unique`, which `PacketQueue::disconnected` asks. */
  predicate Unique(s: State) { s.refcount == 1 }

  lemma AddedHandle(handles: map<nat, nat>, h: nat, task: nat)
    ensures |handles[h := task]| == |handles| + if h in handles then 0 else 1
  {
    assert handles[h := task].Keys == handles.Keys + {h};
  }

  lemma RemovedHandle(handles: map<nat, nat>, h: nat)
    requires h in handles
    ensures |handles - {h}| == |handles| - 1
  {
    assert handles.Keys == (handles - {h}).Keys + {h};
  }

  lemma NextKeepsInv(s: State, step: Step, s': State)
    requires Inv(s) && Next(s, step, s')
    ensures Inv(s')
  {
    match step
    case Clone(handle, task) =>
      AddedHandle(s.handles, s.next, task);
    case Move(handle, task) =>
      AddedHandle(s.handles, handle, task);
    case Drop(handle) =>
      RemovedHandle(s.handles, handle);
      assert s.freeing == {};
    case _ =>
  }

  ghost predicate IsRun(run: seq<State>, steps: seq<Step>, task: nat) {
    && |run| == |steps| + 1 && Init(run[0], task)
    && (forall i | 0 <= i < |steps| :: Next(run[i], steps[i], run[i + 1]))
  }

  lemma {:induction false} RunInv(run: seq<State>, steps: seq<Step>, task: nat, i: nat)
    requires IsRun(run, steps, task) && i < |run|
    ensures Inv(run[i])
  {
    if i == 0 {
      assert run[0].handles.Keys == {0};
    } else {
      RunInv(run, steps, task, i - 1);
      NextKeepsInv(run[i - 1], steps[i - 1], run[i]);
    }
  }

  /**
   The count is the number of live handles, and `unique` with just one; the
   value is freed once, when none is left, and usable until then.
   */
  lemma CountsHandles(run: seq<State>, steps: seq<Step>, task: nat, i: nat)
    requires IsRun(run, steps, task) && i < |run|
    ensures run[i].refcount == |run[i].handles|
    ensures Unique(run[i]) <==> |run[i].handles| == 1
    ensures run[i].freed <= 1 && |run[i].freeing| <= 1
    ensures run[i].freed + |run[i].freeing| == 1 <==> run[i].handles == map[]
    ensures i < |steps| && steps[i].Insert? ==> run[i].freed == 0 && run[i].freeing == {}
  {
    RunInv(run, steps, task, i);
    assert i < |steps| ==> Next(run[i], steps[i], run[i + 1]);
    assert run[i].handles == map[] <==> run[i].handles.Keys == {};
  }

  // ----- the same, told by the steps taken -----

  ghost function Clones(steps: seq<Step>): nat {
    if steps == [] then 0 else
    Clones(steps[..|steps| - 1]) + if steps[|steps| - 1].Clone? then 1 else 0
  }

  ghost function Drops(steps: seq<Step>): nat {
    if steps == [] then 0 else
    Drops(steps[..|steps| - 1]) + if steps[|steps| - 1].Drop? then 1 else 0
  }

  ghost function Frees(steps: seq<Step>): nat {
    if steps == [] then 0 else
    Frees(steps[..|steps| - 1]) + if steps[|steps| - 1].Free? then 1 else 0
  }

  /** The handles packets came through, in order. */
  ghost function Inserted(steps: seq<Step>): seq<nat> {
    if steps == [] then [] else
    Inserted(steps[..|steps| - 1]) + if steps[|steps| - 1].Insert? then [steps[|steps| - 1].handle] else []
  }

  /** Who a handle was made for, or last moved to. */
  ghost function Holder(steps: seq<Step>, task: nat, h: nat): nat {
    if steps == [] then task else
    var before := steps[..|steps| - 1];
    match steps[|steps| - 1]
    case Clone(_, t) => if h == 1 + Clones(before) then t else Holder(before, task, h)
    case Move(k, t) => if h == k then t else Holder(before, task, h)
    case _ => Holder(before, task, h)
  }

  /** Handle 0 is the first, and the k-th clone makes handle k; each is live until it is dropped. */
  ghost predicate Told(s: State, steps: seq<Step>, task: nat) {
    && s.next == 1 + Clones(steps)
    && s.refcount + Drops(steps) == 1 + Clones(steps)
    && s.freed == Frees(steps)
    && s.inserts == Inserted(steps)
    && (forall k: nat :: k in s.handles <==> k < s.next && Drop(k) !in steps)
    && (forall k: nat | Drop(k) in steps :: k < s.next)
    && (forall k: nat | k in s.handles :: s.handles[k] == Holder(steps, task, k))
  }

  lemma HistoryNext(steps: seq<Step>, task: nat, step: Step)
    ensures Clones(steps + [step]) == Clones(steps) + if step.Clone? then 1 else 0
    ensures Drops(steps + [step]) == Drops(steps) + if step.Drop? then 1 else 0
    ensures Frees(steps + [step]) == Frees(steps) + if step.Free? then 1 else 0
    ensures Inserted(steps + [step]) == Inserted(steps) + if step.Insert? then [step.handle] else []
    ensures forall k: nat :: Drop(k) in steps + [step] <==> Drop(k) in steps || step == Drop(k)
    ensures forall k: nat :: Holder(steps + [step], task, k) ==
              if (step.Clone? && k == 1 + Clones(steps)) || (step.Move? && k == step.handle) then step.task
              else Holder(steps, task, k)
  {
    assert (steps + [step])[..|steps|] == steps;
  }

  lemma ToldNext(s: State, steps: seq<Step>, task: nat, step: Step, s': State)
    requires Told(s, steps, task) && Next(s, step, s')
    ensures Told(s', steps + [step], task)
  {
    HistoryNext(steps, task, step);
    hide Clones, Drops, Frees, Inserted, Holder;
  }

  lemma {:induction false} StepsTell(run: seq<State>, steps: seq<Step>, task: nat, i: nat)
    requires IsRun(run, steps, task) && i < |run|
    ensures Told(run[i], steps[..i], task)
  {
    hide Told, Next, Init, Clones, Drops, Frees, Inserted, Holder;
    if i == 0 {
      NothingTaken(run[0], task);
      assert steps[..0] == [];
    } else {
      StepsTell(run, steps, task, i - 1);
      ToldNext(run[i - 1], steps[..i - 1], task, steps[i - 1], run[i]);
      assert steps[..i] == steps[..i - 1] + [steps[i - 1]];
    }
  }

  lemma NothingTaken(s: State, task: nat)
    requires Init(s, task)
    ensures Told(s, [], task)
  {
  }

  /**
   A live handle finds itself unique exactly when every other handle, the
   first and those the clones so far have made, has been dropped.
   */
  lemma UniqueExactlyWhen(run: seq<State>, steps: seq<Step>, task: nat, h: nat, i: nat)
    requires IsRun(run, steps, task) && i < |run| && h in run[i].handles
    ensures Unique(run[i]) <==> forall k: nat | k <= Clones(steps[..i]) && k != h :: Drop(k) in steps[..i]
  {
    RunInv(run, steps, task, i);
    StepsTell(run, steps, task, i);
    hide Clones, Drops, Frees, Inserted, Holder;
    var s := run[i];
    if |s.handles| == 1 {
      OnlyKey(s.handles, h);
    }
    if forall k: nat | k <= Clones(steps[..i]) && k != h :: Drop(k) in steps[..i] {
      assert s.handles.Keys == {h};
    }
  }

  /**
   The count follows the clones and drops, each handle is with the task it was
   made for or last moved to, each packet is in the value once it has come
   through its handle, and the last drop leaves one freeing to do.
   */
  lemma CountFollowsSteps(run: seq<State>, steps: seq<Step>, task: nat, i: nat) returns (h: nat, s: State)
    requires IsRun(run, steps, task) && i < |run|
    ensures run[i].refcount + Drops(steps[..i]) == 1 + Clones(steps[..i])
    ensures forall k: nat | k in run[i].handles :: run[i].handles[k] == Holder(steps[..i], task, k)
    ensures run[i].inserts == Inserted(steps[..i])
    ensures Drops(steps[..i]) == 1 + Clones(steps[..i]) && Frees(steps[..i]) == 0 ==>
              Next(run[i], Free(h), s) && s.freed == 1
    ensures Frees(steps[..i]) <= 1 && (Frees(steps[..i]) == 1 ==> Drops(steps[..i]) == 1 + Clones(steps[..i]))
  {
    RunInv(run, steps, task, i);
    StepsTell(run, steps, task, i);
    hide Clones, Drops, Frees, Inserted, Holder;
    h, s := 0, run[i];
    if s.refcount == 0 && s.freed == 0 {
      h :| h in s.freeing;
      s := s.(freeing := s.freeing - {h}, freed := s.freed + 1);
    }
  }

  /** Whatever others do, a live handle can be cloned, moved, used and dropped, the last one too. */
  lemma LiveHandleServes(run: seq<State>, steps: seq<Step>, task: nat, i: nat, h: nat, t: nat)
    returns (cloned: State, moved: State, used: State, dropped: State)
    requires IsRun(run, steps, task) && i < |run| && h in run[i].handles
    ensures Next(run[i], Clone(h, t), cloned) && |cloned.handles| == |run[i].handles| + 1
    ensures Next(run[i], Move(h, t), moved) && h in moved.handles && moved.handles[h] == t
    ensures Next(run[i], Insert(h), used) && used.inserts == run[i].inserts + [h]
    ensures Next(run[i], Drop(h), dropped) && dropped.handles.Keys == run[i].handles.Keys - {h}
    ensures run[i].handles.Keys == {h} ==> h in dropped.freeing
  {
    RunInv(run, steps, task, i);
    var s := run[i];
    AddedHandle(s.handles, s.next, t);
    RemovedHandle(s.handles, h);
    cloned := s.(refcount := s.refcount + 1, handles := s.handles[s.next := t], next := s.next + 1);
    moved := s.(handles := s.handles[h := t]);
    used := s.(inserts := s.inserts + [h]);
    dropped := s.(refcount := s.refcount - 1, handles := s.handles - {h},
                  freeing := s.freeing + if s.refcount == 1 then {h} else {});
  }

  /** Handle `h` is not cloned, handed on or dropped from time `i` to `j`. */
  ghost predicate Kept(steps: seq<Step>, h: nat, i: nat, j: nat)
    requires j <= |steps|
  {
    forall k | i <= k < j :: !(steps[k].Clone? || steps[k].Move? || steps[k].Drop?) || steps[k].handle != h
  }

  /** `unique` means no other handle is left, and that lasts for as long as the remaining handle is kept. */
  lemma {:induction false} UniqueLasts(run: seq<State>, steps: seq<Step>, task: nat, h: nat, i: nat, j: nat)
    requires IsRun(run, steps, task) && i <= j < |run|
    requires h in run[i].handles && Unique(run[i]) && Kept(steps, h, i, j)
    ensures run[j].handles == map[h := run[i].handles[h]] && Unique(run[j])
    decreases j
  {
    if i == j {
      RunInv(run, steps, task, i);
      OnlyKey(run[i].handles, h);
    } else {
      UniqueLasts(run, steps, task, h, i, j - 1);
      assert Next(run[j - 1], steps[j - 1], run[j]);
    }
  }

  /**
   Once the stream task finds its queue disconnected, no packet reaches it any
   more: every later insert would be through the one handle the task keeps.
   */
  lemma {:induction false} DisconnectedForGood(run: seq<State>, steps: seq<Step>, task: nat, h: nat, i: nat, j: nat)
    requires IsRun(run, steps, task) && i <= j < |run|
    requires h in run[i].handles && Unique(run[i]) && Kept(steps, h, i, j)
    ensures Unique(run[j]) && forall k | i <= k < j && steps[k].Insert? :: steps[k].handle == h
    ensures (forall k | i <= k < j :: steps[k] != Insert(h)) ==> run[j].inserts == run[i].inserts
    decreases j
  {
    UniqueLasts(run, steps, task, h, i, j);
    if i < j {
      DisconnectedForGood(run, steps, task, h, i, j - 1);
      UniqueLasts(run, steps, task, h, i, j - 1);
      assert Next(run[j - 1], steps[j - 1], run[j]);
    }
  }

  lemma OnlyKey(handles: map<nat, nat>, h: nat)
    requires h in handles && |handles| == 1
    ensures handles == map[h := handles[h]]
  {
    RemovedHandle(handles, h);
    assert (handles - {h}).Keys == {};
    assert forall k | k in handles && k != h :: k in (handles - {h}).Keys;
  }
}
