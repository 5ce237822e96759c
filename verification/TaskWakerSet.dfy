/** The set of tasks to wake, as a 32-bit mask. */
module TaskWakerSet {
  /** Task ids, below 32, are kept as bit vectors like the masks they index. */
  const MAX_TASKS: bv32 := 32

  function AsBit(id: bv32): bv32
    requires id < MAX_TASKS
  {
    1 << id
  }

  predicate Has(bits: bv32, id: bv32)
    requires id < MAX_TASKS
  {
    bits & AsBit(id) != 0
  }

  /** The task ids a mask stands for. */
  ghost function Members(bits: bv32): iset<bv32> {
    iset id: bv32 | id < MAX_TASKS && Has(bits, id)
  }

  lemma OrShifted(bits: bv32, id: bv32, other: bv32, a: bv32, b: bv32)
    requires id < 32 && other < 32 && a == 1 << id && b == 1 << other
    ensures (bits | a) & b != 0 <==> bits & b != 0 || other == id
  {
  }

  lemma OrMasked(bits: bv32, id: bv32, other: bv32)
    requires id < MAX_TASKS && other < MAX_TASKS
    ensures (bits | AsBit(id)) & AsBit(other) != 0 <==> bits & AsBit(other) != 0 || other == id
  {
    OrShifted(bits, id, other, AsBit(id), AsBit(other));
  }

  lemma OrBit(bits: bv32, id: bv32, other: bv32)
    requires id < MAX_TASKS && other < MAX_TASKS
    ensures Has(bits | AsBit(id), other) <==> Has(bits, other) || other == id
  {
    hide AsBit;
    OrMasked(bits, id, other);
  }

  /** Setting a bit inserts its task. */
  lemma OrInserts(bits: bv32, id: bv32)
    requires id < MAX_TASKS
    ensures Members(bits | AsBit(id)) == Members(bits) + iset{id}
  {
    hide Has, AsBit;
    forall other: bv32 | other < MAX_TASKS
      ensures Has(bits | AsBit(id), other) <==> Has(bits, other) || other == id
    {
      OrBit(bits, id, other);
    }
  }

  lemma ZeroIsEmpty()
    ensures Members(0) == iset{}
  {
  }

  /**
   The tasks to notify from id `from` on: set bits in ascending order, slots
   found empty left out. `loaded` is what the load of each slot returned when
   its turn came, so the table may change while the list is made.
   */
  ghost function Wakeable(bits: bv32, loaded: map<bv32, nat>, from: bv32): seq<nat>
    requires from <= MAX_TASKS
    decreases MAX_TASKS - from
  {
    if from == MAX_TASKS then [] else
    (if Has(bits, from) && from in loaded then [loaded[from]] else []) + Wakeable(bits, loaded, from + 1)
  }

  lemma WakeableFrom(bits: bv32, loaded: map<bv32, nat>, id: bv32, tasks: seq<nat>)
    requires id < MAX_TASKS
    ensures id + 1 <= MAX_TASKS && MAX_TASKS - (id + 1) < MAX_TASKS - id
    ensures var tasks' := if Has(bits, id) && id in loaded then tasks + [loaded[id]] else tasks;
            tasks + Wakeable(bits, loaded, id) == tasks' + Wakeable(bits, loaded, id + 1)
  {
    hide Has;
  }

  lemma WakeableAtEnd(bits: bv32, loaded: map<bv32, nat>)
    ensures Wakeable(bits, loaded, MAX_TASKS) == []
  {
    hide Has;
  }

  class WakerSet {
    var bits: bv32

    ghost function Tasks(): iset<bv32>
      reads this
    {
      Members(bits)
    }

    constructor ()
      ensures Tasks() == iset{}
    {
      bits := 0;
    }

    method AddTask(id: bv32)
      requires id < MAX_TASKS
      modifies this
      ensures Tasks() == old(Tasks()) + iset{id}
    {
      hide Has, AsBit, Members;
      OrInserts(bits, id);
      bits := bits | AsBit(id);
    }

    /** Swaps the mask for an empty one and lists its tasks, each if it is registered when its slot is loaded. */
    method TakeWakeable(loaded: map<bv32, nat>) returns (tasks: seq<nat>)
      modifies this
      ensures Tasks() == iset{}
      ensures tasks == Wakeable(old(bits), loaded, 0)
    {
      hide Has, AsBit, Members, Wakeable;
      var bitset := bits;
      bits := 0;
      ZeroIsEmpty();
      tasks := [];
      var id: bv32 := 0;
      while id < MAX_TASKS
        invariant id <= MAX_TASKS && bits == 0
        invariant tasks + Wakeable(bitset, loaded, id) == Wakeable(bitset, loaded, 0)
        decreases MAX_TASKS - id
      {
        WakeableFrom(bitset, loaded, id, tasks);
        if Has(bitset, id) && id in loaded {
          tasks := tasks + [loaded[id]];
        }
        id := id + 1;
      }
      WakeableAtEnd(bitset, loaded);
    }
  }

  /** Everybody registered whose bit is set gets notified, and nobody else. */
  lemma {:induction false} WakeableExactly(bits: bv32, loaded: map<bv32, nat>, from: bv32, task: nat)
    requires from <= MAX_TASKS
    ensures task in Wakeable(bits, loaded, from) <==>
              exists id: bv32 :: from <= id < MAX_TASKS && id in Members(bits) && id in loaded && loaded[id] == task
    decreases MAX_TASKS - from
  {
    if from < MAX_TASKS {
      WakeableExactly(bits, loaded, from + 1, task);
    }
  }

  /** Whether `id` is to be listed from `from` on. */
  ghost predicate Listed(bits: bv32, loaded: map<bv32, nat>, from: bv32, id: bv32) {
    from <= id < MAX_TASKS && id in Members(bits) && id in loaded
  }

  lemma FirstListed(bits: bv32, loaded: map<bv32, nat>, from: bv32, id: bv32)
    requires from < MAX_TASKS
    ensures Listed(bits, loaded, from, id) <==>
            (id == from && Has(bits, from) && from in loaded) || Listed(bits, loaded, from + 1, id)
    ensures Listed(bits, loaded, from + 1, id) ==> from < id
  {
    hide Has;
  }

  lemma WakeableStarts(bits: bv32, loaded: map<bv32, nat>, from: bv32)
    requires from < MAX_TASKS
    ensures from + 1 <= MAX_TASKS && MAX_TASKS - (from + 1) < MAX_TASKS - from
    ensures Wakeable(bits, loaded, from) ==
            (if Has(bits, from) && from in loaded then [loaded[from]] else []) + Wakeable(bits, loaded, from + 1)
  {
    hide Has;
  }

  lemma NoneListed(bits: bv32, loaded: map<bv32, nat>, id: bv32)
    ensures !Listed(bits, loaded, MAX_TASKS, id)
  {
    hide Has;
  }

  predicate Less(a: bv32, b: bv32) { a < b }

  ghost predicate Ascending(ids: seq<bv32>) {
    forall i, j | 0 <= i < j < |ids| :: Less(ids[i], ids[j])
  }

  /** The list goes by ascending ids, each set bit once, each standing for what was in its slot. */
  lemma {:induction false} WakeableAscends(bits: bv32, loaded: map<bv32, nat>, from: bv32) returns (ids: seq<bv32>)
    requires from <= MAX_TASKS
    ensures Ascending(ids)
    ensures forall id: bv32 :: id in ids <==> Listed(bits, loaded, from, id)
    ensures |Wakeable(bits, loaded, from)| == |ids|
    ensures forall i | 0 <= i < |ids| :: ids[i] in loaded && Wakeable(bits, loaded, from)[i] == loaded[ids[i]]
    decreases MAX_TASKS - from
  {
    hide Has, Listed, Members, Wakeable, Ascending;
    if from == MAX_TASKS {
      ids := [];
      WakeableAtEnd(bits, loaded);
      forall id: bv32
        ensures !Listed(bits, loaded, from, id)
      {
        NoneListed(bits, loaded, id);
      }
      assert Ascending([]) by { NothingAscends(); }
    } else {
      WakeableStarts(bits, loaded, from);
      ids := WakeableAscends(bits, loaded, from + 1);
      ids := ListedBefore(bits, loaded, from, ids);
    }
  }

  lemma NothingAscends()
    ensures Ascending([])
  {
  }

  lemma ListedBefore(bits: bv32, loaded: map<bv32, nat>, from: bv32, rest: seq<bv32>) returns (ids: seq<bv32>)
    requires from < MAX_TASKS && Ascending(rest)
    requires forall id: bv32 :: id in rest <==> Listed(bits, loaded, from + 1, id)
    ensures ids == if Has(bits, from) && from in loaded then [from] + rest else rest
    ensures Ascending(ids) && forall id: bv32 :: id in ids <==> Listed(bits, loaded, from, id)
  {
    hide Has, Listed, Members;
    ids := if Has(bits, from) && from in loaded then [from] + rest else rest;
    forall id: bv32
      ensures Listed(bits, loaded, from, id) <==>
              (id == from && Has(bits, from) && from in loaded) || id in rest
      ensures id in rest ==> Less(from, id)
    {
      FirstListed(bits, loaded, from, id);
    }
    PrependAscends(from, rest);
    hide Ascending;
    forall id: bv32
      ensures id in ids <==> Listed(bits, loaded, from, id)
    {
      InPrepended(from, rest, id);
    }
  }

  lemma PrependAscends(first: bv32, rest: seq<bv32>)
    requires Ascending(rest) && forall id | id in rest :: Less(first, id)
    ensures Ascending([first] + rest)
  {
    hide Less;
    var ids := [first] + rest;
    forall i, j | 0 <= i < j < |ids|
      ensures Less(ids[i], ids[j])
    {
      assert ids[j] == rest[j - 1] && rest[j - 1] in rest;
      if i > 0 {
        assert ids[i] == rest[i - 1];
        assert Less(rest[i - 1], rest[j - 1]);
      }
    }
  }

  lemma InPrepended(first: bv32, rest: seq<bv32>, id: bv32)
    ensures id in [first] + rest <==> id == first || id in rest
  {
  }
}
