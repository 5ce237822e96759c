/** The running median over the last observations, kept in a circular history. */
module Timing {
  import opened Options

  const SAMPLE_HISTORY: nat := 64

  /** How many elements are less than `bound`. */
  function Below(s: seq<int>, bound: int): nat {
    if s == [] then 0 else (if s[0] < bound then 1 else 0) + Below(s[1..], bound)
  }

  lemma {:induction false} BelowConcat(a: seq<int>, b: seq<int>, bound: int)
    ensures Below(a + b, bound) == Below(a, bound) + Below(b, bound)
    decreases |a|
  {
    if a == [] {
      assert a + b == b;
    } else {
      assert (a + b)[1..] == a[1..] + b;
      BelowConcat(a[1..], b, bound);
    }
  }

  lemma BelowOne(x: int, bound: int)
    ensures Below([], bound) == 0
    ensures Below([x], bound) == if x < bound then 1 else 0
  {
  }

  // ----- sorting -----

  ghost predicate Sorted(s: seq<int>) {
    forall i, j | 0 <= i < j < |s| :: s[i] <= s[j]
  }

  function Place(x: int, sorted: seq<int>): seq<int> {
    if sorted == [] || x <= sorted[0] then [x] + sorted else [sorted[0]] + Place(x, sorted[1..])
  }

  /** What the library sort makes of a sequence. */
  function Sort(s: seq<int>): seq<int> {
    if s == [] then [] else Place(s[0], Sort(s[1..]))
  }

  lemma {:induction false} PlaceKeepsSorted(x: int, sorted: seq<int>)
    requires Sorted(sorted)
    ensures Sorted(Place(x, sorted)) && |Place(x, sorted)| == |sorted| + 1
    ensures Place(x, sorted)[0] == if sorted == [] || x <= sorted[0] then x else sorted[0]
    ensures multiset(Place(x, sorted)) == multiset{x} + multiset(sorted)
    decreases |sorted|
  {
    if sorted == [] || x <= sorted[0] {
      PrependKeepsSorted(x, sorted);
    } else {
      PlaceKeepsSorted(x, sorted[1..]);
      assert sorted == [sorted[0]] + sorted[1..];
      PrependKeepsSorted(sorted[0], Place(x, sorted[1..]));
    }
  }

  lemma PrependKeepsSorted(x: int, sorted: seq<int>)
    requires Sorted(sorted) && (sorted == [] || x <= sorted[0])
    ensures Sorted([x] + sorted)
  {
  }

  lemma {:induction false} SortSorts(s: seq<int>)
    ensures Sorted(Sort(s)) && |Sort(s)| == |s| && multiset(Sort(s)) == multiset(s)
    decreases |s|
  {
    if s != [] {
      SortSorts(s[1..]);
      PlaceKeepsSorted(s[0], Sort(s[1..]));
      assert s == [s[0]] + s[1..];
    }
  }

  lemma {:induction false} PlaceCounts(x: int, sorted: seq<int>, bound: int)
    ensures Below(Place(x, sorted), bound) == Below(sorted, bound) + if x < bound then 1 else 0
    decreases |sorted|
  {
    if sorted != [] && x > sorted[0] {
      PlaceCounts(x, sorted[1..], bound);
      assert Place(x, sorted)[1..] == Place(x, sorted[1..]);
    } else {
      assert Place(x, sorted)[1..] == sorted;
    }
  }

  lemma {:induction false} SortCounts(s: seq<int>, bound: int)
    ensures Below(Sort(s), bound) == Below(s, bound)
    decreases |s|
  {
    if s != [] {
      SortCounts(s[1..], bound);
      PlaceCounts(s[0], Sort(s[1..]), bound);
    }
  }

  // ----- rank -----

  /** `x` is the element of rank `k` from 0: at most `k` elements are less, more than `k` are no greater. */
  ghost predicate HasRank(s: seq<int>, k: nat, x: int) {
    Below(s, x) <= k < Below(s, x + 1)
  }

  lemma {:induction false} BelowGrows(s: seq<int>, a: int, b: int)
    requires a <= b
    ensures Below(s, a) <= Below(s, b) <= |s|
    decreases |s|
  {
    if s != [] {
      BelowGrows(s[1..], a, b);
    }
  }

  /** At most one value has a given rank. */
  lemma RankUnique(s: seq<int>, k: nat, x: int, y: int)
    requires HasRank(s, k, x) && HasRank(s, k, y)
    ensures x == y
  {
    if x < y {
      BelowGrows(s, x + 1, y);
    } else if y < x {
      BelowGrows(s, y + 1, x);
    }
  }

  lemma {:induction false} AllBelow(s: seq<int>, bound: int)
    ensures (forall x | x in s :: x < bound) ==> Below(s, bound) == |s|
    ensures (forall x | x in s :: x >= bound) ==> Below(s, bound) == 0
    decreases |s|
  {
    if s != [] {
      assert s[0] in s && forall x | x in s[1..] :: x in s;
      AllBelow(s[1..], bound);
    }
  }

  lemma NotMoreThanKBelow(s: seq<int>, k: nat)
    requires Sorted(s) && k < |s|
    ensures Below(s, s[k]) <= k
  {
    assert s == s[..k] + s[k..];
    BelowConcat(s[..k], s[k..], s[k]);
    AllBelow(s[k..], s[k]);
    BelowGrows(s[..k], s[k], s[k]);
  }

  lemma MoreThanKUpTo(s: seq<int>, k: nat)
    requires Sorted(s) && k < |s|
    ensures Below(s, s[k] + 1) > k
  {
    assert s == s[..k + 1] + s[k + 1..];
    BelowConcat(s[..k + 1], s[k + 1..], s[k] + 1);
    AllBelow(s[..k + 1], s[k] + 1);
  }

  /** The k-th element after sorting has rank k before. */
  lemma RankOfSort(s: seq<int>, k: nat)
    requires k < |s|
    ensures |Sort(s)| == |s| && HasRank(s, k, Sort(s)[k])
  {
    hide Below, Sort, Sorted;
    SortSorts(s);
    NotMoreThanKBelow(Sort(s), k);
    MoreThanKUpTo(Sort(s), k);
    SortCounts(s, Sort(s)[k]);
    SortCounts(s, Sort(s)[k] + 1);
  }

  // ----- the history -----

  /** The last `n` elements, or all there are. */
  function Last(s: seq<int>, n: nat): seq<int> {
    if |s| <= n then s else s[|s| - n..]
  }

  lemma LastNext(s: seq<int>, x: int, n: nat)
    requires n > 0
    ensures |Last(s, n)| == if |s| < n then |s| else n
    ensures Last(s + [x], n) == if |s| < n then s + [x] else Last(s, n)[1..] + [x]
  {
  }

  /** Overwriting the oldest sample makes the rotated buffer lose its first and gain a last element. */
  lemma TurnOn(before: seq<int>, at: nat, x: int)
    requires at < |before|
    ensures var after := before[at := x];
            after[at + 1..] + after[..at + 1] == (before[at..] + before[..at])[1..] + [x]
  {
  }

  /** Observations as integers; `observed` is the whole history, of which the buffer keeps the end. */
  class Aggregate {
    const samples: array<int>
    var writeAt: nat
    var filled: bool
    ghost var observed: seq<int>

    ghost predicate Valid()
      reads this, samples
    {
      && samples.Length == SAMPLE_HISTORY && writeAt < SAMPLE_HISTORY
      && (if filled
          then |observed| >= SAMPLE_HISTORY && samples[writeAt..] + samples[..writeAt] == Last(observed, SAMPLE_HISTORY)
          else samples[..writeAt] == observed)
    }

    constructor (samples: array<int>)
      requires samples.Length == SAMPLE_HISTORY
      ensures Valid() && observed == [] && this.samples == samples
    {
      this.samples, writeAt, filled, observed := samples, 0, false, [];
    }

    method Observe(value: int)
      requires Valid()
      modifies this, samples
      ensures Valid() && observed == old(observed) + [value]
    {
      ghost var before := samples[..];
      LastNext(observed, value, SAMPLE_HISTORY);
      samples[writeAt] := value;
      assert samples[..] == before[writeAt := value];
      if filled {
        TurnOn(before, writeAt, value);
      }
      writeAt := writeAt + 1;
      observed := observed + [value];
      hide Last;
      if writeAt == SAMPLE_HISTORY {
        writeAt, filled := 0, true;
        assert samples[0..] + samples[..0] == samples[..];
      }
    }

    /** The upper median of the last 64 observations, or of all if there were fewer. */
    method Median() returns (median: Option<int>)
      requires Valid()
      ensures median == None <==> observed == []
      ensures median.Some? ==>
                var recent := Last(observed, SAMPLE_HISTORY);
                HasRank(recent, |recent| / 2, median.value)
    {
      var copy := if filled then samples[..] else samples[..writeAt];
      var sorted := Sort(copy);
      SortSorts(copy);
      if |copy| / 2 < |sorted| {
        median := Some(sorted[|copy| / 2]);
        RankOfSort(copy, |copy| / 2);
        hide Sort, HasRank;
        if filled {
          assert copy == samples[..writeAt] + samples[writeAt..];
          RotationKeepsRank(samples[..writeAt], samples[writeAt..], |copy| / 2, median.value);
        }
      } else {
        median := None;
      }
    }
  }

  lemma RotationKeepsRank(a: seq<int>, b: seq<int>, k: nat, x: int)
    ensures HasRank(a + b, k, x) <==> HasRank(b + a, k, x)
  {
    BelowConcat(a, b, x);
    BelowConcat(b, a, x);
    BelowConcat(a, b, x + 1);
    BelowConcat(b, a, x + 1);
  }

  class Timing {
    const latency: Aggregate
    const clockDelta: Aggregate

    ghost predicate Valid()
      reads this, latency, clockDelta, latency.samples, clockDelta.samples
    {
      latency != clockDelta && latency.samples != clockDelta.samples && latency.Valid() && clockDelta.Valid()
    }

    constructor (latency: Aggregate, clockDelta: Aggregate)
      requires latency != clockDelta && latency.samples != clockDelta.samples
      requires latency.Valid() && clockDelta.Valid()
      ensures Valid() && this.latency == latency && this.clockDelta == clockDelta
    {
      this.latency, this.clockDelta := latency, clockDelta;
    }

    /**
     `stream1` and `stream3` are when the request left and its answer came back;
     a packet where time runs backwards is ignored altogether. `delta` is the
     clock difference the protocol library derives from the packet.
     */
    method ReceivePacket(stream1: nat, stream3: nat, delta: int)
      requires Valid()
      modifies latency, clockDelta, latency.samples, clockDelta.samples
      ensures Valid()
      ensures latency.observed
              == old(latency.observed) + if stream3 < stream1 then [] else [(stream3 - stream1) / 2]
      ensures clockDelta.observed
              == old(clockDelta.observed) + if stream3 < stream1 then [] else [delta]
    {
      if stream3 < stream1 {
        return;
      }
      latency.Observe((stream3 - stream1) / 2);
      clockDelta.Observe(delta);
    }
  }
}
