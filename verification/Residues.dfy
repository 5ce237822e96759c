/** Residues of unbounded counters: the arithmetic behind every wrapping index. */
module Residues {

  /** The residue, by counting laps; recursion keeps the proofs about it linear. */
  function Wrap(p: nat, n: nat): (r: nat)
    requires n > 0
    ensures r < n
    decreases p
  {
    if p < n then p else Wrap(p - n, n)
  }

  /** It is the remainder the code computes. */
  lemma {:induction false} WrapIsRemainder(p: nat, n: nat)
    requires n > 0
    ensures Wrap(p, n) == p % n
    decreases p
  {
    if p >= n {
      WrapIsRemainder(p - n, n);
      var q := (p - n) / n;
      assert p - n == n * q + (p - n) % n;
      assert p == n * (q + 1) + (p - n) % n;
      SmallRest(p, q + 1, (p - n) % n, n);
    }
  }

  lemma SmallRest(p: nat, q: nat, r: nat, n: nat)
    requires r < n && p == n * q + r
    ensures p % n == r
  {
    var d := p / n - q;
    assert n * d == n * (p / n) - n * q;
    assert n * d + p % n == r;
    assert d == 0;
  }

  /** Stepping a wrapping index by less than one lap wraps at most once. */
  lemma {:induction false} StepResidue(p: nat, i: nat, n: nat)
    requires i < n
    ensures Wrap(p + i, n) == if Wrap(p, n) + i < n then Wrap(p, n) + i else Wrap(p, n) + i - n
    decreases p
  {
    if p >= n {
      StepResidue(p - n, i, n);
    }
  }

  /** The same from an index that is its own residue. */
  lemma StepIndex(index: nat, i: nat, n: nat)
    requires index < n && i < n
    ensures Wrap(index + i, n) == if index + i < n then index + i else index + i - n
  {
  }

  /** Counters less than one lap apart have different residues. */
  lemma DistinctResidues(a: nat, b: nat, n: nat)
    requires a < b < a + n
    ensures Wrap(a, n) != Wrap(b, n)
  {
    StepResidue(a, b - a, n);
  }
}
