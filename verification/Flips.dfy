/** Prefix-reversal flips of permutations of 0..n-1: termination, the length bound,
    and why permutations that keep the largest value last need not be evaluated. */
module Flips {
  import opened Powers

  type Perm = seq<nat>

  ghost predicate IsPerm(p: Perm) {
    && (forall i :: 0 <= i < |p| ==> p[i] < |p|)
    && (forall i, j :: 0 <= i < j < |p| ==> p[i] != p[j])
  }

  function Identity(n: nat): Perm {
    seq(n, i => i)
  }

  /** Reverses the prefix 0..p[0]. */
  function Flip(p: Perm): Perm
    requires p != [] && p[0] < |p|
  {
    seq(|p|, i requires 0 <= i < |p| => if i <= p[0] then p[p[0] - i] else p[i])
  }

  /** Sum of 2^(i-1) over the fixed positions 1 <= i < m. */
  function FixedWeight(p: Perm, m: nat): nat
    requires m <= |p|
  {
    if m <= 1 then 0 else FixedWeight(p, m - 1) + if p[m - 1] == m - 1 then Pow2(m - 2) else 0
  }

  lemma {:induction false} FixedWeightBound(p: Perm, m: nat)
    requires 1 <= m <= |p|
    ensures FixedWeight(p, m) < Pow2(m - 1)
  {
    if m > 1 {
      FixedWeightBound(p, m - 1);
    }
  }

  lemma FlipIsPerm(p: Perm)
    requires IsPerm(p) && p != []
    ensures IsPerm(Flip(p))
  {
  }

  /** A flip fixes position p[0] for good value: whatever it unfixes lies below and weighs less. */
  lemma {:induction false} FlipGainsWeight(p: Perm, m: nat)
    requires IsPerm(p) && p != [] && p[0] < m <= |p| && p[0] != 0
    ensures FixedWeight(p, m) < FixedWeight(Flip(p), m)
  {
    var k := p[0];
    if m == k + 1 {
      FixedWeightBound(p, k);
      assert p[k] != k;
    } else {
      FlipGainsWeight(p, m - 1);
    }
  }

  /** Number of flips until 0 is on top. */
  function FlipCount(p: Perm): (flips: nat)
    requires IsPerm(p) && p != []
    ensures flips < Pow2(|p| - 1) - FixedWeight(p, |p|)
    decreases Pow2(|p| - 1) - FixedWeight(p, |p|)
  {
    FixedWeightBound(p, |p|);
    if p[0] == 0 then 0
    else
      FlipIsPerm(p);
      FlipGainsWeight(p, |p|);
      FixedWeightBound(Flip(p), |p|);
      1 + FlipCount(Flip(p))
  }

  // ---------- pruning ----------

  ghost predicate Pruned(p: Perm)
    requires p != []
  {
    p[0] == 0 || p[|p| - 1] == |p| - 1
  }

  /** Exchanges the labels 0 and n-1. */
  function SwapLabels(p: Perm): Perm {
    seq(|p|, i requires 0 <= i < |p| => if p[i] == 0 then |p| - 1 else if p[i] == |p| - 1 then 0 else p[i])
  }

  lemma SwapLabelsIsPerm(p: Perm)
    requires IsPerm(p)
    ensures IsPerm(SwapLabels(p))
  {
  }

  lemma SwapCommutesWithFlip(p: Perm)
    requires IsPerm(p) && |p| > 1 && p[|p| - 1] == |p| - 1 && p[0] != 0
    ensures SwapLabels(p)[0] == p[0] && Flip(SwapLabels(p)) == SwapLabels(Flip(p))
    ensures Flip(p)[|p| - 1] == |p| - 1
  {
  }

  /** With the labels swapped, the same flips happen and then one more. */
  lemma {:induction false} SwapAddsOneFlip(p: Perm)
    requires IsPerm(p) && |p| > 1 && p[|p| - 1] == |p| - 1
    ensures IsPerm(SwapLabels(p)) && FlipCount(SwapLabels(p)) == FlipCount(p) + 1
    decreases Pow2(|p| - 1) - FixedWeight(p, |p|)
  {
    var q := SwapLabels(p);
    SwapLabelsIsPerm(p);
    FlipIsPerm(q);
    if p[0] == 0 {
      assert q[0] == |p| - 1 && Flip(q)[0] == q[|p| - 1] == 0;
    } else {
      SwapCommutesWithFlip(p);
      FlipIsPerm(p);
      FlipGainsWeight(p, |p|);
      FixedWeightBound(Flip(p), |p|);
      SwapAddsOneFlip(Flip(p));
    }
  }

  /** Every pruned permutation either needs no flip or is beaten by one that is not pruned. */
  lemma PruningIsHarmless(p: Perm)
    requires IsPerm(p) && p != [] && Pruned(p)
    ensures FlipCount(p) == 0 ||
            (IsPerm(SwapLabels(p)) && !Pruned(SwapLabels(p)) && FlipCount(p) < FlipCount(SwapLabels(p)))
  {
    if p[0] != 0 {
      assert |p| > 1 && p[0] != p[|p| - 1];
      SwapAddsOneFlip(p);
    }
  }

  /** m is the largest flip count of a permutation of 0..n-1. */
  ghost predicate IsMaxFlips(n: nat, m: nat)
    requires n > 0
  {
    && (forall p: Perm :: |p| == n && IsPerm(p) ==> FlipCount(p) <= m)
    && (exists p: Perm :: |p| == n && IsPerm(p) && FlipCount(p) == m)
  }
}
