/** The fannkuch benchmark: the largest number of flips over all permutations,
    found by one in-place pass over the permutations in count/rotate order. */
module Fannkuch {
  import opened Flips
  import opened Rotations

  // ---------- one step of the generator ----------

  lemma {:induction false} HighRankDependsOnHighWheels(c: seq<nat>, d: seq<nat>, n: nat, r: nat)
    requires Wheels(c, n, r) && Wheels(d, n, r) && 1 <= r <= n && SameWheels(c, d, r, n)
    ensures HighRank(c, n, r) == HighRank(d, n, r)
    decreases n - r
  {
    if r < n {
      HighRankDependsOnHighWheels(c, d, n, r + 1);
    }
  }

  /** Filling the wheel below r changes neither the arrangement nor the rank. */
  lemma FillWheel(c: seq<nat>, d: seq<nat>, n: nat, r: nat)
    requires Wheels(c, n, r) && 2 <= r <= n && d == c[r - 1 := r]
    ensures Wheels(d, n, r - 1) && Turned(d, n, r - 1) == Turned(c, n, r)
    ensures HighRank(d, n, r - 1) == HighRank(c, n, r)
  {
    TurnedDependsOnHighWheels(c, d, n, r);
    HighRankDependsOnHighWheels(c, d, n, r);
    FullWheelsDoNothing(d, n, r, r - 1);
  }

  lemma TurnWheel(c: seq<nat>, d: seq<nat>, n: nat, r: nat)
    requires Wheels(c, n, r) && 1 <= r < n && d == c[r := c[r] - 1]
    ensures Wheels(d, n, r + 1)
    ensures d[r] > 0 ==> Wheels(d, n, r)
    ensures RotateBy(Turned(c, n, r), r, 1) == if d[r] > 0 then Turned(d, n, r) else Turned(d, n, r + 1)
  {
    hide RotateBy;
    TurnedDependsOnHighWheels(c, d, n, r + 1);
    var p, t := Turned(c, n, r + 1), r + 1 - c[r];
    RotateByAdds(p, r, t);
    assert Turned(c, n, r) == RotateBy(p, r, t);
    if d[r] > 0 {
      assert Turned(d, n, r) == RotateBy(p, r, t + 1);
    } else {
      RotateByWholeTurn(p, r);
    }
  }

  lemma TurnWheelRank(c: seq<nat>, d: seq<nat>, n: nat, r: nat)
    requires Wheels(c, n, r) && 1 <= r < n && d == c[r := c[r] - 1] && Wheels(d, n, r + 1)
    requires d[r] > 0 ==> Wheels(d, n, r)
    ensures HighRank(c, n, r) + Factorial(r) ==
            if d[r] > 0 then HighRank(d, n, r) else HighRank(d, n, r + 1) + Factorial(r + 1)
  {
    hide Digit;
    HighRankDependsOnHighWheels(c, d, n, r + 1);
    OneMore(r + 1 - c[r], Factorial(r));
    FactorialIsDigit(r + 1);
  }

  lemma FactorialIsDigit(m: nat)
    requires m > 0
    ensures Factorial(m) == Digit(m, Factorial(m - 1))
  {
  }

  lemma OneMore(t: nat, f: nat)
    ensures Digit(t, f) + f == Digit(t + 1, f)
  {
  }

  lemma StartOfGenerator(c: seq<nat>, n: nat)
    requires n >= 1 && |c| == n
    ensures Wheels(c, n, n) && Turned(c, n, n) == Identity(n) && HighRank(c, n, n) == 0
  {
  }

  // ---------- the running maximum ----------

  /** What the program makes of p: pruned permutations are not evaluated. */
  ghost function Score(p: Perm): nat {
    if p != [] && IsPerm(p) && !Pruned(p) then FlipCount(p) else 0
  }

  ghost function Best(shown: seq<Perm>): nat {
    if shown == [] then 0
    else
      var before, last := Best(shown[..|shown| - 1]), Score(shown[|shown| - 1]);
      if before < last then last else before
  }

  lemma {:induction false} BestBoundsAll(shown: seq<Perm>, k: nat)
    requires k < |shown|
    ensures Score(shown[k]) <= Best(shown)
  {
    if k < |shown| - 1 {
      BestBoundsAll(shown[..|shown| - 1], k);
    }
  }

  lemma {:induction false} BestIsShown(shown: seq<Perm>) returns (k: nat)
    requires Best(shown) > 0
    ensures k < |shown| && Score(shown[k]) == Best(shown)
  {
    if Score(shown[|shown| - 1]) == Best(shown) {
      k := |shown| - 1;
    } else {
      k := BestIsShown(shown[..|shown| - 1]);
    }
  }

  lemma IdentityNeedsNoFlip(n: nat)
    requires n > 0
    ensures IsPerm(Identity(n)) && FlipCount(Identity(n)) == 0
  {
  }

  lemma BestIsMax(n: nat, shown: seq<Perm>)
    requires n > 0
    requires forall p: Perm :: p in shown <==> |p| == n && IsPerm(p)
    ensures IsMaxFlips(n, Best(shown))
  {
    forall p: Perm | |p| == n && IsPerm(p) ensures FlipCount(p) <= Best(shown) {
      var q := p;
      if Pruned(p) {
        PruningIsHarmless(p);
        q := SwapLabels(p);
      }
      if FlipCount(p) != 0 {
        assert |q| == n && IsPerm(q) && q in shown;
        var k: nat :| k < |shown| && shown[k] == q;
        BestBoundsAll(shown, k);
      }
    }
    if Best(shown) == 0 {
      IdentityNeedsNoFlip(n);
    } else {
      var k := BestIsShown(shown);
      assert shown[k] in shown;
    }
  }

  // ---------- the program ----------

  /** Reverses perm[1..k-1] in place. */
  method ReverseInside(perm: array<nat>, k: nat)
    requires 1 <= k < perm.Length
    modifies perm
    ensures forall x :: 1 <= x < k ==> perm[x] == old(perm[k - x])
    ensures forall x :: 0 <= x < perm.Length && (x < 1 || k <= x) ==> perm[x] == old(perm[x])
  {
    var i, j := 1, k - 1;
    while i < j
      invariant 1 <= i && i + j == k && i <= j + 2
      invariant forall x :: 1 <= x < i ==> perm[x] == old(perm[k - x]) && perm[k - x] == old(perm[x])
      invariant forall x :: i <= x <= j ==> perm[x] == old(perm[x])
      invariant forall x :: 0 <= x < perm.Length && (x < 1 || k <= x) ==> perm[x] == old(perm[x])
    {
      perm[i], perm[j] := perm[j], perm[i];
      i, j := i + 1, j - 1;
    }
    forall x | 1 <= x < k ensures perm[x] == old(perm[k - x]) {
      if x > j {
        assert perm[k - (k - x)] == old(perm[k - x]);
      }
    }
  }

  /** p is the permutation held in perm, with position 0 cached in k. */
  ghost predicate Holds(perm: seq<nat>, k: nat, p: Perm) {
    |p| == |perm| > 0 && p[0] == k && forall i :: 1 <= i < |p| ==> p[i] == perm[i]
  }

  lemma TopIsIndex(p: Perm)
    requires IsPerm(p) && p != []
    ensures p[0] < |p|
  {
  }

  /** One turn of the flip loop, seen from the array before and after it. */
  lemma FlipHolds(before: seq<nat>, after: seq<nat>, k: nat, p: Perm)
    requires Holds(before, k, p) && IsPerm(p) && k != 0 && |after| == |before| && after[k] == k
    requires forall x :: 1 <= x < k ==> after[x] == before[k - x]
    requires forall x :: k < x < |before| ==> after[x] == before[x]
    ensures Holds(after, before[k], Flip(p))
    ensures FlipCount(p) == 1 + FlipCount(Flip(p)) && (before[k] == 0 ==> FlipCount(Flip(p)) == 0)
  {
    hide FixedWeight;
    FlipIsPerm(p);
  }

  method CountFlips(perm1: array<nat>, perm: array<nat>) returns (flips: nat)
    requires perm != perm1 && perm.Length == perm1.Length > 0
    requires IsPerm(perm1[..]) && perm1[0] != 0
    modifies perm
    ensures flips == FlipCount(perm1[..])
  {
    flips := 0;
    for i := 1 to perm.Length
      invariant forall x :: 1 <= x < i ==> perm[x] == perm1[x]
    {
      perm[i] := perm1[i];
    }
    var k := perm1[0];
    ghost var p := perm1[..];
    while true
      invariant Holds(perm[..], k, p) && IsPerm(p) && k != 0
      invariant flips + FlipCount(p) == FlipCount(perm1[..])
      decreases FlipCount(p)
    {
      hide Flip, FlipCount, IsPerm;
      ghost var before := perm[..];
      FlipIsPerm(p);
      TopIsIndex(p);
      ReverseInside(perm, k);
      flips := flips + 1;
      var j := perm[k];
      perm[k] := k;
      FlipHolds(before, perm[..], k, p);
      k := j;
      p := Flip(p);
      if k == 0 {
        break;
      }
    }
  }

  /** Rotates perm1[0..r] down by one. */
  method RotateDown(perm1: array<nat>, r: nat)
    requires r < perm1.Length
    modifies perm1
    ensures perm1[..] == old(perm1[1..r + 1]) + [old(perm1[0])] + old(perm1[r + 1..])
    ensures perm1[..] == RotateBy(old(perm1[..]), r, 1)
  {
    RotateByOne(perm1[..], r);
    var perm0 := perm1[0];
    var i := 0;
    while i < r
      invariant 0 <= i <= r
      invariant forall x :: 0 <= x < i ==> perm1[x] == old(perm1[x + 1])
      invariant forall x :: i <= x < perm1.Length ==> perm1[x] == old(perm1[x])
    {
      var k := i + 1;
      perm1[i] := perm1[k];
      i := k;
    }
    perm1[r] := perm0;
  }

  /** Where the generator stands: wheels r.. are set, and done permutations precede this one. */
  ghost predicate Stands(perm1: seq<nat>, count: seq<nat>, n: nat, r: nat, done: nat) {
    1 <= r <= n && Wheels(count, n, r) && perm1 == Turned(count, n, r) && done == HighRank(count, n, r)
  }

  /** Refills the counts of all wheels below r. */
  method ResetCounts(count: array<nat>, r0: nat, ghost perm1: seq<nat>, ghost done: nat) returns (r: nat)
    requires Stands(perm1, count[..], count.Length, r0, done)
    modifies count
    ensures r == 1 && Stands(perm1, count[..], count.Length, 1, done)
  {
    r := r0;
    while r != 1
      invariant Stands(perm1, count[..], count.Length, r, done)
      decreases r
    {
      FillWheel(count[..], count[..][r - 1 := r], count.Length, r);
      count[r - 1] := r;
      r := r - 1;
    }
  }

  /** Moves to the next permutation, or finds that all wheels are back at their start. */
  method Advance(perm1: array<nat>, count: array<nat>, ghost done: nat) returns (r: nat, exhausted: bool)
    requires perm1 != count && perm1.Length == count.Length
    requires done > 0 && Stands(perm1[..], count[..], count.Length, 1, done - 1)
    modifies perm1, count
    ensures !exhausted ==> Stands(perm1[..], count[..], count.Length, r, done)
    ensures exhausted ==> done == Factorial(count.Length) && perm1[..] == Identity(count.Length)
  {
    hide RotateBy, IsPerm;
    var n := count.Length;
    r := 1;
    ghost var before: nat := done - 1;
    assert Factorial(1) == 1 * Factorial(0);
    while true
      invariant Stands(perm1[..], count[..], n, r, before) && before + Factorial(r) == done
      decreases n - r
    {
      if r == n {
        return r, true;
      }
      TurnWheel(count[..], count[..][r := count[r] - 1], n, r);
      TurnWheelRank(count[..], count[..][r := count[r] - 1], n, r);
      RotateDown(perm1, r);
      count[r] := count[r] - 1;
      if count[r] > 0 {
        return r, false;
      }
      r := r + 1;
      before := HighRank(count[..], n, r);
    }
  }

  /** Updates the running maximum with perm1, unless perm1 is pruned. */
  method Evaluate(perm1: array<nat>, perm: array<nat>, best: nat) returns (flipsMax: nat)
    requires perm != perm1 && perm.Length == perm1.Length > 0 && IsPerm(perm1[..])
    modifies perm
    ensures flipsMax == if best < Score(perm1[..]) then Score(perm1[..]) else best
  {
    flipsMax := best;
    if !(perm1[0] == 0 || perm1[perm1.Length - 1] == perm1.Length - 1) {
      var flips := CountFlips(perm1, perm);
      if flipsMax < flips {
        flipsMax := flips;
      }
    }
  }

  lemma ShowNext(n: nat, codes: seq<seq<nat>>, shown: seq<Perm>, code: seq<nat>, p: Perm)
    requires n > 0 && Enumerates(n, codes, shown) && Stands(p, code, n, 1, |shown|)
    requires forall q :: q in shown ==> |q| == n && IsPerm(q)
    ensures Enumerates(n, codes + [code], shown + [p]) && |shown| < Factorial(n)
    ensures |p| == n && IsPerm(p) && forall q :: q in shown + [p] ==> |q| == n && IsPerm(q)
    ensures Best(shown + [p]) == if Best(shown) < Score(p) then Score(p) else Best(shown)
  {
    RankSplits(code, n, 1);
    RankBound(code, n, n);
    TurnedIsPerm(code, n, 1);
    assert (shown + [p])[..|shown|] == shown;
  }

  lemma AllShown(n: nat, codes: seq<seq<nat>>, shown: seq<Perm>)
    requires n > 0 && Enumerates(n, codes, shown) && |shown| == Factorial(n)
    requires forall q :: q in shown ==> |q| == n && IsPerm(q)
    ensures forall i, j :: 0 <= i < j < |shown| ==> shown[i] != shown[j]
    ensures forall p: Perm :: p in shown <==> |p| == n && IsPerm(p)
  {
    forall i, j | 0 <= i < j < |shown| ensures shown[i] != shown[j] {
      EnumerationIsInjective(n, codes, shown, i, j);
    }
    forall p: Perm | |p| == n && IsPerm(p) ensures p in shown {
      EnumerationIsComplete(n, codes, shown, p);
    }
  }

  /** flipsMax is the maximum over all permutations; shown lists each of them exactly once,
      and the generator ends where it began. */
  method Fannkuch(n: int) returns (flipsMax: nat, ghost shown: seq<Perm>, ghost last: Perm)
    ensures n < 1 ==> flipsMax == 0
    ensures n >= 1 ==> IsMaxFlips(n, flipsMax)
    ensures n >= 1 ==> |shown| == Factorial(n) && forall p: Perm :: |p| == n && IsPerm(p) ==> p in shown
    ensures forall i, j :: 0 <= i < j < |shown| ==> shown[i] != shown[j]
    ensures forall p :: p in shown ==> |p| == n && IsPerm(p)
    ensures n >= 1 ==> last == Identity(n)
  {
    shown, last := [], [];
    if n < 1 {
      return 0, shown, last;
    }
    var perm := new nat[n](_ => 0);
    var perm1 := new nat[n](_ => 0);
    var count := new nat[n](_ => 0);
    for i := 0 to n
      invariant forall x :: 0 <= x < i ==> perm1[x] == x
    {
      perm1[i] := i;
    }
    StartOfGenerator(count[..], n);
    assert perm1[..] == Identity(n);
    var r: nat := n;
    flipsMax := 0;
    ghost var codes: seq<seq<nat>> := [];
    while true
      invariant Stands(perm1[..], count[..], n, r, |shown|)
      invariant Enumerates(n, codes, shown) && flipsMax == Best(shown)
      invariant forall p :: p in shown ==> |p| == n && IsPerm(p)
      invariant |shown| <= Factorial(n)
      decreases Factorial(n) - |shown|
    {
      r := ResetCounts(count, r, perm1[..], |shown|);
      ShowNext(n, codes, shown, count[..], perm1[..]);
      flipsMax := Evaluate(perm1, perm, flipsMax);
      codes, shown := codes + [count[..]], shown + [perm1[..]];

      var exhausted;
      r, exhausted := Advance(perm1, count, |shown|);
      if exhausted {
        last := perm1[..];
        AllShown(n, codes, shown);
        BestIsMax(n, shown);
        return;
      }
    }
  }
}
