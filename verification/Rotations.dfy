/** The count/rotate scheme that enumerates permutations: level r rotates the prefix 0..r by one,
    and count[r] says how many of the r + 1 positions of that wheel are still to come. */
module Rotations {
  import opened Flips

  /** Where position i gets its value from when the prefix 0..r turns down by t places. */
  function RotateIndex(r: nat, t: nat, i: nat): nat
    requires t <= r + 1
  {
    if i > r then i else if i + t <= r then i + t else i + t - r - 1
  }

  function RotateBy(p: Perm, r: nat, t: nat): Perm
    requires r < |p| && t <= r + 1
  {
    seq(|p|, i requires 0 <= i < |p| => p[RotateIndex(r, t, i)])
  }

  lemma RotateByAdds(p: Perm, r: nat, t: nat)
    requires r < |p| && t <= r
    ensures RotateBy(RotateBy(p, r, t), r, 1) == RotateBy(p, r, t + 1)
  {
  }

  lemma RotateByWholeTurn(p: Perm, r: nat)
    requires r < |p|
    ensures RotateBy(p, r, 0) == p && RotateBy(p, r, r + 1) == p
  {
  }

  /** One place: the first entry goes behind the others of the prefix. */
  lemma RotateByOne(p: Perm, r: nat)
    requires r < |p|
    ensures RotateBy(p, r, 1) == p[1..r + 1] + [p[0]] + p[r + 1..]
  {
  }

  lemma RotateByIsPerm(p: Perm, r: nat, t: nat)
    requires IsPerm(p) && r < |p| && t <= r + 1
    ensures IsPerm(RotateBy(p, r, t))
  {
  }

  // ---------- the wheels ----------

  /** Wheels r..n-1 are in a legal position. */
  ghost predicate Wheels(c: seq<nat>, n: nat, r: nat) {
    |c| == n && forall j :: r <= j < n && 1 <= j ==> 1 <= c[j] <= j + 1
  }

  ghost predicate SameWheels(c: seq<nat>, d: seq<nat>, lo: nat, hi: nat) {
    hi <= |c| && hi <= |d| && forall j :: lo <= j < hi ==> c[j] == d[j]
  }

  /** The identity after wheels n-1 down to r have turned j + 1 - c[j] places each. */
  function Turned(c: seq<nat>, n: nat, r: nat): (p: Perm)
    requires Wheels(c, n, r) && 1 <= r <= n
    ensures |p| == n
    decreases n - r
  {
    if r == n then Identity(n) else RotateBy(Turned(c, n, r + 1), r, r + 1 - c[r])
  }

  lemma {:induction false} TurnedIsPerm(c: seq<nat>, n: nat, r: nat)
    requires Wheels(c, n, r) && 1 <= r <= n
    ensures IsPerm(Turned(c, n, r))
    decreases n - r
  {
    if r < n {
      TurnedIsPerm(c, n, r + 1);
      RotateByIsPerm(Turned(c, n, r + 1), r, r + 1 - c[r]);
    }
  }

  lemma {:induction false} TurnedDependsOnHighWheels(c: seq<nat>, d: seq<nat>, n: nat, r: nat)
    requires Wheels(c, n, r) && Wheels(d, n, r) && 1 <= r <= n && SameWheels(c, d, r, n)
    ensures Turned(c, n, r) == Turned(d, n, r)
    decreases n - r
  {
    hide RotateBy, Identity;
    if r < n {
      TurnedDependsOnHighWheels(c, d, n, r + 1);
    }
  }

  /** Full counts below r leave the arrangement of the higher wheels alone. */
  lemma {:induction false} FullWheelsDoNothing(c: seq<nat>, n: nat, r: nat, m: nat)
    requires Wheels(c, n, m) && 1 <= m <= r <= n
    requires forall j :: m <= j < r ==> c[j] == j + 1
    ensures Turned(c, n, m) == Turned(c, n, r)
    decreases r - m
  {
    if m < r {
      FullWheelsDoNothing(c, n, r, m + 1);
      RotateByWholeTurn(Turned(c, n, m + 1), m);
      assert m + 1 - c[m] == 0;
    }
  }

  /** Wheels below r never move what stands at position r or beyond. */
  lemma {:induction false} HighPositionsSettle(c: seq<nat>, n: nat, m: nat, r: nat, i: nat)
    requires Wheels(c, n, m) && 1 <= m <= r <= i < n
    ensures Turned(c, n, m)[i] == Turned(c, n, r)[i]
    decreases r - m
  {
    if m < r {
      HighPositionsSettle(c, n, m + 1, r, i);
    }
  }

  /** What a wheel brings to position r tells how far it has turned. */
  lemma TurnIsVisible(p: Perm, r: nat, t: nat, u: nat)
    requires IsPerm(p) && r < |p| && t <= r && u <= r
    requires RotateIndex(r, t, r) < |p| && RotateIndex(r, u, r) < |p|
    requires p[RotateIndex(r, t, r)] == p[RotateIndex(r, u, r)]
    ensures t == u
  {
  }

  lemma TurnedAt(c: seq<nat>, n: nat, r: nat)
    requires Wheels(c, n, r) && 1 <= r < n
    ensures RotateIndex(r, r + 1 - c[r], r) < n
    ensures Turned(c, n, r)[r] == Turned(c, n, r + 1)[RotateIndex(r, r + 1 - c[r], r)]
  {
  }

  lemma WheelIsVisible(c: seq<nat>, d: seq<nat>, n: nat, r: nat)
    requires Wheels(c, n, r) && Wheels(d, n, r) && 1 <= r < n
    requires Turned(c, n, r + 1) == Turned(d, n, r + 1) && Turned(c, n, r)[r] == Turned(d, n, r)[r]
    ensures c[r] == d[r]
  {
    hide Turned, RotateIndex, IsPerm;
    TurnedIsPerm(c, n, r + 1);
    TurnedAt(c, n, r);
    TurnedAt(d, n, r);
    TurnIsVisible(Turned(c, n, r + 1), r, r + 1 - c[r], r + 1 - d[r]);
  }

  /** Different wheel positions show different permutations. */
  lemma {:induction false} TurnedIsInjective(c: seq<nat>, d: seq<nat>, n: nat, r: nat)
    requires Wheels(c, n, 1) && Wheels(d, n, 1) && 1 <= r <= n
    requires Turned(c, n, 1) == Turned(d, n, 1)
    ensures SameWheels(c, d, r, n)
    decreases n - r
  {
    if r < n {
      hide Turned;
      TurnedIsInjective(c, d, n, r + 1);
      TurnedDependsOnHighWheels(c, d, n, r + 1);
      HighPositionsSettle(c, n, 1, r, r);
      HighPositionsSettle(d, n, 1, r, r);
      WheelIsVisible(c, d, n, r);
    }
  }

  /** A permutation of 0..n-1 takes every value. */
  lemma {:induction false} PermTakesEveryValue(p: Perm, v: nat) returns (i: nat)
    requires IsPerm(p) && v < |p|
    ensures i < |p| && p[i] == v
  {
    if v in p {
      i :| i < |p| && p[i] == v;
    } else {
      SmallImage(p, |p|, v);
      assert false;
    }
  }

  /** An injective list that avoids v has fewer than n entries below n. */
  lemma {:induction false} SmallImage(s: seq<nat>, n: nat, v: nat)
    requires forall i, j :: 0 <= i < j < |s| ==> s[i] != s[j]
    requires forall i :: 0 <= i < |s| ==> s[i] < n && s[i] != v
    requires v < n
    ensures |s| < n
    decreases n
  {
    if s == [] {
    } else if s[0] == v {
      assert false;
    } else if last :| 0 <= last < |s| && s[last] == n - 1 {
      var s' := s[..last] + s[last + 1..];
      SmallImage(s', n - 1, v);
    } else if v == n - 1 {
      SmallImage(s[1..], n - 1, s[0]);
    } else {
      SmallImage(s, n - 1, v);
    }
  }

  lemma TurnOneMore(c: seq<nat>, d: seq<nat>, n: nat, r: nat, t: nat)
    requires Wheels(d, n, r + 1) && 1 <= r < n && t <= r && c == d[r := r + 1 - t]
    ensures Wheels(c, n, r) && Turned(c, n, r) == RotateBy(Turned(d, n, r + 1), r, t)
  {
    hide RotateBy;
    TurnedDependsOnHighWheels(c, d, n, r + 1);
  }

  /** Some turn of wheel r brings q[r] to position r. */
  lemma TurnThatBrings(p: Perm, q: Perm, r: nat) returns (t: nat)
    requires IsPerm(p) && IsPerm(q) && |p| == |q| && r < |q| && forall i :: r < i < |q| ==> p[i] == q[i]
    ensures t <= r && forall i :: r <= i < |q| ==> RotateBy(p, r, t)[i] == q[i]
  {
    var s := PermTakesEveryValue(p, q[r]);
    assert s <= r;
    t := if s < r then s + 1 else 0;
    assert RotateIndex(r, t, r) == s;
  }

  /** Every permutation is shown by some wheel position. */
  lemma {:induction false} WheelsReach(q: Perm, r: nat) returns (c: seq<nat>)
    requires IsPerm(q) && 1 <= r <= |q|
    ensures Wheels(c, |q|, r) && forall i :: r <= i < |q| ==> Turned(c, |q|, r)[i] == q[i]
    decreases |q| - r
  {
    var n := |q|;
    if r == n {
      c := seq(n, _ => 0);
    } else {
      hide RotateBy, IsPerm, Turned;
      var d := WheelsReach(q, r + 1);
      TurnedIsPerm(d, n, r + 1);
      var t := TurnThatBrings(Turned(d, n, r + 1), q, r);
      c := d[r := r + 1 - t];
      TurnOneMore(c, d, n, r, t);
    }
  }

  lemma {:induction false} TurnedIsSurjective(q: Perm) returns (c: seq<nat>)
    requires IsPerm(q) && q != []
    ensures Wheels(c, |q|, 1) && Turned(c, |q|, 1) == q
  {
    c := WheelsReach(q, 1);
    var p := Turned(c, |q|, 1);
    TurnedIsPerm(c, |q|, 1);
    var i := PermTakesEveryValue(p, q[0]);
    assert i == 0;
    assert p == q;
  }

  // ---------- ranks ----------

  function Factorial(n: nat): (f: nat)
    ensures f > 0
  {
    if n == 0 then 1 else n * Factorial(n - 1)
  }

  /** What a digit contributes. */
  function Digit(d: nat, weight: nat): nat {
    d * weight
  }

  /** The mixed-radix number shown by wheels 1..m-1. */
  function Rank(c: seq<nat>, m: nat): nat
    requires m <= |c| && forall j :: 1 <= j < m ==> c[j] <= j + 1
    decreases m
  {
    if m <= 1 then 0 else Rank(c, m - 1) + Digit(m - c[m - 1], Factorial(m - 1))
  }

  /** The part of it that wheels r..n-1 contribute. */
  function HighRank(c: seq<nat>, n: nat, r: nat): nat
    requires 1 <= r <= n <= |c| && forall j :: r <= j < n ==> c[j] <= j + 1
    decreases n - r
  {
    if r == n then 0 else HighRank(c, n, r + 1) + Digit(r + 1 - c[r], Factorial(r))
  }

  lemma {:induction false} RankSplits(c: seq<nat>, n: nat, r: nat)
    requires Wheels(c, n, 1) && 1 <= r <= n
    ensures Rank(c, n) == HighRank(c, n, r) + Rank(c, r)
    decreases n - r
  {
    if r < n {
      RankSplits(c, n, r + 1);
    }
  }

  lemma {:induction false} RankBound(c: seq<nat>, n: nat, m: nat)
    requires Wheels(c, n, 1) && 1 <= m <= n
    ensures Rank(c, m) < Factorial(m)
  {
    if m == 1 {
      assert Factorial(1) == 1 * Factorial(0);
    } else {
      RankBound(c, n, m - 1);
      MulMonotone(m - c[m - 1], m - 1, Factorial(m - 1));
      FactorialStep(m);
    }
  }

  lemma FactorialStep(m: nat)
    requires m > 0
    ensures Factorial(m) == Digit(m - 1, Factorial(m - 1)) + Factorial(m - 1)
  {
    assert m * Factorial(m - 1) == (m - 1) * Factorial(m - 1) + Factorial(m - 1);
  }

  lemma MulMonotone(a: nat, b: nat, f: nat)
    requires a <= b
    ensures Digit(a, f) <= Digit(b, f)
  {
  }

  lemma DigitIsDetermined(a: nat, b: nat, f: nat, x: nat, y: nat)
    requires x < f && y < f && Digit(a, f) + x == Digit(b, f) + y
    ensures a == b && x == y
  {
    if a < b {
      MulMonotone(a + 1, b, f);
    } else if b < a {
      MulMonotone(b + 1, a, f);
    }
  }

  lemma {:induction false} RankIsInjective(c: seq<nat>, d: seq<nat>, n: nat, m: nat)
    requires Wheels(c, n, 1) && Wheels(d, n, 1) && 1 <= m <= n
    requires Rank(c, m) == Rank(d, m)
    ensures SameWheels(c, d, 1, m)
  {
    if m > 1 {
      RankBound(c, n, m - 1);
      RankBound(d, n, m - 1);
      DigitIsDetermined(m - c[m - 1], m - d[m - 1], Factorial(m - 1), Rank(c, m - 1), Rank(d, m - 1));
      RankIsInjective(c, d, n, m - 1);
    }
  }

  // ---------- a complete enumeration ----------

  /** codes lists wheel positions in rank order, without gaps from 0, and shown what they display. */
  ghost predicate Enumerates(n: nat, codes: seq<seq<nat>>, shown: seq<Perm>)
    requires n > 0
  {
    && |codes| == |shown|
    && forall k :: 0 <= k < |codes| ==>
         Wheels(codes[k], n, 1) && Rank(codes[k], n) == k && shown[k] == Turned(codes[k], n, 1)
  }

  lemma EnumerationIsInjective(n: nat, codes: seq<seq<nat>>, shown: seq<Perm>, i: nat, j: nat)
    requires n > 0 && Enumerates(n, codes, shown) && i < j < |shown|
    ensures shown[i] != shown[j]
  {
    if shown[i] == shown[j] {
      TurnedIsInjective(codes[i], codes[j], n, 1);
      SameWheelsSameRank(codes[i], codes[j], n, n);
    }
  }

  lemma {:induction false} SameWheelsSameRank(c: seq<nat>, d: seq<nat>, n: nat, m: nat)
    requires Wheels(c, n, 1) && Wheels(d, n, 1) && 1 <= m <= n && SameWheels(c, d, 1, n)
    ensures Rank(c, m) == Rank(d, m)
  {
    if m > 1 {
      SameWheelsSameRank(c, d, n, m - 1);
    }
  }

  lemma EnumerationIsComplete(n: nat, codes: seq<seq<nat>>, shown: seq<Perm>, q: Perm)
    requires n > 0 && Enumerates(n, codes, shown) && |shown| == Factorial(n)
    requires |q| == n && IsPerm(q)
    ensures q in shown
  {
    var c := TurnedIsSurjective(q);
    RankBound(c, n, n);
    var k := Rank(c, n);
    assert Rank(codes[k], n) == k;
    RankIsInjective(c, codes[k], n, n);
    TurnedDependsOnHighWheels(c, codes[k], n, 1);
    assert shown[k] == q;
  }
}
