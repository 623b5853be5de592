/** Trial division: prime factorisation and the list of all divisors. */
module Factorization {

  predicate Divides(d: nat, n: int)
    requires d > 0
  {
    n % d == 0
  }

  ghost predicate IsPrime(p: nat) {
    p >= 2 && forall m: nat :: 2 <= m < p ==> !Divides(m, p)
  }

  function Power(b: nat, e: nat): nat {
    if e == 0 then 1 else b * Power(b, e - 1)
  }

  // ---------- division lemmas ----------

  lemma DividesMultiple(d: nat, k: nat)
    requires d > 0
    ensures Divides(d, d * k) && (d * k) / d == k
  {
  }

  lemma DivideOut(d: nat, n: nat)
    requires d > 0 && Divides(d, n)
    ensures n == d * (n / d) && (d >= 2 && n > 0 ==> 0 < n / d < n)
  {
  }

  lemma DividesProduct(m: nat, d: nat, k: nat)
    requires m > 0 && Divides(m, k)
    ensures Divides(m, d * k)
  {
    DivideOut(m, k);
    assert d * k == m * (d * (k / m));
    DividesMultiple(m, d * (k / m));
  }

  lemma DividesTransitive(a: nat, b: nat, c: nat)
    requires a > 0 && b > 0 && Divides(a, b) && Divides(b, c)
    ensures Divides(a, c)
  {
    DivideOut(b, c);
    DividesProduct(a, c / b, b);
    assert c == (c / b) * b;
  }

  lemma DivisorBound(d: nat, n: nat)
    requires d > 0 && n > 0 && Divides(d, n)
    ensures d <= n
  {
    DivideOut(d, n);
  }

  // ---------- numbers without small divisors ----------

  /** No number from 2 to d - 1 divides n. */
  ghost predicate NoDivisorBelow(n: nat, d: nat) {
    forall m: nat :: 2 <= m < d ==> !Divides(m, n)
  }

  lemma SmallestDivisorIsPrime(n: nat, d: nat)
    requires d >= 2 && n > 0 && NoDivisorBelow(n, d) && Divides(d, n)
    ensures IsPrime(d)
  {
    forall m: nat | 2 <= m < d ensures !Divides(m, d) {
      if Divides(m, d) {
        DividesTransitive(m, d, n);
      }
    }
  }

  lemma ProductMonotone(a: nat, b: nat, c: nat, d: nat)
    requires a <= c && b <= d
    ensures a * b <= c * d
  {
    assert a * b <= a * d <= c * d;
  }

  /** A divisor at or beyond the square root has a cofactor below it. */
  lemma SmallCofactor(n: nat, m: nat, d: nat) returns (k: nat)
    requires 2 <= m < n && d <= m && d * d > n && Divides(m, n)
    ensures 2 <= k < d && Divides(k, n)
  {
    hide Divides;
    k := n / m;
    DivideOut(m, n);
    CofactorBounds(n, m, d, k);
    DividesMultiple(k, m);
  }

  lemma CofactorBounds(n: nat, m: nat, d: nat, k: nat)
    requires m < n && d <= m && d * d > n && n == m * k
    ensures 2 <= k < d
  {
    if k <= 1 {
      ProductMonotone(m, k, m, 1);
    }
    if k >= d {
      ProductMonotone(d, d, m, k);
    }
  }

  /** Once d * d exceeds n, no proper divisor remains. */
  lemma NoDivisorUpToRoot(n: nat, d: nat)
    requires n >= 1 && d * d > n && NoDivisorBelow(n, d)
    ensures NoDivisorBelow(n, n)
  {
    forall m: nat | 2 <= m < n ensures !Divides(m, n) {
      if Divides(m, n) && m >= d {
        var k := SmallCofactor(n, m, d);
      }
    }
  }

  /** The number itself is among its divisors, so it is no smaller than what has been tried. */
  lemma TriedAtMost(n: nat, d: nat)
    requires n >= 2 && NoDivisorBelow(n, d)
    ensures d <= n
  {
    DividesMultiple(n, 1);
    assert Divides(n, n);
  }

  // ---------- products of prime powers ----------

  lemma {:induction false} FindGreatest(s: set<nat>) returns (g: nat)
    requires s != {}
    ensures g in s && forall x :: x in s ==> x <= g
    decreases s
  {
    g :| g in s;
    var rest := s - {g};
    if rest != {} {
      var h := FindGreatest(rest);
      if h > g {
        g := h;
      }
    }
    forall x | x in s ensures x <= g {
      if x !in rest {
      }
    }
  }

  lemma GreatestExists(s: set<nat>)
    requires s != {}
    ensures exists g :: g in s && forall x :: x in s ==> x <= g
  {
    var g := FindGreatest(s);
  }

  ghost function Greatest(s: set<nat>): (g: nat)
    requires s != {}
    ensures g in s && forall x :: x in s ==> x <= g
  {
    GreatestExists(s);
    var g :| g in s && forall x :: x in s ==> x <= g;
    g
  }

  /** The product of key^value over a map. */
  ghost function Product(m: map<nat, nat>): nat
    decreases |m|
  {
    if m == map[] then 1
    else
      var k := Greatest(m.Keys);
      Power(k, m[k]) * Product(m - {k})
  }

  lemma ProductGrows(m: map<nat, nat>, k: nat, e: nat)
    requires forall x :: x in m ==> x < k
    ensures Product(m[k := e]) == Power(k, e) * Product(m)
  {
    var m' := m[k := e];
    assert k in m';
    assert Greatest(m'.Keys) == k;
    assert m' - {k} == m;
  }

  /** Any factor, not just the one with the greatest key, can be split off. */
  lemma {:induction false} ProductSplits(m: map<nat, nat>, k: nat)
    requires k in m
    ensures Product(m) == Power(k, m[k]) * Product(m - {k})
    decreases |m|
  {
    hide Power, Greatest;
    var g := Greatest(m.Keys);
    if k != g {
      var rest := m - {g};
      ProductSplits(rest, k);
      var less := m - {k};
      assert g in less.Keys && Greatest(less.Keys) in m.Keys;
      assert less - {g} == rest - {k};
      Shuffle(Power(g, m[g]), Power(k, m[k]), Product(rest - {k}));
    }
  }

  lemma Shuffle(a: nat, b: nat, c: nat)
    ensures a * (b * c) == b * (a * c)
  {
  }

  // ---------- prime factorisations ----------

  /** m writes n as a product of prime powers. */
  ghost predicate IsFactorization(m: map<nat, nat>, n: nat) {
    && (forall p :: p in m ==> IsPrime(p) && m[p] > 0)
    && Product(m) == n
  }

  lemma DividesSum(d: nat, a: nat, b: nat)
    requires d > 0 && Divides(d, a + b) && Divides(d, a)
    ensures Divides(d, b)
  {
    DivideOut(d, a + b);
    DivideOut(d, a);
    var x, y := (a + b) / d, a / d;
    assert b == d * x - d * y == d * (x - y);
    if x < y {
      StrictlyMonotone(d, x, y);
    }
    DividesMultiple(d, x - y);
  }

  lemma StrictlyMonotone(q: nat, a: nat, b: nat)
    requires q > 0 && a < b
    ensures q * a < q * b
  {
  }

  lemma ReduceByPrime(p: nat, a: nat, b: nat)
    requires 0 < p <= a && Divides(p, a * b)
    ensures Divides(p, (a - p) * b)
  {
    DividesMultiple(p, b);
    assert a * b == p * b + (a - p) * b;
    DividesSum(p, p * b, (a - p) * b);
  }

  lemma ReduceByFactor(p: nat, a: nat, b: nat)
    requires 0 < a <= p && Divides(p, a * b)
    ensures Divides(p, (p % a) * b)
  {
    var q, s := p / a, p % a;
    DividesProduct(p, q, a * b);
    DividesMultiple(p, b);
    SplitProduct(p, q, a, s, b);
    DividesSum(p, q * (a * b), s * b);
  }

  lemma SplitProduct(p: nat, q: nat, a: nat, s: nat, b: nat)
    requires p == q * a + s
    ensures p * b == q * (a * b) + s * b
  {
  }

  /** Euclid's lemma. */
  lemma {:induction false} PrimeDividesFactor(p: nat, a: nat, b: nat)
    requires IsPrime(p) && Divides(p, a * b)
    ensures Divides(p, a) || Divides(p, b)
    decreases a
  {
    if a >= p {
      ReduceByPrime(p, a, b);
      PrimeDividesFactor(p, a - p, b);
      if Divides(p, a - p) {
        Wrap(p, a);
      }
    } else if a >= 2 {
      assert !Divides(a, p);
      ReduceByFactor(p, a, b);
      PrimeDividesFactor(p, p % a, b);
      SmallIsNotMultiple(p, p % a);
    } else if a == 0 {
      DividesMultiple(p, 0);
    }
  }

  lemma Wrap(p: nat, a: nat)
    requires p > 0 && a >= p && Divides(p, a - p)
    ensures Divides(p, a)
  {
    DivideOut(p, a - p);
    var k := (a - p) / p;
    assert a == p * (k + 1);
    DividesMultiple(p, k + 1);
  }

  lemma SmallIsNotMultiple(p: nat, s: nat)
    requires 0 < s < p
    ensures !Divides(p, s)
  {
  }

  lemma {:induction false} PrimeDividesPower(p: nat, q: nat, e: nat)
    requires IsPrime(p) && IsPrime(q) && Divides(p, Power(q, e))
    ensures p == q
  {
    if e == 0 {
      SmallIsNotMultiple(p, 1);
    } else {
      PrimeDividesFactor(p, q, Power(q, e - 1));
      if Divides(p, q) {
        DivisorBound(p, q);
      } else {
        PrimeDividesPower(p, q, e - 1);
      }
    }
  }

  lemma {:induction false} PrimeDividesProduct(m: map<nat, nat>, n: nat, p: nat)
    requires IsFactorization(m, n) && IsPrime(p) && Divides(p, n)
    ensures p in m
    decreases |m|
  {
    if m == map[] {
      SmallIsNotMultiple(p, 1);
    } else {
      var k := Greatest(m.Keys);
      PrimeDividesFactor(p, Power(k, m[k]), Product(m - {k}));
      if Divides(p, Power(k, m[k])) {
        PrimeDividesPower(p, k, m[k]);
      } else {
        PrimeDividesProduct(m - {k}, Product(m - {k}), p);
      }
    }
  }

  lemma {:induction false} PowerPositive(b: nat, e: nat)
    requires b > 0
    ensures Power(b, e) > 0
  {
    if e > 0 {
      PowerPositive(b, e - 1);
    }
  }

  lemma FirstFactor(p: nat, q: nat, rest: nat)
    requires p > 0
    ensures Divides(p, (p * q) * rest)
  {
    assert (p * q) * rest == p * (q * rest);
    DividesMultiple(p, q * rest);
  }

  lemma KeyDivides(m: map<nat, nat>, n: nat, p: nat)
    requires IsFactorization(m, n) && p in m
    ensures n == Power(p, m[p]) * Product(m - {p}) && Power(p, m[p]) > 0 && Divides(Power(p, m[p]), n)
    ensures Divides(p, n)
  {
    ProductSplits(m, p);
    PowerPositive(p, m[p]);
    DividesMultiple(Power(p, m[p]), Product(m - {p}));
    FirstFactor(p, Power(p, m[p] - 1), Product(m - {p}));
  }

  lemma NextPowerDoesNotDivide(m: map<nat, nat>, n: nat, p: nat)
    requires IsFactorization(m, n) && p in m
    ensures Power(p, m[p] + 1) > 0 && !Divides(Power(p, m[p] + 1), n)
  {
    KeyDivides(m, n, p);
    PowerPositive(p, m[p] + 1);
    var rest := m - {p};
    if Divides(Power(p, m[p] + 1), n) {
      ExtraFactor(p, Power(p, m[p]), Product(rest));
      PrimeDividesProduct(rest, Product(rest), p);
    }
  }

  /** The keys of a factorisation are exactly the prime divisors, and each value is the exact multiplicity. */
  lemma FactorizationIsExact(m: map<nat, nat>, n: nat, p: nat)
    requires IsFactorization(m, n)
    ensures p in m <==> IsPrime(p) && Divides(p, n)
    ensures p in m ==> Power(p, m[p]) > 0 && Divides(Power(p, m[p]), n)
    ensures p in m ==> Power(p, m[p] + 1) > 0 && !Divides(Power(p, m[p] + 1), n)
  {
    if p in m {
      KeyDivides(m, n, p);
      NextPowerDoesNotDivide(m, n, p);
    } else if IsPrime(p) && Divides(p, n) {
      PrimeDividesProduct(m, n, p);
    }
  }

  lemma ExtraFactor(p: nat, q: nat, rest: nat)
    requires p > 0 && q > 0 && Divides(p * q, q * rest)
    ensures Divides(p, rest)
  {
    var c := (q * rest) / (p * q);
    DivideOut(p * q, q * rest);
    assert q * rest == q * (p * c);
    Cancel(q, rest, p * c);
    DividesMultiple(p, c);
  }

  lemma Cancel(q: nat, a: nat, b: nat)
    requires q > 0 && q * a == q * b
    ensures a == b
  {
    if a < b {
      StrictlyMonotone(q, a, b);
    } else if b < a {
      StrictlyMonotone(q, b, a);
    }
  }

  /** Power of p in n, given that some power e divides n and the next does not. */
  lemma MultiplicityIsUnique(p: nat, n: nat, e: nat, f: nat)
    requires p > 0 && Power(p, e) > 0 && Power(p, f) > 0 && Power(p, e + 1) > 0 && Power(p, f + 1) > 0
    requires Divides(Power(p, e), n) && !Divides(Power(p, e + 1), n)
    requires Divides(Power(p, f), n) && !Divides(Power(p, f + 1), n)
    ensures e == f
  {
    if e < f {
      PowerDividesPower(p, e + 1, f);
      DividesTransitive(Power(p, e + 1), Power(p, f), n);
    } else if f < e {
      PowerDividesPower(p, f + 1, e);
      DividesTransitive(Power(p, f + 1), Power(p, e), n);
    }
  }

  lemma {:induction false} PowerDividesPower(p: nat, e: nat, f: nat)
    requires p > 0 && e <= f && Power(p, e) > 0
    ensures Divides(Power(p, e), Power(p, f))
    decreases f
  {
    if e == f {
      DividesMultiple(Power(p, e), 1);
    } else {
      PowerDividesPower(p, e, f - 1);
      DividesProduct(Power(p, e), p, Power(p, f - 1));
    }
  }

  /** A number has only one prime factorisation. */
  lemma FactorizationIsUnique(a: map<nat, nat>, b: map<nat, nat>, n: nat)
    requires IsFactorization(a, n) && IsFactorization(b, n)
    ensures a == b
  {
    forall p: nat ensures p in a <==> p in b {
      FactorizationIsExact(a, n, p);
      FactorizationIsExact(b, n, p);
    }
    forall p | p in a ensures a[p] == b[p] {
      FactorizationIsExact(a, n, p);
      FactorizationIsExact(b, n, p);
      MultiplicityIsUnique(p, n, a[p], b[p]);
    }
  }

  // ---------- the programs ----------

  lemma DivideStep(d: nat, e: nat, n: nat, m: nat)
    requires d >= 2 && n >= 1 && Divides(d, n) && m == Power(d, e) * n
    ensures m == Power(d, e + 1) * (n / d) && 1 <= n / d < n
  {
    DivideOut(d, n);
    assert Power(d, e) * (d * (n / d)) == (d * Power(d, e)) * (n / d);
  }

  lemma DivideKeepsNoDivisor(d: nat, n: nat)
    requires d >= 2 && n >= 1 && Divides(d, n) && NoDivisorBelow(n, d)
    ensures NoDivisorBelow(n / d, d)
  {
    DivideOut(d, n);
    forall m: nat | 2 <= m < d ensures !Divides(m, n / d) {
      if Divides(m, n / d) {
        DividesProduct(m, d, n / d);
      }
    }
  }

  method Factorize(number: int) returns (factors: map<nat, nat>)
    ensures number < 1 ==> factors == map[]
    ensures number >= 1 ==> IsFactorization(factors, number)
  {
    factors := map[];
    if number < 1 {
      return;
    }
    var n: nat := number;
    var d: nat := 2;
    while n > 1
      invariant n >= 1 && (n > 1 ==> 2 <= d <= n && NoDivisorBelow(n, d))
      invariant forall p :: p in factors ==> IsPrime(p) && factors[p] > 0 && (n > 1 ==> p < d)
      invariant number == Product(factors) * n
      decreases n, n - d
    {
      var power: nat := 0;
      ghost var before := n;
      while n % d == 0
        invariant 1 <= n <= before && before == Power(d, power) * n && NoDivisorBelow(n, d)
        invariant power > 0 ==> n < before && IsPrime(d)
        decreases n
      {
        SmallestDivisorIsPrime(n, d);
        DivideStep(d, power, n, before);
        DivideKeepsNoDivisor(d, n);
        power := power + 1;
        n := n / d;
      }
      if power > 0 {
        ProductGrows(factors, d, power);
        Regroup(Product(factors), Power(d, power), n);
        factors := factors[d := power];
      }
      d := d + 1;
      if d * d > n {
        if n > 1 {
          NoDivisorUpToRoot(n, d);
          TriedAtMost(n, d);
        }
        d := n;
      } else {
        SquareBound(d, n);
      }
    }
  }

  lemma Regroup(a: nat, b: nat, c: nat)
    ensures a * (b * c) == (b * a) * c
  {
  }

  lemma SquareBound(d: nat, n: nat)
    requires d * d <= n
    ensures d <= n
  {
    if d >= 1 {
      ProductMonotone(d, 1, d, d);
    }
  }
}
