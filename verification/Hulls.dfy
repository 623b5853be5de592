/** Exact interval arithmetic over the extended reals: each operation's bounds are the tightest
    ones that enclose the set of exact results. */
module Hulls {
  import opened Floats

  datatype Interval = Interval(lo: Float, hi: Float)

  ghost predicate Numeric(i: Interval) {
    !i.lo.NaN? && !i.hi.NaN?
  }

  ghost predicate Contains(i: Interval, x: real) {
    Le(i.lo, Fin(x)) && Le(Fin(x), i.hi)
  }

  ghost predicate NonEmpty(i: Interval) {
    exists x: real :: Contains(i, x)
  }

  ghost predicate Encloses(i: Interval, s: iset<real>) {
    forall z :: z in s ==> Contains(i, z)
  }

  ghost predicate Within(i: Interval, j: Interval) {
    Le(j.lo, i.lo) && Le(i.hi, j.hi)
  }

  /** h is the smallest interval with extended real bounds around s. */
  ghost predicate IsHull(h: Interval, s: iset<real>) {
    Encloses(h, s) && forall j: Interval :: Numeric(j) && Encloses(j, s) ==> Within(h, j)
  }

  ghost function Sums(a: Interval, b: Interval): iset<real> {
    iset x: real, y: real | Contains(a, x) && Contains(b, y) :: x + y
  }

  ghost function Differences(a: Interval, b: Interval): iset<real> {
    iset x: real, y: real | Contains(a, x) && Contains(b, y) :: x - y
  }

  ghost function Products(a: Interval, b: Interval): iset<real> {
    iset x: real, y: real | Contains(a, x) && Contains(b, y) :: x * y
  }

  ghost function Quotients(a: Interval, b: Interval): iset<real> {
    iset x: real, y: real | Contains(a, x) && Contains(b, y) && y != 0.0 :: x / y
  }

  // ---------- bounds ----------

  function OrBottom(a: Float): Float {
    if a.NaN? then NegInf else a
  }

  function OrTop(a: Float): Float {
    if a.NaN? then PosInf else a
  }

  function AddHull(a: Interval, b: Interval): Interval {
    Interval(OrBottom(ExactAdd(a.lo, b.lo)), OrTop(ExactAdd(a.hi, b.hi)))
  }

  function SubHull(a: Interval, b: Interval): Interval {
    Interval(OrBottom(ExactAdd(a.lo, Neg(b.hi))), OrTop(ExactAdd(a.hi, Neg(b.lo))))
  }

  function Min4(a: Float, b: Float, c: Float, d: Float): Float {
    FMin(FMin(a, b), FMin(c, d))
  }

  function Max4(a: Float, b: Float, c: Float, d: Float): Float {
    FMax(FMax(a, b), FMax(c, d))
  }

  function MulHull(a: Interval, b: Interval): Interval {
    var ll, lh, hl, hh := ExactMulZ(a.lo, b.lo), ExactMulZ(a.lo, b.hi), ExactMulZ(a.hi, b.lo), ExactMulZ(a.hi, b.hi);
    Interval(Min4(ll, hh, lh, hl), Max4(ll, hh, lh, hl))
  }

  function DivHull(a: Interval, b: Interval): Interval
    requires !IsZero(b.lo) && !IsZero(b.hi)
  {
    var ll, lh, hl, hh := ExactDivZ(a.lo, b.lo), ExactDivZ(a.lo, b.hi), ExactDivZ(a.hi, b.lo), ExactDivZ(a.hi, b.hi);
    Interval(Min4(ll, hh, lh, hl), Max4(ll, hh, lh, hl))
  }

  // ---------- points far out in an unbounded interval ----------

  /** c is a bound of i. */
  ghost predicate IsBound(i: Interval, c: Float) {
    c == i.lo || c == i.hi
  }

  /** A member of i that equals the bound c, or lies beyond m in its direction. */
  ghost predicate Approaches(i: Interval, c: Float, m: real, x: real) {
    && Contains(i, x)
    && (c.Fin? ==> x == c.x)
    && (c.PosInf? ==> x >= m)
    && (c.NegInf? ==> x <= -m)
  }

  lemma Approach(i: Interval, c: Float, m: real) returns (x: real)
    requires Numeric(i) && NonEmpty(i) && IsBound(i, c)
    ensures Approaches(i, c, m, x)
  {
    var x0: real :| Contains(i, x0);
    x := match c
      case Fin(v) => v
      case PosInf => if x0 < m then m else x0
      case NegInf => if -m < x0 then -m else x0
      case NaN => x0;
  }

  // ---------- sums and differences ----------

  lemma AddHullIsHull(a: Interval, b: Interval)
    requires Numeric(a) && Numeric(b)
    ensures Encloses(AddHull(a, b), Sums(a, b))
    ensures NonEmpty(a) && NonEmpty(b) ==> IsHull(AddHull(a, b), Sums(a, b))
  {
    if NonEmpty(a) && NonEmpty(b) {
      var h := AddHull(a, b);
      forall j: Interval | Numeric(j) && Encloses(j, Sums(a, b)) ensures Within(h, j) {
        AddBoundIsTight(a, b, a.lo, b.lo, j);
        AddBoundIsTight(a, b, a.hi, b.hi, j);
      }
    }
  }

  lemma AddBoundIsTight(a: Interval, b: Interval, c: Float, d: Float, j: Interval)
    requires Numeric(a) && Numeric(b) && Numeric(j) && NonEmpty(a) && NonEmpty(b)
    requires (c == a.lo && d == b.lo) || (c == a.hi && d == b.hi)
    requires Encloses(j, Sums(a, b))
    ensures Le(j.lo, ExactAdd(c, d)) && Le(ExactAdd(c, d), j.hi)
  {
    var m := (if j.lo.Fin? then Abs(j.lo.x) else 0.0) + (if j.hi.Fin? then Abs(j.hi.x) else 0.0)
           + (if c.Fin? then Abs(c.x) else 0.0) + (if d.Fin? then Abs(d.x) else 0.0) + 1.0;
    var x := Approach(a, c, m);
    var y := Approach(b, d, m);
    assert x + y in Sums(a, b);
  }

  function Abs(x: real): real {
    if x < 0.0 then -x else x
  }

  ghost function Opposite(b: Interval): Interval {
    Interval(Neg(b.hi), Neg(b.lo))
  }

  lemma SubIsAddOpposite(a: Interval, b: Interval)
    ensures Differences(a, b) == Sums(a, Opposite(b)) && SubHull(a, b) == AddHull(a, Opposite(b))
    ensures NonEmpty(b) <==> NonEmpty(Opposite(b))
  {
    forall y: real ensures Contains(b, y) == Contains(Opposite(b), -y) {
      NegReverses(b.lo, Fin(y));
      NegReverses(Fin(y), b.hi);
    }
    forall z: real ensures z in Differences(a, b) <==> z in Sums(a, Opposite(b)) {
      if z in Differences(a, b) {
        var x: real, y: real :| Contains(a, x) && Contains(b, y) && z == x - y;
        assert Contains(Opposite(b), -y) && z == x + (-y);
      }
      if z in Sums(a, Opposite(b)) {
        var x: real, y: real :| Contains(a, x) && Contains(Opposite(b), y) && z == x + y;
        assert y == -(-y);
        assert Contains(b, -y) && z == x - (-y);
      }
    }
    if NonEmpty(b) {
      var y: real :| Contains(b, y);
      assert Contains(Opposite(b), -y);
    }
    if NonEmpty(Opposite(b)) {
      var y: real :| Contains(Opposite(b), y);
      assert y == -(-y);
      assert Contains(b, -y);
    }
  }

  lemma SubHullIsHull(a: Interval, b: Interval)
    requires Numeric(a) && Numeric(b)
    ensures Encloses(SubHull(a, b), Differences(a, b))
    ensures NonEmpty(a) && NonEmpty(b) ==> IsHull(SubHull(a, b), Differences(a, b))
  {
    SubIsAddOpposite(a, b);
    AddHullIsHull(a, Opposite(b));
  }

  // ---------- products ----------

  lemma MonotoneProduct(l: real, h: real, y: real)
    requires l <= h
    ensures y >= 0.0 ==> l * y <= h * y
    ensures y <= 0.0 ==> h * y <= l * y
  {
  }

  lemma FiniteFactorsMonotone(l: real, h: real, y: real)
    requires l <= h
    ensures y >= 0.0 ==> Le(ExactMulZ(Fin(l), Fin(y)), ExactMulZ(Fin(h), Fin(y)))
    ensures y <= 0.0 ==> Le(ExactMulZ(Fin(h), Fin(y)), ExactMulZ(Fin(l), Fin(y)))
  {
    hide ExactMulZ;
    MonotoneProduct(l, h, y);
    FiniteProduct(l, y);
    FiniteProduct(h, y);
  }

  /** Multiplying by a finite factor keeps or reverses the order. */
  lemma FiniteFactorMonotone(l: Float, h: Float, y: real)
    requires Le(l, h)
    ensures y >= 0.0 ==> Le(ExactMulZ(l, Fin(y)), ExactMulZ(h, Fin(y)))
    ensures y <= 0.0 ==> Le(ExactMulZ(h, Fin(y)), ExactMulZ(l, Fin(y)))
  {
    if l.Fin? && h.Fin? {
      FiniteFactorsMonotone(l.x, h.x, y);
    }
  }

  /** Between two factors, the product lies between their products. */
  lemma ProductBetween(l: Float, x: Float, h: Float, y: Float)
    requires Le(l, x) && Le(x, h) && !y.NaN?
    ensures Le(FMin(ExactMulZ(l, y), ExactMulZ(h, y)), ExactMulZ(x, y))
    ensures Le(ExactMulZ(x, y), FMax(ExactMulZ(l, y), ExactMulZ(h, y)))
  {
    var p, q := ExactMulZ(l, y), ExactMulZ(h, y);
    assert !p.NaN? && !q.NaN?;
    MinMaxOf2(p, q);
    if y.Fin? {
      FiniteFactorMonotone(l, x, y.x);
      FiniteFactorMonotone(x, h, y.x);
      if y.x >= 0.0 {
        LeTransitive(FMin(p, q), p, ExactMulZ(x, y));
        LeTransitive(ExactMulZ(x, y), q, FMax(p, q));
      } else {
        LeTransitive(FMin(p, q), q, ExactMulZ(x, y));
        LeTransitive(ExactMulZ(x, y), p, FMax(p, q));
      }
    }
  }

  lemma MinMaxOf2(a: Float, b: Float)
    requires !a.NaN? && !b.NaN?
    ensures Le(FMin(a, b), a) && Le(FMin(a, b), b) && Le(a, FMax(a, b)) && Le(b, FMax(a, b))
    ensures FMin(a, b) in {a, b} && FMax(a, b) in {a, b}
  {
  }

  lemma MulCommutes(a: Float, b: Float)
    ensures ExactMulZ(a, b) == ExactMulZ(b, a)
  {
  }

  lemma MinMaxFacts(a: Float, b: Float, c: Float, d: Float)
    requires !a.NaN? && !b.NaN? && !c.NaN? && !d.NaN?
    ensures Min4(a, b, c, d) in {a, b, c, d} && Max4(a, b, c, d) in {a, b, c, d}
    ensures forall v :: v in {a, b, c, d} ==> Le(Min4(a, b, c, d), v) && Le(v, Max4(a, b, c, d))
  {
  }

  lemma CornerBetween(a: Interval, b: Interval, c: Float, d: Float)
    requires Numeric(a) && Numeric(b) && IsBound(a, c) && IsBound(b, d)
    ensures Le(MulHull(a, b).lo, ExactMulZ(c, d)) && Le(ExactMulZ(c, d), MulHull(a, b).hi)
  {
    MinMaxFacts(ExactMulZ(a.lo, b.lo), ExactMulZ(a.hi, b.hi), ExactMulZ(a.lo, b.hi), ExactMulZ(a.hi, b.lo));
  }

  lemma BetweenTwo(h: Interval, p: Float, v: Float, q: Float)
    requires Le(h.lo, p) && Le(h.lo, q) && Le(p, h.hi) && Le(q, h.hi)
    requires Le(FMin(p, q), v) && Le(v, FMax(p, q))
    ensures Le(h.lo, v) && Le(v, h.hi)
  {
  }

  lemma EdgeBetween(a: Interval, b: Interval, c: Float, y: real)
    requires Numeric(a) && Numeric(b) && IsBound(a, c) && Contains(b, y)
    ensures Le(MulHull(a, b).lo, ExactMulZ(c, Fin(y))) && Le(ExactMulZ(c, Fin(y)), MulHull(a, b).hi)
  {
    CornerBetween(a, b, c, b.lo);
    CornerBetween(a, b, c, b.hi);
    ProductBetween(b.lo, Fin(y), b.hi, c);
    MulCommutes(c, b.lo);
    MulCommutes(c, b.hi);
    MulCommutes(c, Fin(y));
    BetweenTwo(MulHull(a, b), ExactMulZ(b.lo, c), ExactMulZ(Fin(y), c), ExactMulZ(b.hi, c));
  }

  lemma MulEncloses(a: Interval, b: Interval, x: real, y: real)
    requires Numeric(a) && Numeric(b) && Contains(a, x) && Contains(b, y)
    ensures Contains(MulHull(a, b), x * y)
  {
    EdgeBetween(a, b, a.lo, y);
    EdgeBetween(a, b, a.hi, y);
    ProductBetween(a.lo, Fin(x), a.hi, Fin(y));
    BetweenTwo(MulHull(a, b), ExactMulZ(a.lo, Fin(y)), ExactMulZ(Fin(x), Fin(y)), ExactMulZ(a.hi, Fin(y)));
    FiniteProduct(x, y);
  }

  lemma FiniteProduct(x: real, y: real)
    ensures ExactMulZ(Fin(x), Fin(y)) == Fin(x * y)
  {
  }

  lemma ProductEnclosed(a: Interval, b: Interval, j: Interval, x: real, y: real)
    requires Contains(a, x) && Contains(b, y) && Encloses(j, Products(a, b))
    ensures Contains(j, x * y)
  {
  }

  /** Far out in the direction of an infinite bound, the product passes any given u. */
  lemma FarProduct(x: real, y: real, k: real, u: real)
    requires u >= 0.0 && k > 0.0 && Abs(y) >= k && Abs(x) * k > u
    ensures (x > 0.0) == (y > 0.0) ==> x * y > u
    ensures (x > 0.0) != (y > 0.0) ==> x * y < -u
  {
    MonotoneProduct(k, Abs(y), Abs(x));
    assert Abs(x) * Abs(y) > u;
    assert Abs(x) * Abs(y) == x * y || Abs(x) * Abs(y) == -(x * y);
    SignOfProduct(x, y);
  }

  lemma SignOfProduct(x: real, y: real)
    requires x != 0.0 && y != 0.0
    ensures x * y > 0.0 <==> (x > 0.0) == (y > 0.0)
  {
  }

  /** Larger than the absolute value of every finite bound of j. */
  function Beyond(j: Interval): real {
    (if j.lo.Fin? then Abs(j.lo.x) else 0.0) + (if j.hi.Fin? then Abs(j.hi.x) else 0.0)
  }

  /** Past u on the side of the infinite value v. */
  ghost predicate FarTowards(v: Float, u: real, z: real) {
    (v.PosInf? && z > u) || (v.NegInf? && z < -u)
  }

  lemma FarMemberForcesBound(j: Interval, v: Float, z: real)
    requires Numeric(j) && Contains(j, z) && FarTowards(v, Beyond(j), z)
    ensures Le(j.lo, v) && Le(v, j.hi)
  {
  }

  /** An infinite bound times a finite non-zero one. */
  lemma HalfInfiniteCorner(a: Interval, b: Interval, c: Float, d: Float, u: real) returns (x: real, y: real)
    requires Numeric(a) && Numeric(b) && NonEmpty(a) && NonEmpty(b) && u >= 0.0
    requires IsBound(a, c) && IsBound(b, d) && !c.Fin? && d.Fin? && !IsZero(d)
    ensures Contains(a, x) && Contains(b, y) && FarTowards(ExactMulZ(c, d), u, x * y)
  {
    y := d.x;
    var m := Far(Abs(y), u);
    x := Approach(a, c, m);
    MonotoneProduct(m, Abs(x), Abs(y));
    FarProduct(x, y, Abs(y), u);
  }

  lemma InfiniteCorner(a: Interval, b: Interval, c: Float, d: Float, u: real) returns (x: real, y: real)
    requires Numeric(a) && Numeric(b) && NonEmpty(a) && NonEmpty(b)
    requires IsBound(a, c) && IsBound(b, d) && !c.Fin? && !d.Fin? && u >= 0.0
    ensures Contains(a, x) && Contains(b, y) && FarTowards(ExactMulZ(c, d), u, x * y)
  {
    x := Approach(a, c, u + 1.0);
    y := Approach(b, d, 1.0);
    FarProduct(x, y, 1.0, u);
  }

  lemma FiniteCorner(a: Interval, b: Interval, c: Float, d: Float) returns (x: real, y: real)
    requires Numeric(a) && Numeric(b) && NonEmpty(a) && NonEmpty(b) && IsBound(a, c) && IsBound(b, d)
    requires IsZero(c) || IsZero(d) || (c.Fin? && d.Fin?)
    ensures Contains(a, x) && Contains(b, y) && ExactMulZ(c, d) == Fin(x * y)
  {
    x := Approach(a, c, 1.0);
    y := Approach(b, d, 1.0);
    if IsZero(c) || IsZero(d) {
      assert x * y == 0.0;
    } else {
      assert c == Fin(x) && d == Fin(y);
    }
  }

  /** j reaches as far as the corner product c times d. */
  ghost predicate Reaches(j: Interval, c: Float, d: Float) {
    Le(j.lo, ExactMulZ(c, d)) && Le(ExactMulZ(c, d), j.hi)
  }

  lemma FiniteCornerIsTight(a: Interval, b: Interval, c: Float, d: Float, j: Interval)
    requires Numeric(a) && Numeric(b) && NonEmpty(a) && NonEmpty(b) && IsBound(a, c) && IsBound(b, d)
    requires IsZero(c) || IsZero(d) || (c.Fin? && d.Fin?)
    requires Encloses(j, Products(a, b))
    ensures Reaches(j, c, d)
  {
    var x, y := FiniteCorner(a, b, c, d);
    ProductEnclosed(a, b, j, x, y);
  }

  lemma FarProductReaches(a: Interval, b: Interval, c: Float, d: Float, j: Interval, x: real, y: real)
    requires Numeric(j) && Contains(a, x) && Contains(b, y) && Encloses(j, Products(a, b))
    requires FarTowards(ExactMulZ(c, d), Beyond(j), x * y)
    ensures Reaches(j, c, d)
  {
    ProductEnclosed(a, b, j, x, y);
    FarMemberForcesBound(j, ExactMulZ(c, d), x * y);
  }

  lemma InfiniteCornerIsTight(a: Interval, b: Interval, c: Float, d: Float, j: Interval)
    requires Numeric(a) && Numeric(b) && Numeric(j) && NonEmpty(a) && NonEmpty(b) && IsBound(a, c) && IsBound(b, d)
    requires !IsZero(c) && !IsZero(d) && !c.Fin?
    requires Encloses(j, Products(a, b))
    ensures Reaches(j, c, d)
  {
    if d.Fin? {
      var x, y := HalfInfiniteCorner(a, b, c, d, Beyond(j));
      FarProductReaches(a, b, c, d, j, x, y);
    } else {
      var x, y := InfiniteCorner(a, b, c, d, Beyond(j));
      FarProductReaches(a, b, c, d, j, x, y);
    }
  }

  lemma ProductsCommute(a: Interval, b: Interval)
    ensures Products(a, b) == Products(b, a)
  {
    forall z: real ensures z in Products(a, b) <==> z in Products(b, a) {
      if z in Products(a, b) {
        var x: real, y: real :| Contains(a, x) && Contains(b, y) && z == x * y;
        TimesCommutes(x, y);
        assert z == y * x;
      }
      if z in Products(b, a) {
        var x: real, y: real :| Contains(b, x) && Contains(a, y) && z == x * y;
        TimesCommutes(x, y);
        assert z == y * x;
      }
    }
  }

  lemma MulBoundIsTight(a: Interval, b: Interval, c: Float, d: Float, j: Interval)
    requires Numeric(a) && Numeric(b) && Numeric(j) && NonEmpty(a) && NonEmpty(b)
    requires IsBound(a, c) && IsBound(b, d)
    requires Encloses(j, Products(a, b))
    ensures Reaches(j, c, d)
  {
    if IsZero(c) || IsZero(d) || (c.Fin? && d.Fin?) {
      FiniteCornerIsTight(a, b, c, d, j);
    } else if !c.Fin? {
      InfiniteCornerIsTight(a, b, c, d, j);
    } else {
      ProductsCommute(a, b);
      InfiniteCornerIsTight(b, a, d, c, j);
      MulCommutes(c, d);
    }
  }

  lemma TimesCommutes(x: real, y: real)
    ensures x * y == y * x
  {
  }

  lemma Far(k: real, u: real) returns (m: real)
    requires k > 0.0 && u >= 0.0
    ensures m > 0.0 && m * k > u
  {
    m := (u + 1.0) / k;
    assert m * k == u + 1.0;
    if m <= 0.0 {
      MonotoneProduct(m, 0.0, k);
    }
  }

  lemma MulHullIsHull(a: Interval, b: Interval)
    requires Numeric(a) && Numeric(b)
    ensures Encloses(MulHull(a, b), Products(a, b))
    ensures NonEmpty(a) && NonEmpty(b) ==> IsHull(MulHull(a, b), Products(a, b))
  {
    var h := MulHull(a, b);
    forall z | z in Products(a, b) ensures Contains(h, z) {
      var x: real, y: real :| Contains(a, x) && Contains(b, y) && z == x * y;
      MulEncloses(a, b, x, y);
    }
    if NonEmpty(a) && NonEmpty(b) {
      forall j: Interval | Numeric(j) && Encloses(j, Products(a, b)) ensures Within(h, j) {
        MulBoundIsTight(a, b, a.lo, b.lo, j);
        MulBoundIsTight(a, b, a.lo, b.hi, j);
        MulBoundIsTight(a, b, a.hi, b.lo, j);
        MulBoundIsTight(a, b, a.hi, b.hi, j);
        var ll, lh := ExactMulZ(a.lo, b.lo), ExactMulZ(a.lo, b.hi);
        var hl, hh := ExactMulZ(a.hi, b.lo), ExactMulZ(a.hi, b.hi);
        MinMaxFacts(ll, hh, lh, hl);
      }
    }
  }

  // ---------- quotients ----------

  /** All members of b have one strict sign. */
  ghost predicate ConstantSign(b: Interval) {
    (Le(Fin(0.0), b.lo) && !IsZero(b.lo) && !Negative(b.hi) && !IsZero(b.hi)) ||
    (Le(b.hi, Fin(0.0)) && !IsZero(b.hi) && Negative(b.lo))
  }

  function Inverse(b: Float): Float
    requires !IsZero(b)
  {
    match b
    case NaN => NaN
    case Fin(y) => Fin(1.0 / y)
    case _ => Fin(0.0)
  }

  lemma DivIsMulInverse(a: Float, b: Float)
    requires !IsZero(b) && !a.NaN? && !b.NaN?
    ensures ExactDivZ(a, b) == ExactMulZ(a, Inverse(b))
  {
    if b.Fin? {
      InverseSign(b.x);
      if a.Fin? {
        assert a.x / b.x == a.x * (1.0 / b.x);
      }
    }
  }

  lemma InverseSign(y: real)
    requires y != 0.0
    ensures y > 0.0 ==> 1.0 / y > 0.0
    ensures y < 0.0 ==> 1.0 / y < 0.0
  {
    assert (1.0 / y) * y == 1.0;
  }

  lemma InverseReverses(x: real, y: real)
    requires x <= y && (x > 0.0 || y < 0.0)
    ensures 1.0 / y <= 1.0 / x
  {
    InverseSign(x);
    InverseSign(y);
    var p, q := 1.0 / x, 1.0 / y;
    SignOfProduct(p, q);
    assert p * x == 1.0 && q * y == 1.0;
    assert p * q * x == q && p * q * y == p;
    MonotoneProduct(x, y, p * q);
  }

  /** The interval of inverses. */
  ghost function Inverses(b: Interval): Interval
    requires !IsZero(b.lo) && !IsZero(b.hi)
  {
    Interval(Inverse(b.hi), Inverse(b.lo))
  }

  lemma InversesContain(b: Interval, y: real)
    requires Numeric(b) && ConstantSign(b) && Contains(b, y)
    ensures y != 0.0 && Contains(Inverses(b), 1.0 / y)
  {
    InverseSign(y);
    if b.lo.Fin? {
      InverseReverses(b.lo.x, y);
    }
    if b.hi.Fin? {
      InverseReverses(y, b.hi.x);
    }
  }

  lemma DivHullAsMulHull(a: Interval, b: Interval)
    requires Numeric(a) && Numeric(b) && ConstantSign(b)
    ensures DivHull(a, b) == MulHull(a, Inverses(b))
  {
    DivIsMulInverse(a.lo, b.lo);
    DivIsMulInverse(a.lo, b.hi);
    DivIsMulInverse(a.hi, b.lo);
    DivIsMulInverse(a.hi, b.hi);
    var ll, lh, hl, hh := ExactDivZ(a.lo, b.lo), ExactDivZ(a.lo, b.hi), ExactDivZ(a.hi, b.lo), ExactDivZ(a.hi, b.hi);
    MinMaxCommute(FMin(ll, hh), FMin(lh, hl));
    MinMaxCommute(FMax(ll, hh), FMax(lh, hl));
  }

  lemma MinMaxCommute(a: Float, b: Float)
    ensures FMin(a, b) == FMin(b, a) && FMax(a, b) == FMax(b, a)
  {
  }

  /** Dividing by ever larger members of b approaches 0. */
  lemma QuotientsApproachZero(a: Interval, b: Interval, d: Float, j: Interval)
    requires Numeric(a) && Numeric(b) && Numeric(j) && NonEmpty(a) && NonEmpty(b)
    requires IsBound(b, d) && !d.Fin? && Encloses(j, Quotients(a, b))
    ensures Le(j.lo, Fin(0.0)) && Le(Fin(0.0), j.hi)
  {
    var x: real :| Contains(a, x);
    var e := if j.lo.Fin? && j.lo.x > 0.0 then j.lo.x else if j.hi.Fin? && j.hi.x < 0.0 then -j.hi.x else 1.0;
    var y := SmallQuotient(b, d, x, e);
    assert x / y in Quotients(a, b);
  }

  lemma SmallQuotient(b: Interval, d: Float, x: real, e: real) returns (y: real)
    requires Numeric(b) && NonEmpty(b) && IsBound(b, d) && !d.Fin? && e > 0.0
    ensures Contains(b, y) && y != 0.0 && -e < x / y < e
  {
    var m := Far(e, Abs(x));
    y := Approach(b, d, m);
    SignedAbs(x / y, y);
    assert (x / y) * y == x;
    CancelFactor(Abs(x / y), e, Abs(y), m, Abs(x));
  }

  lemma CancelFactor(q: real, e: real, y: real, m: real, x: real)
    requires 0.0 < m <= y && e > 0.0 && q * y == x && x < m * e
    ensures q < e
  {
    MonotoneProduct(m, y, e);
    if e <= q {
      MonotoneProduct(e, q, y);
    }
  }

  lemma SignedAbs(x: real, y: real)
    ensures Abs(x) * Abs(y) == Abs(x * y)
  {
    if x != 0.0 && y != 0.0 {
      SignOfProduct(x, y);
    }
  }

  lemma DivBoundIsTight(a: Interval, b: Interval, c: Float, d: Float, j: Interval)
    requires Numeric(a) && Numeric(b) && Numeric(j) && NonEmpty(a) && NonEmpty(b) && ConstantSign(b)
    requires IsBound(a, c) && IsBound(b, d) && Encloses(j, Quotients(a, b))
    ensures Le(j.lo, ExactDivZ(c, d)) && Le(ExactDivZ(c, d), j.hi)
  {
    if d.Fin? {
      var inv := Interval(Fin(1.0 / d.x), Fin(1.0 / d.x));
      assert Contains(b, d.x);
      assert Contains(inv, 1.0 / d.x);
      forall z | z in Products(a, inv) ensures Contains(j, z) {
        var x: real, y: real :| Contains(a, x) && Contains(inv, y) && z == x * y;
        assert z == x / d.x;
        assert x / d.x in Quotients(a, b);
      }
      MulBoundIsTight(a, inv, c, Fin(1.0 / d.x), j);
      DivIsMulInverse(c, d);
    } else {
      QuotientsApproachZero(a, b, d, j);
    }
  }

  lemma DivEncloses(a: Interval, b: Interval, x: real, y: real, q: real)
    requires Numeric(a) && Numeric(b) && ConstantSign(b) && Contains(a, x) && Contains(b, y)
    requires y != 0.0 && q == 1.0 / y
    ensures Contains(DivHull(a, b), x * q)
  {
    DivHullAsMulHull(a, b);
    InversesContain(b, y);
    MulEncloses(a, Inverses(b), x, q);
  }

  lemma QuotientWitness(a: Interval, b: Interval, z: real) returns (x: real, y: real, q: real)
    requires z in Quotients(a, b)
    ensures Contains(a, x) && Contains(b, y) && y != 0.0 && q == 1.0 / y && z == x * q
  {
    x, y :| Contains(a, x) && Contains(b, y) && y != 0.0 && z == x / y;
    q := 1.0 / y;
    QuotientIsProduct(x, y);
  }

  lemma QuotientsEnclosed(a: Interval, b: Interval, z: real)
    requires Numeric(a) && Numeric(b) && ConstantSign(b) && z in Quotients(a, b)
    ensures Contains(DivHull(a, b), z)
  {
    var x, y, q := QuotientWitness(a, b, z);
    DivEncloses(a, b, x, y, q);
  }

  lemma QuotientIsProduct(x: real, y: real)
    requires y != 0.0
    ensures x / y == x * (1.0 / y)
  {
  }

  lemma DivHullIsTight(a: Interval, b: Interval, j: Interval)
    requires Numeric(a) && Numeric(b) && ConstantSign(b) && NonEmpty(a) && NonEmpty(b)
    requires Numeric(j) && Encloses(j, Quotients(a, b))
    ensures Within(DivHull(a, b), j)
  {
    DivBoundIsTight(a, b, a.lo, b.lo, j);
    DivBoundIsTight(a, b, a.lo, b.hi, j);
    DivBoundIsTight(a, b, a.hi, b.lo, j);
    DivBoundIsTight(a, b, a.hi, b.hi, j);
    MinMaxFacts(ExactDivZ(a.lo, b.lo), ExactDivZ(a.hi, b.hi), ExactDivZ(a.lo, b.hi), ExactDivZ(a.hi, b.lo));
  }

  lemma DivHullIsHull(a: Interval, b: Interval)
    requires Numeric(a) && Numeric(b) && ConstantSign(b)
    ensures Encloses(DivHull(a, b), Quotients(a, b))
    ensures NonEmpty(a) && NonEmpty(b) ==> IsHull(DivHull(a, b), Quotients(a, b))
  {
    forall z | z in Quotients(a, b) ensures Contains(DivHull(a, b), z) {
      QuotientsEnclosed(a, b, z);
    }
    if NonEmpty(a) && NonEmpty(b) {
      forall j: Interval | Numeric(j) && Encloses(j, Quotients(a, b)) ensures Within(DivHull(a, b), j) {
        DivHullIsTight(a, b, j);
      }
    }
  }
}
