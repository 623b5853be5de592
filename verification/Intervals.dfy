/** Interval operations that round both bounds with the unit set to round upward only.
    The outer operations enclose the exact result as tightly as the format allows;
    the inner ones are the largest machine intervals inside the exact hull. */
module Intervals {
  import opened Floats
  import opened Hulls

  /** The floating-point unit: its number format is fixed, its rounding mode is global state. */
  class Fpu {
    const format: Format
    var mode: Rounding

    constructor (format: Format)
      ensures this.format == format && mode == ToNearest
    {
      this.format := format;
      mode := ToNearest;
    }
  }

  /** A two-cell interval buffer. */
  class Buffer {
    var lo: Float
    var hi: Float

    constructor (lo: Float, hi: Float)
      ensures this.lo == lo && this.hi == hi
    {
      this.lo, this.hi := lo, hi;
    }

    function Value(): Interval
      reads this
    {
      Interval(lo, hi)
    }

    /** A bound that is not a number is replaced by the weakest bound. */
    method SetLo(v: Float)
      modifies this`lo
      ensures lo == OrBottom(v)
    {
      var vv := v;
      if vv.NaN? {
        vv := NegInf;
      }
      lo := vv;
    }

    method SetHi(v: Float)
      modifies this`hi
      ensures hi == OrTop(v)
    {
      var vv := v;
      if vv.NaN? {
        vv := PosInf;
      }
      hi := vv;
    }
  }

  // ---------- rounding a hull ----------

  function Outer(F: Format, h: Interval): Interval {
    Interval(Down(F, h.lo), Up(F, h.hi))
  }

  function Inner(F: Format, h: Interval): Interval {
    Interval(Up(F, h.lo), Down(F, h.hi))
  }

  ghost predicate MachineInterval(F: Format, i: Interval) {
    Numeric(i) && Machine(F, i.lo) && Machine(F, i.hi)
  }

  /** Rounding a hull outward loses no member, and no machine interval with that property is smaller. */
  lemma OuterIsTightest(F: Format, h: Interval, s: iset<real>)
    requires Numeric(h) && Encloses(h, s)
    ensures MachineInterval(F, Outer(F, h)) && Encloses(Outer(F, h), s)
    ensures IsHull(h, s) ==>
              forall j: Interval :: MachineInterval(F, j) && Encloses(j, s) ==> Within(Outer(F, h), j)
  {
    var o := Outer(F, h);
    forall z | z in s ensures Contains(o, z) {
      DownIsGreatest(F, h.lo, h.lo);
      UpIsLeast(F, h.hi, h.hi);
      LeTransitive(o.lo, h.lo, Fin(z));
      LeTransitive(Fin(z), h.hi, o.hi);
    }
    if IsHull(h, s) {
      forall j: Interval | MachineInterval(F, j) && Encloses(j, s) ensures Within(o, j) {
        DownIsGreatest(F, h.lo, j.lo);
        UpIsLeast(F, h.hi, j.hi);
      }
    }
  }

  /** Rounding a hull inward stays inside it, and swallows every machine interval that does. */
  lemma InnerIsLargest(F: Format, h: Interval)
    requires Numeric(h)
    ensures MachineInterval(F, Inner(F, h)) && Within(Inner(F, h), h) && Within(h, Outer(F, h))
    ensures forall j: Interval :: MachineInterval(F, j) && Within(j, h) ==> Within(j, Inner(F, h))
  {
    UpIsLeast(F, h.lo, h.lo);
    DownIsGreatest(F, h.hi, h.hi);
    DownIsGreatest(F, h.lo, h.lo);
    UpIsLeast(F, h.hi, h.hi);
    forall j: Interval | MachineInterval(F, j) && Within(j, h) ensures Within(j, Inner(F, h)) {
      UpIsLeast(F, h.lo, j.lo);
      DownIsGreatest(F, h.hi, j.hi);
    }
  }

  // ---------- addition ----------

  lemma RoundsOrBottom(F: Format, v: Float)
    ensures OrBottom(Up(F, v)) == Up(F, OrBottom(v)) && OrBottom(Down(F, v)) == Down(F, OrBottom(v))
    ensures OrTop(Up(F, v)) == Up(F, OrTop(v)) && OrTop(Down(F, v)) == Down(F, OrTop(v))
  {
  }

  method AddOuter(fpu: Fpu, a: Buffer, b: Buffer, r: Buffer)
    requires fpu.format.Valid()
    modifies fpu`mode, r
    ensures fpu.mode == Upward
    ensures r.Value() == Outer(fpu.format, AddHull(old(a.Value()), old(b.Value())))
  {
    ghost var F := fpu.format;
    AddRounds(F, a.lo, b.lo);
    RoundsOrBottom(F, ExactAdd(a.lo, b.lo));
    RoundsOrBottom(F, ExactAdd(a.hi, b.hi));
    fpu.mode := Upward;
    r.SetLo(Neg(Sub(fpu.format, fpu.mode, Neg(a.lo), b.lo)));
    r.SetHi(Add(fpu.format, fpu.mode, a.hi, b.hi));
  }

  method AddInner(fpu: Fpu, a: Buffer, b: Buffer, r: Buffer)
    requires fpu.format.Valid()
    modifies fpu`mode, r
    ensures fpu.mode == Upward
    ensures r.Value() == Inner(fpu.format, AddHull(old(a.Value()), old(b.Value())))
  {
    ghost var F := fpu.format;
    AddRounds(F, a.hi, b.hi);
    RoundsOrBottom(F, ExactAdd(a.lo, b.lo));
    RoundsOrBottom(F, ExactAdd(a.hi, b.hi));
    fpu.mode := Upward;
    r.SetLo(Add(fpu.format, fpu.mode, a.lo, b.lo));
    r.SetHi(Neg(Sub(fpu.format, fpu.mode, Neg(a.hi), b.hi)));
  }

  // ---------- subtraction ----------

  /** What subtraction leaves in r: if r is also b, the upper bound is computed from the new lower bound. */
  function SubOuterValue(F: Format, a: Interval, b: Interval, clobbers: bool): Interval {
    var lo := Down(F, OrBottom(ExactAdd(a.lo, Neg(b.hi))));
    Interval(lo, Up(F, OrTop(ExactAdd(a.hi, Neg(if clobbers then lo else b.lo)))))
  }

  function SubInnerValue(F: Format, a: Interval, b: Interval, clobbers: bool): Interval {
    var lo := Up(F, OrBottom(ExactAdd(a.lo, Neg(b.hi))));
    Interval(lo, Down(F, OrTop(ExactAdd(a.hi, Neg(if clobbers then lo else b.lo)))))
  }

  method SubOuter(fpu: Fpu, a: Buffer, b: Buffer, r: Buffer)
    requires fpu.format.Valid()
    modifies fpu`mode, r
    ensures fpu.mode == Upward
    ensures r.Value() == SubOuterValue(fpu.format, old(a.Value()), old(b.Value()), r == b)
    ensures r != b ==> r.Value() == Outer(fpu.format, SubHull(old(a.Value()), old(b.Value())))
  {
    ghost var F := fpu.format;
    NegReverses(b.hi, b.hi);
    AddRounds(F, a.lo, Neg(b.hi));
    RoundsOrBottom(F, ExactAdd(a.lo, Neg(b.hi)));
    fpu.mode := Upward;
    r.SetLo(Neg(Add(fpu.format, fpu.mode, Neg(a.lo), b.hi)));
    RoundsOrBottom(F, ExactAdd(a.hi, Neg(b.lo)));
    r.SetHi(Sub(fpu.format, fpu.mode, a.hi, b.lo));
  }

  method SubInner(fpu: Fpu, a: Buffer, b: Buffer, r: Buffer)
    requires fpu.format.Valid()
    modifies fpu`mode, r
    ensures fpu.mode == Upward
    ensures r.Value() == SubInnerValue(fpu.format, old(a.Value()), old(b.Value()), r == b)
    ensures r != b ==> r.Value() == Inner(fpu.format, SubHull(old(a.Value()), old(b.Value())))
  {
    ghost var F := fpu.format;
    RoundsOrBottom(F, ExactAdd(a.lo, Neg(b.hi)));
    fpu.mode := Upward;
    r.SetLo(Sub(fpu.format, fpu.mode, a.lo, b.hi));
    NegReverses(b.lo, b.lo);
    AddRounds(F, a.hi, Neg(b.lo));
    RoundsOrBottom(F, ExactAdd(a.hi, Neg(b.lo)));
    r.SetHi(Neg(Add(fpu.format, fpu.mode, Neg(a.hi), b.lo)));
  }

  // ---------- multiplication ----------

  /** What is stored when a bound is not a number. */
  function OrUnbounded(i: Interval): Interval {
    Interval(OrBottom(i.lo), OrTop(i.hi))
  }

  lemma RoundsOrUnbounded(F: Format, h: Interval)
    ensures OrUnbounded(Outer(F, h)) == Outer(F, OrUnbounded(h)) && OrUnbounded(Inner(F, h)) == Inner(F, OrUnbounded(h))
  {
    RoundsOrBottom(F, h.lo);
    RoundsOrBottom(F, h.hi);
  }

  lemma NumericMinMax(a: Float, b: Float, c: Float, d: Float)
    requires !a.NaN? && !b.NaN? && !c.NaN? && !d.NaN?
    ensures !Min4(a, b, c, d).NaN? && !Max4(a, b, c, d).NaN?
  {
  }

  lemma MulHullIsNumeric(a: Interval, b: Interval)
    requires Numeric(a) && Numeric(b)
    ensures Numeric(MulHull(a, b)) && OrUnbounded(MulHull(a, b)) == MulHull(a, b)
  {
    hide Min4, Max4;
    NumericMinMax(ExactMulZ(a.lo, b.lo), ExactMulZ(a.hi, b.hi), ExactMulZ(a.lo, b.hi), ExactMulZ(a.hi, b.lo));
  }

  lemma DivHullIsNumeric(a: Interval, b: Interval)
    requires Numeric(a) && Numeric(b) && !IsZero(b.lo) && !IsZero(b.hi)
    ensures Numeric(DivHull(a, b)) && OrUnbounded(DivHull(a, b)) == DivHull(a, b)
  {
    hide Min4, Max4;
    NumericMinMax(ExactDivZ(a.lo, b.lo), ExactDivZ(a.hi, b.hi), ExactDivZ(a.lo, b.hi), ExactDivZ(a.hi, b.lo));
  }

  lemma RoundingMinMax(F: Format, a: Float, b: Float)
    ensures FMin(Up(F, a), Up(F, b)) == Up(F, FMin(a, b)) && FMax(Up(F, a), Up(F, b)) == Up(F, FMax(a, b))
    ensures FMin(Down(F, a), Down(F, b)) == Down(F, FMin(a, b)) && FMax(Down(F, a), Down(F, b)) == Down(F, FMax(a, b))
  {
  }

  lemma RoundingMinMax4(F: Format, a: Float, b: Float, c: Float, d: Float)
    ensures Min4(Up(F, a), Up(F, b), Up(F, c), Up(F, d)) == Up(F, Min4(a, b, c, d))
    ensures Max4(Up(F, a), Up(F, b), Up(F, c), Up(F, d)) == Up(F, Max4(a, b, c, d))
    ensures Min4(Down(F, a), Down(F, b), Down(F, c), Down(F, d)) == Down(F, Min4(a, b, c, d))
    ensures Max4(Down(F, a), Down(F, b), Down(F, c), Down(F, d)) == Down(F, Max4(a, b, c, d))
  {
    RoundingMinMax(F, a, b);
    RoundingMinMax(F, c, d);
    RoundingMinMax(F, FMin(a, b), FMin(c, d));
    RoundingMinMax(F, FMax(a, b), FMax(c, d));
  }

  lemma NegMinMax(a: Float, b: Float, c: Float, d: Float)
    ensures Neg(Max4(a, b, c, d)) == Min4(Neg(a), Neg(b), Neg(c), Neg(d))
    ensures Neg(Min4(a, b, c, d)) == Max4(Neg(a), Neg(b), Neg(c), Neg(d))
  {
    NegMinMax2(a, b);
    NegMinMax2(c, d);
    NegMinMax2(FMax(a, b), FMax(c, d));
    NegMinMax2(FMin(a, b), FMin(c, d));
  }

  lemma NegMinMax2(a: Float, b: Float)
    ensures Neg(FMax(a, b)) == FMin(Neg(a), Neg(b)) && Neg(FMin(a, b)) == FMax(Neg(a), Neg(b))
  {
  }

  /** The four corner products as the unit computes them. */
  function Corners(F: Format, mode: Rounding, l1: Float, l2: Float, h1: Float, h2: Float): (c: (Float, Float, Float,
                   Float))
    requires mode != ToNearest
  {
    (MulZ(F, mode, l1, l2), MulZ(F, mode, l1, h2), MulZ(F, mode, h1, l2), MulZ(F, mode, h1, h2))
  }

  function Quarters(F: Format, mode: Rounding, l1: Float, l2: Float, h1: Float, h2: Float): (c: (Float, Float, Float,
                    Float))
    requires mode != ToNearest && !IsZero(l2) && !IsZero(h2)
  {
    (DivZ(F, mode, l1, l2), DivZ(F, mode, l1, h2), DivZ(F, mode, h1, l2), DivZ(F, mode, h1, h2))
  }

  /** Rounding each corner and then taking bounds is the same as rounding the bounds. */
  lemma RoundedCorners(F: Format, a: Float, b: Float, c: Float, d: Float,
                       au: Float, bu: Float, cu: Float, du: Float, an: Float, bn: Float, cn: Float, dn: Float)
    requires au == Up(F, a) && bu == Up(F, b) && cu == Up(F, c) && du == Up(F, d)
    requires Neg(an) == Down(F, a) && Neg(bn) == Down(F, b) && Neg(cn) == Down(F, c) && Neg(dn) == Down(F, d)
    ensures Min4(au, bu, cu, du) == Up(F, Min4(a, b, c, d)) && Max4(au, bu, cu, du) == Up(F, Max4(a, b, c, d))
    ensures Neg(Max4(an, bn, cn, dn)) == Down(F, Min4(a, b, c, d))
    ensures Neg(Min4(an, bn, cn, dn)) == Down(F, Max4(a, b, c, d))
  {
    RoundingMinMax4(F, a, b, c, d);
    NegMinMax(an, bn, cn, dn);
  }

  lemma CornersRound(F: Format, a: Interval, b: Interval)
    requires F.Valid()
    ensures var (ll, lh, hl, hh) := Corners(F, Upward, a.lo, b.lo, a.hi, b.hi);
            Min4(ll, hh, lh, hl) == Up(F, MulHull(a, b).lo) && Max4(ll, hh, lh, hl) == Up(F, MulHull(a, b).hi)
    ensures var (ll, lh, hl, hh) := Corners(F, Upward, Neg(a.lo), b.lo, Neg(a.hi), b.hi);
            Neg(Max4(ll, hh, lh, hl)) == Down(F, MulHull(a, b).lo) &&
            Neg(Min4(ll, hh, lh, hl)) == Down(F, MulHull(a, b).hi)
  {
    MulZRounds(F, a.lo, b.lo);
    MulZRounds(F, a.lo, b.hi);
    MulZRounds(F, a.hi, b.lo);
    MulZRounds(F, a.hi, b.hi);
    var (ll, lh, hl, hh) := Corners(F, Upward, a.lo, b.lo, a.hi, b.hi);
    var (ll', lh', hl', hh') := Corners(F, Upward, Neg(a.lo), b.lo, Neg(a.hi), b.hi);
    RoundedCorners(F, ExactMulZ(a.lo, b.lo), ExactMulZ(a.hi, b.hi), ExactMulZ(a.lo, b.hi), ExactMulZ(a.hi, b.lo),
      ll, hh, lh, hl, ll', hh', lh', hl');
  }

  lemma QuartersRound(F: Format, a: Interval, b: Interval)
    requires F.Valid() && !IsZero(b.lo) && !IsZero(b.hi)
    ensures var (ll, lh, hl, hh) := Quarters(F, Upward, a.lo, b.lo, a.hi, b.hi);
            Min4(ll, hh, lh, hl) == Up(F, DivHull(a, b).lo) && Max4(ll, hh, lh, hl) == Up(F, DivHull(a, b).hi)
    ensures var (ll, lh, hl, hh) := Quarters(F, Upward, Neg(a.lo), b.lo, Neg(a.hi), b.hi);
            Neg(Max4(ll, hh, lh, hl)) == Down(F, DivHull(a, b).lo) &&
            Neg(Min4(ll, hh, lh, hl)) == Down(F, DivHull(a, b).hi)
  {
    DivZRounds(F, a.lo, b.lo);
    DivZRounds(F, a.lo, b.hi);
    DivZRounds(F, a.hi, b.lo);
    DivZRounds(F, a.hi, b.hi);
    var (ll, lh, hl, hh) := Quarters(F, Upward, a.lo, b.lo, a.hi, b.hi);
    var (ll', lh', hl', hh') := Quarters(F, Upward, Neg(a.lo), b.lo, Neg(a.hi), b.hi);
    RoundedCorners(F, ExactDivZ(a.lo, b.lo), ExactDivZ(a.hi, b.hi), ExactDivZ(a.lo, b.hi), ExactDivZ(a.hi, b.lo),
      ll, hh, lh, hl, ll', hh', lh', hl');
  }

  method MulOuter(fpu: Fpu, a: Buffer, b: Buffer, r: Buffer)
    requires fpu.format.Valid()
    modifies fpu`mode, r
    ensures fpu.mode == Upward
    ensures r.Value() == Outer(fpu.format, OrUnbounded(MulHull(old(a.Value()), old(b.Value()))))
    ensures old(Numeric(a.Value()) && Numeric(b.Value())) ==>
              r.Value() == Outer(fpu.format, MulHull(old(a.Value()), old(b.Value())))
  {
    hide MulZ, ExactMulZ, Round, FMin, FMax, MulHull;
    CornersRound(fpu.format, a.Value(), b.Value());
    if Numeric(a.Value()) && Numeric(b.Value()) {
      MulHullIsNumeric(a.Value(), b.Value());
    }
    RoundsOrUnbounded(fpu.format, MulHull(a.Value(), b.Value()));
    NegReverses(a.lo, a.hi);
    NegReverses(a.hi, a.lo);
    fpu.mode := Upward;
    var l1, l2, h1, h2 := Neg(a.lo), b.lo, Neg(a.hi), b.hi;
    {
      var (ll, lh, hl, hh) := Corners(fpu.format, fpu.mode, l1, l2, h1, h2);
      r.SetLo(Neg(FMax(FMax(ll, hh), FMax(lh, hl))));
    }
    l1, h1 := Neg(l1), Neg(h1);
    {
      var (ll, lh, hl, hh) := Corners(fpu.format, fpu.mode, l1, l2, h1, h2);
      r.SetHi(FMax(FMax(ll, hh), FMax(lh, hl)));
    }
  }

  method MulInner(fpu: Fpu, a: Buffer, b: Buffer, r: Buffer)
    requires fpu.format.Valid()
    modifies fpu`mode, r
    ensures fpu.mode == Upward
    ensures r.Value() == Inner(fpu.format, OrUnbounded(MulHull(old(a.Value()), old(b.Value()))))
    ensures old(Numeric(a.Value()) && Numeric(b.Value())) ==>
              r.Value() == Inner(fpu.format, MulHull(old(a.Value()), old(b.Value())))
  {
    hide MulZ, ExactMulZ, Round, FMin, FMax, MulHull;
    CornersRound(fpu.format, a.Value(), b.Value());
    if Numeric(a.Value()) && Numeric(b.Value()) {
      MulHullIsNumeric(a.Value(), b.Value());
    }
    RoundsOrUnbounded(fpu.format, MulHull(a.Value(), b.Value()));
    fpu.mode := Upward;
    var l1, l2, h1, h2 := a.lo, b.lo, a.hi, b.hi;
    {
      var (ll, lh, hl, hh) := Corners(fpu.format, fpu.mode, l1, l2, h1, h2);
      r.SetLo(FMin(FMin(ll, hh), FMin(lh, hl)));
    }
    l1, h1 := Neg(l1), Neg(h1);
    {
      var (ll, lh, hl, hh) := Corners(fpu.format, fpu.mode, l1, l2, h1, h2);
      r.SetHi(Neg(FMin(FMin(ll, hh), FMin(lh, hl))));
    }
  }

  // ---------- division by an interval of constant sign ----------

  method DivPosOuter(fpu: Fpu, a: Buffer, b: Buffer, r: Buffer)
    requires fpu.format.Valid() && !IsZero(b.lo) && !IsZero(b.hi)
    modifies fpu`mode, r
    ensures fpu.mode == Upward
    ensures r.Value() == Outer(fpu.format, OrUnbounded(DivHull(old(a.Value()), old(b.Value()))))
    ensures old(Numeric(a.Value()) && Numeric(b.Value())) ==>
              r.Value() == Outer(fpu.format, DivHull(old(a.Value()), old(b.Value())))
  {
    hide DivZ, ExactDivZ, Round, FMin, FMax, DivHull;
    QuartersRound(fpu.format, a.Value(), b.Value());
    if Numeric(a.Value()) && Numeric(b.Value()) {
      DivHullIsNumeric(a.Value(), b.Value());
    }
    RoundsOrUnbounded(fpu.format, DivHull(a.Value(), b.Value()));
    NegReverses(a.lo, a.hi);
    NegReverses(a.hi, a.lo);
    fpu.mode := Upward;
    var l1, l2, h1, h2 := Neg(a.lo), b.lo, Neg(a.hi), b.hi;
    {
      var (ll, lh, hl, hh) := Quarters(fpu.format, fpu.mode, l1, l2, h1, h2);
      r.SetLo(Neg(FMax(FMax(ll, hh), FMax(lh, hl))));
    }
    l1, h1 := Neg(l1), Neg(h1);
    {
      var (ll, lh, hl, hh) := Quarters(fpu.format, fpu.mode, l1, l2, h1, h2);
      r.SetHi(FMax(FMax(ll, hh), FMax(lh, hl)));
    }
  }

  method DivPosInner(fpu: Fpu, a: Buffer, b: Buffer, r: Buffer)
    requires fpu.format.Valid() && !IsZero(b.lo) && !IsZero(b.hi)
    modifies fpu`mode, r
    ensures fpu.mode == Upward
    ensures r.Value() == Inner(fpu.format, OrUnbounded(DivHull(old(a.Value()), old(b.Value()))))
    ensures old(Numeric(a.Value()) && Numeric(b.Value())) ==>
              r.Value() == Inner(fpu.format, DivHull(old(a.Value()), old(b.Value())))
  {
    hide DivZ, ExactDivZ, Round, FMin, FMax, DivHull;
    QuartersRound(fpu.format, a.Value(), b.Value());
    if Numeric(a.Value()) && Numeric(b.Value()) {
      DivHullIsNumeric(a.Value(), b.Value());
    }
    RoundsOrUnbounded(fpu.format, DivHull(a.Value(), b.Value()));
    fpu.mode := Upward;
    var l1, l2, h1, h2 := a.lo, b.lo, a.hi, b.hi;
    {
      var (ll, lh, hl, hh) := Quarters(fpu.format, fpu.mode, l1, l2, h1, h2);
      r.SetLo(FMin(FMin(ll, hh), FMin(lh, hl)));
    }
    l1, h1 := Neg(l1), Neg(h1);
    {
      var (ll, lh, hl, hh) := Quarters(fpu.format, fpu.mode, l1, l2, h1, h2);
      r.SetHi(Neg(FMin(FMin(ll, hh), FMin(lh, hl))));
    }
  }

  // ---------- what the results mean ----------

  /** o encloses s, and every machine interval that encloses s contains o. */
  ghost predicate TightestEnclosure(F: Format, o: Interval, s: iset<real>) {
    Encloses(o, s) && forall j: Interval :: MachineInterval(F, j) && Encloses(j, s) ==> Within(o, j)
  }

  /** i stays inside h, and contains every machine interval that does. */
  ghost predicate LargestInside(F: Format, i: Interval, h: Interval) {
    Within(i, h) && forall j: Interval :: MachineInterval(F, j) && Within(j, h) ==> Within(j, i)
  }

  /** Addition and subtraction: sound always, tightest and largest for non-empty operands. */
  lemma AddIsOptimal(F: Format, a: Interval, b: Interval)
    requires Numeric(a) && Numeric(b)
    ensures Encloses(Outer(F, AddHull(a, b)), Sums(a, b))
    ensures LargestInside(F, Inner(F, AddHull(a, b)), AddHull(a, b))
    ensures NonEmpty(a) && NonEmpty(b) ==>
      IsHull(AddHull(a, b), Sums(a, b)) && TightestEnclosure(F, Outer(F, AddHull(a, b)), Sums(a, b))
  {
    AddHullIsHull(a, b);
    OuterIsTightest(F, AddHull(a, b), Sums(a, b));
    InnerIsLargest(F, AddHull(a, b));
  }

  lemma SubIsOptimal(F: Format, a: Interval, b: Interval)
    requires Numeric(a) && Numeric(b)
    ensures Encloses(Outer(F, SubHull(a, b)), Differences(a, b))
    ensures LargestInside(F, Inner(F, SubHull(a, b)), SubHull(a, b))
    ensures NonEmpty(a) && NonEmpty(b) ==>
      IsHull(SubHull(a, b), Differences(a, b)) && TightestEnclosure(F, Outer(F, SubHull(a, b)), Differences(a, b))
  {
    SubHullIsHull(a, b);
    OuterIsTightest(F, SubHull(a, b), Differences(a, b));
    InnerIsLargest(F, SubHull(a, b));
  }

  ghost predicate HasDouble(F: Format, x: real) {
    x > 0.0 && x in F.values && -x in F.values && x + x in F.values && -(x + x) in F.values
  }

  lemma SmallFormat() returns (F: Format, x: real)
    ensures F.Valid() && HasDouble(F, x)
  {
    F, x := Format([-2.0, -1.0, 0.0, 1.0, 2.0]), 1.0;
    assert F.values[0] == -2.0 && F.values[1] == -1.0 && F.values[2] == 0.0 && F.values[3] == 1.0 && F.values[4] == 2.0;
  }

  /** 0 minus [-2x, x] with the result written over the second operand: 2x is missing from [-x, x]. */
  lemma ClobberedOuter(F: Format, x: real, a: Interval, b: Interval)
    requires F.Valid() && HasDouble(F, x)
    requires a == Interval(Fin(0.0), Fin(0.0)) && b == Interval(Fin(-(x + x)), Fin(x))
    ensures SubOuterValue(F, a, b, true) == Interval(Fin(-x), Fin(x))
  {
  }

  lemma MissedMember(x: real, a: Interval, b: Interval, r: Interval)
    requires x > 0.0 && a == Interval(Fin(0.0), Fin(0.0)) && b == Interval(Fin(-(x + x)), Fin(x)) && r.hi == Fin(x)
    ensures !Encloses(r, Differences(a, b))
  {
    var y := -(x + x);
    assert Contains(a, 0.0) && Contains(b, y);
    assert 0.0 - y in Differences(a, b);
    assert !Contains(r, 0.0 - y);
  }

  /** 0 minus [x, 2x] with the result written over the second operand: [-2x, 2x] instead of [-2x, -x]. */
  lemma ClobberedInner(F: Format, x: real, a: Interval, b: Interval)
    requires F.Valid() && HasDouble(F, x)
    requires a == Interval(Fin(0.0), Fin(0.0)) && b == Interval(Fin(x), Fin(x + x))
    ensures SubInnerValue(F, a, b, true) == Interval(Fin(-(x + x)), Fin(x + x))
    ensures SubHull(a, b) == Interval(Fin(-(x + x)), Fin(-x))
    ensures !Within(SubInnerValue(F, a, b, true), SubHull(a, b))
  {
    hide Round;
    RepresentableIsExact(F, -(x + x));
    RepresentableIsExact(F, x + x);
  }

  lemma SubUnclobbered(F: Format, a: Interval, b: Interval)
    requires Numeric(a) && Numeric(b)
    ensures Encloses(SubOuterValue(F, a, b, false), Differences(a, b))
    ensures Within(SubInnerValue(F, a, b, false), SubHull(a, b))
  {
    hide Round;
    SubIsOptimal(F, a, b);
    assert SubOuterValue(F, a, b, false) == Outer(F, SubHull(a, b));
    assert SubInnerValue(F, a, b, false) == Inner(F, SubHull(a, b));
  }

  /** Outer subtraction may overwrite its first operand but not its second: only then can it lose members. */
  lemma SubAliasing(clobbers: bool)
    ensures !clobbers <==>
            forall F: Format, a: Interval, b: Interval ::
              F.Valid() && MachineInterval(F, a) && MachineInterval(F, b) ==>
              Encloses(SubOuterValue(F, a, b, clobbers), Differences(a, b))
  {
    hide SubOuterValue;
    if clobbers {
      var F, x := SmallFormat();
      var a, b := Interval(Fin(0.0), Fin(0.0)), Interval(Fin(-(x + x)), Fin(x));
      ClobberedOuter(F, x, a, b);
      MissedMember(x, a, b, SubOuterValue(F, a, b, true));
    } else {
      forall F: Format, a: Interval, b: Interval | F.Valid() && MachineInterval(F, a) && MachineInterval(F, b)
        ensures Encloses(SubOuterValue(F, a, b, clobbers), Differences(a, b))
      {
        SubUnclobbered(F, a, b);
      }
    }
  }

  /** Inner subtraction stays inside the exact hull under the same condition. */
  lemma SubInnerAliasing(clobbers: bool)
    ensures !clobbers <==>
            forall F: Format, a: Interval, b: Interval ::
              F.Valid() && MachineInterval(F, a) && MachineInterval(F, b) ==>
              Within(SubInnerValue(F, a, b, clobbers), SubHull(a, b))
  {
    hide SubInnerValue, SubHull, Within;
    if clobbers {
      var F, x := SmallFormat();
      var a, b := Interval(Fin(0.0), Fin(0.0)), Interval(Fin(x), Fin(x + x));
      ClobberedInner(F, x, a, b);
    } else {
      forall F: Format, a: Interval, b: Interval | F.Valid() && MachineInterval(F, a) && MachineInterval(F, b)
        ensures Within(SubInnerValue(F, a, b, clobbers), SubHull(a, b))
      {
        SubUnclobbered(F, a, b);
      }
    }
  }

  lemma MulIsOptimal(F: Format, a: Interval, b: Interval)
    requires F.Valid() && Numeric(a) && Numeric(b)
    ensures Encloses(Outer(F, MulHull(a, b)), Products(a, b))
    ensures LargestInside(F, Inner(F, MulHull(a, b)), MulHull(a, b))
    ensures NonEmpty(a) && NonEmpty(b) ==>
      IsHull(MulHull(a, b), Products(a, b)) && TightestEnclosure(F, Outer(F, MulHull(a, b)), Products(a, b))
  {
    MulHullIsNumeric(a, b);
    MulHullIsHull(a, b);
    OuterIsTightest(F, MulHull(a, b), Products(a, b));
    InnerIsLargest(F, MulHull(a, b));
  }

  lemma DivIsOptimal(F: Format, a: Interval, b: Interval)
    requires F.Valid() && Numeric(a) && Numeric(b) && ConstantSign(b)
    ensures Encloses(Outer(F, DivHull(a, b)), Quotients(a, b))
    ensures LargestInside(F, Inner(F, DivHull(a, b)), DivHull(a, b))
    ensures NonEmpty(a) && NonEmpty(b) ==>
      IsHull(DivHull(a, b), Quotients(a, b)) && TightestEnclosure(F, Outer(F, DivHull(a, b)), Quotients(a, b))
  {
    DivHullIsNumeric(a, b);
    DivHullIsHull(a, b);
    OuterIsTightest(F, DivHull(a, b), Quotients(a, b));
    InnerIsLargest(F, DivHull(a, b));
  }

  // ---------- scalar operations rounded downward by the upward unit ----------

  lemma MulIsOdd(a: Float, b: Float)
    ensures ExactMul(Neg(a), b) == Neg(ExactMul(a, b))
  {
    if a.Fin? && b.Fin? {
      NegProduct(a.x, b.x);
    }
  }

  /** Exact division undoes multiplication; with an infinite divisor it is what the quotients by growing divisors
      tend to. */
  lemma ExactDivMeaning(x: real, y: real, eps: real) returns (far: real)
    requires y != 0.0 && eps > 0.0
    ensures ExactMul(ExactDiv(Fin(x), Fin(y)), Fin(y)) == Fin(x)
    ensures ExactDiv(Fin(x), PosInf) == ExactDiv(Fin(x), NegInf) == Fin(0.0)
    ensures far > 0.0 && forall z: real :: z >= far || z <= -far ==> -eps <= Quotient(x, z) <= eps
  {
    far := Abs(x) / eps + 1.0;
    FarQuotient(x, eps, far);
  }

  function Quotient(x: real, z: real): real {
    if z == 0.0 then 0.0 else x / z
  }

  lemma FarQuotient(x: real, eps: real, far: real)
    requires eps > 0.0 && far == Abs(x) / eps + 1.0
    ensures far > 0.0 && forall z: real :: z >= far || z <= -far ==> -eps <= Quotient(x, z) <= eps
  {
    var a := Abs(x) / eps;
    assert a * eps == Abs(x);
    assert a >= 0.0;
    forall z: real | z >= far || z <= -far ensures -eps <= Quotient(x, z) <= eps {
      SmallQuotientBound(x, z, eps, a);
    }
  }

  lemma SmallQuotientBound(x: real, z: real, eps: real, a: real)
    requires eps > 0.0 && a >= 0.0 && a * eps == Abs(x) && (z >= a + 1.0 || z <= -(a + 1.0))
    ensures z != 0.0 && -eps <= x / z <= eps
  {
    var q := x / z;
    AbsOfProduct(q, z, x);
    if Abs(q) > eps {
      TooLarge(Abs(q), Abs(z), eps, a);
    }
  }

  lemma AbsOfProduct(q: real, z: real, x: real)
    requires z != 0.0 && q == x / z
    ensures Abs(q) * Abs(z) == Abs(x)
  {
    assert q * z == x;
  }

  lemma TooLarge(q: real, z: real, eps: real, a: real)
    requires q > eps > 0.0 && a >= 0.0 && z >= a + 1.0
    ensures q * z > a * eps
  {
    MonotoneProduct(eps, q, z);
    MonotoneProduct(a + 1.0, z, eps);
    assert (a + 1.0) * eps == a * eps + eps;
  }

  lemma DivIsOdd(a: Float, b: Float)
    requires !IsZero(b)
    ensures ExactDiv(Neg(a), b) == Neg(ExactDiv(a, b))
  {
    if a.Fin? && b.Fin? {
      NegQuotient(a.x, b.x);
    }
  }

  method AddDown(fpu: Fpu, a: Float, b: Float) returns (r: Float)
    requires fpu.format.Valid()
    modifies fpu`mode
    ensures fpu.mode == Upward && r == Down(fpu.format, ExactAdd(a, b))
  {
    AddRounds(fpu.format, a, b);
    fpu.mode := Upward;
    r := Neg(Sub(fpu.format, fpu.mode, Neg(a), b));
  }

  method SubDown(fpu: Fpu, a: Float, b: Float) returns (r: Float)
    requires fpu.format.Valid()
    modifies fpu`mode
    ensures fpu.mode == Upward && r == Down(fpu.format, ExactAdd(a, Neg(b)))
  {
    NegReverses(b, b);
    AddRounds(fpu.format, a, Neg(b));
    fpu.mode := Upward;
    r := Neg(Add(fpu.format, fpu.mode, Neg(a), b));
  }

  method MulDown(fpu: Fpu, a: Float, b: Float) returns (r: Float)
    requires fpu.format.Valid()
    modifies fpu`mode
    ensures fpu.mode == Upward && r == Down(fpu.format, ExactMul(a, b))
  {
    MulIsOdd(a, b);
    NegUpIsDown(fpu.format, ExactMul(a, b));
    fpu.mode := Upward;
    r := Neg(Mul(fpu.format, fpu.mode, Neg(a), b));
  }

  method MulZDown(fpu: Fpu, a: Float, b: Float) returns (r: Float)
    requires fpu.format.Valid()
    modifies fpu`mode
    ensures fpu.mode == Upward && r == Down(fpu.format, ExactMulZ(a, b))
  {
    MulZRounds(fpu.format, a, b);
    fpu.mode := Upward;
    r := Neg(MulZ(fpu.format, fpu.mode, Neg(a), b));
  }

  method DivDown(fpu: Fpu, a: Float, b: Float) returns (r: Float)
    requires fpu.format.Valid() && !IsZero(b)
    modifies fpu`mode
    ensures fpu.mode == Upward && r == Down(fpu.format, ExactDiv(a, b))
  {
    DivIsOdd(a, b);
    NegUpIsDown(fpu.format, ExactDiv(a, b));
    fpu.mode := Upward;
    r := Neg(Div(fpu.format, fpu.mode, Neg(a), b));
  }

  method DivZDown(fpu: Fpu, a: Float, b: Float) returns (r: Float)
    requires fpu.format.Valid() && !IsZero(b)
    modifies fpu`mode
    ensures fpu.mode == Upward && r == Down(fpu.format, ExactDivZ(a, b))
  {
    DivZRounds(fpu.format, a, b);
    fpu.mode := Upward;
    r := Neg(DivZ(fpu.format, fpu.mode, Neg(a), b));
  }
}
