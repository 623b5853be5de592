/** Floating-point numbers over an arbitrary finite set of reals that contains 0 and is closed
    under negation, with directed rounding as in section 4.3.2 of IEEE 754-2008.
    Signed zeros are not distinguished. */
module Floats {

  datatype Float = NaN | NegInf | Fin(x: real) | PosInf

  /** The finite machine numbers, in any order. */
  datatype Format = Format(values: seq<real>) {
    ghost predicate Valid() {
      0.0 in values && forall x :: x in values ==> -x in values
    }
  }

  datatype Rounding = ToNearest | TowardZero | Upward | Downward

  ghost predicate Machine(F: Format, a: Float) {
    a.Fin? ==> a.x in F.values
  }

  function Neg(a: Float): Float {
    match a
    case NaN => NaN
    case NegInf => PosInf
    case Fin(x) => Fin(-x)
    case PosInf => NegInf
  }

  predicate Le(a: Float, b: Float) {
    !a.NaN? && !b.NaN? && (a.NegInf? || b.PosInf? || (a.Fin? && b.Fin? && a.x <= b.x))
  }

  /** C's fmin and fmax: a NaN argument is ignored. */
  function FMin(a: Float, b: Float): Float {
    if a.NaN? then b else if b.NaN? then a else if Le(a, b) then a else b
  }

  function FMax(a: Float, b: Float): Float {
    if a.NaN? then b else if b.NaN? then a else if Le(a, b) then b else a
  }

  // ---------- exact arithmetic ----------

  function ExactAdd(a: Float, b: Float): Float {
    match (a, b)
    case (NaN, _) => NaN
    case (_, NaN) => NaN
    case (Fin(x), Fin(y)) => Fin(x + y)
    case (Fin(_), _) => b
    case (_, Fin(_)) => a
    case _ => if a == b then a else NaN
  }

  predicate IsZero(a: Float) {
    a == Fin(0.0)
  }

  predicate Negative(a: Float) {
    a.NegInf? || (a.Fin? && a.x < 0.0)
  }

  function ExactMul(a: Float, b: Float): Float {
    if a.NaN? || b.NaN? then NaN
    else if a.Fin? && b.Fin? then Fin(a.x * b.x)
    else if IsZero(a) || IsZero(b) then NaN
    else if Negative(a) == Negative(b) then PosInf else NegInf
  }

  /** The sign of a zero divisor is not modelled, so the divisor must not be zero. */
  function ExactDiv(a: Float, b: Float): Float
    requires !IsZero(b)
  {
    if a.NaN? || b.NaN? then NaN
    else if a.Fin? && b.Fin? then Fin(a.x / b.x)
    else if a.Fin? then Fin(0.0)
    else if b.Fin? then if Negative(a) == Negative(b) then PosInf else NegInf
    else NaN
  }

  // ---------- rounding ----------

  function LeastAbove(values: seq<real>, x: real): (r: Float)
    ensures Machine(Format(values), r) && Le(Fin(x), r)
    ensures forall v :: v in values && x <= v ==> Le(r, Fin(v))
  {
    if values == [] then PosInf
    else
      var r := LeastAbove(values[1..], x);
      if x <= values[0] && Le(Fin(values[0]), r) then Fin(values[0]) else r
  }

  /** The least machine number that is at least x. */
  function RoundUp(F: Format, x: real): (r: Float)
    ensures Machine(F, r) && Le(Fin(x), r)
    ensures forall v: Float :: Machine(F, v) && Le(Fin(x), v) ==> Le(r, v)
  {
    LeastAbove(F.values, x)
  }

  function GreatestBelow(values: seq<real>, x: real): (r: Float)
    ensures Machine(Format(values), r) && Le(r, Fin(x))
    ensures forall v :: v in values && v <= x ==> Le(Fin(v), r)
  {
    if values == [] then NegInf
    else
      var r := GreatestBelow(values[1..], x);
      if values[0] <= x && Le(r, Fin(values[0])) then Fin(values[0]) else r
  }

  /** The greatest machine number that is at most x. */
  function RoundDown(F: Format, x: real): (r: Float)
    ensures Machine(F, r) && Le(r, Fin(x))
    ensures forall v: Float :: Machine(F, v) && Le(v, Fin(x)) ==> Le(v, r)
  {
    GreatestBelow(F.values, x)
  }

  /** Rounds a possibly infinite exact result in the given direction. */
  function Round(F: Format, mode: Rounding, a: Float): (r: Float)
    requires mode != ToNearest
    ensures Machine(F, r) && (r.NaN? <==> a.NaN?)
  {
    if !a.Fin? then a
    else match mode
      case TowardZero => if a.x >= 0.0 then RoundDown(F, a.x) else RoundUp(F, a.x)
      case Upward => RoundUp(F, a.x)
      case Downward => RoundDown(F, a.x)
  }

  function Up(F: Format, a: Float): Float {
    Round(F, Upward, a)
  }

  function Down(F: Format, a: Float): Float {
    Round(F, Downward, a)
  }

  lemma UpIsLeast(F: Format, a: Float, v: Float)
    requires !a.NaN?
    ensures Le(a, Up(F, a))
    ensures Machine(F, v) && Le(a, v) ==> Le(Up(F, a), v)
  {
  }

  lemma DownIsGreatest(F: Format, a: Float, v: Float)
    requires !a.NaN?
    ensures Le(Down(F, a), a)
    ensures Machine(F, v) && Le(v, a) ==> Le(v, Down(F, a))
  {
  }

  lemma LeTransitive(a: Float, b: Float, c: Float)
    requires Le(a, b) && Le(b, c)
    ensures Le(a, c)
  {
  }

  lemma LeAntisymmetric(a: Float, b: Float)
    requires Le(a, b) && Le(b, a)
    ensures a == b
  {
  }

  lemma NegReverses(a: Float, b: Float)
    ensures Le(Neg(b), Neg(a)) == Le(a, b) && Neg(Neg(a)) == a
  {
  }

  /** Rounding up the negation and negating again rounds down: one rounding mode serves both directions. */
  lemma NegUpIsDown(F: Format, a: Float)
    requires F.Valid()
    ensures Neg(Up(F, Neg(a))) == Down(F, a)
  {
    if !a.NaN? {
      var d, u := Down(F, a), Neg(Up(F, Neg(a)));
      NegReverses(u, a);
      NegReverses(a, d);
      UpIsLeast(F, Neg(a), Neg(d));
      NegReverses(d, u);
      DownIsGreatest(F, a, u);
      LeAntisymmetric(d, u);
    }
  }

  // ---------- machine operations ----------

  function Add(F: Format, mode: Rounding, a: Float, b: Float): Float
    requires mode != ToNearest
  {
    Round(F, mode, ExactAdd(a, b))
  }

  function Sub(F: Format, mode: Rounding, a: Float, b: Float): Float
    requires mode != ToNearest
  {
    Round(F, mode, ExactAdd(a, Neg(b)))
  }

  function Mul(F: Format, mode: Rounding, a: Float, b: Float): Float
    requires mode != ToNearest
  {
    Round(F, mode, ExactMul(a, b))
  }

  function Div(F: Format, mode: Rounding, a: Float, b: Float): Float
    requires mode != ToNearest && !IsZero(b)
  {
    Round(F, mode, ExactDiv(a, b))
  }

  /** Multiplication with 0 times infinity equal to 0. */
  function MulZ(F: Format, mode: Rounding, a: Float, b: Float): Float
    requires mode != ToNearest
  {
    if IsZero(a) || IsZero(b) then Fin(0.0) else Mul(F, mode, a, b)
  }

  /** Division with 0 over anything and anything over infinity equal to 0. */
  function DivZ(F: Format, mode: Rounding, a: Float, b: Float): Float
    requires mode != ToNearest && !IsZero(b)
  {
    if IsZero(a) || b.PosInf? || b.NegInf? then Fin(0.0) else Div(F, mode, a, b)
  }

  /** The exact values these two approximate. */
  function ExactMulZ(a: Float, b: Float): Float {
    if IsZero(a) || IsZero(b) then Fin(0.0) else ExactMul(a, b)
  }

  function ExactDivZ(a: Float, b: Float): Float
    requires !IsZero(b)
  {
    if IsZero(a) || b.PosInf? || b.NegInf? then Fin(0.0) else ExactDiv(a, b)
  }

  lemma RepresentableIsExact(F: Format, x: real)
    requires x in F.values
    ensures Up(F, Fin(x)) == Fin(x) && Down(F, Fin(x)) == Fin(x)
  {
  }

  lemma NegProduct(x: real, y: real)
    ensures (-x) * y == -(x * y)
  {
  }

  lemma NegQuotient(x: real, y: real)
    requires y != 0.0
    ensures (-x) / y == -(x / y)
  {
    assert ((-x) / y) * y == -x == -((x / y) * y);
    NegProduct(x / y, y);
    assert ((-x) / y + x / y) * y == 0.0;
  }

  lemma MulZIsOdd(a: Float, b: Float)
    ensures ExactMulZ(Neg(a), b) == Neg(ExactMulZ(a, b))
  {
    if a.Fin? && b.Fin? {
      NegProduct(a.x, b.x);
    }
  }

  lemma DivZIsOdd(a: Float, b: Float)
    requires !IsZero(b)
    ensures ExactDivZ(Neg(a), b) == Neg(ExactDivZ(a, b))
  {
    if a.Fin? && b.Fin? {
      NegQuotient(a.x, b.x);
    }
  }

  lemma MulZUp(F: Format, a: Float, b: Float)
    requires F.Valid()
    ensures MulZ(F, Upward, a, b) == Up(F, ExactMulZ(a, b))
  {
  }

  lemma MulZRounds(F: Format, a: Float, b: Float)
    requires F.Valid()
    ensures MulZ(F, Upward, a, b) == Up(F, ExactMulZ(a, b))
    ensures Neg(MulZ(F, Upward, Neg(a), b)) == Down(F, ExactMulZ(a, b))
    ensures !a.NaN? && !b.NaN? ==> !ExactMulZ(a, b).NaN?
  {
    MulZUp(F, a, b);
    MulZUp(F, Neg(a), b);
    MulZIsOdd(a, b);
    NegUpIsDown(F, ExactMulZ(a, b));
  }

  lemma DivZUp(F: Format, a: Float, b: Float)
    requires F.Valid() && !IsZero(b)
    ensures DivZ(F, Upward, a, b) == Up(F, ExactDivZ(a, b))
  {
  }

  lemma DivZRounds(F: Format, a: Float, b: Float)
    requires F.Valid() && !IsZero(b)
    ensures DivZ(F, Upward, a, b) == Up(F, ExactDivZ(a, b))
    ensures Neg(DivZ(F, Upward, Neg(a), b)) == Down(F, ExactDivZ(a, b))
    ensures !a.NaN? && !b.NaN? ==> !ExactDivZ(a, b).NaN?
  {
    DivZUp(F, a, b);
    DivZUp(F, Neg(a), b);
    DivZIsOdd(a, b);
    NegUpIsDown(F, ExactDivZ(a, b));
  }

  lemma AddRounds(F: Format, a: Float, b: Float)
    requires F.Valid()
    ensures Neg(ExactAdd(Neg(a), Neg(b))) == ExactAdd(a, b)
    ensures Neg(Up(F, ExactAdd(Neg(a), Neg(b)))) == Down(F, ExactAdd(a, b))
  {
    NegUpIsDown(F, ExactAdd(a, b));
    NegReverses(ExactAdd(Neg(a), Neg(b)), a);
  }
}
