/** Single-precision conversions: the text is parsed in double precision and the result rounded once more. */
module SingleStrings {
  import opened Floats
  import opened Intervals
  import opened DecimalStrings
  import opened DecimalRounding
  import opened DecimalLiterals
  import opened Powers
  import opened BinaryRange

  /** Every single-precision number is a double-precision number. */
  ghost predicate Narrower(S: Format, D: Format) {
    forall x :: x in S.values ==> x in D.values
  }

  method OfStringSingleUp(fpu: Fpu, single: Format, text: string, pow: (Rounding, int) -> Float) returns (r: Float)
    requires fpu.format.Valid()
    requires var mode, t := ModeFor(true, Scan(text).neg), Scan(text); PowerIn(mode, t.exponent, pow(mode, t.exponent))
    modifies fpu`mode
    ensures fpu.mode == Upward && Machine(single, r) && Le(Fin(Value(Scan(text))), r)
    ensures var mode, t := ModeFor(true, Scan(text).neg), Scan(text); var p := pow(mode, t.exponent);
            exists f ::
              IsTightest(fpu.format, true, t, p, f) && RoundsOnce(fpu.format, true, t, p.x, f) && r == Up(single, f)
  {
    hide Round, Value, Scan, Number, Power, IsTightest, RoundsOnce;
    var f := OfStringUp(fpu, text, pow);
    fpu.mode := Upward;
    r := Round(single, fpu.mode, f);
    UpIsLeast(single, f, f);
    LeTransitive(Fin(Value(Scan(text))), f, r);
  }

  /** The first conversion rounds upward here as well: a single between the number read and the result of that
      conversion makes the final result too large, and nothing else does. */
  method OfStringSingleDown(fpu: Fpu, single: Format, text: string, pow: (Rounding, int) -> Float) returns (r: Float)
    modifies fpu`mode
    ensures fpu.mode == Downward
    ensures var t := Scan(text);
            var first := Converted(fpu.format, true, t, pow(ModeFor(true, t.neg), t.exponent));
            r == Down(single, first) &&
            (!first.NaN? ==> (Le(r, Fin(Value(t))) <==> !SingleBetween(single, Value(t), first)))
    ensures var mode, t := ModeFor(true, Scan(text).neg), Scan(text); var p := pow(mode, t.exponent);
            fpu.format.Valid() && PowerIn(mode, t.exponent, p) ==>
              exists f ::
                IsTightest(fpu.format, true, t, p, f) && RoundsOnce(fpu.format, true, t, p.x, f) && r == Down(single, f)
  {
    hide Round, Converted, Scan, Value, IsTightest, RoundsOnce, PowerIn, Accumulate, Number, Power;
    var f := ParseString(fpu, true, text, pow);
    if fpu.format.Valid() && PowerIn(fpu.mode, Scan(text).exponent, pow(fpu.mode, Scan(text).exponent)) {
      FirstConversion(fpu.format, Scan(text), pow(fpu.mode, Scan(text).exponent));
    }
    fpu.mode := Downward;
    r := Round(single, fpu.mode, f);
    if !f.NaN? {
      LowerIffNoneBetween(single, Value(Scan(text)), f);
    }
  }

  lemma FirstConversion(D: Format, t: Token, pow: Float)
    requires D.Valid() && PowerIn(ModeFor(true, t.neg), t.exponent, pow)
    ensures pow.Fin? && IsTightest(D, true, t, pow, Converted(D, true, t, pow))
    ensures RoundsOnce(D, true, t, pow.x, Converted(D, true, t, pow))
  {
    hide Round, Converted, Value, IsTightest, RoundsOnce, Accumulate, Number, Power;
    AccumulateBounds(D, t.digits);
    ConvertedIsTightest(D, true, t, pow.x);
    ConversionRoundsOnce(D, true, t, pow.x);
  }

  /** Some single, possibly infinite, lies above v and at or below f. */
  ghost predicate SingleBetween(single: Format, v: real, f: Float) {
    exists y: Float :: Machine(single, y) && !y.NaN? && !Le(y, Fin(v)) && Le(y, f)
  }

  lemma LowerIffNoneBetween(single: Format, v: real, f: Float)
    requires !f.NaN?
    ensures Le(Down(single, f), Fin(v)) <==> !SingleBetween(single, v, f)
  {
    hide Round;
    var r := Down(single, f);
    DownIsGreatest(single, f, f);
    assert Machine(single, r);
    if Le(r, Fin(v)) {
      forall y: Float | Machine(single, y) && Le(y, f) ensures Le(y, Fin(v)) {
        DownIsGreatest(single, f, y);
        LeTransitive(y, r, Fin(v));
      }
    }
  }

  // ---------- when the result is not a lower bound ----------

  ghost predicate LowerBound(D: Format, S: Format, t: Token, pow: Float) {
    Le(Down(S, Converted(D, true, t, pow)), Fin(Value(t)))
  }

  lemma ConvertedIsMachine(D: Format, up: bool, t: Token, pow: Float)
    requires D.Valid()
    ensures Machine(D, Converted(D, up, t, pow))
  {
    hide Accumulate;
  }

  /** Where the least double above the number read is a single, and not that number itself, the result is too large,
      however the first conversion rounds. */
  lemma SingleAboveOvershoots(D: Format, S: Format, t: Token, pow: Float)
    requires D.Valid() && PowerIn(ModeFor(true, t.neg), t.exponent, pow)
    requires Machine(S, Up(D, Fin(Value(t)))) && Up(D, Fin(Value(t))) != Fin(Value(t))
    ensures !LowerBound(D, S, t, pow)
  {
    hide Round, Converted, Value;
    var v, u, c := Value(t), Up(D, Fin(Value(t))), Converted(D, true, t, pow);
    ConvertedBounds(D, true, t, pow);
    ConvertedIsMachine(D, true, t, pow);
    UpIsLeast(D, Fin(v), c);
    LowerIffNoneBetween(S, v, c);
    if Le(u, Fin(v)) {
      LeAntisymmetric(u, Fin(v));
    }
  }

  // ---------- for which texts the result is a lower bound for every admissible pow ----------

  lemma {:induction false} ZeroIsAccumulated(F: Format, mode: Rounding, digits: seq<nat>)
    requires F.Valid() && (mode == Upward || mode == Downward) && Number(digits) == 0
    ensures Accumulate(F, mode, digits) == Fin(0.0)
  {
    hide Round;
    RepresentableIsExact(F, 0.0);
    if digits != [] {
      ZeroIsAccumulated(F, mode, digits[..|digits| - 1]);
      assert ExactMul(Fin(0.0), Fin(10.0)) == Fin(0.0) && ExactAdd(Fin(0.0), Fin(0.0)) == Fin(0.0);
    }
  }

  /** Zero is converted exactly, whatever the formats and the finite pow. */
  lemma ZeroIsSafe(D: Format, S: Format, t: Token, pow: Float)
    requires D.Valid() && S.Valid() && Number(t.digits) == 0 && pow.Fin?
    ensures LowerBound(D, S, t, pow)
  {
    hide Round, Accumulate, Mul, Power, Number, Magnitude;
    var mode := ModeFor(true, t.neg);
    ZeroIsAccumulated(D, mode, t.digits);
    RepresentableIsExact(S, 0.0);
    ExactProduct(D, mode, 0.0, pow.x, 0.0);
    MagnitudeIs(t, 0.0, Power(t.exponent));
    assert Magnitude(t) == 0.0;
    assert Converted(D, true, t, pow) == Fin(0.0);
  }

  lemma {:induction false} Greatest(values: seq<real>) returns (top: real)
    ensures forall x :: x in values ==> x <= top
  {
    if values == [] {
      top := 0.0;
    } else {
      var rest := Greatest(values[1..]);
      top := if rest < values[0] then values[0] else rest;
      assert values == [values[0]] + values[1..];
    }
  }

  lemma AboveAllIsInfinite(F: Format, x: real)
    requires forall y :: y in F.values ==> y < x
    ensures Up(F, Fin(x)) == PosInf
  {
    UpIsLeast(F, Fin(x), PosInf);
  }

  lemma LargeProduct(F: Format, m: Float, q: real)
    requires Le(Fin(1.0), m) && q > 0.0 && forall y :: y in F.values ==> y < q
    ensures Mul(F, Upward, m, Fin(q)) == PosInf
  {
    if m.Fin? {
      LargeFiniteProduct(F, m.x, q);
    }
  }

  lemma LargeFiniteProduct(F: Format, x: real, q: real)
    requires 1.0 <= x && q > 0.0 && forall y :: y in F.values ==> y < q
    ensures Mul(F, Upward, Fin(x), Fin(q)) == PosInf
  {
    hide Round;
    ProductMonotone(1.0, x, q);
    ProductIsFinite(x, q);
    AboveAllIsInfinite(F, x * q);
  }

  lemma ProductMonotone(x: real, y: real, q: real)
    requires x <= y && q > 0.0
    ensures x * q <= y * q
  {
  }

  /** A power that errs far enough upward makes a positive number infinite. */
  lemma PositiveOvershoots(D: Format, S: Format, t: Token) returns (pow: Float)
    requires D.Valid() && Number(t.digits) > 0 && !t.neg
    ensures PowerIn(ModeFor(true, t.neg), t.exponent, pow) && !LowerBound(D, S, t, pow)
  {
    hide Round, Accumulate, Mul, Power, Number, Value;
    var top := Greatest(D.values);
    var p := Power(t.exponent);
    var q := p + (if top < 0.0 then 0.0 else top) + 1.0;
    pow := Fin(q);
    AccumulateBounds(D, t.digits);
    LeTransitive(Fin(1.0), Fin(Number(t.digits) as real), Accumulate(D, Upward, t.digits));
    LargeProduct(D, Accumulate(D, Upward, t.digits), q);
    assert Converted(D, true, t, pow) == PosInf;
    InfinityIsNoLowerBound(D, S, t, pow);
  }

  lemma InfinityIsNoLowerBound(D: Format, S: Format, t: Token, pow: Float)
    requires Converted(D, true, t, pow) == PosInf
    ensures Down(S, Converted(D, true, t, pow)) == PosInf && !LowerBound(D, S, t, pow)
  {
    hide Converted, Value;
  }

  /** A power that errs far enough downward makes a negative number zero. */
  lemma NegativeOvershoots(D: Format, S: Format, t: Token) returns (pow: Float)
    requires D.Valid() && S.Valid() && Number(t.digits) > 0 && t.neg
    ensures PowerIn(ModeFor(true, t.neg), t.exponent, pow) && !LowerBound(D, S, t, pow)
  {
    hide Round, Accumulate, Mul, Power, Number, Magnitude;
    pow := Fin(0.0);
    var n, p := Number(t.digits) as real, Power(t.exponent);
    AccumulateBounds(D, t.digits);
    RepresentableIsExact(D, 0.0);
    RepresentableIsExact(S, 0.0);
    ExactProduct(D, Downward, Accumulate(D, Downward, t.digits).x, 0.0, 0.0);
    MagnitudeIs(t, n, p);
    StrictScale(n, 0.0, p);
    assert Magnitude(t) > 0.0;
    assert Converted(D, true, t, pow) == Fin(0.0);
  }

  /** In any pair of formats, only texts that read as zero are bounded from below for every admissible pow. */
  lemma LowerBoundForEveryPowIff(D: Format, S: Format, t: Token)
    requires D.Valid() && S.Valid()
    ensures (forall pow: Float :: PowerIn(ModeFor(true, t.neg), t.exponent, pow) ==> LowerBound(D, S, t, pow)) <==>
            Number(t.digits) == 0
  {
    hide Number, LowerBound;
    if Number(t.digits) == 0 {
      forall pow: Float | PowerIn(ModeFor(true, t.neg), t.exponent, pow) ensures LowerBound(D, S, t, pow) {
        ZeroIsSafe(D, S, t, pow);
      }
    } else if t.neg {
      var pow := NegativeOvershoots(D, S, t);
    } else {
      var pow := PositiveOvershoots(D, S, t);
    }
  }

  // ---------- for which numbers, if the first conversion is correctly rounded ----------

  /** Rounding the least double above v down again bounds v from below only if v is a double or that double is
      no single: otherwise the second rounding does nothing. */
  lemma SingleDownIsLowerIff(D: Format, S: Format, v: real)
    requires D.Valid() && S.Valid() && Narrower(S, D)
    ensures Le(Down(S, Up(D, Fin(v))), Fin(v)) <==> Up(D, Fin(v)) == Fin(v) || !Machine(S, Up(D, Fin(v)))
  {
    hide Round;
    var u := Up(D, Fin(v));
    UpIsLeast(D, Fin(v), u);
    LowerIffNoneBetween(S, v, u);
    if Machine(S, u) && u != Fin(v) {
      assert Machine(S, u) && Le(u, u);
    } else if SingleBetween(S, v, u) {
      var y: Float :| Machine(S, y) && !y.NaN? && !Le(y, Fin(v)) && Le(y, u);
      assert Machine(D, y);
      UpIsLeast(D, Fin(v), y);
      LeAntisymmetric(u, y);
    }
  }

  // ---------- a text ----------

  lemma HugeIsScanned()
    ensures Scan("10e308") == Token(false, [1, 0], 308)
  {
    hide Number;
    assert TakeDigits("308") == [3, 0, 8];
    AppendedDigit([], 3);
    AppendedDigit([3], 0);
    AppendedDigit([3, 0], 8);
    assert [] + [3] == [3] && [3] + [0] == [3, 0] && [3, 0] + [8] == [3, 0, 8];
  }

  lemma AppendedDigit(ds: seq<nat>, d: nat)
    ensures Number(ds + [d]) == Number(ds) * 10 + d && Number([]) == 0
  {
  }

  /** Every binary64 number is below 2^1024, and that is below 10e308. */
  lemma BinaryIsBelowHuge()
    ensures Pow2(1024) as real < Value(Scan("10e308"))
  {
    hide Scan, Pow2, Pow10, Number;
    HugeIsScanned();
    AppendedDigit([], 1);
    AppendedDigit([1], 0);
    assert [] + [1] == [1] && [1] + [0] == [1, 0];
    DoublesAreSmall();
  }

  /** The text 10e308 is read as infinity in every format whose numbers all lie below it. */
  lemma HugeOvershoots(D: Format, S: Format, pow: Float)
    requires D.Valid() && PowerIn(Upward, 308, pow)
    requires forall x :: x in D.values ==> x < Value(Scan("10e308"))
    ensures Down(S, Converted(D, true, Scan("10e308"), pow)) == PosInf && !LowerBound(D, S, Scan("10e308"), pow)
  {
    hide Round, Converted, Value, Scan;
    HugeIsScanned();
    var t := Scan("10e308");
    ConvertedBounds(D, true, t, pow);
    ConvertedIsMachine(D, true, t, pow);
    assert Converted(D, true, t, pow) == PosInf;
    InfinityIsNoLowerBound(D, S, t, pow);
  }
}
