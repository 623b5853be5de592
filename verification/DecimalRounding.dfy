/** What the converted value is, in terms of the machine numbers above and below the exact one. */
module DecimalRounding {
  import opened Floats
  import opened DecimalStrings

  predicate Directed(mode: Rounding) {
    mode == Upward || mode == Downward
  }

  lemma RoundsDirected(F: Format, mode: Rounding, a: Float)
    requires Directed(mode)
    ensures Round(F, mode, a) == if mode == Upward then Up(F, a) else Down(F, a)
  {
  }

  // ---------- digits that the format holds ----------

  /** Every number that comes up while the digits are read is a machine number. */
  ghost predicate DigitsAreExact(F: Format, digits: seq<nat>)
    decreases |digits|
  {
    digits == [] ||
    var front := digits[..|digits| - 1];
    DigitsAreExact(F, front) && (Number(front) * 10) as real in F.values && Number(digits) as real in F.values
  }

  lemma {:induction false} ExactDigits(F: Format, mode: Rounding, digits: seq<nat>)
    requires Directed(mode) && DigitsAreExact(F, digits)
    ensures Accumulate(F, mode, digits) == Fin(Number(digits) as real)
    decreases |digits|
  {
    if digits != [] {
      hide Add, Mul, Number;
      var front, d := digits[..|digits| - 1], digits[|digits| - 1];
      ExactDigits(F, mode, front);
      NumberGrows(digits);
      ExactStep(F, mode, Number(front), d, Number(digits));
    }
  }

  lemma NumberGrows(digits: seq<nat>)
    requires digits != []
    ensures Number(digits) == Number(digits[..|digits| - 1]) * 10 + digits[|digits| - 1]
  {
  }

  lemma ExactStep(F: Format, mode: Rounding, n: nat, d: nat, m: nat)
    requires Directed(mode) && m == n * 10 + d && (n * 10) as real in F.values && m as real in F.values
    ensures Add(F, mode, Mul(F, mode, Fin(n as real), Fin(10.0)), Fin(d as real)) == Fin(m as real)
  {
    hide Round;
    var x, y := n as real * 10.0, m as real;
    assert x == (n * 10) as real && y == x + d as real;
    RepresentableIsExact(F, x);
    RepresentableIsExact(F, y);
    RoundsDirected(F, mode, Fin(x));
    RoundsDirected(F, mode, Fin(y));
    assert ExactMul(Fin(n as real), Fin(10.0)) == Fin(x);
    assert ExactAdd(Fin(x), Fin(d as real)) == Fin(y);
  }

  /** m with the sign of t. */
  function Signed(t: Token, m: real): real {
    if t.neg then -m else m
  }

  lemma ProductOfFinite(n: real, p: real, m: real)
    requires m == n * p
    ensures ExactMul(Fin(n), Fin(p)) == Fin(m)
  {
  }

  /** If reading the digits is exact, the result is the exact product with pow, rounded once. */
  lemma ConvertedRoundsOnce(F: Format, up: bool, t: Token, pow: real, product: real)
    requires F.Valid() && DigitsAreExact(F, t.digits) && product == Number(t.digits) as real * pow
    ensures Converted(F, up, t, Fin(pow)) ==
            if up then Up(F, Fin(Signed(t, product))) else Down(F, Fin(Signed(t, product)))
  {
    hide Round, Accumulate, Number, DigitsAreExact;
    var mode := ModeFor(up, t.neg);
    ExactDigits(F, mode, t.digits);
    ProductOfFinite(Number(t.digits) as real, pow, product);
    assert Mul(F, mode, Accumulate(F, mode, t.digits), Fin(pow)) == Round(F, mode, Fin(product));
    RoundsDirected(F, mode, Fin(product));
    NegatedRounding(F, product, -product);
  }

  lemma NegatedRounding(F: Format, x: real, y: real)
    requires F.Valid() && y == -x
    ensures Neg(Down(F, Fin(x))) == Up(F, Fin(y)) && Neg(Up(F, Fin(x))) == Down(F, Fin(y))
  {
    hide Round;
    assert Neg(Fin(x)) == Fin(y) && Neg(Fin(y)) == Fin(x);
    NegUpIsDown(F, Fin(x));
    NegUpIsDown(F, Fin(y));
    NegReverses(Up(F, Fin(y)), Up(F, Fin(y)));
  }

  function Product(t: Token, p: real): real {
    Number(t.digits) as real * p
  }

  function Rounded(F: Format, up: bool, x: real): Float {
    if up then Up(F, Fin(x)) else Down(F, Fin(x))
  }

  /** If reading the digits of t is exact, r is their product with p rounded once, with the sign; and if p is the power
      of ten as well, r is the number read rounded once. */
  ghost predicate RoundsOnce(F: Format, up: bool, t: Token, p: real, r: Float) {
    DigitsAreExact(F, t.digits) ==>
      r == Rounded(F, up, Signed(t, Product(t, p))) && (p == Power(t.exponent) ==> r == Rounded(F, up, Value(t)))
  }

  lemma ConversionRoundsOnce(F: Format, up: bool, t: Token, p: real)
    requires F.Valid()
    ensures RoundsOnce(F, up, t, p, Converted(F, up, t, Fin(p)))
  {
    hide Round, Converted, Power, Number, DigitsAreExact;
    if DigitsAreExact(F, t.digits) {
      ConvertedRoundsOnce(F, up, t, p, Product(t, p));
    }
  }

  // ---------- the tightest that digit-by-digit reading can do ----------

  /** Machine numbers that stay above the exact results of multiplying by ten and adding a digit. */
  ghost predicate StaysAbove(F: Format, digits: seq<nat>, sums: seq<Float>, tens: seq<Float>) {
    && |sums| == |digits| + 1 && |tens| == |digits| && Le(Fin(0.0), sums[0])
    && forall i :: 0 <= i < |digits| ==> StepsAbove(F, digits[i], sums[i], tens[i], sums[i + 1])
  }

  ghost predicate StepsAbove(F: Format, d: nat, sum: Float, ten: Float, next: Float) {
    && Machine(F, ten) && Machine(F, next)
    && Le(ExactMul(sum, Fin(10.0)), ten) && Le(ExactAdd(ten, Fin(d as real)), next)
  }

  ghost predicate StaysBelow(F: Format, digits: seq<nat>, sums: seq<Float>, tens: seq<Float>) {
    && |sums| == |digits| + 1 && |tens| == |digits| && Le(sums[0], Fin(0.0))
    && forall i :: 0 <= i < |digits| ==> StepsBelow(F, digits[i], sums[i], tens[i], sums[i + 1])
  }

  ghost predicate StepsBelow(F: Format, d: nat, sum: Float, ten: Float, next: Float) {
    && Machine(F, ten) && Machine(F, next)
    && Le(ten, ExactMul(sum, Fin(10.0))) && Le(next, ExactAdd(ten, Fin(d as real)))
  }

  lemma TenTimes(a: Float, b: Float)
    requires Le(a, b)
    ensures Le(ExactMul(a, Fin(10.0)), ExactMul(b, Fin(10.0)))
  {
  }

  lemma AddDigit(a: Float, b: Float, d: nat)
    requires Le(a, b)
    ensures Le(ExactAdd(a, Fin(d as real)), ExactAdd(b, Fin(d as real)))
  {
  }

  lemma StepIsLeast(F: Format, d: nat, a: Float, sum: Float, ten: Float, next: Float)
    requires Le(a, sum) && StepsAbove(F, d, sum, ten, next)
    ensures Le(Add(F, Upward, Mul(F, Upward, a, Fin(10.0)), Fin(d as real)), next)
  {
    hide Round, ExactMul, ExactAdd;
    TenTimes(a, sum);
    var e := ExactMul(a, Fin(10.0));
    LeTransitive(e, ExactMul(sum, Fin(10.0)), ten);
    UpIsLeast(F, e, ten);
    AddDigit(Up(F, e), ten, d);
    var x := ExactAdd(Up(F, e), Fin(d as real));
    LeTransitive(x, ExactAdd(ten, Fin(d as real)), next);
    UpIsLeast(F, x, next);
  }

  lemma StepIsGreatest(F: Format, d: nat, a: Float, sum: Float, ten: Float, next: Float)
    requires Le(sum, a) && StepsBelow(F, d, sum, ten, next)
    ensures Le(next, Add(F, Downward, Mul(F, Downward, a, Fin(10.0)), Fin(d as real)))
  {
    hide Round, ExactMul, ExactAdd;
    TenTimes(sum, a);
    var e := ExactMul(a, Fin(10.0));
    LeTransitive(ten, ExactMul(sum, Fin(10.0)), e);
    DownIsGreatest(F, e, ten);
    AddDigit(ten, Down(F, e), d);
    var x := ExactAdd(Down(F, e), Fin(d as real));
    LeTransitive(next, ExactAdd(ten, Fin(d as real)), x);
    DownIsGreatest(F, x, next);
  }

  lemma {:induction false} AccumulateIsLeast(F: Format, digits: seq<nat>, sums: seq<Float>, tens: seq<Float>)
    requires StaysAbove(F, digits, sums, tens)
    ensures Le(Accumulate(F, Upward, digits), sums[|digits|])
    decreases |digits|
  {
    hide Add, Mul, StepsAbove;
    if digits != [] {
      var k := |digits| - 1;
      AccumulateIsLeast(F, digits[..k], sums[..k + 1], tens[..k]);
      StepIsLeast(F, digits[k], Accumulate(F, Upward, digits[..k]), sums[k], tens[k], sums[k + 1]);
    }
  }

  lemma {:induction false} AccumulateIsGreatest(F: Format, digits: seq<nat>, sums: seq<Float>, tens: seq<Float>)
    requires StaysBelow(F, digits, sums, tens)
    ensures Le(sums[|digits|], Accumulate(F, Downward, digits))
    decreases |digits|
  {
    hide Add, Mul, StepsBelow;
    if digits != [] {
      var k := |digits| - 1;
      AccumulateIsGreatest(F, digits[..k], sums[..k + 1], tens[..k]);
      StepIsGreatest(F, digits[k], Accumulate(F, Downward, digits[..k]), sums[k], tens[k], sums[k + 1]);
    }
  }

  lemma NotNaNSteps(F: Format, mode: Rounding, a: Float, d: nat)
    requires Directed(mode) && !a.NaN?
    ensures var ten := Mul(F, mode, a, Fin(10.0));
            var next := Add(F, mode, ten, Fin(d as real));
            !next.NaN? && (mode == Upward ==> StepsAbove(F, d, a, ten, next)) &&
            (mode == Downward ==> StepsBelow(F, d, a, ten, next))
  {
    hide Round;
    var e := ExactMul(a, Fin(10.0));
    RoundsDirected(F, mode, e);
    UpIsLeast(F, e, e);
    DownIsGreatest(F, e, e);
    var x := ExactAdd(Round(F, mode, e), Fin(d as real));
    RoundsDirected(F, mode, x);
    UpIsLeast(F, x, x);
    DownIsGreatest(F, x, x);
  }

  lemma {:induction false} AccumulateStays(F: Format, mode: Rounding, digits: seq<nat>)
    returns (sums: seq<Float>, tens: seq<Float>)
    requires Directed(mode)
    ensures !Accumulate(F, mode, digits).NaN?
    ensures mode == Upward ==> StaysAbove(F, digits, sums, tens) && sums[|digits|] == Accumulate(F, mode, digits)
    ensures mode == Downward ==> StaysBelow(F, digits, sums, tens) && sums[|digits|] == Accumulate(F, mode, digits)
    decreases |digits|
  {
    hide Add, Mul, StepsAbove, StepsBelow;
    if digits == [] {
      sums, tens := [Fin(0.0)], [];
    } else {
      var k := |digits| - 1;
      sums, tens := AccumulateStays(F, mode, digits[..k]);
      var a := Accumulate(F, mode, digits[..k]);
      NotNaNSteps(F, mode, a, digits[k]);
      var ten := Mul(F, mode, a, Fin(10.0));
      tens := tens + [ten];
      sums := sums + [Add(F, mode, ten, Fin(digits[k] as real))];
    }
  }

  lemma TimesPow(a: Float, b: Float, pow: real)
    requires Le(a, b) && pow >= 0.0
    requires !ExactMul(a, Fin(pow)).NaN? && !ExactMul(b, Fin(pow)).NaN?
    ensures Le(ExactMul(a, Fin(pow)), ExactMul(b, Fin(pow)))
  {
    if a.Fin? && b.Fin? {
      OrderedProducts(a.x, b.x, pow);
    }
  }

  lemma OrderedProducts(a: real, b: real, pow: real)
    requires a <= b && pow >= 0.0
    ensures a * pow <= b * pow
  {
  }

  /** m is the least machine number that is above the product of pow with numbers that stay above. */
  ghost predicate LeastAbovePow(F: Format, digits: seq<nat>, pow: Float, m: Float) {
    && Machine(F, m)
    && (exists sums, tens :: StaysAbove(F, digits, sums, tens) && Le(ExactMul(sums[|digits|], pow), m))
    && (forall sums, tens, x ::
          StaysAbove(F, digits, sums, tens) && Machine(F, x) && Le(ExactMul(sums[|digits|], pow), x) ==> Le(m, x))
  }

  ghost predicate GreatestBelowPow(F: Format, digits: seq<nat>, pow: Float, m: Float) {
    && Machine(F, m)
    && (exists sums, tens :: StaysBelow(F, digits, sums, tens) && Le(m, ExactMul(sums[|digits|], pow)))
    && (forall sums, tens, x ::
          StaysBelow(F, digits, sums, tens) && Machine(F, x) && Le(x, ExactMul(sums[|digits|], pow)) ==> Le(x, m))
  }

  /** r is the tightest result on the side asked for that reading digit by digit and one product with pow allow. */
  ghost predicate IsTightest(F: Format, up: bool, t: Token, pow: Float, r: Float) {
    var m := if t.neg then Neg(r) else r;
    if up != t.neg then LeastAbovePow(F, t.digits, pow, m) else GreatestBelowPow(F, t.digits, pow, m)
  }

  lemma ProductIsLeast(F: Format, digits: seq<nat>, pow: real)
    requires F.Valid() && pow > 0.0
    ensures LeastAbovePow(F, digits, Fin(pow), Mul(F, Upward, Accumulate(F, Upward, digits), Fin(pow)))
  {
    hide Round, Accumulate, StepsAbove, ExactMul;
    var a := Accumulate(F, Upward, digits);
    var sums, tens := AccumulateStays(F, Upward, digits);
    var e := ExactMul(a, Fin(pow));
    NumericProduct(a, pow);
    UpIsLeast(F, e, e);
    forall sums, tens, x
      | StaysAbove(F, digits, sums, tens) && Machine(F, x) &&
        Le(ExactMul(sums[|digits|], Fin(pow)), x)
      ensures Le(Up(F, e), x)
    {
      AccumulateIsLeast(F, digits, sums, tens);
      TimesPow(a, sums[|digits|], pow);
      LeTransitive(e, ExactMul(sums[|digits|], Fin(pow)), x);
      UpIsLeast(F, e, x);
    }
  }

  lemma NumericProduct(a: Float, pow: real)
    requires !a.NaN? && (a.Fin? || pow > 0.0)
    ensures !ExactMul(a, Fin(pow)).NaN?
  {
  }

  lemma ProductIsGreatest(F: Format, digits: seq<nat>, pow: real)
    requires F.Valid() && pow >= 0.0 && Accumulate(F, Downward, digits).Fin?
    ensures GreatestBelowPow(F, digits, Fin(pow), Mul(F, Downward, Accumulate(F, Downward, digits), Fin(pow)))
  {
    hide Round, Accumulate, StepsBelow, ExactMul;
    var a := Accumulate(F, Downward, digits);
    var sums, tens := AccumulateStays(F, Downward, digits);
    var e := ExactMul(a, Fin(pow));
    NumericProduct(a, pow);
    DownIsGreatest(F, e, e);
    forall sums, tens, x
      | StaysBelow(F, digits, sums, tens) && Machine(F, x) &&
        Le(x, ExactMul(sums[|digits|], Fin(pow)))
      ensures Le(x, Down(F, e))
    {
      AccumulateIsGreatest(F, digits, sums, tens);
      TimesPow(sums[|digits|], a, pow);
      LeTransitive(x, ExactMul(sums[|digits|], Fin(pow)), e);
      DownIsGreatest(F, e, x);
    }
  }

  /** The converted value is the tightest. */
  lemma ConvertedIsTightest(F: Format, up: bool, t: Token, pow: real)
    requires F.Valid() && PowerIn(ModeFor(up, t.neg), t.exponent, Fin(pow))
    requires Accumulate(F, Downward, t.digits).Fin?
    ensures IsTightest(F, up, t, Fin(pow), Converted(F, up, t, Fin(pow)))
  {
    hide Round, Accumulate, Mul, LeastAbovePow, GreatestBelowPow, Power;
    var mode := ModeFor(up, t.neg);
    var m := Mul(F, mode, Accumulate(F, mode, t.digits), Fin(pow));
    NegReverses(m, m);
    if mode == Upward {
      assert Power(t.exponent) > 0.0;
      ProductIsLeast(F, t.digits, pow);
    } else {
      ProductIsGreatest(F, t.digits, pow);
    }
  }

  /** At most one number is the tightest. */
  lemma TightestIsUnique(F: Format, up: bool, t: Token, pow: Float, r: Float, r': Float)
    requires IsTightest(F, up, t, pow, r) && IsTightest(F, up, t, pow, r')
    ensures r == r'
  {
    hide StepsAbove, StepsBelow, ExactMul;
    var m, m' := if t.neg then Neg(r) else r, if t.neg then Neg(r') else r';
    NegReverses(r, r);
    NegReverses(r', r');
    LeAntisymmetric(m, m');
  }
}
