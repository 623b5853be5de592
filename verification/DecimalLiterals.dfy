/** Decimal literals, how they are written, and when the converted value lies on the promised
    side of the number the literal denotes. */
module DecimalLiterals {
  import opened Floats
  import opened DecimalStrings
  import opened DecimalRounding
  import opened Intervals
  import opened Options

  // ---------- rounding bounds ----------

  lemma Scale(a: real, b: real, k: real)
    requires a <= b && k >= 0.0
    ensures a * k <= b * k
  {
  }

  lemma {:induction false} AccumulateBounds(F: Format, digits: seq<nat>)
    requires F.Valid()
    ensures Le(Fin(Number(digits) as real), Accumulate(F, Upward, digits))
    ensures Le(Fin(0.0), Accumulate(F, Downward, digits))
    ensures Le(Accumulate(F, Downward, digits), Fin(Number(digits) as real))
  {
    if digits != [] {
      var front, d := digits[..|digits| - 1], digits[|digits| - 1];
      AccumulateBounds(F, front);
      StepUp(F, Accumulate(F, Upward, front), Number(front) as real, d as real);
      StepDown(F, Accumulate(F, Downward, front), Number(front) as real, d as real);
    }
  }

  lemma StepUp(F: Format, m: Float, x: real, d: real)
    requires Le(Fin(x), m) && d >= 0.0
    ensures Le(Fin(x * 10.0 + d), Add(F, Upward, Mul(F, Upward, m, Fin(10.0)), Fin(d)))
  {
    var p := ExactMul(m, Fin(10.0));
    assert Le(Fin(x * 10.0), p);
    UpIsLeast(F, p, p);
    LeTransitive(Fin(x * 10.0), p, Up(F, p));
    var q := ExactAdd(Up(F, p), Fin(d));
    UpIsLeast(F, q, q);
    LeTransitive(Fin(x * 10.0 + d), q, Up(F, q));
  }

  lemma StepDown(F: Format, m: Float, x: real, d: real)
    requires F.Valid() && Le(Fin(0.0), m) && Le(m, Fin(x)) && d >= 0.0
    ensures var r := Add(F, Downward, Mul(F, Downward, m, Fin(10.0)), Fin(d));
            Le(Fin(0.0), r) && Le(r, Fin(x * 10.0 + d))
  {
    var p := ExactMul(m, Fin(10.0));
    assert p == Fin(m.x * 10.0);
    DownIsGreatest(F, p, Fin(0.0));
    var q := ExactAdd(Down(F, p), Fin(d));
    DownIsGreatest(F, q, Fin(0.0));
  }

  lemma ScaleBoth(a: real, b: real, p: real, q: real)
    requires 0.0 <= a <= b && 0.0 <= p <= q
    ensures 0.0 <= a * p <= b * q
  {
    Scale(a, b, p);
    Scale(p, q, b);
    Scale(0.0, a, p);
  }

  lemma ProductUp(F: Format, m: Float, n: real, pow: real, p: real)
    requires Le(Fin(n), m) && n >= 0.0 && 0.0 < p <= pow
    ensures Le(Fin(n * p), Mul(F, Upward, m, Fin(pow)))
  {
    var e := ExactMul(m, Fin(pow));
    if m.Fin? {
      ScaleBoth(n, m.x, p, pow);
      assert e == Fin(m.x * pow);
    }
    UpIsLeast(F, e, e);
    LeTransitive(Fin(n * p), e, Up(F, e));
  }

  lemma ProductDown(F: Format, m: Float, n: real, pow: real, p: real)
    requires Le(Fin(0.0), m) && Le(m, Fin(n)) && 0.0 <= pow <= p
    ensures Le(Mul(F, Downward, m, Fin(pow)), Fin(n * p))
  {
    var e := ExactMul(m, Fin(pow));
    ScaleBoth(m.x, n, pow, p);
    assert e == Fin(m.x * pow);
    DownIsGreatest(F, e, e);
    LeTransitive(Down(F, e), e, Fin(n * p));
  }

  lemma MagnitudeIs(t: Token, n: real, p: real)
    requires n == Number(t.digits) as real && p == Power(t.exponent)
    ensures Magnitude(t) == n * p
  {
  }

  lemma MagnitudeUp(F: Format, t: Token, n: real, pow: real, p: real)
    requires F.Valid() && 0.0 < p <= pow && n == Number(t.digits) as real
    ensures Le(Fin(n * p), Mul(F, Upward, Accumulate(F, Upward, t.digits), Fin(pow)))
  {
    AccumulateBounds(F, t.digits);
    ProductUp(F, Accumulate(F, Upward, t.digits), n, pow, p);
  }

  lemma MagnitudeDown(F: Format, t: Token, n: real, pow: real, p: real)
    requires F.Valid() && 0.0 <= pow <= p && n == Number(t.digits) as real
    ensures Le(Mul(F, Downward, Accumulate(F, Downward, t.digits), Fin(pow)), Fin(n * p))
  {
    AccumulateBounds(F, t.digits);
    ProductDown(F, Accumulate(F, Downward, t.digits), n, pow, p);
  }

  /** Converting upward never falls below the number read, converting downward never rises above it. */
  lemma ConvertedBounds(F: Format, up: bool, t: Token, pow: Float)
    requires F.Valid() && PowerIn(ModeFor(up, t.neg), t.exponent, pow)
    ensures up ==> Le(Fin(Value(t)), Converted(F, up, t, pow))
    ensures !up ==> Le(Converted(F, up, t, pow), Fin(Value(t)))
  {
    var mode := ModeFor(up, t.neg);
    var m := Mul(F, mode, Accumulate(F, mode, t.digits), pow);
    var n, p := Number(t.digits) as real, Power(t.exponent);
    MagnitudeIs(t, n, p);
    if mode == Upward {
      MagnitudeUp(F, t, n, pow.x, p);
    } else {
      MagnitudeDown(F, t, n, pow.x, p);
    }
    NegReverses(Fin(Magnitude(t)), m);
    NegReverses(m, Fin(Magnitude(t)));
    assert Value(t) == if t.neg then -Magnitude(t) else Magnitude(t);
  }

  /** The number read from text, rounded towards plus infinity. */
  method OfStringUp(fpu: Fpu, text: string, pow: (Rounding, int) -> Float) returns (r: Float)
    requires fpu.format.Valid()
    requires var mode, t := ModeFor(true, Scan(text).neg), Scan(text); PowerIn(mode, t.exponent, pow(mode, t.exponent))
    modifies fpu`mode
    ensures Le(Fin(Value(Scan(text))), r)
    ensures var mode, t := ModeFor(true, Scan(text).neg), Scan(text);
            IsTightest(fpu.format, true, t, pow(mode, t.exponent), r)
    ensures var mode, t := ModeFor(true, Scan(text).neg), Scan(text);
            RoundsOnce(fpu.format, true, t, pow(mode, t.exponent).x, r)
  {
    hide Round, Accumulate, Scan, Number, Power, Converted, IsTightest, RoundsOnce;
    r := ParseString(fpu, true, text, pow);
    ghost var t := Scan(text);
    ghost var p := pow(fpu.mode, t.exponent).x;
    assert pow(fpu.mode, t.exponent) == Fin(p);
    ConvertedBounds(fpu.format, true, t, Fin(p));
    AccumulateBounds(fpu.format, t.digits);
    ConvertedIsTightest(fpu.format, true, t, p);
    ConversionRoundsOnce(fpu.format, true, t, p);
  }

  /** The number read from text, rounded towards minus infinity. */
  method OfStringDown(fpu: Fpu, text: string, pow: (Rounding, int) -> Float) returns (r: Float)
    requires fpu.format.Valid()
    requires var mode, t := ModeFor(false, Scan(text).neg), Scan(text); PowerIn(mode, t.exponent, pow(mode, t.exponent))
    modifies fpu`mode
    ensures Le(r, Fin(Value(Scan(text))))
    ensures var mode, t := ModeFor(false, Scan(text).neg), Scan(text);
            IsTightest(fpu.format, false, t, pow(mode, t.exponent), r)
    ensures var mode, t := ModeFor(false, Scan(text).neg), Scan(text);
            RoundsOnce(fpu.format, false, t, pow(mode, t.exponent).x, r)
  {
    hide Round, Accumulate, Scan, Number, Power, Converted, IsTightest, RoundsOnce;
    r := ParseString(fpu, false, text, pow);
    ghost var t := Scan(text);
    ghost var p := pow(fpu.mode, t.exponent).x;
    assert pow(fpu.mode, t.exponent) == Fin(p);
    ConvertedBounds(fpu.format, false, t, Fin(p));
    AccumulateBounds(fpu.format, t.digits);
    ConvertedIsTightest(fpu.format, false, t, p);
    ConversionRoundsOnce(fpu.format, false, t, p);
  }

  // ---------- literals ----------

  datatype Sign = Unsigned | Plus | Minus
  datatype Exponent = Exponent(upper: bool, sign: Sign, digits: seq<nat>)

  /** How many blanks stand at each place where blanks are skipped. */
  datatype Blanks = Blanks(start: nat, sign: nat, whole: nat, point: nat, fraction: nat, e: nat, eSign: nat)

  /** tail is text that follows the number and is not read. */
  datatype Literal = Literal(plus: bool, minus: bool, whole: seq<nat>, fraction: Option<seq<nat>>,
                             exponent: Option<Exponent>, blanks: Blanks, tail: string)

  ghost predicate AreDigits(ds: seq<nat>) {
    forall i :: 0 <= i < |ds| ==> ds[i] < 10
  }

  ghost predicate WellFormed(l: Literal) {
    && AreDigits(l.whole)
    && (l.fraction.Some? ==> AreDigits(l.fraction.value))
    && (l.exponent.Some? ==> AreDigits(l.exponent.value.digits))
    && IsForeign(l.tail)
  }

  /** Empty, or it starts with a character that has no place in a number. */
  predicate IsForeign(s: string) {
    s == "" || !(IsDigit(s[0]) || s[0] in " .eE+-")
  }

  function Spaces(n: nat): string {
    if n == 0 then "" else [' '] + Spaces(n - 1)
  }

  function Digit(d: nat): char
    requires d < 10
  {
    '0' + d as char
  }

  ghost function Digits(ds: seq<nat>): string
    requires AreDigits(ds)
  {
    if ds == [] then "" else [Digit(ds[0])] + Digits(ds[1..])
  }

  ghost function WriteExponent(l: Literal): string
    requires WellFormed(l)
  {
    match l.exponent
    case None => l.tail
    case Some(Exponent(upper, sign, ds)) =>
      var mantissaEnd := if upper then 'E' else 'e';
      match sign
      case Unsigned => [mantissaEnd] + (Spaces(l.blanks.e) + (Digits(ds) + l.tail))
      case Plus => [mantissaEnd] + (Spaces(l.blanks.e) + (['+'] + (Spaces(l.blanks.eSign) + (Digits(ds) + l.tail))))
      case Minus => [mantissaEnd] + (Spaces(l.blanks.e) + (['-'] + (Spaces(l.blanks.eSign) + (Digits(ds) + l.tail))))
  }

  ghost function WriteFraction(l: Literal): string
    requires WellFormed(l)
  {
    match l.fraction
    case None => WriteExponent(l)
    case Some(ds) =>
      ['.'] + (Spaces(l.blanks.point) + (Digits(ds) + (Spaces(l.blanks.fraction) + WriteExponent(l))))
  }

  ghost function WriteMagnitude(l: Literal): string
    requires WellFormed(l)
  {
    Spaces(l.blanks.sign) + (Digits(l.whole) + (Spaces(l.blanks.whole) + WriteFraction(l)))
  }

  ghost function Write(l: Literal): string
    requires WellFormed(l)
  {
    var magnitude := if l.minus then ['-'] + WriteMagnitude(l) else WriteMagnitude(l);
    Spaces(l.blanks.start) + if l.plus then ['+'] + magnitude else magnitude
  }

  function FractionDigits(l: Literal): seq<nat> {
    match l.fraction
    case None => []
    case Some(ds) => ds
  }

  /** The number the literal denotes. */
  function Meaning(l: Literal): Token {
    var e := match l.exponent
      case None => 0
      case Some(Exponent(_, sign, ds)) => if sign == Minus then 0 - Number(ds) else Number(ds);
    Token(l.minus, l.whole + FractionDigits(l), e - |FractionDigits(l)|)
  }

  /** The number the reader takes it for: an exponent with a plus sign is not read. */
  function ReadAs(l: Literal): Token {
    if l.exponent.Some? && l.exponent.value.sign == Plus then
      Token(l.minus, l.whole + FractionDigits(l), -|FractionDigits(l)|)
    else
      Meaning(l)
  }

  // ---------- the reader recovers what was written ----------

  /** Empty, or a decimal point or exponent mark comes next. */
  predicate Marked(s: string) {
    IsForeign(s) || s[0] == '.' || s[0] == 'e' || s[0] == 'E'
  }

  lemma {:induction false} DropWrittenSpaces(n: nat, t: string)
    requires !Starts(t, ' ')
    ensures DropSpaces(Spaces(n) + t) == t
  {
    if n > 0 {
      assert (Spaces(n) + t)[1..] == Spaces(n - 1) + t;
      DropWrittenSpaces(n - 1, t);
    } else {
      assert Spaces(n) + t == t;
    }
  }

  lemma {:induction false} TakeWrittenDigits(ds: seq<nat>, t: string)
    requires AreDigits(ds) && (t == "" || !IsDigit(t[0]))
    ensures TakeDigits(Digits(ds) + t) == ds && DropDigits(Digits(ds) + t) == t
  {
    if ds == [] {
      assert Digits(ds) + t == t;
    } else {
      hide TakeDigits, DropDigits, IsDigit, Digit, DigitValue;
      TakeWrittenDigits(ds[1..], t);
      TakeOneDigit(ds[0], Digits(ds[1..]) + t);
      assert Digits(ds) + t == [Digit(ds[0])] + (Digits(ds[1..]) + t);
    }
  }

  lemma TakeOneDigit(d: nat, s: string)
    requires d < 10
    ensures TakeDigits([Digit(d)] + s) == [d] + TakeDigits(s) && DropDigits([Digit(d)] + s) == DropDigits(s)
  {
    assert ([Digit(d)] + s)[1..] == s;
  }

  lemma SpacesStart(n: nat, t: string)
    requires Marked(t)
    ensures Spaces(n) + t == "" || !IsDigit((Spaces(n) + t)[0])
  {
  }

  /** Blanks, digits, blanks, and then something else. */
  lemma ReadField(n: nat, ds: seq<nat>, m: nat, t: string)
    requires AreDigits(ds) && Marked(t)
    ensures var s := DropSpaces(Spaces(n) + (Digits(ds) + (Spaces(m) + t)));
            TakeDigits(s) == ds && DropSpaces(DropDigits(s)) == t && (Marked(s) || IsDigit(s[0]))
  {
    if ds == [] {
      ReadNoDigits(n, m, t);
      assert Digits(ds) + (Spaces(m) + t) == Spaces(m) + t;
    } else {
      ReadSomeDigits(n, ds, m, t);
    }
  }

  lemma ReadNoDigits(n: nat, m: nat, t: string)
    requires Marked(t)
    ensures DropSpaces(Spaces(n) + (Spaces(m) + t)) == t && TakeDigits(t) == [] && DropSpaces(DropDigits(t)) == t
  {
    assert Spaces(n) + (Spaces(m) + t) == (Spaces(n) + Spaces(m)) + t;
    SpacesAdd(n, m);
    DropWrittenSpaces(n + m, t);
  }

  lemma ReadSomeDigits(n: nat, ds: seq<nat>, m: nat, t: string)
    requires AreDigits(ds) && ds != [] && Marked(t)
    ensures var s := Digits(ds) + (Spaces(m) + t);
            DropSpaces(Spaces(n) + s) == s && TakeDigits(s) == ds && DropSpaces(DropDigits(s)) == t && IsDigit(s[0])
  {
    hide TakeDigits, DropDigits, DropSpaces, Spaces;
    var tail := Spaces(m) + t;
    SpacesStart(m, t);
    MarkedIsNoSpace(t);
    DropWrittenSpaces(m, t);
    assert (Digits(ds) + tail)[0] == Digit(ds[0]);
    DropWrittenSpaces(n, Digits(ds) + tail);
    TakeWrittenDigits(ds, tail);
  }

  lemma MarkedIsNoSpace(t: string)
    requires Marked(t)
    ensures !Starts(t, ' ')
  {
  }

  lemma {:induction false} SpacesAdd(n: nat, m: nat)
    ensures Spaces(n) + Spaces(m) == Spaces(n + m)
  {
    if n > 0 {
      SpacesAdd(n - 1, m);
      assert Spaces(n) + Spaces(m) == [' '] + (Spaces(n - 1) + Spaces(m));
    }
  }

  lemma ReadLastDigits(n: nat, ds: seq<nat>, tail: string)
    requires AreDigits(ds) && IsForeign(tail)
    ensures TakeDigits(DropSpaces(Spaces(n) + (Digits(ds) + tail))) == ds
  {
    ReadField(n, ds, 0, tail);
    assert Spaces(0) + tail == tail;
  }

  lemma {:induction false} DropSpacesTwice(s: string)
    ensures DropSpaces(DropSpaces(s)) == DropSpaces(s)
  {
    if Starts(s, ' ') {
      DropSpacesTwice(s[1..]);
    }
  }

  lemma ScanWrittenExponent(l: Literal)
    requires WellFormed(l)
    ensures Marked(WriteExponent(l))
    ensures ScanExponent(WriteExponent(l)) == ReadAs(l).exponent + |FractionDigits(l)|
  {
    match l.exponent
    case None =>
    case Some(Exponent(upper, sign, ds)) =>
      var rest := WriteExponent(l)[1..];
      match sign {
        case Unsigned =>
          assert rest == Spaces(l.blanks.e) + (Digits(ds) + l.tail);
          NoMinusAfterSpaces(l.blanks.e, ds, l.tail);
          DropSpacesTwice(rest);
          ReadLastDigits(l.blanks.e, ds, l.tail);
        case Plus =>
          var signed := ['+'] + (Spaces(l.blanks.eSign) + (Digits(ds) + l.tail));
          assert rest == Spaces(l.blanks.e) + signed;
          DropWrittenSpaces(l.blanks.e, signed);
        case Minus =>
          var signed := ['-'] + (Spaces(l.blanks.eSign) + (Digits(ds) + l.tail));
          assert rest == Spaces(l.blanks.e) + signed;
          DropWrittenSpaces(l.blanks.e, signed);
          assert signed[1..] == Spaces(l.blanks.eSign) + (Digits(ds) + l.tail);
          ReadLastDigits(l.blanks.eSign, ds, l.tail);
      }
  }

  lemma NoMinusAfterSpaces(n: nat, ds: seq<nat>, tail: string)
    requires AreDigits(ds) && IsForeign(tail)
    ensures !Starts(DropSpaces(Spaces(n) + (Digits(ds) + tail)), '-')
  {
    DropWrittenSpaces(n, Digits(ds) + tail);
  }

  lemma ScanWrittenFraction(l: Literal)
    requires WellFormed(l)
    ensures Marked(WriteFraction(l))
    ensures ScanFraction(WriteFraction(l)).0 == FractionDigits(l)
    ensures DropSpaces(ScanFraction(WriteFraction(l)).1) == WriteExponent(l)
  {
    ScanWrittenExponent(l);
    match l.fraction
    case None =>
    case Some(ds) =>
      var rest := Spaces(l.blanks.point) + (Digits(ds) + (Spaces(l.blanks.fraction) + WriteExponent(l)));
      assert WriteFraction(l)[1..] == rest;
      ReadField(l.blanks.point, ds, l.blanks.fraction, WriteExponent(l));
  }

  lemma ScanWrittenMagnitude(l: Literal)
    requires WellFormed(l)
    ensures ScanMagnitude(l.minus, WriteMagnitude(l)) == ReadAs(l)
  {
    ScanWrittenExponent(l);
    ScanWrittenFraction(l);
    ReadField(l.blanks.sign, l.whole, l.blanks.whole, WriteFraction(l));
  }

  lemma ScanSignedMagnitude(l: Literal, n: nat)
    requires WellFormed(l)
    ensures var s := DropSpaces(Spaces(n) + WriteMagnitude(l));
            !Starts(s, '+') && !Starts(s, '-') &&
            forall neg :: ScanMagnitude(neg, s) == ScanMagnitude(neg, WriteMagnitude(l))
  {
    ScanWrittenFraction(l);
    var rest := Digits(l.whole) + (Spaces(l.blanks.whole) + WriteFraction(l));
    ReadField(l.blanks.sign, l.whole, l.blanks.whole, WriteFraction(l));
    DropSpacesAfterSpaces(n, WriteMagnitude(l));
    DropSpacesTwice(WriteMagnitude(l));
  }

  lemma {:induction false} DropSpacesAfterSpaces(n: nat, t: string)
    ensures DropSpaces(Spaces(n) + t) == DropSpaces(t)
  {
    if n > 0 {
      assert (Spaces(n) + t)[1..] == Spaces(n - 1) + t;
      DropSpacesAfterSpaces(n - 1, t);
    } else {
      assert Spaces(n) + t == t;
    }
  }

  /** Reading a written literal gives back its sign, digits and exponent, except a plus-signed exponent. */
  lemma ScanOfWrite(l: Literal)
    requires WellFormed(l)
    ensures Scan(Write(l)) == ReadAs(l)
  {
    ScanWrittenMagnitude(l);
    var w := WriteMagnitude(l);
    if l.minus {
      var magnitude := ['-'] + w;
      assert magnitude[1..] == w;
      if l.plus {
        DropWrittenSpaces(l.blanks.start, ['+'] + magnitude);
        assert (['+'] + magnitude)[1..] == magnitude;
      } else {
        DropWrittenSpaces(l.blanks.start, magnitude);
      }
    } else {
      if l.plus {
        DropWrittenSpaces(l.blanks.start, ['+'] + w);
        assert (['+'] + w)[1..] == w;
        NoSignNext(l);
      } else {
        ScanSignedMagnitude(l, l.blanks.start);
      }
    }
  }

  lemma NoSignNext(l: Literal)
    requires WellFormed(l)
    ensures !Starts(WriteMagnitude(l), '-') && !Starts(WriteMagnitude(l), '+')
  {
  }

  // ---------- which literals are converted soundly ----------

  /** The converted value lies on the promised side of the number that l denotes. */
  ghost predicate ErrsAsPromised(F: Format, l: Literal, up: bool, pow: Float)
    requires WellFormed(l)
  {
    var r := Converted(F, up, Scan(Write(l)), pow);
    if up then Le(Fin(Value(Meaning(l))), r) else Le(r, Fin(Value(Meaning(l))))
  }

  /** The format holds the constants of the program, and pow is one of its numbers. */
  ghost predicate Supports(F: Format, pow: Float) {
    F.Valid() && Machine(F, pow) && forall k: nat :: k <= 10 ==> HasInteger(F, k)
  }

  /** Every conversion of l, in every format and with every admissible pow, errs on the promised side. */
  ghost predicate ConvertsSoundly(l: Literal, up: bool)
    requires WellFormed(l)
  {
    forall F: Format, pow: Float ::
      Supports(F, pow) && PowerIn(ModeFor(up, l.minus), Scan(Write(l)).exponent, pow) ==> ErrsAsPromised(F, l, up, pow)
  }

  /** The exponent carries a plus sign and matters. */
  ghost predicate PlusMatters(l: Literal) {
    && l.exponent.Some? && l.exponent.value.sign == Plus
    && Number(l.exponent.value.digits) > 0 && Number(l.whole + FractionDigits(l)) > 0
  }

  lemma PowerStep(e: int)
    ensures Power(e + 1) == 10.0 * Power(e)
  {
    if e < 0 {
      var p := Pow10(-e - 1);
      assert Pow10(-e) == 10.0 * p;
      InverseStep(p);
    }
  }

  lemma InverseStep(p: real)
    requires p > 0.0
    ensures 1.0 / p == 10.0 * (1.0 / (10.0 * p))
  {
    var q := 1.0 / (10.0 * p);
    assert q * (10.0 * p) == 1.0;
    assert (10.0 * q) * p == 1.0;
  }

  lemma {:induction false} PowerIncreases(e: int, k: nat)
    ensures Power(e) <= Power(e + k) && (k > 0 ==> Power(e) < Power(e + k))
    decreases k
  {
    if k > 0 {
      PowerIncreases(e, k - 1);
      PowerStep(e + k - 1);
    }
  }

  /** Dropping a plus-signed exponent never enlarges the magnitude, and shrinks it when the exponent matters. */
  lemma MisreadMagnitude(l: Literal)
    ensures Magnitude(ReadAs(l)) <= Magnitude(Meaning(l))
    ensures PlusMatters(l) ==> Magnitude(ReadAs(l)) < Magnitude(Meaning(l))
    ensures !PlusMatters(l) ==> Magnitude(ReadAs(l)) == Magnitude(Meaning(l))
  {
    var r, m := ReadAs(l), Meaning(l);
    if l.exponent.Some? && l.exponent.value.sign == Plus {
      hide Magnitude, Number, ReadAs, Meaning;
      MisreadParts(l);
      LargerExponent(r, m, Number(l.exponent.value.digits));
    }
  }

  lemma MisreadParts(l: Literal)
    requires l.exponent.Some? && l.exponent.value.sign == Plus
    ensures Meaning(l).exponent == ReadAs(l).exponent + Number(l.exponent.value.digits)
    ensures Meaning(l).digits == ReadAs(l).digits == l.whole + FractionDigits(l)
  {
  }

  lemma LargerExponent(r: Token, m: Token, k: nat)
    requires m.digits == r.digits && m.exponent == r.exponent + k
    ensures Magnitude(r) <= Magnitude(m)
    ensures Number(r.digits) > 0 && k > 0 ==> Magnitude(r) < Magnitude(m)
    ensures Number(r.digits) == 0 || k == 0 ==> Magnitude(r) == Magnitude(m)
  {
    hide Power, Magnitude, Number;
    PowerIncreases(r.exponent, k);
    var n, p, q := Number(r.digits) as real, Power(r.exponent), Power(m.exponent);
    MagnitudeIs(r, n, p);
    MagnitudeIs(m, n, q);
    StrictScale(n, p, q);
  }

  lemma StrictScale(n: real, p: real, q: real)
    requires n >= 0.0 && p <= q
    ensures n * p <= n * q
    ensures n > 0.0 && p < q ==> n * p < n * q
    ensures n == 0.0 || p == q ==> n * p == n * q
  {
  }

  ghost predicate HasInteger(F: Format, k: int) {
    k as real in F.values
  }

  /** A format that holds the integers up to n + 10 and two more numbers. */
  lemma FormatWith(n: nat, v: real, p: real) returns (F: Format)
    requires v >= 0.0 && p >= 0.0
    ensures F.Valid() && v in F.values && p in F.values && forall k: nat :: k <= n + 10 ==> HasInteger(F, k)
  {
    var m := n + 10;
    var whole := seq(2 * m + 1, i requires 0 <= i <= 2 * m => (i - m) as real);
    F := Format(whole + [v, -v, p, -p]);
    forall k: nat | k <= m ensures HasInteger(F, k) {
      assert F.values[k + m] == k as real;
    }
    assert F.values[2 * m + 1] == v && F.values[2 * m + 2] == -v;
    assert F.values[2 * m + 3] == p && F.values[2 * m + 4] == -p;
    assert F.values[m] == 0.0;
    forall x | x in F.values ensures -x in F.values {
      var i :| 0 <= i < |F.values| && F.values[i] == x;
      if i <= 2 * m {
        assert F.values[2 * m - i] == -x;
      }
    }
  }

  lemma {:induction false} IntegersAreExact(F: Format, digits: seq<nat>)
    requires forall k: nat :: k <= Number(digits) ==> HasInteger(F, k)
    ensures DigitsAreExact(F, digits)
  {
    if digits != [] {
      hide Number;
      var front := digits[..|digits| - 1];
      NumberGrows(digits);
      IntegersAreExact(F, front);
      assert HasInteger(F, Number(front) * 10) && HasInteger(F, Number(digits));
    }
  }

  lemma ProductIsFinite(n: real, p: real)
    ensures ExactMul(Fin(n), Fin(p)) == Fin(n * p)
  {
  }

  lemma ExactProduct(F: Format, mode: Rounding, n: real, p: real, m: real)
    requires (mode == Upward || mode == Downward) && m == n * p && m in F.values
    ensures Mul(F, mode, Fin(n), Fin(p)) == Fin(m)
  {
    hide Round;
    RepresentableIsExact(F, m);
    ProductIsFinite(n, p);
    assert Round(F, mode, Fin(m)) == if mode == Upward then Up(F, Fin(m)) else Down(F, Fin(m));
  }

  /** m is the digits of t times q, and the format holds all that comes up on the way to it. */
  ghost predicate HoldsResult(F: Format, t: Token, q: real, m: real) {
    && m == Number(t.digits) as real * q && m in F.values
    && forall k: nat :: k <= Number(t.digits) ==> HasInteger(F, k)
  }

  lemma ExactConversion(F: Format, t: Token, up: bool, q: real, m: real)
    requires HoldsResult(F, t, q, m)
    ensures Converted(F, up, t, Fin(q)) == Fin(if t.neg then -m else m)
  {
    hide Number, Accumulate, Mul, HasInteger;
    IntegersAreExact(F, t.digits);
    ExactDigits(F, ModeFor(up, t.neg), t.digits);
    ExactProduct(F, ModeFor(up, t.neg), Number(t.digits) as real, q, m);
  }

  /** A format and a power with which converting t comes to just that power times the digits. */
  lemma FormatFor(t: Token, up: bool, q: real) returns (F: Format, m: real)
    requires q > 0.0
    ensures Supports(F, Fin(q)) && HoldsResult(F, t, q, m)
    ensures Converted(F, up, t, Fin(q)) == Fin(if t.neg then -m else m)
  {
    hide Number, Converted, HasInteger;
    var n := Number(t.digits);
    m := n as real * q;
    NonNegativeProduct(n as real, q);
    F := FormatWith(n, m, q);
    ExactConversion(F, t, up, q, m);
  }

  lemma NonNegativeProduct(x: real, y: real)
    requires x >= 0.0 && y >= 0.0
    ensures x * y >= 0.0
  {
  }

  /** A literal is converted on the promised side, in any format, unless it has a plus-signed exponent that matters
      and its magnitude is rounded up. */
  lemma SoundConversion(F: Format, l: Literal, up: bool, pow: Float)
    requires WellFormed(l) && F.Valid() && PowerIn(ModeFor(up, l.minus), Scan(Write(l)).exponent, pow)
    requires !(PlusMatters(l) && up != l.minus)
    ensures ErrsAsPromised(F, l, up, pow)
  {
    hide Converted, Magnitude, Scan, Write, Number;
    ScanOfWrite(l);
    MisreadMagnitude(l);
    var r, m := ReadAs(l), Meaning(l);
    assert r.neg == m.neg == l.minus;
    ConvertedBounds(F, up, r, pow);
    assert up ==> Value(m) <= Value(r);
    assert !up ==> Value(r) <= Value(m);
  }

  lemma UnsoundConversion(l: Literal, up: bool)
    requires WellFormed(l) && PlusMatters(l) && up != l.minus
    ensures !ConvertsSoundly(l, up)
  {
    hide Converted, Magnitude, Scan, Write, Number, Power;
    ScanOfWrite(l);
    MisreadMagnitude(l);
    var r, m := ReadAs(l), Meaning(l);
    assert r.neg == m.neg == l.minus;
    var p := Power(r.exponent);
    var F, v := FormatFor(r, up, p);
    MagnitudeIs(r, Number(r.digits) as real, p);
    assert PowerIn(ModeFor(up, l.minus), r.exponent, Fin(p));
    assert !ErrsAsPromised(F, l, up, Fin(p));
  }

  /** A literal is converted soundly exactly when it has no plus-signed exponent that matters,
      or the magnitude is rounded towards zero anyway. */
  lemma ConvertsSoundlyIff(l: Literal, up: bool)
    requires WellFormed(l)
    ensures ConvertsSoundly(l, up) <==> !(PlusMatters(l) && up != l.minus)
  {
    hide ErrsAsPromised, PlusMatters, Scan, Write;
    if PlusMatters(l) && up != l.minus {
      UnsoundConversion(l, up);
    } else {
      forall F: Format, pow: Float
        | Supports(F, pow) && PowerIn(ModeFor(up, l.minus), Scan(Write(l)).exponent, pow)
        ensures ErrsAsPromised(F, l, up, pow)
      {
        SoundConversion(F, l, up, pow);
      }
    }
  }

  /** The plus sign ends the scan of the exponent. */
  lemma PlusExponentIsDropped()
    ensures Scan("1e+5") == Token(false, [1], 0)
  {
  }
}
