/** Conversion of decimal strings to floats with directed rounding: what is read from a string, and the value
    computed from it. */
module DecimalStrings {
  import opened Floats
  import opened Intervals

  // ---------- reading ----------

  predicate IsDigit(c: char) {
    '0' <= c <= '9'
  }

  function DigitValue(c: char): nat
    requires IsDigit(c)
  {
    c as int - '0' as int
  }

  predicate Starts(s: string, c: char) {
    s != [] && s[0] == c
  }

  function DropSpaces(s: string): string {
    if Starts(s, ' ') then DropSpaces(s[1..]) else s
  }

  function TakeDigits(s: string): seq<nat> {
    if s != [] && IsDigit(s[0]) then [DigitValue(s[0])] + TakeDigits(s[1..]) else []
  }

  function DropDigits(s: string): string {
    if s != [] && IsDigit(s[0]) then DropDigits(s[1..]) else s
  }

  /** What the reader makes of a string: a sign, the digits of the mantissa, and a power of ten. */
  datatype Token = Token(neg: bool, digits: seq<nat>, exponent: int)

  function Number(digits: seq<nat>): nat {
    if digits == [] then 0 else Number(digits[..|digits| - 1]) * 10 + digits[|digits| - 1]
  }

  function ScanExponent(s: string): int {
    if Starts(s, 'e') || Starts(s, 'E') then
      var s1 := DropSpaces(s[1..]);
      if Starts(s1, '-') then 0 - Number(TakeDigits(DropSpaces(s1[1..]))) else Number(TakeDigits(DropSpaces(s1)))
    else 0
  }

  function ScanFraction(s: string): (seq<nat>, string) {
    if Starts(s, '.') then
      var s1 := DropSpaces(s[1..]);
      (TakeDigits(s1), DropDigits(s1))
    else ([], s)
  }

  function ScanMagnitude(neg: bool, s: string): Token {
    var s1 := DropSpaces(s);
    var (fraction, rest) := ScanFraction(DropSpaces(DropDigits(s1)));
    Token(neg, TakeDigits(s1) + fraction, ScanExponent(DropSpaces(rest)) - |fraction|)
  }

  function Scan(s: string): Token {
    var s1 := DropSpaces(s);
    var s2 := if Starts(s1, '+') then s1[1..] else s1;
    if Starts(s2, '-') then ScanMagnitude(true, s2[1..]) else ScanMagnitude(false, s2)
  }

  // ---------- exact and rounded values ----------

  function Pow10(e: nat): (p: real)
    ensures p > 0.0
  {
    if e == 0 then 1.0 else 10.0 * Pow10(e - 1)
  }

  function Power(e: int): (p: real)
    ensures p > 0.0
  {
    if e >= 0 then Pow10(e)
    else
      Positive(Pow10(-e));
      1.0 / Pow10(-e)
  }

  lemma Positive(p: real)
    requires p > 0.0
    ensures 1.0 / p > 0.0
  {
    assert (1.0 / p) * p == 1.0;
  }

  /** The magnitude read. */
  function Magnitude(t: Token): real {
    Number(t.digits) as real * Power(t.exponent)
  }

  function Value(t: Token): real {
    if t.neg then -Magnitude(t) else Magnitude(t)
  }

  /** The mantissa as accumulated digit by digit, rounding after each multiplication and addition. */
  function Accumulate(F: Format, mode: Rounding, digits: seq<nat>): Float
    requires mode != ToNearest
  {
    if digits == [] then Fin(0.0)
    else
      var m := Accumulate(F, mode, digits[..|digits| - 1]);
      Add(F, mode, Mul(F, mode, m, Fin(10.0)), Fin(digits[|digits| - 1] as real))
  }

  /** Rounding away from zero in the direction asked for means rounding the magnitude. */
  function ModeFor(up: bool, neg: bool): Rounding {
    if up != neg then Upward else Downward
  }

  function Converted(F: Format, up: bool, t: Token, pow: Float): Float {
    var mode := ModeFor(up, t.neg);
    var m := Mul(F, mode, Accumulate(F, mode, t.digits), pow);
    if t.neg then Neg(m) else m
  }

  /** pow is finite and lies on the side of 10^e that the rounding mode asks for. */
  ghost predicate PowerIn(mode: Rounding, e: int, pow: Float) {
    pow.Fin? && (mode == Upward ==> Power(e) <= pow.x) && (mode == Downward ==> 0.0 <= pow.x <= Power(e))
  }

  // ---------- the program ----------

  method ReadSpaces(s: string) returns (t: string)
    ensures t == DropSpaces(s)
  {
    t := s;
    while Starts(t, ' ')
      invariant DropSpaces(t) == DropSpaces(s)
      decreases |t|
    {
      t := t[1..];
    }
  }

  lemma AppendDigit(done: seq<nat>, s: string)
    requires s != [] && IsDigit(s[0])
    ensures done + TakeDigits(s) == (done + [DigitValue(s[0])]) + TakeDigits(s[1..])
    ensures (done + [DigitValue(s[0])])[..|done|] == done
  {
  }

  /** Reads digits into a mantissa that already holds done. */
  method ReadMantissa(fpu: Fpu, s: string, m: Float, ghost done: seq<nat>) returns (mantissa: Float, t: string,
                      count: nat)
    requires fpu.mode != ToNearest && m == Accumulate(fpu.format, fpu.mode, done)
    ensures mantissa == Accumulate(fpu.format, fpu.mode, done + TakeDigits(s))
    ensures t == DropDigits(s) && count == |TakeDigits(s)|
  {
    mantissa, t, count := m, s, 0;
    ghost var soFar := done;
    while t != [] && IsDigit(t[0])
      invariant soFar + TakeDigits(t) == done + TakeDigits(s) && DropDigits(t) == DropDigits(s)
      invariant mantissa == Accumulate(fpu.format, fpu.mode, soFar) && |soFar| == |done| + count
      decreases |t|
    {
      AppendDigit(soFar, t);
      mantissa := Add(fpu.format, fpu.mode, Mul(fpu.format, fpu.mode, mantissa, Fin(10.0)),
                      Fin(DigitValue(t[0]) as real));
      soFar := soFar + [DigitValue(t[0])];
      t := t[1..];
      count := count + 1;
    }
    assert soFar + [] == soFar;
  }

  method ReadNumber(s: string) returns (n: nat)
    ensures n == Number(TakeDigits(s))
  {
    n := 0;
    var t := s;
    ghost var soFar: seq<nat> := [];
    while t != [] && IsDigit(t[0])
      invariant soFar + TakeDigits(t) == TakeDigits(s) && n == Number(soFar)
      decreases |t|
    {
      AppendDigit(soFar, t);
      n := n * 10 + DigitValue(t[0]);
      soFar := soFar + [DigitValue(t[0])];
      t := t[1..];
    }
    assert soFar + [] == soFar;
  }

  method ReadExponent(text: string) returns (e: int)
    ensures e == ScanExponent(text)
  {
    e := 0;
    if Starts(text, 'e') || Starts(text, 'E') {
      var sign: int := 1;
      var s := ReadSpaces(text[1..]);
      if Starts(s, '-') {
        sign := -1;
        s := s[1..];
      }
      s := ReadSpaces(s);
      var exp := ReadNumber(s);
      e := sign * exp;
    }
  }

  method ReadMagnitude(fpu: Fpu, text: string) returns (mantissa: Float, exponent: int)
    requires fpu.mode != ToNearest
    ensures forall neg :: mantissa == Accumulate(fpu.format, fpu.mode, ScanMagnitude(neg, text).digits)
    ensures forall neg :: exponent == ScanMagnitude(neg, text).exponent
  {
    exponent := 0;
    var s := ReadSpaces(text);
    ghost var whole := TakeDigits(s);
    assert [] + whole == whole && whole + [] == whole;
    var count;
    mantissa, s, count := ReadMantissa(fpu, s, Fin(0.0), []);
    s := ReadSpaces(s);
    if Starts(s, '.') {
      s := ReadSpaces(s[1..]);
      mantissa, s, count := ReadMantissa(fpu, s, mantissa, whole);
      exponent := exponent - count;
    }
    s := ReadSpaces(s);
    var e := ReadExponent(s);
    exponent := exponent + e;
  }

  /** pow stands for the C library's pow(10., e) in the current rounding mode. */
  method ParseString(fpu: Fpu, up: bool, text: string, pow: (Rounding, int) -> Float) returns (r: Float)
    modifies fpu`mode
    ensures fpu.mode == ModeFor(up, Scan(text).neg)
    ensures r == Converted(fpu.format, up, Scan(text), pow(fpu.mode, Scan(text).exponent))
  {
    var neg := false;
    var s := ReadSpaces(text);
    if Starts(s, '+') {
      s := s[1..];
    }
    if Starts(s, '-') {
      neg := true;
      s := s[1..];
    }
    assert Scan(text) == ScanMagnitude(neg, s);
    if (up && !neg) || (!up && neg) {
      fpu.mode := Upward;
    } else {
      fpu.mode := Downward;
    }
    var mantissa, exponent := ReadMagnitude(fpu, s);
    assert mantissa == Accumulate(fpu.format, fpu.mode, ScanMagnitude(neg, s).digits);
    mantissa := Mul(fpu.format, fpu.mode, mantissa, pow(fpu.mode, exponent));
    r := if neg then Neg(mantissa) else mantissa;
  }
}
