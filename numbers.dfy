/**
 * JavaScript numbers as the library sees them: a finite value, one of the two
 * infinities, or NaN.  Rounding is not modelled: a finite value is an exact real.
 * `undefined` in an arithmetic position behaves as NaN, and is modelled as NaN.
 */
module Numbers {
  datatype Num = Fin(r: real) | PosInf | NegInf | NaN

  const Zero: Num := Fin(0.0)
  const One: Num := Fin(1.0)
  const Two: Num := Fin(2.0)

  /** Math.PI and Math.E, written as the decimals of their double values. */
  const PI_VALUE: real := 3.141592653589793
  const E_VALUE: real := 2.718281828459045

  predicate IsInfinite(x: Num) { x.PosInf? || x.NegInf? }

  predicate IsZero(x: Num) { x.Fin? && x.r == 0.0 }

  /** x lies above zero (a positive finite value or +Infinity). */
  predicate Positive(x: Num) { x.PosInf? || (x.Fin? && x.r > 0.0) }

  /** Unary minus. */
  function Negative(x: Num): (r: Num)
    ensures x.Fin? <==> r.Fin?
    ensures x.Fin? ==> r.r == -x.r
    ensures r.NaN? <==> x.NaN?
  {
    match x
    case Fin(a) => Fin(-a)
    case PosInf => NegInf
    case NegInf => PosInf
    case NaN => NaN
  }

  /** Binary `+`: opposite infinities give NaN. */
  function Plus(x: Num, y: Num): (r: Num)
    ensures x.Fin? && y.Fin? ==> r == Fin(x.r + y.r)
    ensures r.NaN? <==> x.NaN? || y.NaN? || (x.PosInf? && y.NegInf?) || (x.NegInf? && y.PosInf?)
  {
    if x.NaN? || y.NaN? then NaN
    else if x.Fin? && y.Fin? then Fin(x.r + y.r)
    else if (x.PosInf? && y.NegInf?) || (x.NegInf? && y.PosInf?) then NaN
    else if x.PosInf? || y.PosInf? then PosInf
    else NegInf
  }

  /** Binary `-`. */
  function Minus(x: Num, y: Num): Num {
    Plus(x, Negative(y))
  }

  /** Binary `*`: an infinity times zero gives NaN. */
  function Times(x: Num, y: Num): (r: Num)
    ensures x.Fin? && y.Fin? ==> r == Fin(x.r * y.r)
    ensures r.NaN? <==> x.NaN? || y.NaN? || (IsInfinite(x) && IsZero(y)) || (IsZero(x) && IsInfinite(y))
  {
    if x.NaN? || y.NaN? then NaN
    else if x.Fin? && y.Fin? then Fin(x.r * y.r)
    else if IsZero(x) || IsZero(y) then NaN
    else if Positive(x) == Positive(y) then PosInf
    else NegInf
  }

  /**
   * Binary `/`: a non-zero value over zero is an infinity with the sign of the
   * numerator, 0/0 and Infinity/Infinity are NaN, and a finite value over an
   * infinity is zero.  Negative zero is not modelled: every zero divisor counts as +0.
   */
  function Over(x: Num, y: Num): (r: Num)
    ensures x.Fin? && y.Fin? && y.r != 0.0 ==> r == Fin(x.r / y.r)
    ensures x.Fin? && IsInfinite(y) ==> r == Zero
  {
    if x.NaN? || y.NaN? then NaN
    else if x.Fin? && y.Fin? then
      if y.r != 0.0 then Fin(x.r / y.r)
      else if x.r == 0.0 then NaN
      else if x.r > 0.0 then PosInf
      else NegInf
    else if y.Fin? then (if Positive(x) == (y.r >= 0.0) then PosInf else NegInf)
    else if x.Fin? then Zero
    else NaN
  }

  /** `x < y`: the order -Infinity < finite values < +Infinity; false when NaN is involved. */
  predicate Below(x: Num, y: Num) {
    if x.NaN? || y.NaN? then false
    else if x.Fin? && y.Fin? then x.r < y.r
    else (x.NegInf? && !y.NegInf?) || (y.PosInf? && !x.PosInf?)
  }

  /** `x > y`. */
  predicate Greater(x: Num, y: Num) { Below(y, x) }

  /** `x >= y`: false when NaN is involved. */
  predicate AtLeast(x: Num, y: Num) { !x.NaN? && !y.NaN? && !Below(x, y) }

  /** `x === y`: NaN equals nothing, not even itself. */
  predicate Same(x: Num, y: Num) { !x.NaN? && x == y }

  /** Real power with a natural exponent. */
  function RealPow(a: real, n: nat): real {
    if n == 0 then 1.0 else RealPow(a, n - 1) * a
  }

  /** Math.pow with an integer exponent, as repeated multiplication (a negative exponent divides). */
  function IntPow(x: Num, n: int): Num
    decreases if n < 0 then 1 - n else n
  {
    if n == 0 then One
    else if n > 0 then Times(IntPow(x, n - 1), x)
    else Over(One, IntPow(x, -n))
  }

  /** The parts of JavaScript's `Math` object the library calls; they are left uninterpreted. */
  datatype MathLib = MathLib(
    exp: Num -> Num,
    log: Num -> Num,
    sin: Num -> Num,
    cos: Num -> Num,
    tan: Num -> Num,
    tanh: Num -> Num,
    cosh: Num -> Num,
    pow: (Num, Num) -> Num)   // Math.pow for exponents that are not integers

  predicate IsInteger(x: Num) { x.Fin? && x.r == x.r.Floor as real }

  /** Math.pow: interpreted for integer exponents, uninterpreted otherwise. */
  function Power(lib: MathLib, b: Num, e: Num): Num {
    if IsInteger(e) then IntPow(b, e.r.Floor) else lib.pow(b, e)
  }

  /** Math.pow on a finite base and a natural exponent is the real power. */
  lemma {:induction false} IntPowFinite(a: real, n: nat)
    ensures IntPow(Fin(a), n) == Fin(RealPow(a, n))
  {
    if n > 0 {
      IntPowFinite(a, n - 1);
    }
  }

  /** Math.pow(x, 2) is x * x for every x, including the infinities and NaN. */
  lemma PowerTwo(lib: MathLib, x: Num)
    ensures Power(lib, x, Two) == Times(x, x)
  {
    assert IsInteger(Two);
    assert IntPow(x, 1) == x;
  }

  /** `1 / x === 0` holds exactly for the two infinities. */
  lemma ReciprocalVanishes(x: Num)
    ensures Same(Over(One, x), Zero) <==> IsInfinite(x)
  {
  }
}
