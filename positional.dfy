/**
 * The older positional engine of the library (`Pohhnii.add`, `Pohhnii.pow`, ...):
 * functions f(x0, x1, ...) of an argument list, where `PARAMETER(i)` reads the
 * i-th argument.  Values and derivatives are computed by recursion over the
 * combinator tree; `add` and `subtract` fold over their chain in a loop.  The
 * polynomial regression model built on the engine closes the module.
 */
module Positional {
  import opened Wrappers
  import opened Numbers
  import Expressions
  import Calculus
  import Polynomials
  import Presets

  datatype Fn =
    | Add(chain: seq<Fn>)                  // Pohhnii.add(...chain): 0 + chain[0] + chain[1] + ...
    | Subtract(chain: seq<Fn>)             // Pohhnii.subtract(...chain): chain[0] - chain[1] - ...
    | Multiply(factor1: Fn, factor2: Fn)
    | Devide(dividend: Fn, divisor: Fn)
    | Parameter(index: nat)                // Pohhnii.PARAMETER(index)
    | Constant(value: Num)                 // Pohhnii.CONSTANT(value)
    | Pow(base: Fn, exponent: Fn)
    | Exp(power: Fn)
    | Ln(inner: Fn)
    | Negate(x: Fn)                        // Pohhnii.negative(x)

  /**
   * The derivative rule used for pow: the library's, or a guarded one that
   * leaves out the `log(base) * exponent'` term when the exponent's derivative is 0.
   */
  datatype Rule = AsWritten | Guarded

  /**
   * `parameter[i]`: an index past the end reads `undefined`.  In arithmetic
   * that computes as NaN; a read that is the whole function's answer is
   * `undefined` itself, which the model also writes as NaN.
   */
  function Arg(ps: seq<Num>, i: nat): Num {
    if i < |ps| then ps[i] else NaN
  }

  /** Pohhnii.Sigmoid(x): 1 / (1 + e^(subtract(negative(x)))). */
  function Sigmoid(x: Fn): Fn {
    Devide(Constant(One), Add([Constant(One), Exp(Subtract([Negate(x)]))]))
  }

  /** Pohhnii.TanH(x): (e^(2x) - 1) / (e^(2x) + 1). */
  function TanH(x: Fn): Fn {
    Devide(Subtract([Exp(Multiply(Constant(Two), x)), Constant(One)]),
           Add([Exp(Multiply(Constant(Two), x)), Constant(One)]))
  }

  /** The value of f at the arguments ps; None is the TypeError of `subtract()` with no operand. */
  function Value(f: Fn, lib: MathLib, ps: seq<Num>): Option<Num>
    decreases f, 1
  {
    match f
    case Add(_) => ChainValue(f, |f.chain|, lib, ps)
    case Subtract(_) => ChainValue(f, |f.chain|, lib, ps)
    case Multiply(a, b) =>
      var v1, v2 := Value(a, lib, ps), Value(b, lib, ps);
      if v1.None? || v2.None? then None else Some(Times(v1.value, v2.value))
    case Devide(a, b) =>
      var v1, v2 := Value(a, lib, ps), Value(b, lib, ps);
      if v1.None? || v2.None? then None else Some(Over(v1.value, v2.value))
    case Parameter(i) => Some(Arg(ps, i))
    case Constant(c) => Some(c)
    case Pow(a, b) =>
      var v1, v2 := Value(a, lib, ps), Value(b, lib, ps);
      if v1.None? || v2.None? then None else Some(Power(lib, v1.value, v2.value))
    case Exp(x) => var v := Value(x, lib, ps); if v.None? then None else Some(lib.exp(v.value))
    case Ln(x) => var v := Value(x, lib, ps); if v.None? then None else Some(lib.log(v.value))
    case Negate(x) => var v := Value(x, lib, ps); if v.None? then None else Some(Negative(v.value))
  }

  /** The running value of add's or subtract's loop after the first n operands of the chain. */
  function ChainValue(f: Fn, n: nat, lib: MathLib, ps: seq<Num>): Option<Num>
    requires (f.Add? || f.Subtract?) && n <= |f.chain|
    decreases f, 0, n
  {
    if n == 0 then (if f.Add? then Some(Zero) else None)
    else
      var v := Value(f.chain[n - 1], lib, ps);
      if f.Subtract? && n == 1 then v
      else
        var acc := ChainValue(f, n - 1, lib, ps);
        if acc.None? || v.None? then None
        else Some(if f.Add? then Plus(acc.value, v.value) else Minus(acc.value, v.value))
  }

  /**
   * pow's derivative on a non-zero base b: `(1 / b * db * e + log(b) * de) * b^e`.
   * The guarded rule drops `log(b) * de` when de === 0.
   */
  function PowRule(rule: Rule, lib: MathLib, b: Num, e: Num, db: Num, de: Num): Num {
    var chain := Times(Times(Over(One, b), db), e);
    var total := if rule.Guarded? && Same(de, Zero) then chain else Plus(chain, Times(lib.log(b), de));
    Times(total, Power(lib, b, e))
  }

  /** The derivative of f with respect to argument p; None when a value it needs is undefined. */
  function Deriv(f: Fn, p: nat, lib: MathLib, ps: seq<Num>, rule: Rule): Option<Num>
    decreases f, 1
  {
    match f
    case Add(_) => ChainDeriv(f, |f.chain|, p, lib, ps, rule)
    case Subtract(_) => ChainDeriv(f, |f.chain|, p, lib, ps, rule)
    case Multiply(a, b) =>
      var d1, v2, d2, v1 := Deriv(a, p, lib, ps, rule), Value(b, lib, ps), Deriv(b, p, lib, ps, rule), Value(a, lib, ps);
      if d1.None? || v2.None? || d2.None? || v1.None? then None
      else Some(Expressions.ProductRule(d1.value, d2.value, v1.value, v2.value))
    case Devide(a, b) =>
      var d1, v2, d2, v1 := Deriv(a, p, lib, ps, rule), Value(b, lib, ps), Deriv(b, p, lib, ps, rule), Value(a, lib, ps);
      if d1.None? || v2.None? || d2.None? || v1.None? then None
      else Some(Over(Minus(Times(d1.value, v2.value), Times(d2.value, v1.value)), Power(lib, v2.value, Two)))
    case Parameter(i) => Some(if p == i then One else Zero)
    case Constant(_) => Some(Zero)
    case Pow(a, b) =>
      var v1 := Value(a, lib, ps);
      if v1.None? then None
      else if Same(v1.value, Zero) then Some(Zero)
      else
        var d1, v2, d2 := Deriv(a, p, lib, ps, rule), Value(b, lib, ps), Deriv(b, p, lib, ps, rule);
        if d1.None? || v2.None? || d2.None? then None
        else Some(PowRule(rule, lib, v1.value, v2.value, d1.value, d2.value))
    case Exp(x) =>
      var d, v := Deriv(x, p, lib, ps, rule), Value(x, lib, ps);
      if d.None? || v.None? then None else Some(Times(d.value, lib.exp(v.value)))
    case Ln(x) =>
      var v := Value(x, lib, ps);
      if v.None? then None
      else if Same(Over(One, v.value), Zero) then Some(Zero)
      else
        var d := Deriv(x, p, lib, ps, rule);
        if d.None? then None else Some(Over(d.value, v.value))
    case Negate(x) =>
      var d := Deriv(x, p, lib, ps, rule);
      if d.None? then None else Some(Negative(d.value))
  }

  /** The running derivative of add's or subtract's loop after the first n operands. */
  function ChainDeriv(f: Fn, n: nat, p: nat, lib: MathLib, ps: seq<Num>, rule: Rule): Option<Num>
    requires (f.Add? || f.Subtract?) && n <= |f.chain|
    decreases f, 0, n
  {
    if n == 0 then (if f.Add? then Some(Zero) else None)
    else
      var d := Deriv(f.chain[n - 1], p, lib, ps, rule);
      if f.Subtract? && n == 1 then d
      else
        var acc := ChainDeriv(f, n - 1, p, lib, ps, rule);
        if acc.None? || d.None? then None
        else Some(if f.Add? then Plus(acc.value, d.value) else Minus(acc.value, d.value))
  }

  /** valueOf(...parameter), with add's and subtract's loops. */
  method ValueOf(f: Fn, lib: MathLib, ps: seq<Num>) returns (r: Option<Num>)
    ensures r == Value(f, lib, ps)
    decreases f, 1
  {
    match f
    case Add(_) => r := ChainValueOf(f, lib, ps);
    case Subtract(_) => r := ChainValueOf(f, lib, ps);
    case Multiply(a, b) =>
      var v1 := ValueOf(a, lib, ps);
      var v2 := ValueOf(b, lib, ps);
      r := if v1.None? || v2.None? then None else Some(Times(v1.value, v2.value));
    case Devide(a, b) =>
      var v1 := ValueOf(a, lib, ps);
      var v2 := ValueOf(b, lib, ps);
      r := if v1.None? || v2.None? then None else Some(Over(v1.value, v2.value));
    case Parameter(i) => r := Some(Arg(ps, i));
    case Constant(c) => r := Some(c);
    case Pow(a, b) =>
      var v1 := ValueOf(a, lib, ps);
      var v2 := ValueOf(b, lib, ps);
      r := if v1.None? || v2.None? then None else Some(Power(lib, v1.value, v2.value));
    case Exp(x) =>
      var v := ValueOf(x, lib, ps);
      r := if v.None? then None else Some(lib.exp(v.value));
    case Ln(x) =>
      var v := ValueOf(x, lib, ps);
      r := if v.None? then None else Some(lib.log(v.value));
    case Negate(x) =>
      var v := ValueOf(x, lib, ps);
      r := if v.None? then None else Some(Negative(v.value));
  }

  /** add's forEach loop (a sum from 0) and subtract's for loop (from chain[0]); an undefined operand stops the loop. */
  method ChainValueOf(f: Fn, lib: MathLib, ps: seq<Num>) returns (r: Option<Num>)
    requires f.Add? || f.Subtract?
    ensures r == ChainValue(f, |f.chain|, lib, ps)
    decreases f, 0
  {
    var sum: Num, i: nat;
    if f.Add? {
      sum, i := Zero, 0;
    } else {
      if |f.chain| == 0 {
        return None;
      }
      var first := ValueOf(f.chain[0], lib, ps);
      if first.None? {
        ChainValueStops(f, 1, |f.chain|, lib, ps);
        return None;
      }
      sum, i := first.value, 1;
    }
    while i < |f.chain|
      invariant f.Subtract? ==> 1 <= i
      invariant i <= |f.chain|
      invariant ChainValue(f, i, lib, ps) == Some(sum)
    {
      var v := ValueOf(f.chain[i], lib, ps);
      if v.None? {
        ChainValueStops(f, i + 1, |f.chain|, lib, ps);
        return None;
      }
      sum := if f.Add? then Plus(sum, v.value) else Minus(sum, v.value);
      i := i + 1;
    }
    r := Some(sum);
  }

  /** Once an operand is undefined, the rest of the loop stays undefined. */
  lemma {:induction false} ChainValueStops(f: Fn, n: nat, m: nat, lib: MathLib, ps: seq<Num>)
    requires (f.Add? || f.Subtract?) && 1 <= n <= m <= |f.chain|
    requires ChainValue(f, n, lib, ps).None?
    ensures ChainValue(f, m, lib, ps).None?
    decreases m
  {
    if m > n {
      ChainValueStops(f, n, m - 1, lib, ps);
    }
  }

  /** derivative(parameterIndex, ...parameter), with add's and subtract's loops. */
  method DerivativeOf(f: Fn, p: nat, lib: MathLib, ps: seq<Num>, rule: Rule) returns (r: Option<Num>)
    ensures r == Deriv(f, p, lib, ps, rule)
    decreases f, 1
  {
    match f
    case Add(_) => r := ChainDerivativeOf(f, p, lib, ps, rule);
    case Subtract(_) => r := ChainDerivativeOf(f, p, lib, ps, rule);
    case Multiply(a, b) =>
      var d1 := DerivativeOf(a, p, lib, ps, rule);
      var v2 := ValueOf(b, lib, ps);
      var d2 := DerivativeOf(b, p, lib, ps, rule);
      var v1 := ValueOf(a, lib, ps);
      r := if d1.None? || v2.None? || d2.None? || v1.None? then None
           else Some(Expressions.ProductRule(d1.value, d2.value, v1.value, v2.value));
    case Devide(a, b) =>
      var d1 := DerivativeOf(a, p, lib, ps, rule);
      var v2 := ValueOf(b, lib, ps);
      var d2 := DerivativeOf(b, p, lib, ps, rule);
      var v1 := ValueOf(a, lib, ps);
      r := if d1.None? || v2.None? || d2.None? || v1.None? then None
           else Some(Over(Minus(Times(d1.value, v2.value), Times(d2.value, v1.value)), Power(lib, v2.value, Two)));
    case Parameter(i) => r := Some(if p == i then One else Zero);
    case Constant(_) => r := Some(Zero);
    case Pow(a, b) => r := PowDerivativeOf(f, p, lib, ps, rule);
    case Exp(x) =>
      var d := DerivativeOf(x, p, lib, ps, rule);
      var v := ValueOf(x, lib, ps);
      r := if d.None? || v.None? then None else Some(Times(d.value, lib.exp(v.value)));
    case Ln(x) =>
      var v := ValueOf(x, lib, ps);
      if v.None? {
        r := None;
      } else if Same(Over(One, v.value), Zero) {
        r := Some(Zero);
      } else {
        var d := DerivativeOf(x, p, lib, ps, rule);
        r := if d.None? then None else Some(Over(d.value, v.value));
      }
    case Negate(x) =>
      var d := DerivativeOf(x, p, lib, ps, rule);
      r := if d.None? then None else Some(Negative(d.value));
  }

  /** pow's derivative: the exponent is not evaluated at all when the base is 0. */
  method PowDerivativeOf(f: Fn, p: nat, lib: MathLib, ps: seq<Num>, rule: Rule) returns (r: Option<Num>)
    requires f.Pow?
    ensures r == Deriv(f, p, lib, ps, rule)
    decreases f, 0
  {
    var v1 := ValueOf(f.base, lib, ps);
    if v1.None? {
      return None;
    }
    if Same(v1.value, Zero) {
      return Some(Zero);
    }
    var d1 := DerivativeOf(f.base, p, lib, ps, rule);
    var v2 := ValueOf(f.exponent, lib, ps);
    var d2 := DerivativeOf(f.exponent, p, lib, ps, rule);
    r := if d1.None? || v2.None? || d2.None? then None
         else Some(PowRule(rule, lib, v1.value, v2.value, d1.value, d2.value));
  }

  /** The derivative loops of add (from 0) and subtract (from chain[0]'s derivative). */
  method ChainDerivativeOf(f: Fn, p: nat, lib: MathLib, ps: seq<Num>, rule: Rule) returns (r: Option<Num>)
    requires f.Add? || f.Subtract?
    ensures r == ChainDeriv(f, |f.chain|, p, lib, ps, rule)
    decreases f, 0
  {
    var sum: Num, i: nat;
    if f.Add? {
      sum, i := Zero, 0;
    } else {
      if |f.chain| == 0 {
        return None;
      }
      var first := DerivativeOf(f.chain[0], p, lib, ps, rule);
      if first.None? {
        ChainDerivStops(f, 1, |f.chain|, p, lib, ps, rule);
        return None;
      }
      sum, i := first.value, 1;
    }
    while i < |f.chain|
      invariant f.Subtract? ==> 1 <= i
      invariant i <= |f.chain|
      invariant ChainDeriv(f, i, p, lib, ps, rule) == Some(sum)
    {
      var d := DerivativeOf(f.chain[i], p, lib, ps, rule);
      if d.None? {
        ChainDerivStops(f, i + 1, |f.chain|, p, lib, ps, rule);
        return None;
      }
      sum := if f.Add? then Plus(sum, d.value) else Minus(sum, d.value);
      i := i + 1;
    }
    r := Some(sum);
  }

  lemma {:induction false} ChainDerivStops(f: Fn, n: nat, m: nat, p: nat, lib: MathLib, ps: seq<Num>, rule: Rule)
    requires (f.Add? || f.Subtract?) && 1 <= n <= m <= |f.chain|
    requires ChainDeriv(f, n, p, lib, ps, rule).None?
    ensures ChainDeriv(f, m, p, lib, ps, rule).None?
    decreases m
  {
    if m > n {
      ChainDerivStops(f, n, m - 1, p, lib, ps, rule);
    }
  }

  predicate ValueIs(f: Fn, v: real, lib: MathLib, ps: seq<Num>) {
    Value(f, lib, ps) == Some(Fin(v))
  }

  predicate DerivIs(f: Fn, d: real, p: nat, lib: MathLib, ps: seq<Num>, rule: Rule) {
    Deriv(f, p, lib, ps, rule) == Some(Fin(d))
  }

  /** multiply follows the product rule on finite operands. */
  lemma ProductRuleHolds(a: Fn, b: Fn, x: real, y: real, dx: real, dy: real, p: nat, lib: MathLib, ps: seq<Num>, rule: Rule)
    requires ValueIs(a, x, lib, ps) && ValueIs(b, y, lib, ps)
    requires DerivIs(a, dx, p, lib, ps, rule) && DerivIs(b, dy, p, lib, ps, rule)
    ensures ValueIs(Multiply(a, b), x * y, lib, ps)
    ensures DerivIs(Multiply(a, b), dx * y + dy * x, p, lib, ps, rule)
  {
    MultiplyParts(a, b, Fin(x), Fin(y), Fin(dx), Fin(dy), p, lib, ps, rule);
    ProductNumbers(x, y, dx, dy);
  }

  /** The product rule's arithmetic on finite numbers. */
  lemma ProductNumbers(x: real, y: real, dx: real, dy: real)
    ensures Times(Fin(x), Fin(y)) == Fin(x * y)
    ensures Expressions.ProductRule(Fin(dx), Fin(dy), Fin(x), Fin(y)) == Fin(dx * y + dy * x)
  {
    assert Times(Fin(dx), Fin(y)) == Fin(dx * y);
    assert Times(Fin(dy), Fin(x)) == Fin(dy * x);
  }

  lemma MultiplyParts(a: Fn, b: Fn, va: Num, vb: Num, da: Num, db: Num, p: nat, lib: MathLib, ps: seq<Num>, rule: Rule)
    requires Value(a, lib, ps) == Some(va) && Value(b, lib, ps) == Some(vb)
    requires Deriv(a, p, lib, ps, rule) == Some(da) && Deriv(b, p, lib, ps, rule) == Some(db)
    ensures Value(Multiply(a, b), lib, ps) == Some(Times(va, vb))
    ensures Deriv(Multiply(a, b), p, lib, ps, rule) == Some(Expressions.ProductRule(da, db, va, vb))
  {
  }

  /** The quotient rule's arithmetic on finite numbers, as devide's closures compute it. */
  lemma QuotientNumbers(lib: MathLib, x: real, y: real, dx: real, dy: real)
    requires y != 0.0
    ensures Over(Fin(x), Fin(y)) == Fin(x / y)
    ensures Over(Minus(Times(Fin(dx), Fin(y)), Times(Fin(dy), Fin(x))), Power(lib, Fin(y), Two)) == Fin((dx * y - dy * x) / (y * y))
  {
    PowerTwo(lib, Fin(y));
    assert y * y != 0.0;
    assert Minus(Times(Fin(dx), Fin(y)), Times(Fin(dy), Fin(x))) == Fin(dx * y - dy * x);
    assert Power(lib, Fin(y), Two) == Fin(y * y);
  }

  /** devide follows the quotient rule wherever the divisor is a non-zero finite value. */
  lemma QuotientRuleHolds(a: Fn, b: Fn, x: real, y: real, dx: real, dy: real, p: nat, lib: MathLib, ps: seq<Num>, rule: Rule)
    requires ValueIs(a, x, lib, ps) && ValueIs(b, y, lib, ps)
    requires DerivIs(a, dx, p, lib, ps, rule) && DerivIs(b, dy, p, lib, ps, rule)
    requires y != 0.0
    ensures ValueIs(Devide(a, b), x / y, lib, ps)
    ensures DerivIs(Devide(a, b), (dx * y - dy * x) / (y * y), p, lib, ps, rule)
  {
    DevideParts(a, b, Fin(x), Fin(y), Fin(dx), Fin(dy), p, lib, ps, rule);
    QuotientNumbers(lib, x, y, dx, dy);
  }

  /** pow's derivative is 0 at a zero base, and then the exponent is not even evaluated. */
  lemma PowZeroBase(a: Fn, b: Fn, p: nat, lib: MathLib, ps: seq<Num>, rule: Rule)
    requires Value(a, lib, ps) == Some(Zero)
    ensures Deriv(Pow(a, b), p, lib, ps, rule) == Some(Zero)
  {
  }

  /**
   * ln's derivative is 0 when 1 / value === 0, that is when the argument is an
   * infinity, and otherwise the chain rule d / v (unlike FunctionSystem's ln,
   * this one keeps the inner derivative).
   */
  lemma LnRule(x: Fn, v: Num, p: nat, lib: MathLib, ps: seq<Num>, rule: Rule)
    requires Value(x, lib, ps) == Some(v)
    ensures IsInfinite(v) ==> Deriv(Ln(x), p, lib, ps, rule) == Some(Zero)
    ensures v.Fin? && v.r != 0.0 && Deriv(x, p, lib, ps, rule).Some? ==>
      Deriv(Ln(x), p, lib, ps, rule) == Some(Over(Deriv(x, p, lib, ps, rule).value, v))
  {
    ReciprocalVanishes(v);
  }

  /** The sum of the first n entries. */
  function Total(vs: seq<real>, n: nat): real
    requires n <= |vs|
  {
    if n == 0 then 0.0 else Total(vs, n - 1) + vs[n - 1]
  }

  /**
   * add's loop sums its chain from 0; subtract's takes the first operand minus
   * the sum of the others.
   */
  lemma {:induction false} ChainValues(f: Fn, vs: seq<real>, n: nat, lib: MathLib, ps: seq<Num>)
    requires (f.Add? || f.Subtract?) && |vs| == |f.chain| && n <= |vs| && (f.Subtract? ==> 1 <= n)
    requires forall i :: 0 <= i < |vs| ==> ValueIs(f.chain[i], vs[i], lib, ps)
    ensures ChainValue(f, n, lib, ps) == Some(Fin(if f.Add? then Total(vs, n) else vs[0] - (Total(vs, n) - vs[0])))
  {
    if n > 0 {
      assert ValueIs(f.chain[n - 1], vs[n - 1], lib, ps);
      if !(f.Subtract? && n == 1) {
        ChainValues(f, vs, n - 1, lib, ps);
      }
    }
  }

  /** A chain's derivative is the same fold over its operands' derivatives. */
  lemma {:induction false} ChainDerivs(f: Fn, ds: seq<real>, n: nat, p: nat, lib: MathLib, ps: seq<Num>, rule: Rule)
    requires (f.Add? || f.Subtract?) && |ds| == |f.chain| && n <= |ds| && (f.Subtract? ==> 1 <= n)
    requires forall i :: 0 <= i < |ds| ==> DerivIs(f.chain[i], ds[i], p, lib, ps, rule)
    ensures ChainDeriv(f, n, p, lib, ps, rule) == Some(Fin(if f.Add? then Total(ds, n) else ds[0] - (Total(ds, n) - ds[0])))
  {
    if n > 0 {
      assert DerivIs(f.chain[n - 1], ds[n - 1], p, lib, ps, rule);
      if !(f.Subtract? && n == 1) {
        ChainDerivs(f, ds, n - 1, p, lib, ps, rule);
      }
    }
  }

  /** add with two operands: the derivative is the sum of theirs. */
  lemma PairDeriv(a: Fn, b: Fn, da: real, db: real, p: nat, lib: MathLib, ps: seq<Num>, rule: Rule)
    requires DerivIs(a, da, p, lib, ps, rule) && DerivIs(b, db, p, lib, ps, rule)
    ensures DerivIs(Add([a, b]), da + db, p, lib, ps, rule)
  {
    var f := Add([a, b]);
    ChainDerivs(f, [da, db], 2, p, lib, ps, rule);
    assert Total([da, db], 1) == da;
    assert Total([da, db], 2) == da + db;
  }

  /** negative(x) and subtract with that single operand: -v, with derivative -d. */
  lemma NegatedRule(x: Fn, v: real, d: real, p: nat, lib: MathLib, ps: seq<Num>, rule: Rule)
    requires ValueIs(x, v, lib, ps) && DerivIs(x, d, p, lib, ps, rule)
    ensures ValueIs(Subtract([Negate(x)]), -v, lib, ps) && DerivIs(Subtract([Negate(x)]), -d, p, lib, ps, rule)
  {
    var n := Negate(x);
    var s := Subtract([n]);
    assert Value(n, lib, ps) == Some(Fin(-v));
    assert Deriv(n, p, lib, ps, rule) == Some(Fin(-d));
    assert Value(s, lib, ps) == ChainValue(s, 1, lib, ps) == Value(n, lib, ps);
    assert Deriv(s, p, lib, ps, rule) == ChainDeriv(s, 1, p, lib, ps, rule) == Deriv(n, p, lib, ps, rule);
  }

  /** exp on a finite value with a finite result: the chain rule d · e^v. */
  lemma ExpRule(x: Fn, v: real, d: real, e: real, p: nat, lib: MathLib, ps: seq<Num>, rule: Rule)
    requires ValueIs(x, v, lib, ps) && DerivIs(x, d, p, lib, ps, rule)
    requires lib.exp(Fin(v)) == Fin(e)
    ensures ValueIs(Exp(x), e, lib, ps) && DerivIs(Exp(x), Polynomials.Product(d, e), p, lib, ps, rule)
  {
    assert Value(Exp(x), lib, ps) == Some(Fin(e));
    assert Deriv(Exp(x), p, lib, ps, rule) == Some(Times(Fin(d), Fin(e)));
    assert Times(Fin(d), Fin(e)) == Fin(Polynomials.Product(d, e));
  }

  /** Sigmoid's denominator 1 + e^(-v), with derivative (0 + 0) + (-d)·e^(-v). */
  lemma SigmoidDenominator(x: Fn, v: real, d: real, e: real, p: nat, lib: MathLib, ps: seq<Num>, rule: Rule)
    requires ValueIs(x, v, lib, ps) && DerivIs(x, d, p, lib, ps, rule)
    requires lib.exp(Fin(-v)) == Fin(e)
    ensures ValueIs(Add([Constant(One), Exp(Subtract([Negate(x)]))]), 1.0 + e, lib, ps)
    ensures DerivIs(Add([Constant(One), Exp(Subtract([Negate(x)]))]), 0.0 + Polynomials.Product(-d, e), p, lib, ps, rule)
  {
    var s := Subtract([Negate(x)]);
    NegatedRule(x, v, d, p, lib, ps, rule);
    ExpRule(s, -v, -d, e, p, lib, ps, rule);
    var w := Add([Constant(One), Exp(s)]);
    assert ValueIs(w.chain[0], 1.0, lib, ps) && DerivIs(w.chain[0], 0.0, p, lib, ps, rule);
    ChainValues(w, [1.0, e], 2, lib, ps);
    ChainDerivs(w, [0.0, Polynomials.Product(-d, e)], 2, p, lib, ps, rule);
    var vs, ds := [1.0, e], [0.0, Polynomials.Product(-d, e)];
    assert Total(vs, 1) == 0.0 + 1.0 && Total(ds, 1) == 0.0 + 0.0;
    assert Total(vs, 2) == 1.0 + e && Total(ds, 2) == 0.0 + Polynomials.Product(-d, e);
  }

  lemma NonZeroSquare(w: real)
    requires w != 0.0
    ensures w * w != 0.0
  {
    if w > 0.0 {
      assert w * w > 0.0 * w;
    } else {
      assert (-w) * (-w) > 0.0 * (-w);
    }
  }

  lemma NegatedQuotient(a: real, q: real)
    requires q != 0.0
    ensures (-a) / q == -(a / q)
  {
    assert (0.0 - a) / q == 0.0 / q - a / q;
  }

  /** The arithmetic of devide(CONSTANT(1), b) on a finite non-zero w: r = 1 / w and q = -dw / w². */
  lemma ReciprocalNumbers(lib: MathLib, w: real, dw: real, r: real, q: real)
    requires w != 0.0 && r == 1.0 / w && q == -(dw / (w * w))
    ensures Over(One, Fin(w)) == Fin(r)
    ensures Over(Minus(Times(Zero, Fin(w)), Times(Fin(dw), One)), Power(lib, Fin(w), Two)) == Fin(q)
  {
    NonZeroSquare(w);
    PowerTwo(lib, Fin(w));
    assert Times(Zero, Fin(w)) == Zero;
    assert Minus(Zero, Times(Fin(dw), One)) == Fin(-dw);
    assert Power(lib, Fin(w), Two) == Fin(w * w);
    assert Over(Fin(-dw), Fin(w * w)) == Fin((-dw) / (w * w));
    NegatedQuotient(dw, w * w);
  }

  /** devide's closures on operands with known values and derivatives. */
  lemma DevideParts(a: Fn, b: Fn, va: Num, vb: Num, da: Num, db: Num, p: nat, lib: MathLib, ps: seq<Num>, rule: Rule)
    requires Value(a, lib, ps) == Some(va) && Value(b, lib, ps) == Some(vb)
    requires Deriv(a, p, lib, ps, rule) == Some(da) && Deriv(b, p, lib, ps, rule) == Some(db)
    ensures Value(Devide(a, b), lib, ps) == Some(Over(va, vb))
    ensures Deriv(Devide(a, b), p, lib, ps, rule) == Some(Over(Minus(Times(da, vb), Times(db, va)), Power(lib, vb, Two)))
  {
  }

  /** devide(CONSTANT(1), b): the reciprocal r = 1 / w, with derivative q = -dw / w². */
  lemma ReciprocalRule(b: Fn, w: real, dw: real, r: real, q: real, p: nat, lib: MathLib, ps: seq<Num>, rule: Rule)
    requires ValueIs(b, w, lib, ps) && DerivIs(b, dw, p, lib, ps, rule) && w != 0.0
    requires r == 1.0 / w && q == -(dw / (w * w))
    ensures ValueIs(Devide(Constant(One), b), r, lib, ps)
    ensures DerivIs(Devide(Constant(One), b), q, p, lib, ps, rule)
  {
    DevideParts(Constant(One), b, One, Fin(w), Zero, Fin(dw), p, lib, ps, rule);
    ReciprocalNumbers(lib, w, dw, r, q);
  }

  /**
   * Sigmoid's value is σ = 1 / (1 + e^(-v)) and its derivative σ(1 - σ)·d,
   * whenever e^(-v) is a finite non-negative number.
   */
  lemma SigmoidRule(x: Fn, v: real, d: real, e: real, p: nat, lib: MathLib, ps: seq<Num>, rule: Rule)
    requires ValueIs(x, v, lib, ps) && DerivIs(x, d, p, lib, ps, rule)
    requires lib.exp(Fin(-v)) == Fin(e) && e >= 0.0
    ensures ValueIs(Sigmoid(x), Calculus.Logistic(e), lib, ps)
    ensures DerivIs(Sigmoid(x), Calculus.Logistic(e) * (1.0 - Calculus.Logistic(e)) * d, p, lib, ps, rule)
  {
    var w, dw := 1.0 + e, 0.0 + Polynomials.Product(-d, e);
    SigmoidDenominator(x, v, d, e, p, lib, ps, rule);
    NonZeroSquare(w);
    ReciprocalRule(Add([Constant(One), Exp(Subtract([Negate(x)]))]), w, dw, 1.0 / w, -(dw / (w * w)), p, lib, ps, rule);
    Calculus.SigmoidIdentity(e, d, w, dw);
  }

  /** TanH's e^(2v) and its derivative (0·v + d·2)·e^(2v). */
  lemma DoubledExp(x: Fn, v: real, d: real, e: real, p: nat, lib: MathLib, ps: seq<Num>, rule: Rule)
    requires ValueIs(x, v, lib, ps) && DerivIs(x, d, p, lib, ps, rule)
    requires lib.exp(Fin(2.0 * v)) == Fin(e)
    ensures ValueIs(Exp(Multiply(Constant(Two), x)), e, lib, ps)
    ensures DerivIs(Exp(Multiply(Constant(Two), x)), Polynomials.Product(2.0 * d, e), p, lib, ps, rule)
  {
    ProductRuleHolds(Constant(Two), x, 2.0, v, 0.0, d, p, lib, ps, rule);
    assert 0.0 * v + d * 2.0 == 2.0 * d;
    ExpRule(Multiply(Constant(Two), x), 2.0 * v, 2.0 * d, e, p, lib, ps, rule);
  }

  /** TanH's numerator e^(2v) - 1 and denominator e^(2v) + 1, with their derivatives. */
  lemma TanHParts(x: Fn, v: real, d: real, e: real, p: nat, lib: MathLib, ps: seq<Num>, rule: Rule)
    requires ValueIs(x, v, lib, ps) && DerivIs(x, d, p, lib, ps, rule)
    requires lib.exp(Fin(2.0 * v)) == Fin(e)
    ensures ValueIs(Subtract([Exp(Multiply(Constant(Two), x)), Constant(One)]), e - 1.0, lib, ps)
    ensures DerivIs(Subtract([Exp(Multiply(Constant(Two), x)), Constant(One)]), Polynomials.Product(2.0 * d, e), p, lib, ps, rule)
    ensures ValueIs(Add([Exp(Multiply(Constant(Two), x)), Constant(One)]), e + 1.0, lib, ps)
    ensures DerivIs(Add([Exp(Multiply(Constant(Two), x)), Constant(One)]), Polynomials.Product(2.0 * d, e), p, lib, ps, rule)
  {
    var ex := Exp(Multiply(Constant(Two), x));
    DoubledExp(x, v, d, e, p, lib, ps, rule);
    var g := Polynomials.Product(2.0 * d, e);
    ShiftedByOne(ex, e, g, p, lib, ps, rule);
  }

  /** e - 1 and e + 1 as subtract and add chains: the constant shifts the value and not the derivative. */
  lemma ShiftedByOne(ex: Fn, e: real, g: real, p: nat, lib: MathLib, ps: seq<Num>, rule: Rule)
    requires ValueIs(ex, e, lib, ps) && DerivIs(ex, g, p, lib, ps, rule)
    ensures ValueIs(Subtract([ex, Constant(One)]), e - 1.0, lib, ps)
    ensures DerivIs(Subtract([ex, Constant(One)]), g, p, lib, ps, rule)
    ensures ValueIs(Add([ex, Constant(One)]), e + 1.0, lib, ps)
    ensures DerivIs(Add([ex, Constant(One)]), g, p, lib, ps, rule)
  {
    ChainValues(Subtract([ex, Constant(One)]), [e, 1.0], 2, lib, ps);
    ChainDerivs(Subtract([ex, Constant(One)]), [g, 0.0], 2, p, lib, ps, rule);
    ChainValues(Add([ex, Constant(One)]), [e, 1.0], 2, lib, ps);
    ChainDerivs(Add([ex, Constant(One)]), [g, 0.0], 2, p, lib, ps, rule);
  }

  /** tanh written in terms of e = e^(2v). */
  function Tanh(e: real): real
    requires e >= 0.0
  {
    (e - 1.0) / (e + 1.0)
  }

  /** The quotient rule's slope (g·m - g·n) / m² on n = e - 1 and m = e + 1 is (1 - t²)·d when g = 2d·e. */
  lemma TanHIdentity(e: real, d: real, g: real, n: real, m: real)
    requires e >= 0.0 && g == 2.0 * d * e && n == e - 1.0 && m == e + 1.0
    ensures m * m != 0.0
    ensures (g * m - g * n) / (m * m) == (1.0 - Tanh(e) * Tanh(e)) * d
  {
    var q := m * m;
    var t := Tanh(e);
    assert q > 0.0;
    assert t * m == n;
    assert t * t * q == n * n;
    assert 1.0 - t * t == 4.0 * e / q by {
      assert (1.0 - t * t) * q == q - n * n == 4.0 * e;
    }
    assert g * m - g * n == 2.0 * g;
  }

  /**
   * TanH's value is t = (e^(2v) - 1) / (e^(2v) + 1) and its derivative (1 - t²)·d,
   * whenever e^(2v) is a finite non-negative number.
   */
  lemma TanHRule(x: Fn, v: real, d: real, e: real, p: nat, lib: MathLib, ps: seq<Num>, rule: Rule)
    requires ValueIs(x, v, lib, ps) && DerivIs(x, d, p, lib, ps, rule)
    requires lib.exp(Fin(2.0 * v)) == Fin(e) && e >= 0.0
    ensures ValueIs(TanH(x), Tanh(e), lib, ps)
    ensures DerivIs(TanH(x), (1.0 - Tanh(e) * Tanh(e)) * d, p, lib, ps, rule)
  {
    var g, n, m := Polynomials.Product(2.0 * d, e), e - 1.0, e + 1.0;
    TanHParts(x, v, d, e, p, lib, ps, rule);
    QuotientRuleHolds(Subtract([Exp(Multiply(Constant(Two), x)), Constant(One)]), Add([Exp(Multiply(Constant(Two), x)), Constant(One)]),
      n, m, g, g, p, lib, ps, rule);
    TanHIdentity(e, d, g, n, m);
  }

  // ----- PolynomialRegressionModel -----

  /** The constructor's term `multiply(PARAMETER(i + 1), pow(PARAMETER(0), CONSTANT(i)))`. */
  function Term(i: nat): Fn {
    Multiply(Parameter(i + 1), Pow(Parameter(0), Constant(Fin(i as real))))
  }

  /** The parameter function after n rounds of the constructor's loop, from CONSTANT(0). */
  function PolynomialFn(n: nat): Fn {
    if n == 0 then Constant(Zero) else Add([PolynomialFn(n - 1), Term(n - 1)])
  }

  /** The argument list `(x, ...parameter)` with a finite x and finite parameters ws. */
  predicate Inputs(ps: seq<Num>, x: real, ws: seq<real>) {
    |ps| == |ws| + 1 && ps[0] == Fin(x) && forall i :: 0 <= i < |ws| ==> ps[i + 1] == Fin(ws[i])
  }

  /** Where pow's log term is harmless: a zero base, the guarded rule, or a finite `Math.log(x)`. */
  predicate Smooth(rule: Rule, lib: MathLib, x: real) {
    x == 0.0 || rule.Guarded? || lib.log(Fin(x)).Fin?
  }

  /** pow(PARAMETER(0), CONSTANT(i)) is x^i. */
  lemma PowerOfInput(i: nat, x: real, lib: MathLib, ps: seq<Num>)
    requires |ps| > 0 && ps[0] == Fin(x)
    ensures Power(lib, Fin(x), Fin(i as real)) == Fin(RealPow(x, i))
    ensures ValueIs(Pow(Parameter(0), Constant(Fin(i as real))), RealPow(x, i), lib, ps)
  {
    var c := Fin(i as real);
    assert (i as real).Floor == i;
    assert IsInteger(c);
    assert Power(lib, Fin(x), c) == IntPow(Fin(x), i);
    IntPowFinite(x, i);
    assert Value(Parameter(0), lib, ps) == Some(Fin(x));
    assert Value(Constant(c), lib, ps) == Some(c);
    assert Value(Pow(Parameter(0), Constant(c)), lib, ps) == Some(Power(lib, Fin(x), c));
  }

  lemma TermValue(i: nat, x: real, ws: seq<real>, lib: MathLib, ps: seq<Num>)
    requires Inputs(ps, x, ws) && i < |ws|
    ensures ValueIs(Term(i), Polynomials.Product(RealPow(x, i), ws[i]), lib, ps)
  {
    PowerOfInput(i, x, lib, ps);
    assert Arg(ps, i + 1) == Fin(ws[i]);
    assert Value(Term(i), lib, ps) == Some(Times(Fin(ws[i]), Fin(RealPow(x, i))));
    assert Times(Fin(ws[i]), Fin(RealPow(x, i))) == Fin(ws[i] * RealPow(x, i));
    assert Polynomials.Product(RealPow(x, i), ws[i]) == ws[i] * RealPow(x, i);
  }

  /** The parameter function's value is the polynomial Σ ws[i]·x^i of its first n parameters. */
  lemma {:induction false} PolynomialValue(n: nat, x: real, ws: seq<real>, lib: MathLib, ps: seq<Num>)
    requires Inputs(ps, x, ws) && n <= |ws|
    ensures ValueIs(PolynomialFn(n), Presets.Series(ws[..n], x), lib, ps)
  {
    if n > 0 {
      var f := PolynomialFn(n);
      PolynomialValue(n - 1, x, ws, lib, ps);
      TermValue(n - 1, x, ws, lib, ps);
      assert ws[..n][..n - 1] == ws[..n - 1];
      var rest, term := Presets.Series(ws[..n - 1], x), Polynomials.Product(RealPow(x, n - 1), ws[n - 1]);
      assert ChainValue(f, 1, lib, ps) == Some(Fin(0.0 + rest));
      assert ChainValue(f, 2, lib, ps) == Some(Fin(0.0 + rest + term));
    }
  }

  /** pow(PARAMETER(0), CONSTANT(i)) does not depend on the parameters: its derivative in argument k ≥ 1 is 0. */
  lemma PowerFlat(i: nat, k: nat, x: real, lib: MathLib, ps: seq<Num>, rule: Rule)
    requires |ps| > 0 && ps[0] == Fin(x) && k >= 1 && Smooth(rule, lib, x)
    ensures DerivIs(Pow(Parameter(0), Constant(Fin(i as real))), 0.0, k, lib, ps, rule)
  {
    var c := Fin(i as real);
    PowerOfInput(i, x, lib, ps);
    if x == 0.0 {
      PowZeroBase(Parameter(0), Constant(c), k, lib, ps, rule);
    } else {
      PowFlatRule(rule, lib, Fin(x), c, Fin(RealPow(x, i)));
      PowParts(Parameter(0), Constant(c), Fin(x), c, Zero, Zero, k, lib, ps, rule);
    }
  }

  lemma PowParts(a: Fn, b: Fn, va: Num, vb: Num, da: Num, db: Num, p: nat, lib: MathLib, ps: seq<Num>, rule: Rule)
    requires Value(a, lib, ps) == Some(va) && Value(b, lib, ps) == Some(vb) && !Same(va, Zero)
    requires Deriv(a, p, lib, ps, rule) == Some(da) && Deriv(b, p, lib, ps, rule) == Some(db)
    ensures Deriv(Pow(a, b), p, lib, ps, rule) == Some(PowRule(rule, lib, va, vb, da, db))
  {
  }

  lemma PowFlatRule(rule: Rule, lib: MathLib, b: Num, c: Num, v: Num)
    requires b.Fin? && b.r != 0.0 && c.Fin? && v.Fin? && v == Power(lib, b, c) && (rule.Guarded? || lib.log(b).Fin?)
    ensures PowRule(rule, lib, b, c, Zero, Zero) == Zero
  {
    var inv := Over(One, b);
    assert inv == Fin(1.0 / b.r);
    var scaled := Times(inv, Zero);
    assert scaled == Fin(0.0);
    var chain := Times(scaled, c);
    assert chain == Fin(0.0);
    var total := if rule.Guarded? then chain else Plus(chain, Times(lib.log(b), Zero));
    assert total == Zero;
    assert PowRule(rule, lib, b, c, Zero, Zero) == Times(total, v);
  }

  /** A term's derivative in parameter k is x^i for its own parameter (k = i + 1) and 0 for the others. */
  lemma TermDeriv(i: nat, k: nat, x: real, ws: seq<real>, lib: MathLib, ps: seq<Num>, rule: Rule)
    requires Inputs(ps, x, ws) && i < |ws| && k >= 1 && Smooth(rule, lib, x)
    ensures DerivIs(Term(i), if k == i + 1 then RealPow(x, i) else 0.0, k, lib, ps, rule)
  {
    PowerOfInput(i, x, lib, ps);
    PowerFlat(i, k, x, lib, ps, rule);
    assert Arg(ps, i + 1) == Fin(ws[i]);
    var one := if k == i + 1 then 1.0 else 0.0;
    ProductRuleHolds(Parameter(i + 1), Pow(Parameter(0), Constant(Fin(i as real))), ws[i], RealPow(x, i), one, 0.0, k, lib, ps, rule);
  }

  /** The gradient of the parameter function: the derivative in parameter k is x^(k-1) while k ≤ n. */
  lemma {:induction false} PolynomialGradient(n: nat, k: nat, x: real, ws: seq<real>, lib: MathLib, ps: seq<Num>, rule: Rule)
    requires Inputs(ps, x, ws) && n <= |ws| && k >= 1 && Smooth(rule, lib, x)
    ensures DerivIs(PolynomialFn(n), if k <= n then RealPow(x, k - 1) else 0.0, k, lib, ps, rule)
  {
    if n > 0 {
      var f := PolynomialFn(n);
      PolynomialGradient(n - 1, k, x, ws, lib, ps, rule);
      TermDeriv(n - 1, k, x, ws, lib, ps, rule);
      var rest := if k <= n - 1 then RealPow(x, k - 1) else 0.0;
      var term := if k == n then RealPow(x, n - 1) else 0.0;
      PairDeriv(PolynomialFn(n - 1), Term(n - 1), rest, term, k, lib, ps, rule);
      assert rest + term == if k <= n then RealPow(x, k - 1) else 0.0;
    }
  }

  /** With the library's pow rule and a base whose log is NaN (x < 0), every term's derivative is NaN. */
  lemma TermPoisoned(i: nat, k: nat, x: real, lib: MathLib, ps: seq<Num>)
    requires |ps| > 0 && ps[0] == Fin(x) && x != 0.0 && lib.log(Fin(x)).NaN?
    ensures Deriv(Term(i), k, lib, ps, AsWritten) == Some(NaN)
  {
    var c := Fin(i as real);
    var pw := Pow(Parameter(0), Constant(c));
    PowerOfInput(i, x, lib, ps);
    var db := if k == 0 then One else Zero;
    assert Times(Times(Over(One, Fin(x)), db), c).Fin?;
    assert Deriv(pw, k, lib, ps, AsWritten) == Some(PowRule(AsWritten, lib, Fin(x), c, db, Zero)) == Some(NaN);
  }

  lemma {:induction false} PolynomialPoisoned(n: nat, k: nat, x: real, lib: MathLib, ps: seq<Num>)
    requires |ps| > 0 && ps[0] == Fin(x) && x != 0.0 && lib.log(Fin(x)).NaN? && n >= 1
    ensures Deriv(PolynomialFn(n), k, lib, ps, AsWritten) == Some(NaN)
  {
    var f := PolynomialFn(n);
    TermPoisoned(n - 1, k, x, lib, ps);
    if n > 1 {
      PolynomialPoisoned(n - 1, k, x, lib, ps);
    }
    assert ChainDeriv(f, 1, k, lib, ps, AsWritten).Some?;
  }

  /** The parameter function never throws: its value and every derivative are defined, whatever the arguments. */
  lemma {:induction false} PolynomialDefined(n: nat, p: nat, lib: MathLib, ps: seq<Num>, rule: Rule)
    ensures Value(PolynomialFn(n), lib, ps).Some?
    ensures Deriv(PolynomialFn(n), p, lib, ps, rule).Some?
  {
    if n > 0 {
      var f := PolynomialFn(n);
      PolynomialDefined(n - 1, p, lib, ps, rule);
      var pw := Pow(Parameter(0), Constant(Fin((n - 1) as real)));
      assert Value(pw, lib, ps).Some?;
      assert Deriv(pw, p, lib, ps, rule).Some?;
      assert Value(Term(n - 1), lib, ps).Some?;
      assert Deriv(Term(n - 1), p, lib, ps, rule).Some?;
      assert ChainValue(f, 1, lib, ps).Some?;
      assert ChainDeriv(f, 1, p, lib, ps, rule).Some?;
    }
  }

  /** `valueOf(x, ...parameter)` of the model's function with n parameters. */
  function Prediction(n: nat, lib: MathLib, ps: seq<Num>): (r: Num)
    ensures Value(PolynomialFn(n), lib, ps) == Some(r)
  {
    PolynomialDefined(n, 0, lib, ps, AsWritten);
    Value(PolynomialFn(n), lib, ps).value
  }

  /** `derivative(p, x, ...parameter)` of the model's function with n parameters. */
  function Slope(n: nat, p: nat, lib: MathLib, ps: seq<Num>, rule: Rule): (r: Num)
    ensures Deriv(PolynomialFn(n), p, lib, ps, rule) == Some(r)
  {
    PolynomialDefined(n, p, lib, ps, rule);
    Deriv(PolynomialFn(n), p, lib, ps, rule).value
  }

  /**
   * The parameters after one `train(x, y)`: every derivative is taken at the old
   * parameters, then parameter i moves by error · derivative(i + 1) · LEARNRATE.
   */
  function Trained(n: nat, lib: MathLib, rule: Rule, ws: seq<Num>, x: Num, y: Num, lr: Num): (r: seq<Num>)
    requires |ws| == n
    ensures |r| == n
  {
    var ps := [x] + ws;
    var error := Minus(Prediction(n, lib, ps), y);
    seq(n, i requires 0 <= i < n => Minus(ws[i], Times(Times(error, Slope(n, i + 1, lib, ps, rule)), lr)))
  }

  predicate Finite(ws: seq<Num>) {
    forall i :: 0 <= i < |ws| ==> ws[i].Fin?
  }

  /** The reals behind finite numbers. */
  function Reals(ws: seq<Num>): (rs: seq<real>)
    requires Finite(ws)
    ensures |rs| == |ws| && forall i :: 0 <= i < |ws| ==> ws[i] == Fin(rs[i])
  {
    seq(|ws|, i requires 0 <= i < |ws| => ws[i].r)
  }

  lemma ArgumentsOf(x: real, ws: seq<Num>)
    requires Finite(ws)
    ensures Inputs([Fin(x)] + ws, x, Reals(ws))
  {
    var ps := [Fin(x)] + ws;
    forall i | 0 <= i < |ws|
      ensures ps[i + 1] == Fin(Reals(ws)[i])
    {
      assert ps[i + 1] == ws[i];
    }
  }

  lemma TrainedAt(n: nat, lib: MathLib, rule: Rule, ws: seq<Num>, x: Num, y: Num, lr: Num, i: nat)
    requires |ws| == n && i < n
    ensures Trained(n, lib, rule, ws, x, y, lr)[i]
      == Minus(ws[i], Times(Times(Minus(Prediction(n, lib, [x] + ws), y), Slope(n, i + 1, lib, [x] + ws, rule)), lr))
  {
  }

  /** One parameter's update on finite numbers: w - error · slope · rate. */
  lemma DescentStep(w: real, error: real, slope: real, lr: real)
    ensures Minus(Fin(w), Times(Times(Fin(error), Fin(slope)), Fin(lr)))
      == Fin(w - Polynomials.Product(Polynomials.Product(error, slope), lr))
  {
    var step := Polynomials.Product(Polynomials.Product(error, slope), lr);
    assert Times(Times(Fin(error), Fin(slope)), Fin(lr)) == Fin(step);
  }

  /** With finite parameters and a smooth input, one training step is exactly a gradient-descent step on the squared error. */
  lemma TrainDescent(n: nat, lib: MathLib, rule: Rule, ws: seq<Num>, x: real, y: real, lr: real, i: nat)
    requires |ws| == n && Finite(ws) && i < n && Smooth(rule, lib, x)
    ensures Trained(n, lib, rule, ws, Fin(x), Fin(y), Fin(lr))[i]
      == Fin(Reals(ws)[i] - Polynomials.Product(Polynomials.Product(Presets.Series(Reals(ws), x) - y, RealPow(x, i)), lr))
  {
    var rs := Reals(ws);
    PredictionAt(n, lib, ws, x);
    SlopeAt(n, lib, rule, ws, x, i);
    assert Minus(Prediction(n, lib, [Fin(x)] + ws), Fin(y)) == Fin(Presets.Series(rs, x) - y);
    TrainedAt(n, lib, rule, ws, Fin(x), Fin(y), Fin(lr), i);
    DescentStep(rs[i], Presets.Series(rs, x) - y, RealPow(x, i), lr);
  }

  lemma PredictionAt(n: nat, lib: MathLib, ws: seq<Num>, x: real)
    requires |ws| == n && Finite(ws)
    ensures Prediction(n, lib, [Fin(x)] + ws) == Fin(Presets.Series(Reals(ws), x))
  {
    var rs := Reals(ws);
    ArgumentsOf(x, ws);
    PolynomialValue(n, x, rs, lib, [Fin(x)] + ws);
    assert rs[..n] == rs;
  }

  lemma SlopeAt(n: nat, lib: MathLib, rule: Rule, ws: seq<Num>, x: real, i: nat)
    requires |ws| == n && Finite(ws) && i < n && Smooth(rule, lib, x)
    ensures Slope(n, i + 1, lib, [Fin(x)] + ws, rule) == Fin(RealPow(x, i))
  {
    ArgumentsOf(x, ws);
    PolynomialGradient(n, i + 1, x, Reals(ws), lib, [Fin(x)] + ws, rule);
  }

  /** Under the corrected pow rule the descent step holds at every finite input, negative ones included. */
  lemma GuardedDescent(n: nat, lib: MathLib, ws: seq<Num>, x: real, y: real, lr: real, i: nat)
    requires |ws| == n && Finite(ws) && i < n
    ensures Trained(n, lib, Guarded, ws, Fin(x), Fin(y), Fin(lr))[i]
      == Fin(Reals(ws)[i] - Polynomials.Product(Polynomials.Product(Presets.Series(Reals(ws), x) - y, RealPow(x, i)), lr))
  {
    TrainDescent(n, lib, Guarded, ws, x, y, lr, i);
  }

  /** Under the corrected rule a model that already fits the sample is left as it is. */
  lemma GuardedAtFit(n: nat, lib: MathLib, ws: seq<Num>, x: real, lr: real)
    requires |ws| == n && Finite(ws)
    ensures Trained(n, lib, Guarded, ws, Fin(x), Fin(Presets.Series(Reals(ws), x)), Fin(lr)) == ws
  {
    var y := Presets.Series(Reals(ws), x);
    var r := Trained(n, lib, Guarded, ws, Fin(x), Fin(y), Fin(lr));
    forall i | 0 <= i < n
      ensures r[i] == ws[i]
    {
      GuardedDescent(n, lib, ws, x, y, lr, i);
      assert Polynomials.Product(y - y, RealPow(x, i)) == 0.0;
    }
  }

  /**
   * With the library's pow rule, one training step at an input whose log is NaN
   * (every x < 0) turns every parameter into NaN, whatever the error.
   */
  lemma TrainPoisoned(n: nat, lib: MathLib, ws: seq<Num>, x: real, y: Num, lr: Num, i: nat)
    requires |ws| == n && i < n && x != 0.0 && lib.log(Fin(x)).NaN?
    ensures Trained(n, lib, AsWritten, ws, Fin(x), y, lr)[i] == NaN
  {
    var ps := [Fin(x)] + ws;
    PolynomialPoisoned(n, i + 1, x, lib, ps);
  }

  /** The model object: `grade`, the `parameter` array, `LEARNRATE` and the parameter function built from them. */
  class PolynomialRegressionModel {
    const grade: nat
    var parameter: seq<Num>
    var learnRate: Num
    const parameterFunction: Fn

    ghost predicate Valid()
      reads this
    {
      |parameter| == grade + 1 && parameterFunction == PolynomialFn(grade + 1)
    }

    /** grade + 1 parameters at 0, LEARNRATE 0.01, and add(…add(CONSTANT(0), term 0)…, term grade). */
    constructor (grade: nat)
      ensures Valid() && this.grade == grade
      ensures parameter == seq(grade + 1, _ => Zero)
      ensures learnRate == Fin(0.01)
    {
      this.grade := grade;
      var ws: seq<Num> := [];
      var i := 0;
      while i < grade + 1
        invariant i <= grade + 1 && ws == seq(i, _ => Zero)
      {
        ws := ws + [Zero];
        i := i + 1;
      }
      var f := Constant(Zero);
      i := 0;
      while i < grade + 1
        invariant i <= grade + 1 && f == PolynomialFn(i)
      {
        f := Add([f, Term(i)]);
        i := i + 1;
      }
      parameter := ws;
      learnRate := Fin(0.01);
      parameterFunction := f;
    }

    /** `valueOf(x)`: the polynomial at x; with finite input and parameters, Σ parameter[i]·x^i. */
    method Predict(lib: MathLib, x: Num) returns (r: Num)
      requires Valid()
      ensures r == Prediction(grade + 1, lib, [x] + parameter)
      ensures x.Fin? && Finite(parameter) ==> r == Fin(Presets.Series(Reals(parameter), x.r))
    {
      var v := ValueOf(parameterFunction, lib, [x] + parameter);
      PolynomialDefined(grade + 1, 0, lib, [x] + parameter, AsWritten);
      r := v.value;
      if x.Fin? && Finite(parameter) {
        ArgumentsOf(x.r, parameter);
        PolynomialValue(grade + 1, x.r, Reals(parameter), lib, [x] + parameter);
        assert Reals(parameter)[..grade + 1] == Reals(parameter);
      }
    }

    /** `train(x, y)`: all derivatives first, at the old parameters, then every parameter steps against the error. */
    method Train(lib: MathLib, rule: Rule, x: Num, y: Num)
      requires Valid()
      modifies this
      ensures Valid() && learnRate == old(learnRate)
      ensures parameter == Trained(grade + 1, lib, rule, old(parameter), x, y, learnRate)
    {
      var ps := [x] + parameter;
      var prediction := Predict(lib, x);
      var error := Minus(prediction, y);
      var derivatives: seq<Num> := [];
      var i := 0;
      while i < grade + 1
        invariant i <= grade + 1 && |derivatives| == i
        invariant forall j :: 0 <= j < i ==> derivatives[j] == Slope(grade + 1, j + 1, lib, ps, rule)
        invariant parameter == old(parameter) && learnRate == old(learnRate)
      {
        var d := DerivativeOf(parameterFunction, i + 1, lib, ps, rule);
        PolynomialDefined(grade + 1, i + 1, lib, ps, rule);
        derivatives := derivatives + [d.value];
        i := i + 1;
      }
      ghost var goal := Trained(grade + 1, lib, rule, parameter, x, y, learnRate);
      ghost var start := parameter;
      i := 0;
      while i < |derivatives|
        invariant i <= |derivatives| && |parameter| == grade + 1
        invariant forall j :: 0 <= j < i ==> parameter[j] == goal[j]
        invariant forall j :: i <= j < |parameter| ==> parameter[j] == start[j]
        invariant learnRate == old(learnRate)
      {
        parameter := parameter[i := Minus(parameter[i], Times(Times(error, derivatives[i]), learnRate))];
        i := i + 1;
      }
    }

    /** `setLearnRate(learnrate)`. */
    method SetLearnRate(lr: Num)
      requires Valid()
      modifies this
      ensures Valid() && learnRate == lr && parameter == old(parameter)
    {
      learnRate := lr;
    }
  }
}
