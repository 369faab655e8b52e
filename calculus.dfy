/**
 * What the derivative rules of FunctionSystem mean.  On the fragment built
 * from cells, add, subtract, multiply and negate, shifting the cell `p` by h
 * moves the value along a polynomial in h; the derivative the engine computes
 * is that polynomial's linear coefficient.  The remaining lemmas pin down the
 * guards and quirks of the other rules.
 */
module Calculus {
  import opened Wrappers
  import opened Numbers
  import opened Store
  import opened Expressions
  import opened Polynomials

  /** Roots made of cells, add, subtract, multiply and negate. */
  predicate Polynomial(e: Expr) {
    match e
    case Leaf(_) => true
    case Add(a, b) => Polynomial(a) && Polynomial(b)
    case Subtract(a, b) => Polynomial(a) && Polynomial(b)
    case Multiply(a, b) => Polynomial(a) && Polynomial(b)
    case Negate(x) => Polynomial(x)
    case _ => false
  }

  /** Every cell holds a finite value. */
  predicate AllFinite(s: Values) {
    forall id :: id in s ==> s[id].Fin?
  }

  /** The store with the finite cell `p` moved by h. */
  function Shift(s: Values, p: Id, h: real): (t: Values)
    requires p in s && s[p].Fin?
    ensures t.Keys == s.Keys && t[p] == Fin(s[p].r + h)
    ensures forall id :: id in s && id != p ==> t[id] == s[id]
  {
    s[p := Fin(s[p].r + h)]
  }

  /** The precondition shared by the first-order lemmas. */
  predicate Admissible(e: Expr, p: Id, s: Values) {
    AllFinite(s) && p in s && Ids(e) <= s.Keys
  }

  /** e's value in the store t is the finite value x. */
  predicate ValueIs(e: Expr, x: real, lib: MathLib, t: Values) {
    Value(e, lib, t) == Some(Fin(x))
  }

  /** e's derivative with respect to p in the store s is the finite value d. */
  predicate DerivIs(e: Expr, d: real, p: Id, lib: MathLib, s: Values) {
    Deriv(e, p, lib, s) == Some(Fin(d))
  }

  /** cs describes how e's value moves with the cell p, and at h = 0 it gives e's value and derivative. */
  ghost predicate Describes(cs: seq<real>, e: Expr, p: Id, lib: MathLib, s: Values)
    requires p in s && s[p].Fin?
  {
    && (forall h :: ValueIs(e, Eval(cs, h), lib, Shift(s, p, h)))
    && ValueIs(e, Coef(cs, 0), lib, s)
    && DerivIs(e, Coef(cs, 1), p, lib, s)
  }

  /* The polynomial-fragment operators on finite values: each is the real operation. */

  lemma AddValue(a: Expr, b: Expr, x: real, y: real, lib: MathLib, t: Values)
    requires ValueIs(a, x, lib, t) && ValueIs(b, y, lib, t)
    ensures ValueIs(Add(a, b), x + y, lib, t)
  {
    assert NodeValue(Add(a, b), lib, t) == Some(Plus(Fin(x), Fin(y)));
  }

  lemma AddDeriv(a: Expr, b: Expr, x: real, y: real, p: Id, lib: MathLib, s: Values)
    requires DerivIs(a, x, p, lib, s) && DerivIs(b, y, p, lib, s)
    ensures DerivIs(Add(a, b), x + y, p, lib, s)
  {
    assert NodeDeriv(Add(a, b), p, lib, s) == Some(Plus(Fin(x), Fin(y)));
  }

  lemma SubtractValue(a: Expr, b: Expr, x: real, y: real, lib: MathLib, t: Values)
    requires ValueIs(a, x, lib, t) && ValueIs(b, y, lib, t)
    ensures ValueIs(Subtract(a, b), x - y, lib, t)
  {
    assert NodeValue(Subtract(a, b), lib, t) == Some(Minus(Fin(x), Fin(y)));
  }

  lemma SubtractDeriv(a: Expr, b: Expr, x: real, y: real, p: Id, lib: MathLib, s: Values)
    requires DerivIs(a, x, p, lib, s) && DerivIs(b, y, p, lib, s)
    ensures DerivIs(Subtract(a, b), x - y, p, lib, s)
  {
    assert NodeDeriv(Subtract(a, b), p, lib, s) == Some(Minus(Fin(x), Fin(y)));
  }

  lemma NegateValue(a: Expr, x: real, lib: MathLib, t: Values)
    requires ValueIs(a, x, lib, t)
    ensures ValueIs(Negate(a), -x, lib, t)
  {
    assert NodeValue(Negate(a), lib, t) == Some(Negative(Fin(x)));
  }

  lemma NegateDeriv(a: Expr, x: real, p: Id, lib: MathLib, s: Values)
    requires DerivIs(a, x, p, lib, s)
    ensures DerivIs(Negate(a), -x, p, lib, s)
  {
    assert NodeDeriv(Negate(a), p, lib, s) == Some(Negative(Fin(x)));
  }

  lemma MultiplyValue(a: Expr, b: Expr, x: real, y: real, z: real, lib: MathLib, t: Values)
    requires ValueIs(a, x, lib, t) && ValueIs(b, y, lib, t) && z == Product(x, y)
    ensures ValueIs(Multiply(a, b), z, lib, t)
  {
    assert NodeValue(Multiply(a, b), lib, t) == Some(Times(Fin(x), Fin(y)));
    assert Times(Fin(x), Fin(y)) == Fin(z);
  }

  /** The product rule: der1 * val2 + der2 * val1. */
  lemma MultiplyDeriv(a: Expr, b: Expr, a0: real, a1: real, b0: real, b1: real, z: real,
                      p: Id, lib: MathLib, s: Values)
    requires ValueIs(a, a0, lib, s) && ValueIs(b, b0, lib, s)
    requires DerivIs(a, a1, p, lib, s) && DerivIs(b, b1, p, lib, s)
    requires z == Product(a0, b1) + Product(a1, b0)
    ensures DerivIs(Multiply(a, b), z, p, lib, s)
  {
    assert NodeDeriv(Multiply(a, b), p, lib, s) == Some(ProductRule(Fin(a1), Fin(b1), Fin(a0), Fin(b0)));
    assert b1 * a0 == a0 * b1;
    assert ProductRule(Fin(a1), Fin(b1), Fin(a0), Fin(b0)) == Fin(z);
  }

  lemma FirstOrderLeaf(id: Id, p: Id, lib: MathLib, s: Values) returns (cs: seq<real>)
    requires Admissible(Leaf(id), p, s)
    ensures Describes(cs, Leaf(id), p, lib, s)
  {
    if id == p {
      cs := [s[p].r, 1.0];
      forall h ensures ValueIs(Leaf(id), Eval(cs, h), lib, Shift(s, p, h)) {
        assert cs[1..][1..] == [];
        assert Eval(cs[1..], h) == 1.0 + Product(h, 0.0) == 1.0;
        assert Eval(cs, h) == s[p].r + Product(h, 1.0) == s[p].r + h;
      }
    } else {
      cs := [s[id].r];
      forall h ensures ValueIs(Leaf(id), Eval(cs, h), lib, Shift(s, p, h)) {
        assert cs[1..] == [];
        assert Eval(cs, h) == s[id].r + Product(h, 0.0) == s[id].r;
      }
    }
  }

  lemma FirstOrderAdd(a: Expr, b: Expr, ca: seq<real>, cb: seq<real>, p: Id, lib: MathLib, s: Values)
      returns (cs: seq<real>)
    requires p in s && s[p].Fin? && Describes(ca, a, p, lib, s) && Describes(cb, b, p, lib, s)
    ensures Describes(cs, Add(a, b), p, lib, s)
  {
    cs := SumPolynomial(ca, cb);
    forall h ensures ValueIs(Add(a, b), Eval(cs, h), lib, Shift(s, p, h)) {
      AddValue(a, b, Eval(ca, h), Eval(cb, h), lib, Shift(s, p, h));
    }
    assert Coef(cs, 0) == Coef(ca, 0) + Coef(cb, 0) && Coef(cs, 1) == Coef(ca, 1) + Coef(cb, 1);
    AddValue(a, b, Coef(ca, 0), Coef(cb, 0), lib, s);
    AddDeriv(a, b, Coef(ca, 1), Coef(cb, 1), p, lib, s);
  }

  lemma FirstOrderSubtract(a: Expr, b: Expr, ca: seq<real>, cb: seq<real>, p: Id, lib: MathLib, s: Values)
      returns (cs: seq<real>)
    requires p in s && s[p].Fin? && Describes(ca, a, p, lib, s) && Describes(cb, b, p, lib, s)
    ensures Describes(cs, Subtract(a, b), p, lib, s)
  {
    cs := DifferencePolynomial(ca, cb);
    forall h ensures ValueIs(Subtract(a, b), Eval(cs, h), lib, Shift(s, p, h)) {
      SubtractValue(a, b, Eval(ca, h), Eval(cb, h), lib, Shift(s, p, h));
    }
    assert Coef(cs, 0) == Coef(ca, 0) - Coef(cb, 0) && Coef(cs, 1) == Coef(ca, 1) - Coef(cb, 1);
    SubtractValue(a, b, Coef(ca, 0), Coef(cb, 0), lib, s);
    SubtractDeriv(a, b, Coef(ca, 1), Coef(cb, 1), p, lib, s);
  }

  lemma FirstOrderNegate(x: Expr, cx: seq<real>, p: Id, lib: MathLib, s: Values) returns (cs: seq<real>)
    requires p in s && s[p].Fin? && Describes(cx, x, p, lib, s)
    ensures Describes(cs, Negate(x), p, lib, s)
  {
    cs := NegatedPolynomial(cx);
    forall h ensures ValueIs(Negate(x), Eval(cs, h), lib, Shift(s, p, h)) {
      NegateValue(x, Eval(cx, h), lib, Shift(s, p, h));
    }
    assert Coef(cs, 0) == -Coef(cx, 0) && Coef(cs, 1) == -Coef(cx, 1);
    NegateValue(x, Coef(cx, 0), lib, s);
    NegateDeriv(x, Coef(cx, 1), p, lib, s);
  }

  lemma FirstOrderMultiply(a: Expr, b: Expr, ca: seq<real>, cb: seq<real>, p: Id, lib: MathLib, s: Values)
      returns (cs: seq<real>)
    requires p in s && s[p].Fin? && Describes(ca, a, p, lib, s) && Describes(cb, b, p, lib, s)
    ensures Describes(cs, Multiply(a, b), p, lib, s)
  {
    cs := ProductPolynomial(ca, cb);
    forall h ensures ValueIs(Multiply(a, b), Eval(cs, h), lib, Shift(s, p, h)) {
      var t := Shift(s, p, h);
      MultiplyValue(a, b, Eval(ca, h), Eval(cb, h), Eval(cs, h), lib, t);
    }
    MultiplyValue(a, b, Coef(ca, 0), Coef(cb, 0), Coef(cs, 0), lib, s);
    MultiplyDeriv(a, b, Coef(ca, 0), Coef(ca, 1), Coef(cb, 0), Coef(cb, 1), Coef(cs, 1), p, lib, s);
  }

  /**
   * On the polynomial fragment the engine's derivative is the true one: there
   * is a polynomial cs with value(e at p + h) = cs(h) for every h, whose constant
   * coefficient is e's value and whose linear coefficient is e's derivative.
   */
  lemma {:induction false} FirstOrder(e: Expr, p: Id, lib: MathLib, s: Values) returns (cs: seq<real>)
    requires Polynomial(e) && Admissible(e, p, s)
    ensures Describes(cs, e, p, lib, s)
  {
    match e
    case Leaf(id) => cs := FirstOrderLeaf(id, p, lib, s);
    case Add(a, b) =>
      var ca := FirstOrder(a, p, lib, s);
      var cb := FirstOrder(b, p, lib, s);
      cs := FirstOrderAdd(a, b, ca, cb, p, lib, s);
    case Subtract(a, b) =>
      var ca := FirstOrder(a, p, lib, s);
      var cb := FirstOrder(b, p, lib, s);
      cs := FirstOrderSubtract(a, b, ca, cb, p, lib, s);
    case Multiply(a, b) =>
      var ca := FirstOrder(a, p, lib, s);
      var cb := FirstOrder(b, p, lib, s);
      cs := FirstOrderMultiply(a, b, ca, cb, p, lib, s);
    case Negate(x) =>
      var cx := FirstOrder(x, p, lib, s);
      cs := FirstOrderNegate(x, cx, p, lib, s);
  }

  /* The guards and quirks of the other derivative rules. */

  /** On finite values the simplePow(2) rule and the product rule of x * x give the same number, 2 * v * d. */
  lemma SquareRule(lib: MathLib, v: real, d: real)
    ensures SimplePowRule(lib, Two, Fin(d), Fin(v)) == ProductRule(Fin(d), Fin(d), Fin(v), Fin(v))
    ensures SimplePowRule(lib, Two, Fin(d), Fin(v)) == Fin(Product(2.0, Product(v, d)))
  {
    var m := v * d;
    assert d * v == m;
    assert ProductRule(Fin(d), Fin(d), Fin(v), Fin(v)) == Fin(m + m);
    assert Product(2.0, Product(v, d)) == m + m;
    if v == 0.0 {
      assert m == 0.0;
    } else {
      assert Minus(Two, One) == One;
      assert IsInteger(One) && One.r.Floor == 1;
      assert IntPow(Fin(v), 1) == Times(One, Fin(v)) == Fin(v);
      assert Power(lib, Fin(v), One) == Fin(v);
      assert Times(Two, Fin(v)) == Fin(2.0 * v);
      assert (2.0 * v) * d == m + m;
    }
  }

  lemma SquareValue(x: Expr, v: real, lib: MathLib, s: Values)
    requires ValueIs(x, v, lib, s)
    ensures Value(SimplePow(x, Two), lib, s) == Value(Multiply(x, x), lib, s)
  {
    PowerTwo(lib, Fin(v));
    assert NodeValue(SimplePow(x, Two), lib, s) == Some(Power(lib, Fin(v), Two));
    assert NodeValue(Multiply(x, x), lib, s) == Some(Times(Fin(v), Fin(v)));
  }

  lemma SquareDeriv(x: Expr, v: real, d: real, p: Id, lib: MathLib, s: Values)
    requires ValueIs(x, v, lib, s) && DerivIs(x, d, p, lib, s)
    ensures Deriv(SimplePow(x, Two), p, lib, s) == Deriv(Multiply(x, x), p, lib, s)
    ensures DerivIs(SimplePow(x, Two), Product(2.0, Product(v, d)), p, lib, s)
  {
    SquareRule(lib, v, d);
    assert NodeDeriv(SimplePow(x, Two), p, lib, s) == Some(SimplePowRule(lib, Two, Fin(d), Fin(v)));
    assert NodeDeriv(Multiply(x, x), p, lib, s) == Some(ProductRule(Fin(d), Fin(d), Fin(v), Fin(v)));
  }

  /** simplePow(2) agrees with multiplying a root by itself, in value and derivative (the zero-base guard included). */
  lemma SimplePowSquare(x: Expr, v: real, d: real, p: Id, lib: MathLib, s: Values)
    requires ValueIs(x, v, lib, s) && DerivIs(x, d, p, lib, s)
    ensures Value(SimplePow(x, Two), lib, s) == Value(Multiply(x, x), lib, s)
    ensures Deriv(SimplePow(x, Two), p, lib, s) == Deriv(Multiply(x, x), p, lib, s)
    ensures DerivIs(SimplePow(x, Two), Product(2.0, Product(v, d)), p, lib, s)
  {
    SquareValue(x, v, lib, s);
    SquareDeriv(x, v, d, p, lib, s);
  }

  /** simplePow's derivative is 0 at a zero base, whatever the exponent (1/2 included, where the true slope is unbounded). */
  lemma SimplePowZeroBase(x: Expr, k: Num, p: Id, lib: MathLib, s: Values)
    requires Value(x, lib, s) == Some(Zero) && Deriv(x, p, lib, s).Some?
    ensures Deriv(SimplePow(x, k), p, lib, s) == Some(Zero)
  {
    assert NodeDeriv(SimplePow(x, k), p, lib, s) == Some(SimplePowRule(lib, k, Deriv(x, p, lib, s).value, Zero));
  }

  /** pow's derivative is 0 at a zero base, whatever the exponent and the derivatives. */
  lemma PowZeroBase(a: Expr, b: Expr, p: Id, lib: MathLib, s: Values)
    requires Value(a, lib, s) == Some(Zero) && Ids(b) <= s.Keys && Deriv(a, p, lib, s).Some?
    ensures Deriv(Pow(a, b), p, lib, s) == Some(Zero)
  {
    ValueDefined(b, lib, s);
    DerivDefined(b, p, lib, s);
    assert NodeDeriv(Pow(a, b), p, lib, s)
        == Some(PowRule(lib, Zero, Value(b, lib, s).value, Deriv(a, p, lib, s).value, Deriv(b, p, lib, s).value));
  }

  /** ln's derivative is `1 / value` whatever the target cell: it drops the inner derivative. */
  lemma LnIgnoresTarget(x: Expr, v: Num, p: Id, q: Id, lib: MathLib, s: Values)
    requires Value(x, lib, s) == Some(v)
    ensures Deriv(Ln(x), p, lib, s) == Deriv(Ln(x), q, lib, s) == Some(Over(One, v))
  {
    assert NodeDeriv(Ln(x), p, lib, s) == Some(Over(One, v));
    assert NodeDeriv(Ln(x), q, lib, s) == Some(Over(One, v));
  }

  /** So ln agrees with the chain rule d / v exactly when the inner derivative d is 1. */
  lemma LnChainFactor(x: Expr, v: real, d: real, p: Id, lib: MathLib, s: Values)
    requires ValueIs(x, v, lib, s) && DerivIs(x, d, p, lib, s) && v != 0.0
    ensures DerivIs(Ln(x), d / v, p, lib, s) <==> d == 1.0
  {
    assert NodeDeriv(Ln(x), p, lib, s) == Some(Over(One, Fin(v)));
    assert Over(One, Fin(v)) == Fin(1.0 / v);
    if d / v == 1.0 / v {
      assert d == (d / v) * v == (1.0 / v) * v == 1.0;
    }
  }

  /**
   * max returns one of its operands together with that operand's derivative;
   * the old root b is chosen only when it is strictly larger, so a tie or a NaN
   * selects the new operand a; and without NaN the result bounds both operands.
   */
  lemma MaxSelects(b: Expr, a: Expr, vb: Num, va: Num, p: Id, lib: MathLib, s: Values)
    requires Value(b, lib, s) == Some(vb) && Value(a, lib, s) == Some(va)
    ensures Value(Max(b, a), lib, s).Some?
    ensures var r := Value(Max(b, a), lib, s).value;
      && ((r == vb && Deriv(Max(b, a), p, lib, s) == Deriv(b, p, lib, s))
          || (r == va && Deriv(Max(b, a), p, lib, s) == Deriv(a, p, lib, s)))
      && (!vb.NaN? && !va.NaN? ==> AtLeast(r, vb) && AtLeast(r, va))
      && (vb == va || vb.NaN? || va.NaN? ==> r == va && Deriv(Max(b, a), p, lib, s) == Deriv(a, p, lib, s))
  {
    var r := if Greater(vb, va) then vb else va;
    assert NodeValue(Max(b, a), lib, s) == Some(r);
    assert NodeDeriv(Max(b, a), p, lib, s) == if Greater(vb, va) then Deriv(b, p, lib, s) else Deriv(a, p, lib, s);
  }

  /** min is max with the order reversed: the old root is chosen only when strictly smaller. */
  lemma MinSelects(b: Expr, a: Expr, vb: Num, va: Num, p: Id, lib: MathLib, s: Values)
    requires Value(b, lib, s) == Some(vb) && Value(a, lib, s) == Some(va)
    ensures Value(Min(b, a), lib, s).Some?
    ensures var r := Value(Min(b, a), lib, s).value;
      && ((r == vb && Deriv(Min(b, a), p, lib, s) == Deriv(b, p, lib, s))
          || (r == va && Deriv(Min(b, a), p, lib, s) == Deriv(a, p, lib, s)))
      && (!vb.NaN? && !va.NaN? ==> AtLeast(vb, r) && AtLeast(va, r))
      && (vb == va || vb.NaN? || va.NaN? ==> r == va && Deriv(Min(b, a), p, lib, s) == Deriv(a, p, lib, s))
  {
    var r := if Below(vb, va) then vb else va;
    assert NodeValue(Min(b, a), lib, s) == Some(r);
    assert NodeDeriv(Min(b, a), p, lib, s) == if Below(vb, va) then Deriv(b, p, lib, s) else Deriv(a, p, lib, s);
  }

  /** Math.pow(w, -1) and Math.pow(w, -2) on a finite non-zero base. */
  lemma NegativePowers(lib: MathLib, w: real)
    requires w != 0.0
    ensures Power(lib, Fin(w), Fin(-1.0)) == Fin(1.0 / w)
    ensures Power(lib, Fin(w), Fin(-2.0)) == Fin(1.0 / (w * w))
  {
    assert IsInteger(Fin(-1.0)) && (-1.0).Floor == -1;
    assert IsInteger(Fin(-2.0)) && (-2.0).Floor == -2;
    assert IntPow(Fin(w), 1) == Times(One, Fin(w)) == Fin(w);
    assert IntPow(Fin(w), 2) == Times(Fin(w), Fin(w)) == Fin(w * w);
    assert w * w != 0.0;
  }

  /** simplePow(-1)'s rule on a finite non-zero base: value 1 / w and slope -dw / w². */
  lemma ReciprocalNum(lib: MathLib, w: real, dw: real)
    requires w != 0.0
    ensures Power(lib, Fin(w), Fin(-1.0)) == Fin(1.0 / w)
    ensures SimplePowRule(lib, Fin(-1.0), Fin(dw), Fin(w)) == Fin(-(dw / (w * w)))
  {
    NegativePowers(lib, w);
    assert Minus(Fin(-1.0), One) == Fin(-2.0);
    var q := 1.0 / (w * w);
    assert Times(Fin(-1.0), Fin(q)) == Fin(-q);
    assert (-q) * dw == -(dw / (w * w));
  }

  /** The reciprocal rule, as simplePow(-1) computes it. */
  lemma ReciprocalRule(x: Expr, w: real, dw: real, p: Id, lib: MathLib, s: Values)
    requires ValueIs(x, w, lib, s) && DerivIs(x, dw, p, lib, s) && w != 0.0
    ensures ValueIs(SimplePow(x, Fin(-1.0)), 1.0 / w, lib, s)
    ensures DerivIs(SimplePow(x, Fin(-1.0)), -(dw / (w * w)), p, lib, s)
  {
    ReciprocalNum(lib, w, dw);
    assert NodeValue(SimplePow(x, Fin(-1.0)), lib, s) == Some(Power(lib, Fin(w), Fin(-1.0)));
    assert NodeDeriv(SimplePow(x, Fin(-1.0)), p, lib, s) == Some(SimplePowRule(lib, Fin(-1.0), Fin(dw), Fin(w)));
  }

  lemma QuotientIdentity(x: real, y: real, dx: real, dy: real)
    requires y != 0.0
    ensures (dx * y - dy * x) / (y * y) == dx * (1.0 / y) + -(dy / (y * y)) * x
  {
    var yy := y * y;
    assert yy != 0.0;
    assert dx * y / yy == dx * (1.0 / y) by {
      assert dx * y == dx * (1.0 / y) * yy;
    }
    assert -(dy / yy) * x == -(dy * x) / yy;
  }

  /** On finite numbers the quotient rule is the product rule applied to x · (1/y). */
  lemma QuotientNum(x: real, y: real, dx: real, dy: real)
    requires y != 0.0
    ensures Over(Fin(x), Fin(y)) == Times(Fin(x), Fin(1.0 / y)) == Fin(x / y)
    ensures QuotientRule(Fin(dx), Fin(dy), Fin(x), Fin(y))
         == ProductRule(Fin(dx), Fin(-(dy / (y * y))), Fin(x), Fin(1.0 / y))
         == Fin((dx * y - dy * x) / (y * y))
  {
    assert x * (1.0 / y) == x / y;
    assert y * y != 0.0;
    QuotientIdentity(x, y, dx, dy);
  }

  /**
   * devide follows the quotient rule: its value and derivative are those of
   * multiplying by simplePow(-1) of the dividend, wherever the dividend is non-zero.
   */
  lemma QuotientAsReciprocal(a: Expr, b: Expr, x: real, y: real, dx: real, dy: real, p: Id, lib: MathLib, s: Values)
    requires ValueIs(a, x, lib, s) && ValueIs(b, y, lib, s) && DerivIs(a, dx, p, lib, s) && DerivIs(b, dy, p, lib, s)
    requires y != 0.0
    ensures Value(Devide(a, b), lib, s) == Value(Multiply(a, SimplePow(b, Fin(-1.0))), lib, s) == Some(Fin(x / y))
    ensures Deriv(Devide(a, b), p, lib, s) == Deriv(Multiply(a, SimplePow(b, Fin(-1.0))), p, lib, s)
    ensures DerivIs(Devide(a, b), (dx * y - dy * x) / (y * y), p, lib, s)
  {
    var r := SimplePow(b, Fin(-1.0));
    ReciprocalRule(b, y, dy, p, lib, s);
    QuotientNum(x, y, dx, dy);
    assert NodeValue(Devide(a, b), lib, s) == Some(Over(Fin(x), Fin(y)));
    assert NodeValue(Multiply(a, r), lib, s) == Some(Times(Fin(x), Fin(1.0 / y)));
    assert NodeDeriv(Devide(a, b), p, lib, s) == Some(QuotientRule(Fin(dx), Fin(dy), Fin(x), Fin(y)));
    assert NodeDeriv(Multiply(a, r), p, lib, s) == Some(ProductRule(Fin(dx), Fin(-(dy / (y * y))), Fin(x), Fin(1.0 / y)));
  }

  /** exp on a finite value with a finite result: the chain rule d · e^v. */
  lemma ExpRule(x: Expr, v: real, d: real, e: real, p: Id, lib: MathLib, s: Values)
    requires ValueIs(x, v, lib, s) && DerivIs(x, d, p, lib, s) && lib.exp(Fin(v)) == Fin(e)
    ensures ValueIs(Exp(x), e, lib, s) && DerivIs(Exp(x), Product(d, e), p, lib, s)
  {
    assert NodeValue(Exp(x), lib, s) == Some(lib.exp(Fin(v)));
    assert NodeDeriv(Exp(x), p, lib, s) == Some(Times(Fin(d), Fin(e)));
    assert Times(Fin(d), Fin(e)) == Fin(Product(d, e));
  }

  /** The root sigmoid() builds around x: simplePow(ONE + e^(-x), -1). */
  function SigmoidOf(x: Expr, one: Id): Expr {
    SimplePow(Add(Leaf(one), Exp(Negate(x))), Fin(-1.0))
  }

  /** 1 / (1 + e), the logistic function written in terms of e = e^(-v). */
  function Logistic(e: real): real
    requires e >= 0.0
  {
    1.0 / (1.0 + e)
  }

  lemma SigmoidIdentity(e: real, d: real, w: real, dw: real)
    requires e >= 0.0 && w == 1.0 + e && dw == 0.0 + Product(-d, e)
    ensures -(dw / (w * w)) == Logistic(e) * (1.0 - Logistic(e)) * d
  {
    var g := 1.0 / w;
    assert w * g == 1.0;
    assert 1.0 - g == e / w by {
      assert (1.0 - g) * w == w - 1.0 == e;
    }
    assert g * (e / w) == e / (w * w);
  }

  lemma SigmoidFinish(t: Expr, e: real, d: real, w: real, dw: real, p: Id, lib: MathLib, s: Values)
    requires e >= 0.0 && w == 1.0 + e && dw == 0.0 + Product(-d, e)
    requires ValueIs(t, 1.0 / w, lib, s) && DerivIs(t, -(dw / (w * w)), p, lib, s)
    ensures ValueIs(t, Logistic(e), lib, s)
    ensures DerivIs(t, Logistic(e) * (1.0 - Logistic(e)) * d, p, lib, s)
  {
    SigmoidIdentity(e, d, w, dw);
    assert Logistic(e) == 1.0 / w;
  }

  /**
   * sigmoid's value is σ = 1 / (1 + e^(-v)) and its derivative σ(1 - σ)·d, as
   * long as the ONE cell holds 1, is not the target, and e^(-v) is a finite
   * non-negative number.
   */
  lemma SigmoidRule(x: Expr, one: Id, v: real, d: real, e: real, p: Id, lib: MathLib, s: Values)
    requires ValueIs(x, v, lib, s) && DerivIs(x, d, p, lib, s)
    requires one in s && s[one] == One && p != one
    requires lib.exp(Fin(-v)) == Fin(e) && e >= 0.0
    ensures ValueIs(SigmoidOf(x, one), Logistic(e), lib, s)
    ensures DerivIs(SigmoidOf(x, one), Logistic(e) * (1.0 - Logistic(e)) * d, p, lib, s)
  {
    var w, dw := 1.0 + e, 0.0 + Product(-d, e);
    SigmoidDenominator(x, one, v, d, e, p, lib, s);
    ReciprocalRule(Add(Leaf(one), Exp(Negate(x))), w, dw, p, lib, s);
    SigmoidFinish(SigmoidOf(x, one), e, d, w, dw, p, lib, s);
  }

  /** The denominator 1 + e^(-v) of sigmoid and its derivative 0 + (-d)·e^(-v). */
  lemma SigmoidDenominator(x: Expr, one: Id, v: real, d: real, e: real, p: Id, lib: MathLib, s: Values)
    requires ValueIs(x, v, lib, s) && DerivIs(x, d, p, lib, s)
    requires one in s && s[one] == One && p != one
    requires lib.exp(Fin(-v)) == Fin(e)
    ensures ValueIs(Add(Leaf(one), Exp(Negate(x))), 1.0 + e, lib, s)
    ensures DerivIs(Add(Leaf(one), Exp(Negate(x))), 0.0 + Product(-d, e), p, lib, s)
  {
    var n := Negate(x);
    NegateValue(x, v, lib, s);
    NegateDeriv(x, d, p, lib, s);
    ExpRule(n, -v, -d, e, p, lib, s);
    assert ValueIs(Leaf(one), 1.0, lib, s) && DerivIs(Leaf(one), 0.0, p, lib, s);
    AddValue(Leaf(one), Exp(n), 1.0, e, lib, s);
    AddDeriv(Leaf(one), Exp(n), 0.0, Product(-d, e), p, lib, s);
  }
}
