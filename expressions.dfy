/**
 * The expression trees that FunctionSystem builds.  A root is either the id of
 * a store cell (a leaf) or an operator node holding its operands.  Node and field
 * names follow the builder methods that create them, with the operand order the
 * builders use: `add` keeps the new operand as `a` and the old root as `b`;
 * `subtract`, `multiply`, `devide` and `pow` keep the old root first; `max` and
 * `min` keep the old root as `b` and the new operand as `a`.
 */
module Expressions {
  import opened Wrappers
  import opened Numbers
  import opened Store

  /** The value of every store cell, by id. */
  type Values = map<Id, Num>

  datatype Expr =
    | Leaf(id: Id)
    | Add(a: Expr, b: Expr)
    | Subtract(a: Expr, b: Expr)
    | Multiply(factor1: Expr, factor2: Expr)
    | Devide(divisor: Expr, dividend: Expr)   // value divisor / dividend
    | Exp(power: Expr)
    | SimplePow(base: Expr, degree: Num)
    | Ln(inner: Expr)
    | Pow(base: Expr, exponent: Expr)
    | Negate(inner: Expr)
    | Tanh(inner: Expr)
    | Sin(inner: Expr)
    | Cos(inner: Expr)
    | Tan(inner: Expr)
    | ReLu(inner: Expr)
    | LeakyReLu(inner: Expr, factor: Num)
    | Max(b: Expr, a: Expr)
    | Min(b: Expr, a: Expr)

  /** `ref.getParameter(id).value`; None is the TypeError of a missing id. */
  function Lookup(s: Values, id: Id): Option<Num> {
    if id in s then Some(s[id]) else None
  }

  /** `(val >= 0) ? val : 0` */
  function Rectify(v: Num): Num {
    if AtLeast(v, Zero) then v else Zero
  }

  /**
   * The value of a root: None when a cell it reads is missing.  A leaf reads
   * its cell; an operator node combines the values of its operands.
   */
  function Value(e: Expr, lib: MathLib, s: Values): Option<Num>
    decreases e, 1
  {
    if e.Leaf? then Lookup(s, e.id) else NodeValue(e, lib, s)
  }

  function NodeValue(e: Expr, lib: MathLib, s: Values): Option<Num>
    requires !e.Leaf?
    decreases e, 0
  {
    match e
    case Exp(x) => var v := Value(x, lib, s); if v.None? then None else Some(lib.exp(v.value))
    case SimplePow(x, k) => var v := Value(x, lib, s); if v.None? then None else Some(Power(lib, v.value, k))
    case Ln(x) => var v := Value(x, lib, s); if v.None? then None else Some(lib.log(v.value))
    case Negate(x) => var v := Value(x, lib, s); if v.None? then None else Some(Negative(v.value))
    case Tanh(x) => var v := Value(x, lib, s); if v.None? then None else Some(lib.tanh(v.value))
    case Sin(x) => var v := Value(x, lib, s); if v.None? then None else Some(lib.sin(v.value))
    case Cos(x) => var v := Value(x, lib, s); if v.None? then None else Some(lib.cos(v.value))
    case Tan(x) => var v := Value(x, lib, s); if v.None? then None else Some(lib.tan(v.value))
    case ReLu(x) => var v := Value(x, lib, s); if v.None? then None else Some(Rectify(v.value))
    case LeakyReLu(x, k) => var v := Value(x, lib, s); if v.None? then None else Some(Leaky(k, v.value))
    case Add(a, b) =>
      var v1, v2 := Value(a, lib, s), Value(b, lib, s);
      if v1.None? || v2.None? then None else Some(Plus(v1.value, v2.value))
    case Subtract(a, b) =>
      var v1, v2 := Value(a, lib, s), Value(b, lib, s);
      if v1.None? || v2.None? then None else Some(Minus(v1.value, v2.value))
    case Multiply(a, b) =>
      var v1, v2 := Value(a, lib, s), Value(b, lib, s);
      if v1.None? || v2.None? then None else Some(Times(v1.value, v2.value))
    case Devide(a, b) =>
      var v1, v2 := Value(a, lib, s), Value(b, lib, s);
      if v1.None? || v2.None? then None else Some(Over(v1.value, v2.value))
    case Pow(a, b) =>
      var v1, v2 := Value(a, lib, s), Value(b, lib, s);
      if v1.None? || v2.None? then None else Some(Power(lib, v1.value, v2.value))
    case Max(b, a) =>
      var v1, v2 := Value(b, lib, s), Value(a, lib, s);
      if v1.None? || v2.None? then None else Some(if Greater(v1.value, v2.value) then v1.value else v2.value)
    case Min(b, a) =>
      var v1, v2 := Value(b, lib, s), Value(a, lib, s);
      if v1.None? || v2.None? then None else Some(if Below(v1.value, v2.value) then v1.value else v2.value)
  }

  /** `(val >= 0) ? val : factor * val` */
  function Leaky(k: Num, v: Num): Num {
    if AtLeast(v, Zero) then v else Times(k, v)
  }

  /** `der1 * val2 + der2 * val1` */
  function ProductRule(d1: Num, d2: Num, v1: Num, v2: Num): Num {
    Plus(Times(d1, v2), Times(d2, v1))
  }

  /** `(der1 * val2 - der2 * val1) / (val2 * val2)` */
  function QuotientRule(d1: Num, d2: Num, v1: Num, v2: Num): Num {
    Over(Minus(Times(d1, v2), Times(d2, v1)), Times(v2, v2))
  }

  /** simplePow's derivative: 0 at a zero base, otherwise `power * val^(power - 1) * der`. */
  function SimplePowRule(lib: MathLib, k: Num, d: Num, v: Num): Num {
    if Same(v, Zero) then Zero else Times(Times(k, Power(lib, v, Minus(k, One))), d)
  }

  /** pow's derivative: 0 at a zero base, otherwise `(1 / val1 * der1 * val2 + log(val1) * der2) * val1^val2`. */
  function PowRule(lib: MathLib, v1: Num, v2: Num, d1: Num, d2: Num): Num {
    if Same(v1, Zero) then Zero
    else Times(Plus(Times(Times(Over(One, v1), d1), v2), Times(lib.log(v1), d2)), Power(lib, v1, v2))
  }

  /** The derivative of a root with respect to the cell `p`: None when a cell it reads is missing. */
  function Deriv(e: Expr, p: Id, lib: MathLib, s: Values): Option<Num>
    decreases e, 1
  {
    if e.Leaf? then Some(if e.id == p then One else Zero) else NodeDeriv(e, p, lib, s)
  }

  /** The derivative of an operator node, from its operands' derivatives and values. */
  function NodeDeriv(e: Expr, p: Id, lib: MathLib, s: Values): Option<Num>
    requires !e.Leaf?
    decreases e, 0
  {
    match e
    case Exp(x) =>
      var d, v := Deriv(x, p, lib, s), Value(x, lib, s);
      if d.None? || v.None? then None else Some(Times(d.value, lib.exp(v.value)))
    case SimplePow(x, k) =>
      var d, v := Deriv(x, p, lib, s), Value(x, lib, s);
      if d.None? || v.None? then None else Some(SimplePowRule(lib, k, d.value, v.value))
    case Ln(x) =>
      var v := Value(x, lib, s);
      if v.None? then None else Some(Over(One, v.value))
    case Negate(x) =>
      var d := Deriv(x, p, lib, s);
      if d.None? then None else Some(Negative(d.value))
    case Tanh(x) =>
      var d, v := Deriv(x, p, lib, s), Value(x, lib, s);
      if d.None? || v.None? then None else Some(Over(d.value, Power(lib, lib.cosh(v.value), Two)))
    case Sin(x) =>
      var d, v := Deriv(x, p, lib, s), Value(x, lib, s);
      if d.None? || v.None? then None else Some(Times(d.value, lib.cos(v.value)))
    case Cos(x) =>
      var d, v := Deriv(x, p, lib, s), Value(x, lib, s);
      if d.None? || v.None? then None else Some(Times(Negative(d.value), lib.sin(v.value)))
    case Tan(x) =>
      var d, v := Deriv(x, p, lib, s), Value(x, lib, s);
      if d.None? || v.None? then None else Some(Over(d.value, Power(lib, lib.cos(v.value), Two)))
    case ReLu(x) =>
      var d, v := Deriv(x, p, lib, s), Value(x, lib, s);
      if d.None? || v.None? then None else Some(if AtLeast(v.value, Zero) then d.value else Zero)
    case LeakyReLu(x, k) =>
      var d, v := Deriv(x, p, lib, s), Value(x, lib, s);
      if d.None? || v.None? then None else Some(if AtLeast(v.value, Zero) then d.value else Times(k, d.value))
    case Add(a, b) =>
      var d1, d2 := Deriv(a, p, lib, s), Deriv(b, p, lib, s);
      if d1.None? || d2.None? then None else Some(Plus(d1.value, d2.value))
    case Subtract(a, b) =>
      var d1, d2 := Deriv(a, p, lib, s), Deriv(b, p, lib, s);
      if d1.None? || d2.None? then None else Some(Minus(d1.value, d2.value))
    case Multiply(a, b) =>
      var d1, d2, v1, v2 := Deriv(a, p, lib, s), Deriv(b, p, lib, s), Value(a, lib, s), Value(b, lib, s);
      if d1.None? || d2.None? || v1.None? || v2.None? then None
      else Some(ProductRule(d1.value, d2.value, v1.value, v2.value))
    case Devide(a, b) =>
      var d1, d2, v1, v2 := Deriv(a, p, lib, s), Deriv(b, p, lib, s), Value(a, lib, s), Value(b, lib, s);
      if d1.None? || d2.None? || v1.None? || v2.None? then None
      else Some(QuotientRule(d1.value, d2.value, v1.value, v2.value))
    case Pow(a, b) =>
      var d1, d2, v1, v2 := Deriv(a, p, lib, s), Deriv(b, p, lib, s), Value(a, lib, s), Value(b, lib, s);
      if d1.None? || d2.None? || v1.None? || v2.None? then None
      else Some(PowRule(lib, v1.value, v2.value, d1.value, d2.value))
    case Max(b, a) =>
      var v1, v2 := Value(b, lib, s), Value(a, lib, s);
      if v1.None? || v2.None? then None
      else if Greater(v1.value, v2.value) then Deriv(b, p, lib, s) else Deriv(a, p, lib, s)
    case Min(b, a) =>
      var v1, v2 := Value(b, lib, s), Value(a, lib, s);
      if v1.None? || v2.None? then None
      else if Below(v1.value, v2.value) then Deriv(b, p, lib, s) else Deriv(a, p, lib, s)
  }

  /** The ids of the cells a root mentions. */
  function Ids(e: Expr): set<Id> {
    match e
    case Leaf(id) => {id}
    case Add(a, b) => Ids(a) + Ids(b)
    case Subtract(a, b) => Ids(a) + Ids(b)
    case Multiply(f1, f2) => Ids(f1) + Ids(f2)
    case Devide(f1, f2) => Ids(f1) + Ids(f2)
    case Exp(x) => Ids(x)
    case SimplePow(x, _) => Ids(x)
    case Ln(x) => Ids(x)
    case Pow(x, y) => Ids(x) + Ids(y)
    case Negate(x) => Ids(x)
    case Tanh(x) => Ids(x)
    case Sin(x) => Ids(x)
    case Cos(x) => Ids(x)
    case Tan(x) => Ids(x)
    case ReLu(x) => Ids(x)
    case LeakyReLu(x, _) => Ids(x)
    case Max(b, a) => Ids(b) + Ids(a)
    case Min(b, a) => Ids(b) + Ids(a)
  }

  /** The operators with one operand. */
  predicate Unary(e: Expr) {
    e.Exp? || e.SimplePow? || e.Ln? || e.Negate? || e.Tanh? || e.Sin? || e.Cos? || e.Tan? || e.ReLu? || e.LeakyReLu?
  }

  /** Two stores agree on a set of cells. */
  ghost predicate Agree(s: Values, t: Values, ids: set<Id>) {
    forall id :: id in ids ==> Lookup(s, id) == Lookup(t, id)
  }

  /** A value is defined exactly when every cell the root mentions is in the store. */
  lemma {:induction false} ValueDefined(e: Expr, lib: MathLib, s: Values)
    ensures Value(e, lib, s).Some? <==> Ids(e) <= s.Keys
    decreases e, 1
  {
    if !e.Leaf? {
      if Unary(e) {
        ValueDefinedUnary(e, lib, s);
      } else {
        ValueDefinedBinary(e, lib, s);
      }
    }
  }

  lemma {:induction false} ValueDefinedUnary(e: Expr, lib: MathLib, s: Values)
    requires Unary(e)
    ensures NodeValue(e, lib, s).Some? <==> Ids(e) <= s.Keys
    decreases e, 0
  {
    match e
    case Exp(x) => ValueDefined(x, lib, s);
    case SimplePow(x, _) => ValueDefined(x, lib, s);
    case Ln(x) => ValueDefined(x, lib, s);
    case Negate(x) => ValueDefined(x, lib, s);
    case Tanh(x) => ValueDefined(x, lib, s);
    case Sin(x) => ValueDefined(x, lib, s);
    case Cos(x) => ValueDefined(x, lib, s);
    case Tan(x) => ValueDefined(x, lib, s);
    case ReLu(x) => ValueDefined(x, lib, s);
    case LeakyReLu(x, _) => ValueDefined(x, lib, s);
  }

  lemma {:induction false} ValueDefinedBinary(e: Expr, lib: MathLib, s: Values)
    requires !e.Leaf? && !Unary(e)
    ensures NodeValue(e, lib, s).Some? <==> Ids(e) <= s.Keys
    decreases e, 0
  {
    match e
    case Add(a, b) => ValueDefined(a, lib, s); ValueDefined(b, lib, s);
    case Subtract(a, b) => ValueDefined(a, lib, s); ValueDefined(b, lib, s);
    case Multiply(a, b) => ValueDefined(a, lib, s); ValueDefined(b, lib, s);
    case Devide(a, b) => ValueDefined(a, lib, s); ValueDefined(b, lib, s);
    case Pow(a, b) => ValueDefined(a, lib, s); ValueDefined(b, lib, s);
    case Max(b, a) => ValueDefined(a, lib, s); ValueDefined(b, lib, s);
    case Min(b, a) => ValueDefined(a, lib, s); ValueDefined(b, lib, s);
  }

  /**
   * A derivative is defined whenever every mentioned cell is present.  The
   * converse fails: a leaf's derivative reads no cell at all.
   */
  lemma {:induction false} DerivDefined(e: Expr, p: Id, lib: MathLib, s: Values)
    requires Ids(e) <= s.Keys
    ensures Deriv(e, p, lib, s).Some?
    decreases e, 1
  {
    if !e.Leaf? {
      if Unary(e) {
        DerivDefinedUnary(e, p, lib, s);
      } else {
        DerivDefinedBinary(e, p, lib, s);
      }
    }
  }

  lemma {:induction false} DerivDefinedUnary(e: Expr, p: Id, lib: MathLib, s: Values)
    requires Unary(e) && Ids(e) <= s.Keys
    ensures NodeDeriv(e, p, lib, s).Some?
    decreases e, 0
  {
    match e
    case Exp(x) => DerivDefined(x, p, lib, s); ValueDefined(x, lib, s);
    case SimplePow(x, _) => DerivDefined(x, p, lib, s); ValueDefined(x, lib, s);
    case Ln(x) => ValueDefined(x, lib, s);
    case Negate(x) => DerivDefined(x, p, lib, s);
    case Tanh(x) => DerivDefined(x, p, lib, s); ValueDefined(x, lib, s);
    case Sin(x) => DerivDefined(x, p, lib, s); ValueDefined(x, lib, s);
    case Cos(x) => DerivDefined(x, p, lib, s); ValueDefined(x, lib, s);
    case Tan(x) => DerivDefined(x, p, lib, s); ValueDefined(x, lib, s);
    case ReLu(x) => DerivDefined(x, p, lib, s); ValueDefined(x, lib, s);
    case LeakyReLu(x, _) => DerivDefined(x, p, lib, s); ValueDefined(x, lib, s);
  }

  lemma {:induction false} DerivDefinedBinary(e: Expr, p: Id, lib: MathLib, s: Values)
    requires !e.Leaf? && !Unary(e) && Ids(e) <= s.Keys
    ensures NodeDeriv(e, p, lib, s).Some?
    decreases e, 0
  {
    match e
    case Add(a, b) => DerivDefined(a, p, lib, s); DerivDefined(b, p, lib, s);
    case Subtract(a, b) => DerivDefined(a, p, lib, s); DerivDefined(b, p, lib, s);
    case Multiply(a, b) =>
      DerivDefined(a, p, lib, s); DerivDefined(b, p, lib, s); ValueDefined(a, lib, s); ValueDefined(b, lib, s);
    case Devide(a, b) =>
      DerivDefined(a, p, lib, s); DerivDefined(b, p, lib, s); ValueDefined(a, lib, s); ValueDefined(b, lib, s);
    case Pow(a, b) =>
      DerivDefined(a, p, lib, s); DerivDefined(b, p, lib, s); ValueDefined(a, lib, s); ValueDefined(b, lib, s);
    case Max(b, a) =>
      DerivDefined(a, p, lib, s); DerivDefined(b, p, lib, s); ValueDefined(a, lib, s); ValueDefined(b, lib, s);
    case Min(b, a) =>
      DerivDefined(a, p, lib, s); DerivDefined(b, p, lib, s); ValueDefined(a, lib, s); ValueDefined(b, lib, s);
  }

  /** A leaf's derivative is 1 exactly for the target id and reads no cell, even a missing one. */
  lemma LeafDerivative(id: Id, p: Id, lib: MathLib, s: Values)
    ensures Deriv(Leaf(id), p, lib, s) == Some(One) <==> id == p
    ensures Deriv(Leaf(id), p, lib, s) == Some(Zero) <==> id != p
    ensures id !in s ==> Value(Leaf(id), lib, s) == None && Deriv(Leaf(id), p, lib, s).Some?
  {
  }

  /** Two stores that agree on the cells a root mentions give it the same value. */
  lemma {:induction false} FrameValue(e: Expr, lib: MathLib, s: Values, t: Values)
    requires Agree(s, t, Ids(e))
    ensures Value(e, lib, s) == Value(e, lib, t)
    decreases e, 1
  {
    if !e.Leaf? {
      if Unary(e) {
        FrameValueUnary(e, lib, s, t);
      } else {
        FrameValueBinary(e, lib, s, t);
      }
    }
  }

  lemma {:induction false} FrameValueUnary(e: Expr, lib: MathLib, s: Values, t: Values)
    requires Unary(e) && Agree(s, t, Ids(e))
    ensures NodeValue(e, lib, s) == NodeValue(e, lib, t)
    decreases e, 0
  {
    match e
    case Exp(x) => FrameValue(x, lib, s, t);
    case SimplePow(x, _) => FrameValue(x, lib, s, t);
    case Ln(x) => FrameValue(x, lib, s, t);
    case Negate(x) => FrameValue(x, lib, s, t);
    case Tanh(x) => FrameValue(x, lib, s, t);
    case Sin(x) => FrameValue(x, lib, s, t);
    case Cos(x) => FrameValue(x, lib, s, t);
    case Tan(x) => FrameValue(x, lib, s, t);
    case ReLu(x) => FrameValue(x, lib, s, t);
    case LeakyReLu(x, _) => FrameValue(x, lib, s, t);
  }

  lemma {:induction false} FrameValueBinary(e: Expr, lib: MathLib, s: Values, t: Values)
    requires !e.Leaf? && !Unary(e) && Agree(s, t, Ids(e))
    ensures NodeValue(e, lib, s) == NodeValue(e, lib, t)
    decreases e, 0
  {
    match e
    case Add(a, b) => FrameValue(a, lib, s, t); FrameValue(b, lib, s, t);
    case Subtract(a, b) => FrameValue(a, lib, s, t); FrameValue(b, lib, s, t);
    case Multiply(a, b) => FrameValue(a, lib, s, t); FrameValue(b, lib, s, t);
    case Devide(a, b) => FrameValue(a, lib, s, t); FrameValue(b, lib, s, t);
    case Pow(a, b) => FrameValue(a, lib, s, t); FrameValue(b, lib, s, t);
    case Max(b, a) => FrameValue(a, lib, s, t); FrameValue(b, lib, s, t);
    case Min(b, a) => FrameValue(a, lib, s, t); FrameValue(b, lib, s, t);
  }

  /** ... and the same derivative with respect to every cell. */
  lemma {:induction false} FrameDeriv(e: Expr, p: Id, lib: MathLib, s: Values, t: Values)
    requires Agree(s, t, Ids(e))
    ensures Deriv(e, p, lib, s) == Deriv(e, p, lib, t)
    decreases e, 1
  {
    if !e.Leaf? {
      if Unary(e) {
        FrameDerivUnary(e, p, lib, s, t);
      } else {
        FrameDerivBinary(e, p, lib, s, t);
      }
    }
  }

  lemma {:induction false} FrameDerivUnary(e: Expr, p: Id, lib: MathLib, s: Values, t: Values)
    requires Unary(e) && Agree(s, t, Ids(e))
    ensures NodeDeriv(e, p, lib, s) == NodeDeriv(e, p, lib, t)
    decreases e, 0
  {
    match e
    case Exp(x) => FrameDeriv(x, p, lib, s, t); FrameValue(x, lib, s, t);
    case SimplePow(x, _) => FrameDeriv(x, p, lib, s, t); FrameValue(x, lib, s, t);
    case Ln(x) => FrameValue(x, lib, s, t);
    case Negate(x) => FrameDeriv(x, p, lib, s, t);
    case Tanh(x) => FrameDeriv(x, p, lib, s, t); FrameValue(x, lib, s, t);
    case Sin(x) => FrameDeriv(x, p, lib, s, t); FrameValue(x, lib, s, t);
    case Cos(x) => FrameDeriv(x, p, lib, s, t); FrameValue(x, lib, s, t);
    case Tan(x) => FrameDeriv(x, p, lib, s, t); FrameValue(x, lib, s, t);
    case ReLu(x) => FrameDeriv(x, p, lib, s, t); FrameValue(x, lib, s, t);
    case LeakyReLu(x, _) => FrameDeriv(x, p, lib, s, t); FrameValue(x, lib, s, t);
  }

  lemma {:induction false} FrameDerivBinary(e: Expr, p: Id, lib: MathLib, s: Values, t: Values)
    requires !e.Leaf? && !Unary(e) && Agree(s, t, Ids(e))
    ensures NodeDeriv(e, p, lib, s) == NodeDeriv(e, p, lib, t)
    decreases e, 0
  {
    match e
    case Add(a, b) => FrameDeriv(a, p, lib, s, t); FrameDeriv(b, p, lib, s, t);
    case Subtract(a, b) => FrameDeriv(a, p, lib, s, t); FrameDeriv(b, p, lib, s, t);
    case Multiply(a, b) =>
      FrameDeriv(a, p, lib, s, t); FrameDeriv(b, p, lib, s, t); FrameValue(a, lib, s, t); FrameValue(b, lib, s, t);
    case Devide(a, b) =>
      FrameDeriv(a, p, lib, s, t); FrameDeriv(b, p, lib, s, t); FrameValue(a, lib, s, t); FrameValue(b, lib, s, t);
    case Pow(a, b) =>
      FrameDeriv(a, p, lib, s, t); FrameDeriv(b, p, lib, s, t); FrameValue(a, lib, s, t); FrameValue(b, lib, s, t);
    case Max(b, a) =>
      FrameDeriv(a, p, lib, s, t); FrameDeriv(b, p, lib, s, t); FrameValue(a, lib, s, t); FrameValue(b, lib, s, t);
    case Min(b, a) =>
      FrameDeriv(a, p, lib, s, t); FrameDeriv(b, p, lib, s, t); FrameValue(a, lib, s, t); FrameValue(b, lib, s, t);
  }
}
