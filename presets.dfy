/**
 * The PolynomialFunction preset: a FunctionSystem with a variable x and one
 * parameter per degree 0..grade, whose root is the sum of the terms x^i · cᵢ.
 */
module Presets {
  import opened Wrappers
  import opened Numbers
  import opened Store
  import opened Expressions
  import opened Polynomials
  import opened FunctionSystems

  /** The term of round i, built as `br().startWith(x).simplePow(i).multiply(c)`. */
  function Term(x: Id, c: Id, i: nat): Expr {
    Multiply(SimplePow(Leaf(x), Fin(i as real)), Leaf(c))
  }

  /** The root after one round per parameter: every round adds its term in front of the previous root, which starts as ZERO. */
  function PolynomialRoot(x: Id, cs: seq<Id>, zero: Id): Expr
    decreases |cs|
  {
    if cs == [] then Leaf(zero)
    else Expr.Add(Term(x, cs[|cs| - 1], |cs| - 1), PolynomialRoot(x, cs[..|cs| - 1], zero))
  }

  /** Σᵢ v^i · ws[i] */
  function Series(ws: seq<real>, v: real): real
    decreases |ws|
  {
    if ws == [] then 0.0 else Product(RealPow(v, |ws| - 1), ws[|ws| - 1]) + Series(ws[..|ws| - 1], v)
  }

  predicate Distinct(ids: seq<Id>) {
    forall i, j | 0 <= i < j < |ids| :: ids[i] != ids[j]
  }

  /** One round of PolynomialFunction: a new parameter c, holding 0, and the term x^i · c added to the root. */
  method AddTerm(model: FunctionSystem, x: Id, i: nat) returns (c: Id)
    requires model.Valid()
    modifies model, model.ref.parameter
    ensures model.Valid()
    ensures c !in old(model.Cells()) && model.Cells() == old(model.Cells())[c := Zero]
    ensures model.root == Expr.Add(Term(x, c, i), old(model.root))
  {
    c := model.AddParameter(Zero);
    var term := BuildTerm(model, x, c, i);
    model.Add(term);
  }

  /** `model.br().startWith(x).simplePow(i).multiply(c)`: a branch builder leaves model as it is. */
  method BuildTerm(model: FunctionSystem, x: Id, c: Id, i: nat) returns (term: Expr)
    ensures term == Multiply(SimplePow(Leaf(x), Fin(i as real)), Leaf(c))
  {
    var br := model.Br();
    br.StartWith(Leaf(x));
    br.SimplePow(Fin(i as real));
    br.Multiply(Leaf(c));
    term := br.GetFunction();
  }

  /** The rounds 0..grade of PolynomialFunction, from a root that is the ZERO leaf. */
  method AddTerms(model: FunctionSystem, x: Id, grade: nat) returns (parameters: seq<Id>)
    requires model.Valid() && model.root == Leaf(model.ref.ZERO)
    modifies model, model.ref.parameter
    ensures model.Valid()
    ensures |parameters| == grade + 1 && Distinct(parameters)
    ensures forall j | 0 <= j < |parameters| :: parameters[j] !in old(model.Cells())
    ensures model.root == PolynomialRoot(x, parameters, model.ref.ZERO)
    ensures model.Cells() == Zeroed(old(model.Cells()), parameters)
  {
    parameters := [];
    for i := 0 to grade + 1
      invariant model.Valid() && |parameters| == i
      invariant model.root == PolynomialRoot(x, parameters, model.ref.ZERO)
      invariant model.Cells() == Zeroed(old(model.Cells()), parameters)
      invariant Distinct(parameters) && forall j | 0 <= j < i :: parameters[j] !in old(model.Cells())
    {
      ZeroedKeys(old(model.Cells()), parameters);
      var c := AddTerm(model, x, i);
      ghost var before := parameters;
      parameters := parameters + [c];
      assert parameters[..i] == before;
    }
  }

  /** The first part of PolynomialFunction: a builder over a new store, and the cell x holding 0. */
  method WithVariable(gen: nat -> Id, lib: MathLib) returns (model: FunctionSystem, x: Id)
    requires Injective(gen)
    ensures fresh(model) && fresh(model.ref) && fresh(model.ref.parameter) && model.Valid()
    ensures model.root == Leaf(model.ref.ZERO)
    ensures model.Cells().Keys == (set id | id in model.ref.Constants()) + {x}
    ensures forall i | 0 <= i < 8 :: model.ref.Constants()[i] != x
    ensures forall i | 0 <= i < 8 :: model.Cells()[model.ref.Constants()[i]] == CONSTANT_VALUES[i]
    ensures model.Cells()[x] == Zero
  {
    model := new FunctionSystem.Fresh(None, gen, lib);
    x := model.AddParameter(Zero);
  }

  /**
   * PolynomialFunction(grade): a builder over a new store, a new cell x, and one
   * new cell per degree 0..grade, all holding 0; the root is the polynomial.
   */
  method PolynomialFunction(grade: nat, gen: nat -> Id, lib: MathLib) returns (model: FunctionSystem, x: Id, parameters: seq<Id>)
    requires Injective(gen)
    ensures fresh(model) && fresh(model.ref) && fresh(model.ref.parameter) && model.Valid()
    ensures |parameters| == grade + 1 && Distinct(parameters) && x !in parameters
    ensures model.root == PolynomialRoot(x, parameters, model.ref.ZERO)
    ensures model.Cells().Keys == (set id | id in model.ref.Constants()) + {x} + set id | id in parameters
    ensures forall i | 0 <= i < 8 :: model.ref.Constants()[i] != x && model.ref.Constants()[i] !in parameters
    ensures forall i | 0 <= i < 8 :: model.Cells()[model.ref.Constants()[i]] == CONSTANT_VALUES[i]
    ensures model.Cells()[x] == Zero && forall i | 0 <= i < |parameters| :: model.Cells()[parameters[i]] == Zero
  {
    model, x := WithVariable(gen, lib);
    ghost var withX := model.Cells();
    parameters := AddTerms(model, x, grade);
    ZeroedKeys(withX, parameters);
    ZeroedValues(withX, parameters);
  }

  /** The store after a new cell, holding 0, for every id of ps in turn. */
  function Zeroed(m: Values, ps: seq<Id>): Values
    decreases |ps|
  {
    if ps == [] then m else Zeroed(m, ps[..|ps| - 1])[ps[|ps| - 1] := Zero]
  }

  lemma {:induction false} ZeroedKeys(m: Values, ps: seq<Id>)
    ensures Zeroed(m, ps).Keys == m.Keys + set id | id in ps
    decreases |ps|
  {
    if ps != [] {
      var init := ps[..|ps| - 1];
      ZeroedKeys(m, init);
      assert (set id | id in ps) == (set id | id in init) + {ps[|ps| - 1]} by {
        assert ps == init + [ps[|ps| - 1]];
      }
    }
  }

  lemma {:induction false} ZeroedValues(m: Values, ps: seq<Id>)
    ensures forall i | 0 <= i < |ps| :: ps[i] in Zeroed(m, ps) && Zeroed(m, ps)[ps[i]] == Zero
    ensures forall id | id in m && id !in ps :: id in Zeroed(m, ps) && Zeroed(m, ps)[id] == m[id]
    decreases |ps|
  {
    ZeroedKeys(m, ps);
    if ps != [] {
      var init := ps[..|ps| - 1];
      ZeroedValues(m, init);
      forall i | 0 <= i < |ps| - 1 ensures ps[i] == init[i] { }
    }
  }

  /*
   * What the preset computes: its value is the polynomial Σᵢ cᵢ · x^i, its
   * derivative with respect to cₖ is x^k, and so one regression call moves every
   * parameter by the same gradient step it would take alone.
   */

  lemma PowerOfCell(lib: MathLib, v: real, i: nat)
    ensures Power(lib, Fin(v), Fin(i as real)) == Fin(RealPow(v, i))
  {
    assert IsInteger(Fin(i as real)) && (i as real).Floor == i;
    IntPowFinite(v, i);
  }

  /** simplePow(i) of a cell that is not the target has derivative 0, whatever the cell holds. */
  lemma ConstantPowerDeriv(lib: MathLib, i: nat, v: real)
    ensures SimplePowRule(lib, Fin(i as real), Zero, Fin(v)) == Zero
  {
    if v != 0.0 {
      var r := PowerBelow(lib, i, v);
      var a := Times(Fin(i as real), Fin(r));
      assert a.Fin?;
      TimesZero(a.r);
    }
  }

  lemma TimesZero(a: real)
    ensures Times(Fin(a), Zero) == Zero
  {
  }

  /** The factor x^(i-1) of simplePow's derivative is finite at a non-zero x. */
  lemma PowerBelow(lib: MathLib, i: nat, v: real) returns (r: real)
    requires v != 0.0
    ensures Power(lib, Fin(v), Minus(Fin(i as real), One)) == Fin(r)
  {
    var k := Minus(Fin(i as real), One);
    assert k == Fin(i as real - 1.0);
    assert IsInteger(k) && k.r.Floor == i - 1;
    if i == 0 {
      assert IntPow(Fin(v), 1) == Times(One, Fin(v)) == Fin(v);
      assert IntPow(Fin(v), -1) == Over(One, Fin(v)) == Fin(1.0 / v);
      r := 1.0 / v;
    } else {
      IntPowFinite(v, i - 1);
      r := RealPow(v, i - 1);
    }
  }

  lemma ProductRuleConstant(r: real, w: real, hit: bool)
    ensures ProductRule(Zero, if hit then One else Zero, Fin(r), Fin(w)) == Fin(if hit then r else 0.0)
  {
  }

  lemma TermValue(x: Id, c: Id, i: nat, v: real, w: real, lib: MathLib, s: Values)
    requires x in s && s[x] == Fin(v) && c in s && s[c] == Fin(w)
    ensures Value(Term(x, c, i), lib, s) == Some(Fin(Product(RealPow(v, i), w)))
  {
    PowerOfCell(lib, v, i);
    var base := SimplePow(Leaf(x), Fin(i as real));
    assert Value(Leaf(x), lib, s) == Some(Fin(v));
    assert NodeValue(base, lib, s) == Some(Power(lib, Fin(v), Fin(i as real)));
    assert Value(Leaf(c), lib, s) == Some(Fin(w));
    assert Term(x, c, i) == Multiply(base, Leaf(c));
    assert NodeValue(Term(x, c, i), lib, s) == Some(Times(Fin(RealPow(v, i)), Fin(w)));
    assert Times(Fin(RealPow(v, i)), Fin(w)) == Fin(RealPow(v, i) * w);
    assert Product(RealPow(v, i), w) == RealPow(v, i) * w;
  }

  lemma TermDeriv(x: Id, c: Id, i: nat, v: real, w: real, p: Id, lib: MathLib, s: Values)
    requires x in s && s[x] == Fin(v) && c in s && s[c] == Fin(w) && p != x
    ensures Deriv(Term(x, c, i), p, lib, s) == Some(Fin(if c == p then RealPow(v, i) else 0.0))
  {
    var base := SimplePow(Leaf(x), Fin(i as real));
    PowerOfCell(lib, v, i);
    ConstantPowerDeriv(lib, i, v);
    assert NodeValue(base, lib, s) == Some(Fin(RealPow(v, i)));
    assert NodeDeriv(base, p, lib, s) == Some(Zero);
    ProductRuleConstant(RealPow(v, i), w, c == p);
    assert NodeDeriv(Term(x, c, i), p, lib, s)
        == Some(ProductRule(Zero, if c == p then One else Zero, Fin(RealPow(v, i)), Fin(w)));
  }

  /** The preset's value: Σᵢ ws[i] · v^i when x holds v and cᵢ holds ws[i]. */
  lemma {:induction false} PolynomialValue(x: Id, cs: seq<Id>, zero: Id, v: real, ws: seq<real>, lib: MathLib, s: Values)
    requires x in s && s[x] == Fin(v) && zero in s && s[zero] == Zero && |ws| == |cs|
    requires forall i | 0 <= i < |cs| :: cs[i] in s && s[cs[i]] == Fin(ws[i])
    ensures Value(PolynomialRoot(x, cs, zero), lib, s) == Some(Fin(Series(ws, v)))
    decreases |cs|
  {
    if cs != [] {
      var n := |cs| - 1;
      var rest := Series(ws[..n], v);
      PolynomialValue(x, cs[..n], zero, v, ws[..n], lib, s);
      TermValue(x, cs[n], n, v, ws[n], lib, s);
      assert NodeValue(PolynomialRoot(x, cs, zero), lib, s)
          == Some(Plus(Fin(Product(RealPow(v, n), ws[n])), Fin(rest)));
    }
  }

  /** Σᵢ [cs[i] = p] · v^i: the slope of the polynomial along the cell p. */
  function Slope(cs: seq<Id>, p: Id, v: real): real
    decreases |cs|
  {
    if cs == [] then 0.0
    else (if cs[|cs| - 1] == p then RealPow(v, |cs| - 1) else 0.0) + Slope(cs[..|cs| - 1], p, v)
  }

  lemma {:induction false} SlopeAbsent(cs: seq<Id>, p: Id, v: real)
    requires p !in cs
    ensures Slope(cs, p, v) == 0.0
    decreases |cs|
  {
    if cs != [] {
      SlopeAbsent(cs[..|cs| - 1], p, v);
    }
  }

  /** With distinct parameters, the slope along cₖ is v^k. */
  lemma {:induction false} SlopeAt(cs: seq<Id>, k: nat, v: real)
    requires k < |cs| && Distinct(cs)
    ensures Slope(cs, cs[k], v) == RealPow(v, k)
    decreases |cs|
  {
    var n := |cs| - 1;
    var init := cs[..n];
    if k == n {
      assert cs[k] !in init;
      SlopeAbsent(init, cs[k], v);
    } else {
      assert init[k] == cs[k];
      SlopeAt(init, k, v);
    }
  }

  /** The preset's derivative along any cell p other than x and ZERO: the slope. */
  lemma {:induction false} PolynomialGradient(x: Id, cs: seq<Id>, zero: Id, v: real, p: Id, lib: MathLib, s: Values)
    requires x in s && s[x] == Fin(v) && p != x && p != zero
    requires forall i | 0 <= i < |cs| :: cs[i] in s && s[cs[i]].Fin?
    ensures Deriv(PolynomialRoot(x, cs, zero), p, lib, s) == Some(Fin(Slope(cs, p, v)))
    decreases |cs|
  {
    if cs != [] {
      var n := |cs| - 1;
      var c := cs[n];
      PolynomialGradient(x, cs[..n], zero, v, p, lib, s);
      TermDeriv(x, c, n, v, s[c].r, p, lib, s);
      assert NodeDeriv(PolynomialRoot(x, cs, zero), p, lib, s)
          == Some(Plus(Fin(if c == p then RealPow(v, n) else 0.0), Fin(Slope(cs[..n], p, v))));
    }
  }

  lemma {:induction false} PolynomialIds(x: Id, cs: seq<Id>, zero: Id)
    ensures Ids(PolynomialRoot(x, cs, zero)) <= {x, zero} + set id | id in cs
    decreases |cs|
  {
    if cs != [] {
      var n := |cs| - 1;
      PolynomialIds(x, cs[..n], zero);
      assert Ids(SimplePow(Leaf(x), Fin(n as real))) == {x};
      assert Ids(Term(x, cs[n], n)) == {x, cs[n]};
      assert cs[n] in cs;
      assert forall id | id in cs[..n] :: id in cs;
    }
  }

  /** No binding names a parameter. */
  predicate Unbound(bs: seq<Binding>, cs: seq<Id>) {
    forall i | 0 <= i < |cs| :: !Names(bs, cs[i])
  }

  /** The derivative along parameter cⱼ is x^j. */
  lemma PolynomialGradientAt(x: Id, cs: seq<Id>, zero: Id, v: real, lib: MathLib, t: Values, j: nat)
    requires j < |cs| && Distinct(cs) && x !in cs && zero !in cs
    requires x in t && t[x] == Fin(v) && zero in t
    requires forall i | 0 <= i < |cs| :: cs[i] in t && t[cs[i]].Fin?
    ensures Differentiate(PolynomialRoot(x, cs, zero), cs[j], lib, t) == Ok(Fin(RealPow(v, j)))
  {
    PolynomialIds(x, cs, zero);
    assert forall id | id in cs :: id in t;
    PolynomialGradient(x, cs, zero, v, cs[j], lib, t);
    SlopeAt(cs, j, v);
  }

  /** One round of regression's loop, on parameter cⱼ of a bound store. */
  lemma PolynomialGradientStep(x: Id, cs: seq<Id>, zero: Id, v: real, lib: MathLib, t: Values, e: real, l: real, bs: seq<Binding>, j: nat)
    requires j < |cs| && Distinct(cs) && x !in cs && zero !in cs
    requires x in t && t[x] == Fin(v) && zero in t
    requires forall i | 0 <= i < |cs| :: cs[i] in t && t[cs[i]].Fin?
    requires Present(t, bs) && Bound(t, bs) == t
    ensures GradientStep(PolynomialRoot(x, cs, zero), lib, t, cs[j], Fin(e), Fin(l), bs)
      == (t[cs[j] := Descend(t[cs[j]], Fin(e), Fin(RealPow(v, j)), Fin(l))], Pass)
  {
    PolynomialGradientAt(x, cs, zero, v, lib, t, j);
  }

  /**
   * regression's loop over the parameters cs[j..] of the preset: each one moves
   * by the gradient step err · x^i · lr, because its derivative x^i does not
   * depend on the parameters updated before it.
   */
  lemma {:induction false} PolynomialSteps(x: Id, cs: seq<Id>, zero: Id, v: real, lib: MathLib, t: Values, e: real, l: real, bs: seq<Binding>, j: nat)
    requires j <= |cs| && Distinct(cs) && x !in cs && zero !in cs
    requires x in t && t[x] == Fin(v) && zero in t
    requires forall i | 0 <= i < |cs| :: cs[i] in t && t[cs[i]].Fin?
    requires Present(t, bs) && Bound(t, bs) == t && Unbound(bs, cs)
    ensures Steps(PolynomialRoot(x, cs, zero), lib, t, cs[j..], Fin(e), Fin(l), bs).1 == Pass
    ensures Steps(PolynomialRoot(x, cs, zero), lib, t, cs[j..], Fin(e), Fin(l), bs).0.Keys == t.Keys
    ensures forall i | j <= i < |cs| ::
      Steps(PolynomialRoot(x, cs, zero), lib, t, cs[j..], Fin(e), Fin(l), bs).0[cs[i]]
        == Descend(t[cs[i]], Fin(e), Fin(RealPow(v, i)), Fin(l))
    ensures forall id | id in t && id !in cs[j..] ::
      Steps(PolynomialRoot(x, cs, zero), lib, t, cs[j..], Fin(e), Fin(l), bs).0[id] == t[id]
    decreases |cs| - j
  {
    if j < |cs| {
      var p := cs[j];
      var w := Descend(t[p], Fin(e), Fin(RealPow(v, j)), Fin(l));
      var t' := t[p := w];
      PolynomialGradientStep(x, cs, zero, v, lib, t, e, l, bs, j);
      BoundSettled(t, bs, p, w);
      PresentKeys(t, t', bs);
      assert cs[j..][0] == p && cs[j..][1..] == cs[j + 1..];
      PolynomialSteps(x, cs, zero, v, lib, t', e, l, bs, j + 1);
      assert p !in cs[j + 1..];
    }
  }

  /** The whole loop, over every parameter. */
  lemma PolynomialStepsAll(x: Id, cs: seq<Id>, zero: Id, v: real, lib: MathLib, t: Values, e: real, l: real, bs: seq<Binding>)
    requires Distinct(cs) && x !in cs && zero !in cs
    requires x in t && t[x] == Fin(v) && zero in t
    requires forall i | 0 <= i < |cs| :: cs[i] in t && t[cs[i]].Fin?
    requires Present(t, bs) && Bound(t, bs) == t && Unbound(bs, cs)
    ensures Steps(PolynomialRoot(x, cs, zero), lib, t, cs, Fin(e), Fin(l), bs).1 == Pass
    ensures Steps(PolynomialRoot(x, cs, zero), lib, t, cs, Fin(e), Fin(l), bs).0.Keys == t.Keys
    ensures forall i | 0 <= i < |cs| ::
      Steps(PolynomialRoot(x, cs, zero), lib, t, cs, Fin(e), Fin(l), bs).0[cs[i]]
        == Descend(t[cs[i]], Fin(e), Fin(RealPow(v, i)), Fin(l))
  {
    PolynomialSteps(x, cs, zero, v, lib, t, e, l, bs, 0);
    assert cs[0..] == cs;
  }

  lemma StepArithmetic(w: real, err: real, r: real, l: real)
    ensures Descend(Fin(w), Fin(err), Fin(r), Fin(l)) == Fin(w - Product(Product(err, r), l))
  {
  }

  /** The store t after binding: x holds v, the parameters hold ws, and binding again changes nothing. */
  predicate Settled(x: Id, cs: seq<Id>, zero: Id, v: real, ws: seq<real>, t: Values, bs: seq<Binding>)
    requires |ws| == |cs|
  {
    && x in t && t[x] == Fin(v) && zero in t
    && (forall i | 0 <= i < |cs| :: cs[i] in t && t[cs[i]] == Fin(ws[i]))
    && Present(t, bs) && Bound(t, bs) == t
  }

  /** Bindings that name no parameter leave the parameters' values in place. */
  lemma PolynomialBound(x: Id, cs: seq<Id>, zero: Id, v: real, ws: seq<real>, s: Values, bs: seq<Binding>)
    requires |ws| == |cs| && Present(s, bs) && Unbound(bs, cs)
    requires x in s && Bound(s, bs)[x] == Fin(v) && zero in s
    requires forall i | 0 <= i < |cs| :: cs[i] in s && s[cs[i]] == Fin(ws[i])
    ensures Settled(x, cs, zero, v, ws, Bound(s, bs), bs)
  {
    var t := Bound(s, bs);
    PresentKeys(s, t, bs);
    BoundIdempotent(s, bs);
    forall i | 0 <= i < |cs| ensures t[cs[i]] == Fin(ws[i]) {
      BoundUntouched(s, bs, cs[i]);
    }
  }

  /** On a bound store, the prediction is the polynomial's value and every parameter's step succeeds. */
  lemma PolynomialPrediction(x: Id, cs: seq<Id>, zero: Id, v: real, ws: seq<real>, lib: MathLib, t: Values, y: real, l: real, bs: seq<Binding>)
    requires Distinct(cs) && x !in cs && zero !in cs && |ws| == |cs| && cs != []
    requires Settled(x, cs, zero, v, ws, t, bs) && t[zero] == Zero && Unbound(bs, cs)
    ensures Regress(PolynomialRoot(x, cs, zero), lib, t, cs, Fin(y), Fin(l), bs).0
      == Steps(PolynomialRoot(x, cs, zero), lib, t, cs, Fin(Series(ws, v) - y), Fin(l), bs).0
    ensures Regress(PolynomialRoot(x, cs, zero), lib, t, cs, Fin(y), Fin(l), bs).1
      == Ok(Times(Fin(Series(ws, v) - y), Fin(Series(ws, v) - y)))
  {
    var pred := Series(ws, v);
    PolynomialValue(x, cs, zero, v, ws, lib, t);
    PolynomialStepsAll(x, cs, zero, v, lib, t, pred - y, l, bs);
    RegressOutcome(PolynomialRoot(x, cs, zero), lib, t, cs, Fin(y), Fin(l), bs, Fin(pred), Fin(pred - y));
  }

  /** One regression call on the preset, over all its parameters, answers the squared error of the polynomial's value. */
  lemma PolynomialRegressionLoss(x: Id, cs: seq<Id>, zero: Id, v: real, ws: seq<real>, lib: MathLib, s: Values, y: real, l: real, bs: seq<Binding>)
    requires Distinct(cs) && x !in cs && zero !in cs && |ws| == |cs| && cs != []
    requires Present(s, bs) && Unbound(bs, cs)
    requires x in s && Bound(s, bs)[x] == Fin(v) && zero in s && Bound(s, bs)[zero] == Zero
    requires forall i | 0 <= i < |cs| :: cs[i] in s && s[cs[i]] == Fin(ws[i])
    ensures Regress(PolynomialRoot(x, cs, zero), lib, s, cs, Fin(y), Fin(l), bs).1
      == Ok(Times(Fin(Series(ws, v) - y), Fin(Series(ws, v) - y)))
  {
    PolynomialBound(x, cs, zero, v, ws, s, bs);
    PolynomialPrediction(x, cs, zero, v, ws, lib, Bound(s, bs), y, l, bs);
    RegressRebinds(PolynomialRoot(x, cs, zero), lib, s, cs, Fin(y), Fin(l), bs);
  }

  /** The loop passes and moves the parameter cᵢ, holding wᵢ, to wᵢ - err · x^i · lr. */
  lemma PolynomialDescent(x: Id, cs: seq<Id>, zero: Id, v: real, ws: seq<real>, lib: MathLib, t: Values, e: real, l: real, bs: seq<Binding>, i: nat)
    requires Distinct(cs) && x !in cs && zero !in cs && i < |ws| == |cs|
    requires Settled(x, cs, zero, v, ws, t, bs) && Unbound(bs, cs)
    ensures Steps(PolynomialRoot(x, cs, zero), lib, t, cs, Fin(e), Fin(l), bs).1 == Pass
    ensures cs[i] in Steps(PolynomialRoot(x, cs, zero), lib, t, cs, Fin(e), Fin(l), bs).0
    ensures Steps(PolynomialRoot(x, cs, zero), lib, t, cs, Fin(e), Fin(l), bs).0[cs[i]]
      == Fin(ws[i] - Product(Product(e, RealPow(v, i)), l))
  {
    PolynomialStepsAll(x, cs, zero, v, lib, t, e, l, bs);
    StepArithmetic(ws[i], e, RealPow(v, i), l);
  }

  /**
   * ... and leaves the cells as the loop over all parameters leaves them, run
   * with that error; PolynomialDescent says where the loop moves each one.
   */
  lemma PolynomialRegressionCells(x: Id, cs: seq<Id>, zero: Id, v: real, ws: seq<real>, lib: MathLib, s: Values, y: real, l: real, bs: seq<Binding>)
    requires Distinct(cs) && x !in cs && zero !in cs && |ws| == |cs| && cs != []
    requires Present(s, bs) && Unbound(bs, cs)
    requires x in s && Bound(s, bs)[x] == Fin(v) && zero in s && Bound(s, bs)[zero] == Zero
    requires forall i | 0 <= i < |cs| :: cs[i] in s && s[cs[i]] == Fin(ws[i])
    ensures Settled(x, cs, zero, v, ws, Bound(s, bs), bs)
    ensures Regress(PolynomialRoot(x, cs, zero), lib, s, cs, Fin(y), Fin(l), bs).0
      == Steps(PolynomialRoot(x, cs, zero), lib, Bound(s, bs), cs, Fin(Series(ws, v) - y), Fin(l), bs).0
  {
    PolynomialBound(x, cs, zero, v, ws, s, bs);
    PolynomialPrediction(x, cs, zero, v, ws, lib, Bound(s, bs), y, l, bs);
    RegressRebinds(PolynomialRoot(x, cs, zero), lib, s, cs, Fin(y), Fin(l), bs);
  }

  /**
   * ... so one regression call moves each parameter cᵢ by exactly the step
   * err · x^i · lr, as simultaneous gradient descent would, although the
   * source updates the parameters one after the other.
   */
  lemma PolynomialRegressionStep(x: Id, cs: seq<Id>, zero: Id, v: real, ws: seq<real>, lib: MathLib, s: Values, y: real, l: real, bs: seq<Binding>, i: nat)
    requires Distinct(cs) && x !in cs && zero !in cs && i < |ws| == |cs|
    requires Present(s, bs) && Unbound(bs, cs)
    requires x in s && Bound(s, bs)[x] == Fin(v) && zero in s && Bound(s, bs)[zero] == Zero
    requires forall j | 0 <= j < |cs| :: cs[j] in s && s[cs[j]] == Fin(ws[j])
    ensures cs[i] in Regress(PolynomialRoot(x, cs, zero), lib, s, cs, Fin(y), Fin(l), bs).0
    ensures Regress(PolynomialRoot(x, cs, zero), lib, s, cs, Fin(y), Fin(l), bs).0[cs[i]]
      == Fin(ws[i] - Product(Product(Series(ws, v) - y, RealPow(v, i)), l))
  {
    PolynomialRegressionCells(x, cs, zero, v, ws, lib, s, y, l, bs);
    PolynomialDescent(x, cs, zero, v, ws, lib, Bound(s, bs), Series(ws, v) - y, l, bs, i);
  }
}
