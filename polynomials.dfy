/**
 * Real polynomials in one variable, as coefficient sequences (lowest degree
 * first).  They describe how an expression's value moves when one store cell is
 * shifted by h, which is how the derivative rules are checked against their meaning.
 */
module Polynomials {
  /** Horner evaluation at h. */
  function Eval(cs: seq<real>, h: real): real
    decreases |cs|
  {
    if cs == [] then 0.0 else cs[0] + Product(h, Eval(cs[1..], h))
  }

  /** `x * y`, kept behind a name so that unfolding Eval does not flood the prover with products. */
  function Product(x: real, y: real): real { x * y }

  /** Coefficient i, zero beyond the end. */
  function Coef(cs: seq<real>, i: nat): real {
    if i < |cs| then cs[i] else 0.0
  }

  function Constant(c: real): seq<real> { [c] }

  /** The polynomial c + h. */
  function Linear(c: real): seq<real> { [c, 1.0] }

  function PAdd(a: seq<real>, b: seq<real>): seq<real>
    decreases |a| + |b|
  {
    if a == [] then b
    else if b == [] then a
    else [a[0] + b[0]] + PAdd(a[1..], b[1..])
  }

  lemma {:induction false} CoefAdd(a: seq<real>, b: seq<real>, i: nat)
    ensures Coef(PAdd(a, b), i) == Coef(a, i) + Coef(b, i)
    decreases i
  {
    if a != [] && b != [] && i > 0 {
      CoefAdd(a[1..], b[1..], i - 1);
      assert PAdd(a, b)[1..] == PAdd(a[1..], b[1..]);
    }
  }

  function PScale(c: real, a: seq<real>): seq<real>
    decreases |a|
  {
    if a == [] then [] else [c * a[0]] + PScale(c, a[1..])
  }

  lemma {:induction false} CoefScale(c: real, a: seq<real>, i: nat)
    ensures Coef(PScale(c, a), i) == Product(c, Coef(a, i))
    decreases i
  {
    if a != [] && i > 0 {
      CoefScale(c, a[1..], i - 1);
      assert PScale(c, a)[1..] == PScale(c, a[1..]);
    }
  }

  /** Multiplication by h: shifts every coefficient up one degree. */
  function PShift(a: seq<real>): seq<real> { [0.0] + a }

  function PMul(a: seq<real>, b: seq<real>): seq<real>
    decreases |a|
  {
    if a == [] then [] else PAdd(PScale(a[0], b), PShift(PMul(a[1..], b)))
  }

  lemma AddStep(a0: real, b0: real, h: real, ea: real, eb: real)
    ensures (a0 + b0) + Product(h, ea + eb) == (a0 + Product(h, ea)) + (b0 + Product(h, eb))
  {
  }

  lemma {:induction false} EvalAdd(a: seq<real>, b: seq<real>, h: real)
    ensures Eval(PAdd(a, b), h) == Eval(a, h) + Eval(b, h)
    decreases |a| + |b|
  {
    if a != [] && b != [] {
      assert PAdd(a, b)[1..] == PAdd(a[1..], b[1..]);
      EvalAdd(a[1..], b[1..], h);
      AddStep(a[0], b[0], h, Eval(a[1..], h), Eval(b[1..], h));
    }
  }

  lemma ScaleStep(c: real, a0: real, h: real, e: real)
    ensures Product(c, a0) + Product(h, Product(c, e)) == Product(c, a0 + Product(h, e))
  {
  }

  lemma {:induction false} EvalScale(c: real, a: seq<real>, h: real)
    ensures Eval(PScale(c, a), h) == Product(c, Eval(a, h))
    decreases |a|
  {
    if a != [] {
      assert PScale(c, a)[1..] == PScale(c, a[1..]);
      EvalScale(c, a[1..], h);
      ScaleStep(c, a[0], h, Eval(a[1..], h));
    }
  }

  lemma EvalShift(a: seq<real>, h: real)
    ensures Eval(PShift(a), h) == Product(h, Eval(a, h))
  {
    assert PShift(a)[1..] == a;
  }

  lemma EvalMulStep(a: seq<real>, b: seq<real>, h: real)
    requires a != []
    ensures Eval(PMul(a, b), h) == Product(a[0], Eval(b, h)) + Product(h, Eval(PMul(a[1..], b), h))
  {
    var rest := PMul(a[1..], b);
    var x, y := PScale(a[0], b), PShift(rest);
    assert PMul(a, b) == PAdd(x, y);
    EvalAdd(x, y, h);
    EvalScale(a[0], b, h);
    EvalShift(rest, h);
  }

  lemma MulStep(a0: real, h: real, ea: real, eb: real, ep: real, er: real, el: real)
    requires ep == Product(a0, eb) + Product(h, er) && er == Product(ea, eb) && el == a0 + Product(h, ea)
    ensures ep == Product(el, eb)
  {
    assert Product(h, ea * eb) == Product(h, ea) * eb;
  }

  lemma {:induction false} EvalMul(a: seq<real>, b: seq<real>, h: real)
    ensures Eval(PMul(a, b), h) == Product(Eval(a, h), Eval(b, h))
    decreases |a|
  {
    if a != [] {
      EvalMul(a[1..], b, h);
      EvalMulStep(a, b, h);
      MulStep(a[0], h, Eval(a[1..], h), Eval(b, h), Eval(PMul(a, b), h), Eval(PMul(a[1..], b), h), Eval(a, h));
    }
  }

  /** The two lowest coefficients of a product: the product rule in coefficient form. */
  lemma MulLowCoefficients(a: seq<real>, b: seq<real>)
    ensures Coef(PMul(a, b), 0) == Product(Coef(a, 0), Coef(b, 0))
    ensures Coef(PMul(a, b), 1) == Product(Coef(a, 0), Coef(b, 1)) + Product(Coef(a, 1), Coef(b, 0))
  {
    if a != [] {
      var rest := PMul(a[1..], b);
      CoefAdd(PScale(a[0], b), PShift(rest), 0);
      CoefAdd(PScale(a[0], b), PShift(rest), 1);
      CoefScale(a[0], b, 0);
      CoefScale(a[0], b, 1);
      assert Coef(PShift(rest), 0) == 0.0;
      assert Coef(PShift(rest), 1) == Coef(rest, 0);
      if a[1..] != [] {
        CoefAdd(PScale(a[1], b), PShift(PMul(a[2..], b)), 0);
        CoefScale(a[1], b, 0);
        assert a[1..][1..] == a[2..];
        assert Coef(rest, 0) == Product(a[1], Coef(b, 0));
      } else {
        assert rest == [];
      }
    }
  }

  /*
   * The four polynomial operations, each packaged as "some polynomial with the
   * defining properties", so that users never unfold the construction.
   */

  ghost predicate IsSum(c: seq<real>, a: seq<real>, b: seq<real>) {
    && (forall h :: Eval(c, h) == Eval(a, h) + Eval(b, h))
    && (forall i: nat :: Coef(c, i) == Coef(a, i) + Coef(b, i))
  }

  ghost predicate IsNegation(c: seq<real>, a: seq<real>) {
    && (forall h :: Eval(c, h) == -Eval(a, h))
    && (forall i: nat :: Coef(c, i) == -Coef(a, i))
  }

  ghost predicate IsDifference(c: seq<real>, a: seq<real>, b: seq<real>) {
    && (forall h :: Eval(c, h) == Eval(a, h) - Eval(b, h))
    && (forall i: nat :: Coef(c, i) == Coef(a, i) - Coef(b, i))
  }

  /** Only the two lowest coefficients of a product are pinned down; they are all the product rule needs. */
  ghost predicate IsProduct(c: seq<real>, a: seq<real>, b: seq<real>) {
    && (forall h :: Eval(c, h) == Product(Eval(a, h), Eval(b, h)))
    && Coef(c, 0) == Product(Coef(a, 0), Coef(b, 0))
    && Coef(c, 1) == Product(Coef(a, 0), Coef(b, 1)) + Product(Coef(a, 1), Coef(b, 0))
  }

  lemma EvalAddAll(a: seq<real>, b: seq<real>)
    ensures forall h :: Eval(PAdd(a, b), h) == Eval(a, h) + Eval(b, h)
  {
    forall h ensures Eval(PAdd(a, b), h) == Eval(a, h) + Eval(b, h) {
      EvalAdd(a, b, h);
    }
  }

  lemma EvalScaleAll(c: real, a: seq<real>)
    ensures forall h :: Eval(PScale(c, a), h) == Product(c, Eval(a, h))
  {
    forall h ensures Eval(PScale(c, a), h) == Product(c, Eval(a, h)) {
      EvalScale(c, a, h);
    }
  }

  lemma EvalMulAll(a: seq<real>, b: seq<real>)
    ensures forall h :: Eval(PMul(a, b), h) == Product(Eval(a, h), Eval(b, h))
  {
    forall h ensures Eval(PMul(a, b), h) == Product(Eval(a, h), Eval(b, h)) {
      EvalMul(a, b, h);
    }
  }

  lemma SumPolynomial(a: seq<real>, b: seq<real>) returns (c: seq<real>)
    ensures IsSum(c, a, b)
  {
    c := PAdd(a, b);
    forall i: nat ensures Coef(c, i) == Coef(a, i) + Coef(b, i) {
      CoefAdd(a, b, i);
    }
    EvalAddAll(a, b);
  }

  lemma NegatedPolynomial(a: seq<real>) returns (c: seq<real>)
    ensures IsNegation(c, a)
  {
    c := PScale(-1.0, a);
    forall i: nat ensures Coef(c, i) == -Coef(a, i) {
      CoefScale(-1.0, a, i);
    }
    EvalScaleAll(-1.0, a);
  }

  lemma DifferencePolynomial(a: seq<real>, b: seq<real>) returns (c: seq<real>)
    ensures IsDifference(c, a, b)
  {
    var nb := NegatedPolynomial(b);
    c := SumPolynomial(a, nb);
  }

  lemma ProductPolynomial(a: seq<real>, b: seq<real>) returns (c: seq<real>)
    ensures IsProduct(c, a, b)
  {
    c := PMul(a, b);
    EvalMulAll(a, b);
    MulLowCoefficients(a, b);
  }
}
