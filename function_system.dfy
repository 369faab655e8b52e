/**
 * FunctionSystem: a builder over one shared store.  Its root starts as the ZERO
 * cell; every builder method wraps the current root in a new operator node, with
 * the operand order of the source.  `valueOf`, `derivative` and `regression`
 * first write their (id, value) bindings into the store.
 */
module FunctionSystems {
  import opened Wrappers
  import opened Numbers
  import opened Store
  import opened Expressions
  import opened Calculus

  /** What `valueOf` returns: a number, or the id string itself when the root is a bare id. */
  datatype Reply = Number(n: Num) | Text(text: Id)

  /** One (id, value) pair of the trailing argument list of valueOf, derivative and regression. */
  datatype Binding = Binding(id: Id, value: Num)

  /** Every binding names a cell of the store. */
  predicate Present(s: Values, bs: seq<Binding>) {
    forall i | 0 <= i < |bs| :: bs[i].id in s
  }

  /**
   * The store after writing the bindings in order; writing stops at the first id
   * without a cell (the TypeError of `getParameter(id).value = ...`), and the
   * earlier writes stay.
   */
  function Bound(s: Values, bs: seq<Binding>): (r: Values)
    ensures r.Keys == s.Keys
    decreases |bs|
  {
    if bs == [] then s
    else if bs[0].id in s then Bound(s[bs[0].id := bs[0].value], bs[1..])
    else s
  }

  /** The value the last binding for `id` writes, or `d` when no binding names `id`. */
  function LastValue(bs: seq<Binding>, id: Id, d: Num): Num
    decreases |bs|
  {
    if bs == [] then d else LastValue(bs[1..], id, if bs[0].id == id then bs[0].value else d)
  }

  predicate Names(bs: seq<Binding>, id: Id) {
    exists i | 0 <= i < |bs| :: bs[i].id == id
  }

  /** The default only matters for an id no binding names. */
  lemma {:induction false} LastValueDefault(bs: seq<Binding>, id: Id, d: Num, d': Num)
    ensures !Names(bs, id) ==> LastValue(bs, id, d) == d
    ensures Names(bs, id) ==> LastValue(bs, id, d) == LastValue(bs, id, d')
    decreases |bs|
  {
    if bs != [] {
      var e := if bs[0].id == id then bs[0].value else d;
      var e' := if bs[0].id == id then bs[0].value else d';
      LastValueDefault(bs[1..], id, e, e');
      if Names(bs, id) && !Names(bs[1..], id) {
        var i :| 0 <= i < |bs| && bs[i].id == id;
        if i > 0 {
          assert bs[1..][i - 1].id == id;
        }
      }
      if !Names(bs, id) {
        assert bs[0].id != id;
      }
      if Names(bs[1..], id) {
        var i :| 0 <= i < |bs[1..]| && bs[1..][i].id == id;
        assert bs[i + 1].id == id;
      }
    }
  }

  /** With every id present, binding is "last write wins", cell by cell. */
  lemma {:induction false} BoundPointwise(s: Values, bs: seq<Binding>, id: Id)
    requires Present(s, bs) && id in s
    ensures Bound(s, bs)[id] == LastValue(bs, id, s[id])
    decreases |bs|
  {
    if bs != [] {
      assert Present(s[bs[0].id := bs[0].value], bs[1..]) by {
        forall i | 0 <= i < |bs[1..]| ensures bs[1..][i].id in s {
          assert bs[1..][i] == bs[i + 1];
        }
      }
      BoundPointwise(s[bs[0].id := bs[0].value], bs[1..], id);
    }
  }

  /** A cell no binding names keeps its value, whether or not the writes run to the end. */
  lemma {:induction false} BoundUntouched(s: Values, bs: seq<Binding>, id: Id)
    requires id in s && !Names(bs, id)
    ensures Bound(s, bs)[id] == s[id]
    decreases |bs|
  {
    if bs != [] && bs[0].id in s {
      assert bs[0].id != id;
      BoundUntouched(s[bs[0].id := bs[0].value], bs[1..], id);
    }
  }

  /** The last binding of the list wins over every earlier write to its cell. */
  lemma BoundLast(s: Values, bs: seq<Binding>)
    requires Present(s, bs) && bs != []
    ensures Bound(s, bs)[bs[|bs| - 1].id] == bs[|bs| - 1].value
  {
    var b := bs[|bs| - 1];
    BoundPointwise(s, bs, b.id);
    LastSnoc(bs[..|bs| - 1], b, s[b.id]);
    assert bs[..|bs| - 1] + [b] == bs;
  }

  lemma {:induction false} LastSnoc(bs: seq<Binding>, b: Binding, d: Num)
    ensures LastValue(bs + [b], b.id, d) == b.value
    decreases |bs|
  {
    if bs == [] {
      assert ([] + [b])[1..] == [];
    } else {
      assert (bs + [b])[1..] == bs[1..] + [b];
      LastSnoc(bs[1..], b, if bs[0].id == b.id then bs[0].value else d);
    }
  }

  /** Writing stops at the first id without a cell: the rest of the list is ignored. */
  lemma {:induction false} BoundStops(s: Values, bs: seq<Binding>, k: nat)
    requires k < |bs| && bs[k].id !in s && Present(s, bs[..k])
    ensures Bound(s, bs) == Bound(s, bs[..k])
    decreases k
  {
    if k == 0 {
    } else {
      assert bs[..k][0] == bs[0];
      var s' := s[bs[0].id := bs[0].value];
      var rest := bs[1..][..k - 1];
      assert rest == bs[..k][1..];
      assert Present(s', rest) by {
        forall i | 0 <= i < |rest| ensures rest[i].id in s' {
          assert rest[i] == bs[..k][i + 1];
        }
      }
      BoundStops(s', bs[1..], k - 1);
    }
  }

  /** Binding the same list twice changes nothing more: the second pass writes the same values. */
  lemma BoundIdempotent(s: Values, bs: seq<Binding>)
    requires Present(s, bs)
    ensures Bound(Bound(s, bs), bs) == Bound(s, bs)
  {
    var t := Bound(s, bs);
    assert Present(t, bs);
    forall id | id in t ensures Bound(t, bs)[id] == t[id] {
      BoundPointwise(t, bs, id);
      BoundPointwise(s, bs, id);
      LastValueDefault(bs, id, t[id], s[id]);
      LastValueDefault(bs, id, s[id], s[id]);
    }
  }

  /**
   * `innerFunction.valueOf(ref)`: a bare id answers with itself
   * (String.prototype.valueOf ignores its argument); an operator node reads the
   * store and fails with a TypeError when a cell it reads is missing.
   */
  function Evaluate(e: Expr, lib: MathLib, s: Values): (r: Result<Reply>)
    ensures e.Leaf? ==> r == Ok(Text(e.id))
    ensures !e.Leaf? ==> (r.Ok? <==> Ids(e) <= s.Keys)
    ensures !e.Leaf? && r.Ok? ==> r.value.Number? && Value(e, lib, s) == Some(r.value.n)
    ensures !e.Leaf? && r.Err? ==> r.error == TypeError
  {
    ValueDefined(e, lib, s);
    if e.Leaf? then Ok(Text(e.id))
    else match NodeValue(e, lib, s)
      case Some(v) => Ok(Number(v))
      case None => Err(TypeError)
  }

  /**
   * `innerFunction.derivative(p, ref)`: a bare id is a string, which has no
   * `derivative` method (a TypeError); an operator node differentiates.
   */
  function Differentiate(e: Expr, p: Id, lib: MathLib, s: Values): (r: Result<Num>)
    ensures e.Leaf? ==> r == Err(TypeError)
    ensures !e.Leaf? && Ids(e) <= s.Keys ==> r.Ok?
    ensures r.Ok? ==> Deriv(e, p, lib, s) == Some(r.value)
  {
    if e.Leaf? then Err(TypeError)
    else
      DerivWhenDefined(e, p, lib, s);
      match NodeDeriv(e, p, lib, s)
      case Some(d) => Ok(d)
      case None => Err(TypeError)
  }

  lemma DerivWhenDefined(e: Expr, p: Id, lib: MathLib, s: Values)
    ensures Ids(e) <= s.Keys ==> Deriv(e, p, lib, s).Some?
  {
    if Ids(e) <= s.Keys {
      DerivDefined(e, p, lib, s);
    }
  }

  /** The learning rate regression uses when none (null or undefined) is given. */
  const DEFAULT_LEARNRATE: Num := Fin(0.05)

  function Rate(learnrate: Option<Num>): (r: Num)
    ensures learnrate.None? ==> r == DEFAULT_LEARNRATE
    ensures learnrate.Some? ==> r == learnrate.value
  {
    if learnrate.Some? then learnrate.value else DEFAULT_LEARNRATE
  }

  /**
   * `prediction - y`; a text prediction (the id string of a bare-id root) is
   * not a number.  The ids the library generates are never numeric strings,
   * so JavaScript's string-to-number conversion gives NaN for them.
   */
  function ErrorOf(prediction: Reply, y: Num): Num {
    if prediction.Number? then Minus(prediction.n, y) else NaN
  }

  /** `value -= error * derivative * learnrate` */
  function Descend(value: Num, err: Num, d: Num, lr: Num): (r: Num)
    ensures value.Fin? && err.Fin? && d.Fin? && lr.Fin? ==> r == Fin(value.r - err.r * d.r * lr.r)
  {
    Minus(value, Times(Times(err, d), lr))
  }

  /**
   * One round of regression's loop from the store s: bind again, differentiate
   * the root with respect to the target in the bound store, and move the target
   * by Descend.  A target without a cell is a TypeError, raised by the update,
   * after its derivative.
   */
  function GradientStep(e: Expr, lib: MathLib, s: Values, target: Id, err: Num, lr: Num, bs: seq<Binding>): (Values, Outcome)
  {
    var s1 := Bound(s, bs);
    if !Present(s, bs) then (s1, Fail(TypeError))
    else match Differentiate(e, target, lib, s1)
      case Err(x) => (s1, Fail(x))
      case Ok(d) =>
        if target !in s1 then (s1, Fail(TypeError))
        else (s1[target := Descend(s1[target], err, d, lr)], Pass)
  }

  /** regression's loop: one GradientStep per target, in order, so a later derivative sees the earlier targets' new values. */
  function Steps(e: Expr, lib: MathLib, s: Values, targets: seq<Id>, err: Num, lr: Num, bs: seq<Binding>): (Values, Outcome)
    decreases |targets|
  {
    if targets == [] then (s, Pass)
    else
      var (s1, o) := GradientStep(e, lib, s, targets[0], err, lr, bs);
      if o.Fail? then (s1, o) else Steps(e, lib, s1, targets[1..], err, lr, bs)
  }

  /**
   * The whole of regression: bind and predict, compute the error once, run the
   * loop, and answer `Math.pow(error, 2)`.
   */
  function Regress(e: Expr, lib: MathLib, s: Values, targets: seq<Id>, y: Num, lr: Num, bs: seq<Binding>): (Values, Result<Num>)
  {
    var s1 := Bound(s, bs);
    if !Present(s, bs) then (s1, Err(TypeError))
    else match Evaluate(e, lib, s1)
      case Err(x) => (s1, Err(x))
      case Ok(prediction) =>
        var err := ErrorOf(prediction, y);
        var (s2, o) := Steps(e, lib, s1, targets, err, lr, bs);
        (s2, if o.Pass? then Ok(Power(lib, err, Two)) else Err(o.error))
  }

  class FunctionSystem {
    var root: Expr
    const ref: ReferenceObject<Num>
    const lib: MathLib

    ghost predicate Valid()
      reads this, ref, ref.parameter
    {
      ref.Valid()
    }

    /** The value of every cell of the shared store. */
    function Cells(): (r: Values)
      reads ref, ref.parameter
      ensures r.Keys == ref.parameter.uuids.Keys
    {
      ref.Cells()
    }

    /** A builder over an existing store; the root defaults to the ZERO cell. */
    constructor (innerFunction: Option<Expr>, referenceObj: ReferenceObject<Num>, lib: MathLib)
      ensures root == if innerFunction.Some? then innerFunction.value else Leaf(referenceObj.ZERO)
      ensures ref == referenceObj && this.lib == lib
    {
      root := if innerFunction.Some? then innerFunction.value else Leaf(referenceObj.ZERO);
      ref := referenceObj;
      this.lib := lib;
    }

    /** A builder without a store of its own: a new ReferenceObject over a new, empty container. */
    constructor Fresh(innerFunction: Option<Expr>, gen: nat -> Id, lib: MathLib)
      requires Injective(gen)
      ensures fresh(ref) && fresh(ref.parameter) && Valid() && this.lib == lib
      ensures root == if innerFunction.Some? then innerFunction.value else Leaf(ref.ZERO)
      ensures Cells().Keys == set id | id in ref.Constants()
      ensures forall i | 0 <= i < 8 :: Cells()[ref.Constants()[i]] == CONSTANT_VALUES[i]
      ensures forall i, j | 0 <= i < j < 8 :: ref.Constants()[i] != ref.Constants()[j]
    {
      var container := new UUIDContainer<Num>(gen);
      var r := new ReferenceObject(container, x => x);
      root := if innerFunction.Some? then innerFunction.value else Leaf(r.ZERO);
      ref := r;
      this.lib := lib;
    }

    /** startWith: replaces the root. */
    method StartWith(e: Expr)
      modifies this
      ensures root == e
    {
      root := e;
    }

    /** br: a new builder over the same store, starting from ZERO. */
    method Br() returns (f: FunctionSystem)
      ensures fresh(f) && f.ref == ref && f.lib == lib && f.root == Leaf(ref.ZERO)
    {
      f := new FunctionSystem(None, ref, lib);
    }

    /** getFunction: the root itself, for use as an operand of another builder. */
    function GetFunction(): (r: Expr)
      reads this
      ensures r == root
    {
      root
    }

    method Add(a: Expr)
      modifies this
      ensures root == Expr.Add(a, old(root))
    {
      root := Expr.Add(a, root);
    }

    method Subtract(a: Expr)
      modifies this
      ensures root == Expr.Subtract(old(root), a)
    {
      root := Expr.Subtract(root, a);
    }

    method Multiply(factor: Expr)
      modifies this
      ensures root == Expr.Multiply(old(root), factor)
    {
      root := Expr.Multiply(root, factor);
    }

    method Devide(dividend: Expr)
      modifies this
      ensures root == Expr.Devide(old(root), dividend)
    {
      root := Expr.Devide(root, dividend);
    }

    method Exp()
      modifies this
      ensures root == Expr.Exp(old(root))
    {
      root := Expr.Exp(root);
    }

    method SimplePow(power: Num)
      modifies this
      ensures root == Expr.SimplePow(old(root), power)
    {
      root := Expr.SimplePow(root, power);
    }

    method Ln()
      modifies this
      ensures root == Expr.Ln(old(root))
    {
      root := Expr.Ln(root);
    }

    method Pow(exponent: Expr)
      modifies this
      ensures root == Expr.Pow(old(root), exponent)
    {
      root := Expr.Pow(root, exponent);
    }

    method Negate()
      modifies this
      ensures root == Expr.Negate(old(root))
    {
      root := Expr.Negate(root);
    }

    method Tanh()
      modifies this
      ensures root == Expr.Tanh(old(root))
    {
      root := Expr.Tanh(root);
    }

    method Sin()
      modifies this
      ensures root == Expr.Sin(old(root))
    {
      root := Expr.Sin(root);
    }

    method Cos()
      modifies this
      ensures root == Expr.Cos(old(root))
    {
      root := Expr.Cos(root);
    }

    method Tan()
      modifies this
      ensures root == Expr.Tan(old(root))
    {
      root := Expr.Tan(root);
    }

    method ReLu()
      modifies this
      ensures root == Expr.ReLu(old(root))
    {
      root := Expr.ReLu(root);
    }

    method LeakyReLu(factor: Num)
      modifies this
      ensures root == Expr.LeakyReLu(old(root), factor)
    {
      root := Expr.LeakyReLu(root, factor);
    }

    method Max(a: Expr)
      modifies this
      ensures root == Expr.Max(old(root), a)
    {
      root := Expr.Max(root, a);
    }

    method Min(a: Expr)
      modifies this
      ensures root == Expr.Min(old(root), a)
    {
      root := Expr.Min(root, a);
    }

    /** sqrt is simplePow(1 / 2). */
    method Sqrt()
      modifies this
      ensures root == Expr.SimplePow(old(root), Fin(0.5))
    {
      SimplePow(Fin(1.0 / 2.0));
    }

    /** sigmoid: negate, exp, add ONE, simplePow(-1), applied to the current root. */
    method Sigmoid()
      modifies this
      ensures root == SigmoidOf(old(root), ref.ONE)
    {
      StartWith(root);
      Negate();
      Exp();
      Add(Leaf(ref.ONE));
      SimplePow(Fin(-1.0));
    }

    /** Writes the bindings into their cells in order; see Bound. */
    method Apply(bindings: seq<Binding>) returns (r: Outcome)
      requires Valid()
      modifies ref.parameter
      ensures Valid()
      ensures Cells() == Bound(old(Cells()), bindings)
      ensures r == if Present(old(Cells()), bindings) then Pass else Fail(TypeError)
    {
      var i := 0;
      while i < |bindings|
        invariant 0 <= i <= |bindings| && Valid()
        invariant Present(old(Cells()), bindings[..i])
        invariant Cells().Keys == old(Cells()).Keys
        invariant Bound(Cells(), bindings[i..]) == Bound(old(Cells()), bindings)
      {
        ghost var before := Cells();
        assert bindings[i..][1..] == bindings[i + 1..];
        var o := ref.SetValue(bindings[i].id, bindings[i].value);
        if o.Fail? {
          BoundStops(old(Cells()), bindings, i);
          assert !Present(old(Cells()), bindings);
          return o;
        }
        assert bindings[..i + 1] == bindings[..i] + [bindings[i]];
        i := i + 1;
      }
      assert bindings[..i] == bindings;
      r := Pass;
    }

    /** valueOf(...bindings) */
    method ValueOf(bindings: seq<Binding>) returns (r: Result<Reply>)
      requires Valid()
      modifies ref.parameter
      ensures Valid() && Cells() == Bound(old(Cells()), bindings)
      ensures r == if Present(old(Cells()), bindings) then Evaluate(root, lib, Cells()) else Err(TypeError)
    {
      var o := Apply(bindings);
      if o.Fail? {
        return Err(o.error);
      }
      r := Evaluate(root, lib, Cells());
    }

    /** derivative(parameter, ...bindings) */
    method Derivative(parameter: Id, bindings: seq<Binding>) returns (r: Result<Num>)
      requires Valid()
      modifies ref.parameter
      ensures Valid() && Cells() == Bound(old(Cells()), bindings)
      ensures r == if Present(old(Cells()), bindings) then Differentiate(root, parameter, lib, Cells()) else Err(TypeError)
    {
      var o := Apply(bindings);
      if o.Fail? {
        return Err(o.error);
      }
      r := Differentiate(root, parameter, lib, Cells());
    }

    method AddParameter(value: Num) returns (id: Id)
      requires Valid()
      modifies ref.parameter
      ensures Valid()
      ensures id !in old(Cells()) && Cells() == old(Cells())[id := value]
    {
      id := ref.AddParameter(value);
    }

    function GetParameter(id: Id): (r: Result<Num>)
      reads ref, ref.parameter
      ensures r.Ok? <==> id in Cells()
      ensures r.Ok? ==> r.value == Cells()[id]
    {
      ref.GetParameter(id)
    }

    method RemoveParameter(id: Id)
      requires Valid()
      modifies ref.parameter
      ensures Valid()
      ensures Cells() == old(Cells()) - {id}
    {
      ref.RemoveParameter(id);
    }

    /** setParameter: `getParameter(id).value = value`. */
    method SetParameter(id: Id, value: Num) returns (r: Outcome)
      requires Valid()
      modifies ref.parameter
      ensures Valid()
      ensures r == if id in old(Cells()) then Pass else Fail(TypeError)
      ensures Cells() == if id in old(Cells()) then old(Cells())[id := value] else old(Cells())
    {
      r := ref.SetValue(id, value);
    }

    /** One round of regression's loop; see GradientStep. */
    method TrainStep(target: Id, err: Num, lr: Num, bindings: seq<Binding>) returns (o: Outcome)
      requires Valid()
      modifies ref.parameter
      ensures Valid()
      ensures (Cells(), o) == GradientStep(root, lib, old(Cells()), target, err, lr, bindings)
    {
      var derivative := Derivative(target, bindings);
      if derivative.Err? {
        return Fail(derivative.error);
      }
      var current := GetParameter(target);
      if current.Err? {
        return Fail(current.error);
      }
      o := SetParameter(target, Descend(current.value, err, derivative.value, lr));
    }

    /** regression's loop; see Steps. */
    method Train(targets: seq<Id>, err: Num, lr: Num, bindings: seq<Binding>) returns (o: Outcome)
      requires Valid()
      modifies ref.parameter
      ensures Valid()
      ensures (Cells(), o) == Steps(root, lib, old(Cells()), targets, err, lr, bindings)
    {
      var i := 0;
      while i < |targets|
        invariant 0 <= i <= |targets| && Valid()
        invariant Steps(root, lib, old(Cells()), targets, err, lr, bindings) == Steps(root, lib, Cells(), targets[i..], err, lr, bindings)
      {
        assert targets[i..][0] == targets[i] && targets[i..][1..] == targets[i + 1..];
        o := TrainStep(targets[i], err, lr, bindings);
        if o.Fail? {
          return;
        }
        i := i + 1;
      }
      o := Pass;
    }

    /** regression(targets, y, learnrate, ...bindings); see Regress. */
    method Regression(targets: seq<Id>, y: Num, learnrate: Option<Num>, bindings: seq<Binding>) returns (r: Result<Num>)
      requires Valid()
      modifies ref.parameter
      ensures Valid()
      ensures (Cells(), r) == Regress(root, lib, old(Cells()), targets, y, Rate(learnrate), bindings)
    {
      var lr := Rate(learnrate);
      var prediction := ValueOf(bindings);
      if prediction.Err? {
        return Err(prediction.error);
      }
      var err := ErrorOf(prediction.value, y);
      var o := Train(targets, err, lr, bindings);
      if o.Fail? {
        return Err(o.error);
      }
      r := Ok(Power(lib, err, Two));
    }
  }

  /*
   * What regression does, stated about Regress.
   */

  /** Present only depends on which cells exist. */
  lemma PresentKeys(s: Values, t: Values, bs: seq<Binding>)
    requires s.Keys == t.Keys
    ensures Present(s, bs) == Present(t, bs)
  {
  }

  /** With every binding, every cell of the root and every target present, the loop runs to the end and keeps the set of cells. */
  lemma {:induction false} StepsPass(e: Expr, lib: MathLib, s: Values, targets: seq<Id>, err: Num, lr: Num, bs: seq<Binding>)
    requires Present(s, bs) && !e.Leaf? && Ids(e) <= s.Keys
    requires forall i | 0 <= i < |targets| :: targets[i] in s
    ensures Steps(e, lib, s, targets, err, lr, bs).1 == Pass
    ensures Steps(e, lib, s, targets, err, lr, bs).0.Keys == s.Keys
    decreases |targets|
  {
    if targets != [] {
      GradientStepPass(e, lib, s, targets[0], err, lr, bs);
      var s2 := GradientStep(e, lib, s, targets[0], err, lr, bs).0;
      PresentKeys(s, s2, bs);
      assert forall i | 0 <= i < |targets[1..]| :: targets[1..][i] in s2 by {
        forall i | 0 <= i < |targets[1..]| ensures targets[1..][i] in s2 {
          assert targets[1..][i] == targets[i + 1];
        }
      }
      StepsPass(e, lib, s2, targets[1..], err, lr, bs);
    }
  }

  lemma GradientStepPass(e: Expr, lib: MathLib, s: Values, target: Id, err: Num, lr: Num, bs: seq<Binding>)
    requires Present(s, bs) && !e.Leaf? && Ids(e) <= s.Keys && target in s
    ensures GradientStep(e, lib, s, target, err, lr, bs).1 == Pass
    ensures GradientStep(e, lib, s, target, err, lr, bs).0.Keys == s.Keys
  {
    var s1 := Bound(s, bs);
    assert Differentiate(e, target, lib, s1).Ok?;
  }

  /** A cell that is neither a target nor bound keeps its value, even when the loop fails. */
  lemma {:induction false} StepsFrame(e: Expr, lib: MathLib, s: Values, targets: seq<Id>, err: Num, lr: Num, bs: seq<Binding>, id: Id)
    requires id in s && id !in targets && !Names(bs, id)
    ensures id in Steps(e, lib, s, targets, err, lr, bs).0
    ensures Steps(e, lib, s, targets, err, lr, bs).0[id] == s[id]
    decreases |targets|
  {
    if targets != [] {
      BoundUntouched(s, bs, id);
      var (s1, o) := GradientStep(e, lib, s, targets[0], err, lr, bs);
      assert id in s1 && s1[id] == s[id];
      if o.Pass? {
        StepsFrame(e, lib, s1, targets[1..], err, lr, bs, id);
      }
    }
  }

  /**
   * When the bindings, the root's cells and the targets are all present and the
   * root is an operator node with value v, regression answers the squared error
   * (v - y)², keeps the set of cells, and leaves every cell that is neither a
   * target nor bound as it was.
   */
  lemma RegressSquaredError(e: Expr, lib: MathLib, s: Values, targets: seq<Id>, y: Num, lr: Num, bs: seq<Binding>, v: Num)
    requires Present(s, bs) && !e.Leaf? && Value(e, lib, Bound(s, bs)) == Some(v)
    requires forall i | 0 <= i < |targets| :: targets[i] in s
    ensures Regress(e, lib, s, targets, y, lr, bs).1 == Ok(Times(Minus(v, y), Minus(v, y)))
    ensures Regress(e, lib, s, targets, y, lr, bs).0.Keys == s.Keys
    ensures forall id | id in s && id !in targets && !Names(bs, id) :: Regress(e, lib, s, targets, y, lr, bs).0[id] == s[id]
  {
    var s1 := Bound(s, bs);
    ValueDefined(e, lib, s1);
    assert Evaluate(e, lib, s1) == Ok(Number(v));
    var err := Minus(v, y);
    StepsPass(e, lib, s1, targets, err, lr, bs);
    PowerTwo(lib, err);
    forall id | id in s && id !in targets && !Names(bs, id)
      ensures Regress(e, lib, s, targets, y, lr, bs).0[id] == s[id]
    {
      BoundUntouched(s, bs, id);
      StepsFrame(e, lib, s1, targets, err, lr, bs, id);
    }
  }

  /** After binding, moving a cell that no binding names leaves a store the bindings again leave as it is. */
  lemma BoundSettled(t: Values, bs: seq<Binding>, id: Id, w: Num)
    requires Present(t, bs) && Bound(t, bs) == t && id in t && !Names(bs, id)
    ensures Bound(t[id := w], bs) == t[id := w]
  {
    var t' := t[id := w];
    PresentKeys(t, t', bs);
    forall k | k in t' ensures Bound(t', bs)[k] == t'[k] {
      BoundPointwise(t', bs, k);
      if k == id {
        LastValueDefault(bs, k, w, w);
      } else {
        BoundPointwise(t, bs, k);
      }
    }
  }

  /** regression binds first, so binding before the call changes nothing. */
  lemma RegressRebinds(e: Expr, lib: MathLib, s: Values, targets: seq<Id>, y: Num, lr: Num, bs: seq<Binding>)
    requires Present(s, bs)
    ensures Regress(e, lib, Bound(s, bs), targets, y, lr, bs) == Regress(e, lib, s, targets, y, lr, bs)
  {
    PresentKeys(s, Bound(s, bs), bs);
    BoundIdempotent(s, bs);
  }

  /**
   * On a bound store, an operator root with value v makes regression run the
   * loop with error err = v - y and, when the loop passes, answer err · err.
   */
  lemma RegressOutcome(e: Expr, lib: MathLib, t: Values, targets: seq<Id>, y: Num, lr: Num, bs: seq<Binding>, v: Num, err: Num)
    requires Present(t, bs) && Bound(t, bs) == t && !e.Leaf? && Value(e, lib, t) == Some(v) && Minus(v, y) == err
    requires Steps(e, lib, t, targets, err, lr, bs).1 == Pass
    ensures Regress(e, lib, t, targets, y, lr, bs).0 == Steps(e, lib, t, targets, err, lr, bs).0
    ensures Regress(e, lib, t, targets, y, lr, bs).1 == Ok(Times(err, err))
  {
    assert Evaluate(e, lib, t) == Ok(Number(v));
    PowerTwo(lib, err);
  }

  /** A bare-id root: the prediction is text, so the error is NaN, and any target makes derivative throw. */
  lemma RegressLeafRoot(id: Id, lib: MathLib, s: Values, targets: seq<Id>, y: Num, lr: Num, bs: seq<Binding>)
    requires Present(s, bs)
    ensures targets == [] ==> Regress(Leaf(id), lib, s, targets, y, lr, bs).1 == Ok(NaN)
    ensures targets != [] ==> Regress(Leaf(id), lib, s, targets, y, lr, bs).1 == Err(TypeError)
  {
    PowerTwo(lib, NaN);
    if targets != [] {
      PresentKeys(s, Bound(s, bs), bs);
    }
  }

  /** A missing binding id: nothing is evaluated, and the writes before it stay. */
  lemma RegressMissingBinding(e: Expr, lib: MathLib, s: Values, targets: seq<Id>, y: Num, lr: Num, bs: seq<Binding>, k: nat)
    requires k < |bs| && bs[k].id !in s && Present(s, bs[..k])
    ensures Regress(e, lib, s, targets, y, lr, bs) == (Bound(s, bs[..k]), Err(TypeError))
  {
    BoundStops(s, bs, k);
  }
}
