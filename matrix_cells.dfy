/*
 * What a MatrixFunction's operations do to its grid of cells, stated on
 * values: the grid is a Mat of cells, each cell a builder root, a bare id or
 * a raw operator node, evaluated against the shared store of numbers.
 */
module MatrixCells {
  import opened Wrappers
  import opened Numbers
  import opened Store
  import opened Expressions
  import opened FunctionSystems
  import opened Calculus
  import opened Polynomials
  import opened Arith
  import opened Matrices

  /**
   * One cell of the grid: a bare id string (a cell of a reference matrix), a
   * FunctionSystem builder (represented by its root), a raw operator node (what
   * getFunction hands out for a root that is not an id), or undefined (what
   * getPart reads outside the matrix).
   */
  datatype Cell = Ref(id: Id) | Builder(root: Expr) | Node(node: Expr) | Missing

  type Grid = Mat<Cell>

  /** An entry of the store of reference matrices: its eight constants are numbers, addMatrix stores id matrices. */
  datatype Stored = Scalar(n: Num) | Record(m: Mat<Id>)

  /** An operand: the id of a stored matrix, or a matrix given directly. */
  datatype Source = Named(id: Id) | Given(m: Grid)

  /** A reference matrix as a grid: every cell the bare id of a number cell. */
  function Refs(m: Mat<Id>): (r: Grid)
    ensures r.rows == m.rows && r.cols == m.cols && |r.data| == |m.data|
    ensures forall k | 0 <= k < |m.data| :: r.data[k] == Ref(m.data[k])
  {
    Mat(m.rows, m.cols, seq(|m.data|, k requires 0 <= k < |m.data| => Ref(m.data[k])))
  }

  /**
   * `(typeof a === 'string') ? this.getRefMatrix(a) : a`: a missing id is a
   * TypeError; a number stored under the id has no shape (None).
   */
  function Operand(ms: map<Id, Stored>, a: Source): Result<Option<Grid>> {
    match a
    case Given(m) => Ok(Some(m))
    case Named(id) =>
      if id !in ms then Err(TypeError)
      else if ms[id].Scalar? then Ok(None)
      else Ok(Some(Refs(ms[id].m)))
  }

  /** The stored matrices all fit their shape and name each of their cells once. */
  predicate RecordsFit(ms: map<Id, Stored>) {
    forall id | id in ms && ms[id].Record? :: Fits(ms[id].m) && Distinct(ms[id].m.data)
  }

  predicate Distinct(ids: seq<Id>) {
    forall i, j | 0 <= i < j < |ids| :: ids[i] != ids[j]
  }

  /** A named operand of a valid store fits its shape, as a given one must. */
  lemma OperandFits(ms: map<Id, Stored>, a: Source)
    requires RecordsFit(ms) && (a.Given? ==> Fits(a.m))
    ensures Operand(ms, a).Ok? && Operand(ms, a).value.Some? ==> Fits(Operand(ms, a).value.value)
  {
  }

  /*
   * valueOf and derivative, cell by cell
   */

  /**
   * The value of one cell: a bare id is looked up; a builder evaluates its root,
   * and an answer that is an id string (a bare-id root) is looked up in a second
   * pass; a raw node is given no store, so it always fails; undefined fails.
   */
  function CellValue(c: Cell, lib: MathLib, s: Values): Result<Num> {
    match c
    case Ref(id) => if id in s then Ok(s[id]) else Err(TypeError)
    case Builder(e) =>
      var v := Evaluate(e, lib, s);
      if v.Err? then Err(v.error)
      else if v.value.Number? then Ok(v.value.n)
      else if v.value.text in s then Ok(s[v.value.text])
      else Err(TypeError)
    case Node(_) => Err(TypeError)
    case Missing => Err(TypeError)
  }

  /** An operator node always names at least one cell. */
  lemma {:induction false} SomeId(e: Expr)
    ensures Ids(e) != {}
  {
    match e
    case Leaf(id) =>
    case Add(a, b) => SomeId(a);
    case Subtract(a, b) => SomeId(a);
    case Multiply(a, b) => SomeId(a);
    case Devide(a, b) => SomeId(a);
    case Exp(x) => SomeId(x);
    case SimplePow(x, k) => SomeId(x);
    case Ln(x) => SomeId(x);
    case Pow(a, b) => SomeId(a);
    case Negate(x) => SomeId(x);
    case Tanh(x) => SomeId(x);
    case Sin(x) => SomeId(x);
    case Cos(x) => SomeId(x);
    case Tan(x) => SomeId(x);
    case ReLu(x) => SomeId(x);
    case LeakyReLu(x, k) => SomeId(x);
    case Max(a, b) => SomeId(a);
    case Min(a, b) => SomeId(a);
  }

  /** Why a raw node's value fails: evaluated without a store it looks a cell up in nothing. */
  lemma RawNodeValue(e: Expr, lib: MathLib)
    ensures Value(e, lib, map[]) == None
  {
    SomeId(e);
    ValueDefined(e, lib, map[]);
  }

  /**
   * A cell's value is the value of the expression it stands for: its root for
   * a builder (bare-id roots included), its id for a bare id; it exists exactly
   * when every cell that expression reads is in the store.
   */
  lemma CellValueMeaning(c: Cell, lib: MathLib, s: Values)
    requires c.Builder? || c.Ref?
    ensures var e := if c.Builder? then c.root else Leaf(c.id);
      && (CellValue(c, lib, s).Ok? <==> Ids(e) <= s.Keys)
      && (CellValue(c, lib, s).Ok? ==> Value(e, lib, s) == Some(CellValue(c, lib, s).value))
  {
    var e := if c.Builder? then c.root else Leaf(c.id);
    ValueDefined(e, lib, s);
  }

  /** Every failure of a cell's value is a TypeError. */
  lemma CellValueFails(c: Cell, lib: MathLib, s: Values)
    ensures CellValue(c, lib, s).Err? ==> CellValue(c, lib, s).error == TypeError
  {
  }

  /**
   * The derivative of one cell: a bare id is 1 for the parameter and 0 otherwise;
   * a builder differentiates its root (a bare-id root is a string without a
   * derivative method); a raw node differentiates without a store.
   */
  function CellDeriv(c: Cell, p: Id, lib: MathLib, s: Values): Result<Num> {
    match c
    case Ref(id) => Ok(if id == p then One else Zero)
    case Builder(e) => Differentiate(e, p, lib, s)
    case Node(e) => if Deriv(e, p, lib, map[]).Some? then Ok(Deriv(e, p, lib, map[]).value) else Err(TypeError)
    case Missing => Err(TypeError)
  }

  /**
   * A cell's derivative is the derivative of the expression it stands for,
   * taken in the store for a builder and in no store for a raw node; a builder
   * with a bare-id root has none, while the bare id itself does.
   */
  lemma CellDerivMeaning(c: Cell, p: Id, lib: MathLib, s: Values)
    ensures c.Ref? ==> Deriv(Leaf(c.id), p, lib, s) == Some(CellDeriv(c, p, lib, s).value)
    ensures c.Builder? && c.root.Leaf? ==> CellDeriv(c, p, lib, s) == Err(TypeError)
    ensures c.Builder? && !c.root.Leaf? && Ids(c.root) <= s.Keys ==> CellDeriv(c, p, lib, s).Ok?
    ensures c.Builder? && CellDeriv(c, p, lib, s).Ok? ==> Deriv(c.root, p, lib, s) == Some(CellDeriv(c, p, lib, s).value)
    ensures c.Node? ==> (CellDeriv(c, p, lib, s).Ok? <==> Deriv(c.node, p, lib, map[]).Some?)
    ensures c.Node? && CellDeriv(c, p, lib, s).Ok? ==> Deriv(c.node, p, lib, map[]) == Some(CellDeriv(c, p, lib, s).value)
  {
    if c.Ref? {
      LeafDerivative(c.id, p, lib, s);
    }
  }

  /** The values of all cells in order, stopping at the first that fails. */
  function AllValues(cells: seq<Cell>, lib: MathLib, s: Values): (r: Result<seq<Num>>)
    ensures r.Ok? <==> forall k | 0 <= k < |cells| :: CellValue(cells[k], lib, s).Ok?
    ensures r.Ok? ==> |r.value| == |cells| && forall k | 0 <= k < |cells| :: CellValue(cells[k], lib, s) == Ok(r.value[k])
    ensures r.Err? ==> r.error == TypeError
    decreases |cells|
  {
    if cells == [] then Ok([])
    else
      var init := AllValues(cells[..|cells| - 1], lib, s);
      var last := CellValue(cells[|cells| - 1], lib, s);
      if init.Err? then init
      else if last.Err? then Err(last.error)
      else Ok(init.value + [last.value])
  }

  /** The derivatives of all cells in order, stopping at the first that fails. */
  function AllDerivs(cells: seq<Cell>, p: Id, lib: MathLib, s: Values): (r: Result<seq<Num>>)
    ensures r.Ok? <==> forall k | 0 <= k < |cells| :: CellDeriv(cells[k], p, lib, s).Ok?
    ensures r.Ok? ==> |r.value| == |cells| && forall k | 0 <= k < |cells| :: CellDeriv(cells[k], p, lib, s) == Ok(r.value[k])
    decreases |cells|
  {
    if cells == [] then Ok([])
    else
      var init := AllDerivs(cells[..|cells| - 1], p, lib, s);
      var last := CellDeriv(cells[|cells| - 1], p, lib, s);
      if init.Err? then init
      else if last.Err? then Err(last.error)
      else Ok(init.value + [last.value])
  }

  /*
   * The cell-by-cell methods: add, subtract, HadamardProduct, Sigmoid, TanH,
   * ReLu and LeakyReLu call one builder method on each cell, front to back.
   */

  datatype Combine = Sum | Difference | Hadamard

  /** One builder method, with its operand. */
  datatype Step = Combined(how: Combine, x: Expr) | SigmoidStep(one: Id) | TanhStep | ReLuStep | LeakyReLuStep(factor: Num)

  /** The root a builder method leaves behind: add puts the operand first, subtract and multiply put it second. */
  function Grown(step: Step, e: Expr): Expr {
    match step
    case Combined(Sum, x) => Expr.Add(x, e)
    case Combined(Difference, x) => Expr.Subtract(e, x)
    case Combined(Hadamard, x) => Expr.Multiply(e, x)
    case SigmoidStep(one) => SigmoidOf(e, one)
    case TanhStep => Expr.Tanh(e)
    case ReLuStep => Expr.ReLu(e)
    case LeakyReLuStep(k) => Expr.LeakyReLu(e, k)
  }

  /** The first n cells exist and are builders. */
  predicate Grows(cells: seq<Cell>, n: nat) {
    n <= |cells| && forall k | 0 <= k < n :: cells[k].Builder?
  }

  /**
   * `for i ... this.innerFunction.data[i].<method>(...)`: step i goes to cell i;
   * a cell that is not a builder (or is past the end) has no such method, which
   * is a TypeError that keeps the changes already made.  Cell k is changed
   * exactly when cells 0 to k are all builders.
   */
  function Grow(cells: seq<Cell>, steps: seq<Step>): (r: (seq<Cell>, Outcome))
    ensures |r.0| == |cells|
    ensures r.1 == Pass <==> Grows(cells, |steps|)
    ensures r.1.Fail? ==> r.1.error == TypeError
    ensures forall k | 0 <= k < |cells| ::
      r.0[k] == if k < |steps| && Grows(cells, k + 1) then Builder(Grown(steps[k], cells[k].root)) else cells[k]
    decreases |steps|
  {
    if steps == [] then (cells, Pass)
    else
      var n := |steps| - 1;
      var prior := Grow(cells, steps[..n]);
      assert forall k | 0 <= k < n :: steps[..n][k] == steps[k];
      var cs := prior.0;
      if prior.1.Fail? then prior
      else if n >= |cs| || !cs[n].Builder? then (cs, Fail(TypeError))
      else (cs[n := Builder(Grown(steps[n], cs[n].root))], Pass)
  }

  /** The operand a builder method takes from a cell: a bare id as a leaf, a raw node as itself. */
  function OperandOf(c: Cell): Option<Expr> {
    match c
    case Ref(id) => Some(Leaf(id))
    case Node(e) => Some(e)
    case _ => None
  }

  predicate Convertible(a: Grid) {
    forall k | 0 <= k < |a.data| :: OperandOf(a.data[k]).Some?
  }

  function CombineSteps(how: Combine, a: Grid): (r: seq<Step>)
    requires Convertible(a)
    ensures |r| == |a.data| && forall k | 0 <= k < |a.data| :: r[k] == Combined(how, OperandOf(a.data[k]).value)
  {
    seq(|a.data|, k requires 0 <= k < |a.data| => Combined(how, OperandOf(a.data[k]).value))
  }

  /** Both dimensions differ: the only shape the elementwise methods refuse (their check joins the two tests with &&). */
  predicate Refused(m: Grid, a: Grid) {
    a.rows != m.rows && a.cols != m.cols
  }

  /**
   * add / subtract / HadamardProduct with the operand `a` (None: a number
   * stored under the operand's id, whose undefined rows and cols fail the check).
   */
  function Elementwise(how: Combine, m: Grid, a: Option<Grid>): (Grid, Outcome) {
    if a.None? || Refused(m, a.value) then (m, Fail(Undefined))
    else if !Convertible(a.value) then (m, Fail(TypeError))
    else
      var grown := Grow(m.data, CombineSteps(how, a.value));
      (Mat(m.rows, m.cols, grown.0), grown.1)
  }

  /** The shape check throws exactly when both dimensions differ; any other failure is a TypeError. */
  lemma ElementwiseGuard(how: Combine, m: Grid, a: Grid)
    ensures Elementwise(how, m, Some(a)).1 == Fail(Undefined) <==> Refused(m, a)
    ensures Elementwise(how, m, Some(a)).1 == Pass <==> !Refused(m, a) && Convertible(a) && Grows(m.data, |a.data|)
    ensures Elementwise(how, m, Some(a)).0.rows == m.rows && Elementwise(how, m, Some(a)).0.cols == m.cols
  {
  }

  /**
   * Cell k of the result: combined with operand cell k while cells 0 to k of the
   * grid are builders, unchanged otherwise (after a failure too, and beyond the
   * operand's last cell).
   */
  lemma ElementwiseCells(how: Combine, m: Grid, a: Grid, k: nat)
    requires !Refused(m, a) && Convertible(a) && k < |m.data|
    ensures var r := Elementwise(how, m, Some(a)).0;
      && |r.data| == |m.data|
      && r.data[k] == if k < |a.data| && Grows(m.data, k + 1)
                      then Builder(Grown(Combined(how, OperandOf(a.data[k]).value), m.data[k].root))
                      else m.data[k]
  {
  }

  /** The arithmetic each elementwise method performs. */
  function CombineReal(how: Combine, w: real, x: real): real {
    match how
    case Sum => x + w
    case Difference => w - x
    case Hadamard => Product(w, x)
  }

  /**
   * When the method succeeds, a cell whose old root has value w and whose operand
   * has value x now has value w + x, w - x or w · x.
   */
  lemma ElementwiseValue(how: Combine, m: Grid, a: Grid, k: nat, lib: MathLib, s: Values, w: real, x: real)
    requires Elementwise(how, m, Some(a)).1 == Pass && k < |a.data|
    requires m.data[k].Builder? && ValueIs(m.data[k].root, w, lib, s)
    requires OperandOf(a.data[k]).Some? && ValueIs(OperandOf(a.data[k]).value, x, lib, s)
    ensures k < |Elementwise(how, m, Some(a)).0.data|
    ensures CellValue(Elementwise(how, m, Some(a)).0.data[k], lib, s) == Ok(Fin(CombineReal(how, w, x)))
  {
    ElementwiseGuard(how, m, a);
    ElementwiseCells(how, m, a, k);
    var e, y := m.data[k].root, OperandOf(a.data[k]).value;
    var g := Grown(Combined(how, y), e);
    match how
    case Sum => assert NodeValue(g, lib, s) == Some(Plus(Fin(x), Fin(w)));
    case Difference => assert NodeValue(g, lib, s) == Some(Minus(Fin(w), Fin(x)));
    case Hadamard =>
      assert Times(Fin(w), Fin(x)) == Fin(Product(w, x));
      assert NodeValue(g, lib, s) == Some(Times(Fin(w), Fin(x)));
  }

  /** Sigmoid / TanH / ReLu / LeakyReLu: the same step on every cell, front to back. */
  function Activation(step: Step, m: Grid): (Grid, Outcome) {
    var grown := Grow(m.data, seq(|m.data|, k requires 0 <= k < |m.data| => step));
    (Mat(m.rows, m.cols, grown.0), grown.1)
  }

  /** An activation succeeds exactly on a grid of builders, and then wraps every root; a failure keeps a changed prefix. */
  lemma ActivationCells(step: Step, m: Grid, k: nat)
    requires k < |m.data|
    ensures var (r, o) := Activation(step, m);
      && r.rows == m.rows && r.cols == m.cols && |r.data| == |m.data|
      && (o == Pass <==> Grows(m.data, |m.data|))
      && r.data[k] == if Grows(m.data, k + 1) then Builder(Grown(step, m.data[k].root)) else m.data[k]
  {
  }

  /**
   * Sigmoid on a cell whose root has value v and derivative d: the cell's value
   * is the logistic function of v and its derivative follows the chain rule,
   * σ · (1 - σ) · d, with e = e^(-v).
   */
  lemma SigmoidCell(m: Grid, one: Id, k: nat, v: real, d: real, e: real, p: Id, lib: MathLib, s: Values)
    requires Grows(m.data, |m.data|) && k < |m.data|
    requires ValueIs(m.data[k].root, v, lib, s) && DerivIs(m.data[k].root, d, p, lib, s)
    requires one in s && s[one] == One && p != one
    requires lib.exp(Fin(-v)) == Fin(e) && e >= 0.0
    ensures var r := Activation(SigmoidStep(one), m).0;
      && k < |r.data|
      && CellValue(r.data[k], lib, s) == Ok(Fin(Logistic(e)))
      && CellDeriv(r.data[k], p, lib, s) == Ok(Fin(Logistic(e) * (1.0 - Logistic(e)) * d))
  {
    ActivationCells(SigmoidStep(one), m, k);
    SigmoidRule(m.data[k].root, one, v, d, e, p, lib, s);
  }

  /**
   * TanH on a cell whose root has value v and derivative d: the cell's value is
   * Math.tanh(v) and its derivative d / cosh(v)², the chain rule for tanh.
   */
  lemma TanhCell(m: Grid, k: nat, v: Num, d: Num, p: Id, lib: MathLib, s: Values)
    requires Grows(m.data, |m.data|) && k < |m.data|
    requires Value(m.data[k].root, lib, s) == Some(v) && Deriv(m.data[k].root, p, lib, s) == Some(d)
    ensures var r := Activation(TanhStep, m).0;
      && k < |r.data|
      && CellValue(r.data[k], lib, s) == Ok(lib.tanh(v))
      && CellDeriv(r.data[k], p, lib, s) == Ok(Over(d, Power(lib, lib.cosh(v), Two)))
  {
    ActivationCells(TanhStep, m, k);
    ValueDefined(m.data[k].root, lib, s);
    ValueDefined(Expr.Tanh(m.data[k].root), lib, s);
  }

  /** ReLu / LeakyReLu on a cell whose root has value v: max(v, 0), or v when v >= 0 and factor · v otherwise. */
  lemma RectifiedCell(m: Grid, factor: Num, k: nat, v: Num, lib: MathLib, s: Values)
    requires Grows(m.data, |m.data|) && k < |m.data|
    requires Value(m.data[k].root, lib, s) == Some(v)
    ensures k < |Activation(ReLuStep, m).0.data| && k < |Activation(LeakyReLuStep(factor), m).0.data|
    ensures CellValue(Activation(ReLuStep, m).0.data[k], lib, s) == Ok(if AtLeast(v, Zero) then v else Zero)
    ensures CellValue(Activation(LeakyReLuStep(factor), m).0.data[k], lib, s) == Ok(if AtLeast(v, Zero) then v else Times(factor, v))
  {
    ActivationCells(ReLuStep, m, k);
    ActivationCells(LeakyReLuStep(factor), m, k);
    ValueDefined(m.data[k].root, lib, s);
    ValueDefined(Expr.ReLu(m.data[k].root), lib, s);
    ValueDefined(Expr.LeakyReLu(m.data[k].root, factor), lib, s);
  }

  /*
   * MatrixProduct
   */

  predicate Builders(m: Grid) {
    forall k | 0 <= k < |m.data| :: m.data[k].Builder?
  }

  /** The operand matrix as the expressions its cells stand for. */
  function Operands(a: Grid): (r: Mat<Expr>)
    requires Convertible(a)
    ensures r.rows == a.rows && r.cols == a.cols && |r.data| == |a.data|
    ensures forall k | 0 <= k < |a.data| :: r.data[k] == OperandOf(a.data[k]).value
  {
    Mat(a.rows, a.cols, seq(|a.data|, k requires 0 <= k < |a.data| => OperandOf(a.data[k]).value))
  }

  /** `inner.get(j, k).getFunction()`: the root of cell (j, k). */
  function RootAt(m: Grid, j: nat, k: nat): Expr
    requires Fits(m) && Builders(m) && j < m.rows && k < m.cols
  {
    CellFits(j, k, m.rows, m.cols);
    m.data[j * m.cols + k].root
  }

  /** `trans.get(i, k)` */
  function ExprAt(t: Mat<Expr>, i: nat, k: nat): Expr
    requires Fits(t) && i < t.rows && k < t.cols
  {
    CellFits(i, k, t.rows, t.cols);
    t.data[i * t.cols + k]
  }

  /**
   * The root built for row j and column i of the product after n terms: a
   * builder starting at ZERO that adds `root(j, k) · trans(i, k)` for k = 0, 1, ...
   */
  function DotRoot(m: Grid, t: Mat<Expr>, zero: Id, j: nat, i: nat, n: nat): Expr
    requires Fits(m) && Builders(m) && Fits(t) && j < m.rows && i < t.rows && n <= m.cols == t.cols
  {
    if n == 0 then Leaf(zero)
    else Expr.Add(Expr.Multiply(RootAt(m, j, n - 1), ExprAt(t, i, n - 1)), DotRoot(m, t, zero, j, i, n - 1))
  }

  /** newdata, as rows: row i holds one sum per row j of the grid. */
  function ProductRows(m: Grid, t: Mat<Expr>, zero: Id): (r: seq<seq<Cell>>)
    requires Fits(m) && Builders(m) && Fits(t) && m.cols == t.cols
    ensures |r| == t.rows && Uniform(r, m.rows)
    ensures forall i, j | 0 <= i < t.rows && 0 <= j < m.rows :: r[i][j] == Builder(DotRoot(m, t, zero, j, i, m.cols))
  {
    seq(t.rows, i requires 0 <= i < t.rows =>
      seq(m.rows, j requires 0 <= j < m.rows => Builder(DotRoot(m, t, zero, j, i, m.cols))))
  }

  /** The transposed operand, as the loop reads it with trans.get(i, k). */
  function TransposedOperands(a: Grid): (t: Mat<Expr>)
    requires Fits(a) && Convertible(a)
    ensures Fits(t) && t.rows == a.cols && t.cols == a.rows
  {
    TransposedFits(Operands(a));
    Transposed(Operands(a))
  }

  /** The new function before its final transposition: a.cols rows of one sum per row of the grid. */
  function ProductLayout(m: Grid, a: Grid, zero: Id): (p: Grid)
    requires Fits(m) && Fits(a) && Convertible(a) && Builders(m) && m.cols == a.rows
    ensures Fits(p) && p.rows == a.cols && p.cols == m.rows
  {
    var rows := ProductRows(m, TransposedOperands(a), zero);
    ConcatLength(rows, m.rows);
    Mat(a.cols, m.rows, Concat(rows))
  }

  /** Cell (i, j) of the layout is the sum for row j and column i. */
  lemma ProductLayoutAt(m: Grid, a: Grid, zero: Id, i: nat, j: nat)
    requires Fits(m) && Fits(a) && Convertible(a) && Builders(m) && m.cols == a.rows
    requires i < a.cols && j < m.rows
    ensures i * m.rows + j < |ProductLayout(m, a, zero).data|
    ensures ProductLayout(m, a, zero).data[i * m.rows + j] == Builder(DotRoot(m, TransposedOperands(a), zero, j, i, m.cols))
  {
    ConcatAt(ProductRows(m, TransposedOperands(a), zero), m.rows, i, j);
  }

  /**
   * MatrixProduct(a): the column count must equal a's row count (Undefined
   * otherwise); transposing a fails on an empty a; the grid's cells must be
   * builders; the sums are laid out a.cols × rows and transposed, which fails
   * (after the grid was replaced) when the grid has no rows.
   */
  function MatrixProductOf(m: Grid, a: Option<Grid>, zero: Id): (Grid, Outcome)
    requires Fits(m) && (a.Some? ==> Fits(a.value))
  {
    if a.None? || m.cols != a.value.rows then (m, Fail(Undefined))
    else if a.value.rows == 0 || a.value.cols == 0 || !Convertible(a.value) || !Builders(m) then (m, Fail(TypeError))
    else
      var p := ProductLayout(m, a.value, zero);
      if m.rows == 0 then (p, Fail(TypeError)) else (Transposed(p), Pass)
  }

  /** Σ_{k < n} xr[k] · yc[k], the terms added in index order. */
  function DotSum(xr: seq<real>, yc: seq<real>, n: nat): real
    requires n <= |xr| && n <= |yc|
  {
    if n == 0 then 0.0 else Product(xr[n - 1], yc[n - 1]) + DotSum(xr, yc, n - 1)
  }

  function RowOf(xs: Mat<real>, j: nat): (r: seq<real>)
    requires Fits(xs) && j < xs.rows
    ensures |r| == xs.cols
  {
    seq(xs.cols, k requires 0 <= k < xs.cols => CellFits(j, k, xs.rows, xs.cols); xs.data[j * xs.cols + k])
  }

  function ColOf(ys: Mat<real>, i: nat): (r: seq<real>)
    requires Fits(ys) && i < ys.cols
    ensures |r| == ys.rows
  {
    seq(ys.rows, k requires 0 <= k < ys.rows => CellFits(k, i, ys.rows, ys.cols); ys.data[k * ys.cols + i])
  }

  function RealRows(xs: Mat<real>, ys: Mat<real>): (r: seq<seq<real>>)
    requires Fits(xs) && Fits(ys) && xs.cols == ys.rows
    ensures |r| == xs.rows && Uniform(r, ys.cols)
    ensures forall j, i | 0 <= j < xs.rows && 0 <= i < ys.cols :: r[j][i] == DotSum(RowOf(xs, j), ColOf(ys, i), xs.cols)
  {
    seq(xs.rows, j requires 0 <= j < xs.rows =>
      seq(ys.cols, i requires 0 <= i < ys.cols => DotSum(RowOf(xs, j), ColOf(ys, i), xs.cols)))
  }

  /** The matrix product of two real matrices, row-major. */
  function RealProduct(xs: Mat<real>, ys: Mat<real>): (r: Mat<real>)
    requires Fits(xs) && Fits(ys) && xs.cols == ys.rows
    ensures Fits(r) && r.rows == xs.rows && r.cols == ys.cols
  {
    ConcatLength(RealRows(xs, ys), ys.cols);
    Mat(xs.rows, ys.cols, Concat(RealRows(xs, ys)))
  }

  /** Cell (j, i) of the product is row j of xs dotted with column i of ys. */
  lemma RealProductAt(xs: Mat<real>, ys: Mat<real>, j: nat, i: nat)
    requires Fits(xs) && Fits(ys) && xs.cols == ys.rows && j < xs.rows && i < ys.cols
    ensures j * ys.cols + i < |RealProduct(xs, ys).data|
    ensures RealProduct(xs, ys).data[j * ys.cols + i] == DotSum(RowOf(xs, j), ColOf(ys, i), xs.cols)
  {
    ConcatAt(RealRows(xs, ys), ys.cols, j, i);
  }

  /** The grid's cells are builders whose roots have the values xs. */
  ghost predicate Holds(m: Grid, xs: Mat<real>, lib: MathLib, s: Values) {
    && m.rows == xs.rows && m.cols == xs.cols && |m.data| == |xs.data| && Builders(m)
    && forall k | 0 <= k < |m.data| :: ValueIs(m.data[k].root, xs.data[k], lib, s)
  }

  /** The operand's cells stand for expressions with the values ys. */
  ghost predicate OperandsHold(a: Grid, ys: Mat<real>, lib: MathLib, s: Values) {
    && a.rows == ys.rows && a.cols == ys.cols && |a.data| == |ys.data| && Convertible(a)
    && forall k | 0 <= k < |a.data| :: ValueIs(OperandOf(a.data[k]).value, ys.data[k], lib, s)
  }

  /** After n terms the sum's value is the dot product of the first n terms, ZERO holding 0. */
  lemma {:induction false} DotValue(m: Grid, t: Mat<Expr>, zero: Id, j: nat, i: nat, n: nat,
                                    xr: seq<real>, yc: seq<real>, lib: MathLib, s: Values)
    requires Fits(m) && Builders(m) && Fits(t) && j < m.rows && i < t.rows && n <= m.cols == t.cols
    requires |xr| == m.cols && |yc| == m.cols && zero in s && s[zero] == Zero
    requires forall k | 0 <= k < m.cols :: ValueIs(RootAt(m, j, k), xr[k], lib, s) && ValueIs(ExprAt(t, i, k), yc[k], lib, s)
    ensures ValueIs(DotRoot(m, t, zero, j, i, n), DotSum(xr, yc, n), lib, s)
  {
    if n > 0 {
      DotValue(m, t, zero, j, i, n - 1, xr, yc, lib, s);
      var a, b := RootAt(m, j, n - 1), ExprAt(t, i, n - 1);
      var z := Product(xr[n - 1], yc[n - 1]);
      MultiplyValue(a, b, xr[n - 1], yc[n - 1], z, lib, s);
      AddValue(Expr.Multiply(a, b), DotRoot(m, t, zero, j, i, n - 1), z, DotSum(xr, yc, n - 1), lib, s);
    }
  }

  /** The terms of cell (j, i): row j of the grid's values and column i of the operand's, read through the transposition. */
  lemma ProductTerms(m: Grid, a: Grid, xs: Mat<real>, ys: Mat<real>, j: nat, i: nat, lib: MathLib, s: Values)
    requires Fits(m) && Fits(a) && Holds(m, xs, lib, s) && OperandsHold(a, ys, lib, s)
    requires m.cols == a.rows && j < m.rows && i < a.cols
    ensures Fits(xs) && Fits(ys)
    ensures forall k | 0 <= k < m.cols ::
      && ValueIs(RootAt(m, j, k), RowOf(xs, j)[k], lib, s)
      && ValueIs(ExprAt(TransposedOperands(a), i, k), ColOf(ys, i)[k], lib, s)
  {
    var ops := Operands(a);
    forall k | 0 <= k < m.cols
      ensures ValueIs(RootAt(m, j, k), RowOf(xs, j)[k], lib, s)
      ensures ValueIs(ExprAt(TransposedOperands(a), i, k), ColOf(ys, i)[k], lib, s)
    {
      CellFits(j, k, m.rows, m.cols);
      TransposedAt(ops, i, k);
    }
  }

  /** Cell (j, i) of the transposed layout is the sum for row j and column i, with its value. */
  lemma ProductCell(m: Grid, a: Grid, zero: Id, xs: Mat<real>, ys: Mat<real>, j: nat, i: nat, lib: MathLib, s: Values)
    requires Fits(m) && Fits(a) && Holds(m, xs, lib, s) && OperandsHold(a, ys, lib, s)
    requires m.cols == a.rows && j < m.rows && i < a.cols && zero in s && s[zero] == Zero
    requires Fits(xs) && Fits(ys)
    ensures j * a.cols + i < |RealProduct(xs, ys).data|
    ensures j * a.cols + i < |Transposed(ProductLayout(m, a, zero)).data|
    ensures Transposed(ProductLayout(m, a, zero)).data[j * a.cols + i].Builder?
    ensures ValueIs(Transposed(ProductLayout(m, a, zero)).data[j * a.cols + i].root, RealProduct(xs, ys).data[j * a.cols + i], lib, s)
  {
    var p := ProductLayout(m, a, zero);
    TransposedAt(p, j, i);
    CellFits(j, i, m.rows, a.cols);
    assert |Transposed(p).data| == m.rows * a.cols;
    ProductLayoutAt(m, a, zero, i, j);
    var root := DotRoot(m, TransposedOperands(a), zero, j, i, m.cols);
    assert Transposed(p).data[j * a.cols + i] == Builder(root);
    ProductTerms(m, a, xs, ys, j, i, lib, s);
    DotValue(m, TransposedOperands(a), zero, j, i, m.cols, RowOf(xs, j), ColOf(ys, i), lib, s);
    RealProductAt(xs, ys, j, i);
  }

  /**
   * When every cell of the grid and of the operand has a finite value, the
   * product succeeds and cell (j, i) evaluates to Σ_k grid(j, k) · a(k, i).
   */
  /** Cell k of g has the value of cell k of the real product xs · ys. */
  ghost predicate ProductCellIs(g: Grid, xs: Mat<real>, ys: Mat<real>, k: nat, lib: MathLib, s: Values) {
    && Fits(xs) && Fits(ys) && xs.cols == ys.rows
    && k < |g.data| && k < |RealProduct(xs, ys).data|
    && CellValue(g.data[k], lib, s) == Ok(Fin(RealProduct(xs, ys).data[k]))
  }

  lemma ProductValue(m: Grid, a: Grid, zero: Id, xs: Mat<real>, ys: Mat<real>, j: nat, i: nat, lib: MathLib, s: Values)
    requires Fits(m) && Fits(a) && Holds(m, xs, lib, s) && OperandsHold(a, ys, lib, s)
    requires m.cols == a.rows && a.rows > 0 && a.cols > 0 && j < m.rows
    requires i < a.cols && zero in s && s[zero] == Zero && Fits(xs) && Fits(ys)
    ensures MatrixProductOf(m, Some(a), zero).1 == Pass
    ensures var g := MatrixProductOf(m, Some(a), zero).0;
      && Fits(g) && g.rows == m.rows && g.cols == a.cols && ProductCellIs(g, xs, ys, j * a.cols + i, lib, s)
  {
    var p := ProductLayout(m, a, zero);
    assert MatrixProductOf(m, Some(a), zero) == (Transposed(p), Pass);
    TransposedFits(p);
    CellFits(j, i, m.rows, a.cols);
    ProductCell(m, a, zero, xs, ys, j, i, lib, s);
    CellValueMeaning(Transposed(p).data[j * a.cols + i], lib, s);
  }

  /** [[1, 2, 3], [4, 5, 6]] · [[7, 8], [9, 10], [11, 12]] = [[58, 64], [139, 154]]. */
  lemma RealProductExample()
    ensures RealProduct(Mat(2, 3, [1.0, 2.0, 3.0, 4.0, 5.0, 6.0]), Mat(3, 2, [7.0, 8.0, 9.0, 10.0, 11.0, 12.0])).data
      == [58.0, 64.0, 139.0, 154.0]
  {
    var xs, ys := Mat(2, 3, [1.0, 2.0, 3.0, 4.0, 5.0, 6.0]), Mat(3, 2, [7.0, 8.0, 9.0, 10.0, 11.0, 12.0]);
    assert RowOf(xs, 0) == [1.0, 2.0, 3.0] && RowOf(xs, 1) == [4.0, 5.0, 6.0];
    assert ColOf(ys, 0) == [7.0, 9.0, 11.0] && ColOf(ys, 1) == [8.0, 10.0, 12.0];
    var r := RealProduct(xs, ys);
    assert r.data[0] == DotSum([1.0, 2.0, 3.0], [7.0, 9.0, 11.0], 3) == 58.0;
    assert r.data[1] == DotSum([1.0, 2.0, 3.0], [8.0, 10.0, 12.0], 3) == 64.0;
    assert r.data[2] == DotSum([4.0, 5.0, 6.0], [7.0, 9.0, 11.0], 3) == 139.0;
    assert r.data[3] == DotSum([4.0, 5.0, 6.0], [8.0, 10.0, 12.0], 3) == 154.0;
  }

  /** The example product on grids: cells with the values 1 … 6 times operands with the values 7 … 12. */
  lemma ProductExample(m: Grid, a: Grid, zero: Id, lib: MathLib, s: Values)
    requires Fits(m) && Fits(a) && zero in s && s[zero] == Zero
    requires Holds(m, Mat(2, 3, [1.0, 2.0, 3.0, 4.0, 5.0, 6.0]), lib, s)
    requires OperandsHold(a, Mat(3, 2, [7.0, 8.0, 9.0, 10.0, 11.0, 12.0]), lib, s)
    ensures MatrixProductOf(m, Some(a), zero).1 == Pass
    ensures var g := MatrixProductOf(m, Some(a), zero).0;
      && g.rows == 2 && g.cols == 2 && |g.data| == 4
      && CellValue(g.data[0], lib, s) == Ok(Fin(58.0)) && CellValue(g.data[1], lib, s) == Ok(Fin(64.0))
      && CellValue(g.data[2], lib, s) == Ok(Fin(139.0)) && CellValue(g.data[3], lib, s) == Ok(Fin(154.0))
  {
    var xs, ys := Mat(2, 3, [1.0, 2.0, 3.0, 4.0, 5.0, 6.0]), Mat(3, 2, [7.0, 8.0, 9.0, 10.0, 11.0, 12.0]);
    RealProductExample();
    ProductValue(m, a, zero, xs, ys, 0, 0, lib, s);
    ProductValue(m, a, zero, xs, ys, 0, 1, lib, s);
    ProductValue(m, a, zero, xs, ys, 1, 0, lib, s);
    ProductValue(m, a, zero, xs, ys, 1, 1, lib, s);
  }

  /*
   * addPadding
   */

  /** Row i of the grid, as twoDimensionalArray gives it. */
  function Line<T>(m: Mat<T>, i: nat): (r: seq<T>)
    requires Fits(m) && i < m.rows
    ensures |r| == m.cols
  {
    RowFits(i, m.rows, m.cols);
    m.data[i * m.cols..i * m.cols + m.cols]
  }

  function Lines<T>(m: Mat<T>): (r: seq<seq<T>>)
    requires Fits(m)
    ensures |r| == m.rows && Uniform(r, m.cols)
    ensures forall i | 0 <= i < m.rows :: r[i] == Line(m, i)
  {
    seq(m.rows, i requires 0 <= i < m.rows => Line(m, i))
  }

  /** initArray(n, zero): n bare ZERO ids. */
  function Zeros(n: nat, zero: Id): (r: seq<Cell>)
    ensures |r| == n && forall k | 0 <= k < n :: r[k] == Ref(zero)
  {
    seq(n, k requires 0 <= k < n => Ref(zero))
  }

  /** Row r of the padded grid before its ends are padded: a row of zeros above and below the grid. */
  function Unpadded(m: Grid, pr: nat, zero: Id, r: nat): (row: seq<Cell>)
    requires Fits(m) && r < m.rows + 2 * pr
    ensures |row| == m.cols
  {
    if r < pr || r >= pr + m.rows then Zeros(m.cols, zero) else Line(m, r - pr)
  }

  function PaddedRow(m: Grid, pr: nat, pc: nat, zero: Id, r: nat): (row: seq<Cell>)
    requires Fits(m) && r < m.rows + 2 * pr
    ensures |row| == m.cols + 2 * pc
  {
    Zeros(pc, zero) + Unpadded(m, pr, zero, r) + Zeros(pc, zero)
  }

  function PaddedRows(m: Grid, pr: nat, pc: nat, zero: Id): (rows: seq<seq<Cell>>)
    requires Fits(m)
    ensures |rows| == m.rows + 2 * pr && Uniform(rows, m.cols + 2 * pc)
    ensures forall r | 0 <= r < |rows| :: rows[r] == PaddedRow(m, pr, pc, zero, r)
  {
    seq(m.rows + 2 * pr, r requires 0 <= r < m.rows + 2 * pr => PaddedRow(m, pr, pc, zero, r))
  }

  /** The grid with pr rows of ZERO above and below and pc cells of ZERO left and right of every row. */
  function Padded(m: Grid, pr: nat, pc: nat, zero: Id): (r: Grid)
    requires Fits(m)
    ensures Fits(r) && r.rows == m.rows + 2 * pr && r.cols == m.cols + 2 * pc
  {
    ConcatLength(PaddedRows(m, pr, pc, zero), m.cols + 2 * pc);
    Mat(m.rows + 2 * pr, m.cols + 2 * pc, Concat(PaddedRows(m, pr, pc, zero)))
  }

  /** addPadding(paddingR, paddingC): paddingC defaults to paddingR; a grid without cells has no rows to spread (a TypeError). */
  function PaddingOf(m: Grid, paddingR: nat, paddingC: Option<nat>, zero: Id): (r: Result<Grid>)
    requires Fits(m)
  {
    if m.rows == 0 || m.cols == 0 then Err(TypeError)
    else Ok(Padded(m, paddingR, if paddingC.Some? then paddingC.value else paddingR, zero))
  }

  /**
   * Cell (r, c) of the padded grid is the original cell (r - pr, c - pc) inside
   * the frame and the bare ZERO id on the border.
   */
  lemma PaddedCell(m: Grid, pr: nat, pc: nat, zero: Id, r: nat, c: nat)
    requires Fits(m) && r < m.rows + 2 * pr && c < m.cols + 2 * pc
    ensures pr <= r < pr + m.rows && pc <= c < pc + m.cols ==>
      At(m, r - pr, c - pc).Some? && At(Padded(m, pr, pc, zero), r, c) == At(m, r - pr, c - pc)
    ensures !(pr <= r < pr + m.rows && pc <= c < pc + m.cols) ==> At(Padded(m, pr, pc, zero), r, c) == Some(Ref(zero))
  {
    var w := m.cols + 2 * pc;
    var rows := PaddedRows(m, pr, pc, zero);
    ConcatAt(rows, w, r, c);
    assert At(Padded(m, pr, pc, zero), r, c) == Some(rows[r][c]);
    PaddedRowAt(m, pr, pc, zero, r, c);
  }

  /** Cell c of padded row r: the original cell inside the frame, ZERO on the border. */
  lemma PaddedRowAt(m: Grid, pr: nat, pc: nat, zero: Id, r: nat, c: nat)
    requires Fits(m) && r < m.rows + 2 * pr && c < m.cols + 2 * pc
    ensures pr <= r < pr + m.rows && pc <= c < pc + m.cols ==>
      At(m, r - pr, c - pc).Some? && Some(PaddedRow(m, pr, pc, zero, r)[c]) == At(m, r - pr, c - pc)
    ensures !(pr <= r < pr + m.rows && pc <= c < pc + m.cols) ==> PaddedRow(m, pr, pc, zero, r)[c] == Ref(zero)
  {
    var row := PaddedRow(m, pr, pc, zero, r);
    if pc <= c < pc + m.cols {
      assert row[c] == Unpadded(m, pr, zero, r)[c - pc];
      if pr <= r < pr + m.rows {
        var i, j := r - pr, c - pc;
        AtInside(m, i, j);
        RowFits(i, m.rows, m.cols);
        assert Line(m, i)[j] == m.data[i * m.cols + j];
      }
    } else {
      assert row[c] == Ref(zero);
    }
  }

  /** The padding defaults: addPadding(p) pads rows and columns alike, and succeeds on every grid with cells. */
  lemma PaddingDefault(m: Grid, p: nat, zero: Id)
    requires Fits(m)
    ensures PaddingOf(m, p, None, zero) == PaddingOf(m, p, Some(p), zero)
    ensures PaddingOf(m, p, None, zero).Ok? <==> m.rows > 0 && m.cols > 0
  {
  }

  /*
   * getPart, vec
   */

  /** A cell read by getPart: undefined where get finds none. */
  function Found(c: Option<Cell>): Cell {
    if c.Some? then c.value else Missing
  }

  /** getPart(row, col, height, width) on the grid. */
  function GridPart(m: Grid, row: nat, col: nat, height: nat, width: nat): (r: Grid)
    ensures Fits(r) && r.rows == height && r.cols == width
  {
    var part := Part(m, row, col, height, width);
    PartFits(m, row, col, height, width);
    Mat(height, width, seq(|part.data|, k requires 0 <= k < |part.data| => Found(part.data[k])))
  }

  /** Cell (i, j) of the part is get(row + i, col + j) of the grid, or undefined. */
  lemma GridPartAt(m: Grid, row: nat, col: nat, height: nat, width: nat, i: nat, j: nat)
    requires i < height && j < width
    ensures i * width + j < |GridPart(m, row, col, height, width).data|
    ensures GridPart(m, row, col, height, width).data[i * width + j] == Found(At(m, row + i, col + j))
  {
    PartAt(m, row, col, height, width, i, j);
    CellFits(i, j, height, width);
    var part := Part(m, row, col, height, width);
    assert |part.data| == height * width;
    assert GridPart(m, row, col, height, width).data[i * width + j] == Found(part.data[i * width + j]);
  }

  /** vec(): the same cells as a (rows · cols) × 1 column. */
  function Vec(m: Grid): (r: Grid)
    requires Fits(m)
    ensures Fits(r) && r.cols == 1 && r.data == m.data
    ensures forall k | 0 <= k < |m.data| :: At(r, k, 0) == Some(m.data[k])
  {
    Mat(m.cols * m.rows, 1, m.data)
  }

  /*
   * maxPooling
   */

  /** ⌈n / 2⌉, written as the source writes it. */
  function Halves(n: nat): (r: nat)
    ensures 2 * r == n || 2 * r == n + 1
  {
    n / 2 + (if n % 2 == 0 then 0 else 1)
  }

  /**
   * How a window cell is read: by the flat index row · cols + col, as get does
   * (so a column past the last reads the next row), or clipped to the grid.
   */
  datatype Reading = FlatIndex | Clipped

  /** The operand for window cell (r, c): undefined becomes −∞ (a builder on the NEGATIVEINFINITY cell), a builder gives its root. */
  function Pooled(m: Grid, r: nat, c: nat, neg: Id, reading: Reading): Result<Expr> {
    var cell := if reading == Clipped && (r >= m.rows || c >= m.cols) then None else At(m, r, c);
    if cell.None? then Ok(Leaf(neg))
    else if cell.value.Builder? then Ok(cell.value.root)
    else Err(TypeError)
  }

  /**
   * The root of pooled cell (i, j): the top-left cell must be a builder (its
   * br() starts the sum), then max with −∞ and the four window cells in order.
   */
  function PoolRoot(m: Grid, i: nat, j: nat, neg: Id, reading: Reading): Result<Expr> {
    var r, c := 2 * i, 2 * j;
    var o00, o01, o10, o11 := Pooled(m, r, c, neg, reading), Pooled(m, r, c + 1, neg, reading),
      Pooled(m, r + 1, c, neg, reading), Pooled(m, r + 1, c + 1, neg, reading);
    var first := At(m, r, c);
    if first.None? || !first.value.Builder? || o00.Err? || o01.Err? || o10.Err? || o11.Err? then Err(TypeError)
    else Ok(Max(Max(Max(Max(Leaf(neg), o00.value), o01.value), o10.value), o11.value))
  }

  function PoolRows(m: Grid, neg: Id, reading: Reading): (r: seq<seq<Cell>>)
    requires forall i, j | 0 <= i < Halves(m.rows) && 0 <= j < Halves(m.cols) :: PoolRoot(m, i, j, neg, reading).Ok?
    ensures |r| == Halves(m.rows) && Uniform(r, Halves(m.cols))
    ensures forall i, j | 0 <= i < Halves(m.rows) && 0 <= j < Halves(m.cols) :: r[i][j] == Builder(PoolRoot(m, i, j, neg, reading).value)
  {
    seq(Halves(m.rows), i requires 0 <= i < Halves(m.rows) =>
      seq(Halves(m.cols), j requires 0 <= j < Halves(m.cols) => Builder(PoolRoot(m, i, j, neg, reading).value)))
  }

  /** maxPooling(): ⌈rows/2⌉ × ⌈cols/2⌉ builders, or the TypeError of the first window that cannot be read. */
  function PoolingOf(m: Grid, neg: Id, reading: Reading): (r: Result<Grid>)
    ensures r.Ok? ==> Fits(r.value) && r.value.rows == Halves(m.rows) && r.value.cols == Halves(m.cols)
  {
    if exists i, j | 0 <= i < Halves(m.rows) && 0 <= j < Halves(m.cols) :: PoolRoot(m, i, j, neg, reading).Err? then Err(TypeError)
    else
      ConcatLength(PoolRows(m, neg, reading), Halves(m.cols));
      Ok(Mat(Halves(m.rows), Halves(m.cols), Concat(PoolRows(m, neg, reading))))
  }

  /** `func.max(...)` keeps the old value only when it is strictly greater. */
  function Larger(b: Num, a: Num): Num {
    if Greater(b, a) then b else a
  }

  /** Pooled cell (i, j) of a successful pooling is the builder of its window's root. */
  lemma PoolingAt(m: Grid, neg: Id, reading: Reading, i: nat, j: nat)
    requires PoolingOf(m, neg, reading).Ok? && i < Halves(m.rows) && j < Halves(m.cols)
    ensures PoolRoot(m, i, j, neg, reading).Ok?
    ensures i * Halves(m.cols) + j < |PoolingOf(m, neg, reading).value.data|
    ensures PoolingOf(m, neg, reading).value.data[i * Halves(m.cols) + j] == Builder(PoolRoot(m, i, j, neg, reading).value)
  {
    ConcatAt(PoolRows(m, neg, reading), Halves(m.cols), i, j);
  }

  /**
   * The value of a window's root, given the values of its four operands:
   * max(max(max(max(−∞, v00), v01), v10), v11).
   */
  lemma PoolValue(m: Grid, i: nat, j: nat, neg: Id, reading: Reading, lib: MathLib, s: Values, v: seq<Num>)
    requires PoolRoot(m, i, j, neg, reading).Ok? && neg in s && s[neg] == NegInf && |v| == 4
    requires Value(Pooled(m, 2 * i, 2 * j, neg, reading).value, lib, s) == Some(v[0])
    requires Value(Pooled(m, 2 * i, 2 * j + 1, neg, reading).value, lib, s) == Some(v[1])
    requires Value(Pooled(m, 2 * i + 1, 2 * j, neg, reading).value, lib, s) == Some(v[2])
    requires Value(Pooled(m, 2 * i + 1, 2 * j + 1, neg, reading).value, lib, s) == Some(v[3])
    ensures Value(PoolRoot(m, i, j, neg, reading).value, lib, s) == Some(Larger(Larger(Larger(Larger(NegInf, v[0]), v[1]), v[2]), v[3]))
  {
    var o00, o01 := Pooled(m, 2 * i, 2 * j, neg, reading).value, Pooled(m, 2 * i, 2 * j + 1, neg, reading).value;
    var o10, o11 := Pooled(m, 2 * i + 1, 2 * j, neg, reading).value, Pooled(m, 2 * i + 1, 2 * j + 1, neg, reading).value;
    var e1 := Max(Leaf(neg), o00);
    var e2 := Max(e1, o01);
    var e3 := Max(e2, o10);
    assert Value(Leaf(neg), lib, s) == Some(NegInf);
    assert NodeValue(e1, lib, s) == Some(Larger(NegInf, v[0]));
    assert NodeValue(e2, lib, s) == Some(Larger(Larger(NegInf, v[0]), v[1]));
    assert NodeValue(e3, lib, s) == Some(Larger(Larger(Larger(NegInf, v[0]), v[1]), v[2]));
    assert NodeValue(Max(e3, o11), lib, s) == Some(Larger(Larger(Larger(Larger(NegInf, v[0]), v[1]), v[2]), v[3]));
  }

  /**
   * With an odd number of columns the last window of each row reaches one
   * column past the grid, and get reads that place as the first cell of the
   * next row: the window of rows 2i, 2i + 1 takes cell (2i + 1, 0) into its max.
   */
  lemma PoolingWraps(m: Grid, i: nat, neg: Id)
    requires Fits(m) && m.cols % 2 == 1 && 2 * i + 1 < m.rows
    ensures var j := m.cols / 2;
      && j < Halves(m.cols) && 2 * j + 1 == m.cols
      && Pooled(m, 2 * i, 2 * j + 1, neg, FlatIndex) == Pooled(m, 2 * i + 1, 0, neg, FlatIndex)
      && Pooled(m, 2 * i, 2 * j + 1, neg, Clipped) == Ok(Leaf(neg))
  {
    AtWraps(m, 2 * i, m.cols);
  }

  /**
   * A concrete case: the 2 × 3 grid [[0, 0, 0], [9, 0, 0]] of builders.  As
   * written, the right window of the pooled grid is 9, though every cell of
   * that window inside the grid is 0; the clipped reading gives 0.
   */
  lemma PoolingWrapsExample(lib: MathLib)
    ensures var ids := ["a", "b", "c", "d", "e", "f"];
      var m := Mat(2, 3, seq(6, k requires 0 <= k < 6 => Builder(Leaf(ids[k]))));
      var s := map["a" := Zero, "b" := Zero, "c" := Zero, "d" := Fin(9.0), "e" := Zero, "f" := Zero, "n" := NegInf];
      && PoolRoot(m, 0, 1, "n", FlatIndex).Ok? && PoolRoot(m, 0, 1, "n", Clipped).Ok?
      && Value(m.data[2].root, lib, s) == Some(Zero) && Value(m.data[5].root, lib, s) == Some(Zero)
      && Value(PoolRoot(m, 0, 1, "n", FlatIndex).value, lib, s) == Some(Fin(9.0))
      && Value(PoolRoot(m, 0, 1, "n", Clipped).value, lib, s) == Some(Zero)
  {
    var ids := ["a", "b", "c", "d", "e", "f"];
    var m := Mat(2, 3, seq(6, k requires 0 <= k < 6 => Builder(Leaf(ids[k]))));
    var s := map["a" := Zero, "b" := Zero, "c" := Zero, "d" := Fin(9.0), "e" := Zero, "f" := Zero, "n" := NegInf];
    PoolValue(m, 0, 1, "n", FlatIndex, lib, s, [Zero, Fin(9.0), Zero, NegInf]);
    PoolValue(m, 0, 1, "n", Clipped, lib, s, [Zero, NegInf, Zero, NegInf]);
  }

  /** Place (r, c) of the grid holds a builder whose root has value x. */
  predicate HoldsValue(m: Grid, r: nat, c: nat, x: Num, lib: MathLib, s: Values) {
    var cell := At(m, r, c);
    cell.Some? && cell.value.Builder? && Value(cell.value.root, lib, s) == Some(x)
  }

  /**
   * With the clipped reading, a pooled cell is the maximum of the cells of its
   * window that lie inside the grid: one of them, and at least each of them.
   */
  lemma ClippedMaximum(m: Grid, i: nat, j: nat, neg: Id, lib: MathLib, s: Values, v: seq<Num>)
    requires i < Halves(m.rows) && j < Halves(m.cols) && |v| == 4
    requires PoolRoot(m, i, j, neg, Clipped).Ok? && neg in s && s[neg] == NegInf
    requires forall k | 0 <= k < 4 && 2 * i + k / 2 < m.rows && 2 * j + k % 2 < m.cols ::
      v[k].Fin? && HoldsValue(m, 2 * i + k / 2, 2 * j + k % 2, v[k], lib, s)
    ensures var x := Value(PoolRoot(m, i, j, neg, Clipped).value, lib, s);
      && x.Some?
      && (exists k | 0 <= k < 4 && 2 * i + k / 2 < m.rows && 2 * j + k % 2 < m.cols :: x.value == v[k])
      && forall k | 0 <= k < 4 && 2 * i + k / 2 < m.rows && 2 * j + k % 2 < m.cols :: AtLeast(x.value, v[k])
  {
    var w := seq(4, k requires 0 <= k < 4 => if 2 * i + k / 2 < m.rows && 2 * j + k % 2 < m.cols then v[k] else NegInf);
    forall k | 0 <= k < 4
      ensures Value(Pooled(m, 2 * i + k / 2, 2 * j + k % 2, neg, Clipped).value, lib, s) == Some(w[k])
    {
    }
    PoolValue(m, i, j, neg, Clipped, lib, s, w);
    LargerFold(w);
    assert w[0] == v[0];
  }

  /**
   * Folding max from −∞ over values that are finite or −∞ gives their maximum:
   * one of them (or −∞), and at least every finite one.
   */
  lemma LargerFold(v: seq<Num>)
    requires |v| == 4 && forall k | 0 <= k < 4 :: v[k].Fin? || v[k].NegInf?
    ensures var r := Larger(Larger(Larger(Larger(NegInf, v[0]), v[1]), v[2]), v[3]);
      && (r.NegInf? || exists k | 0 <= k < 4 :: r == v[k])
      && forall k | 0 <= k < 4 && v[k].Fin? :: AtLeast(r, v[k])
  {
  }
}
