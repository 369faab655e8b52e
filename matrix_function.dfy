/**
 * MatrixFunction: a builder whose root is a grid of cells over one shared store
 * of numbers, with a second store that keeps the reference matrices (matrices
 * of ids of number cells) declared with addMatrix.  Its transformations
 * replace the grid (or change its cell builders one by one), and valueOf,
 * derivative and regression evaluate it cell by cell.
 */
module MatrixFunctions {
  import opened Wrappers
  import opened Numbers
  import opened Store
  import opened Expressions
  import opened FunctionSystems
  import opened Matrices
  import opened MatrixCells
  import opened Arith
  import Misc

  /*
   * The stores, seen as values
   */

  /** The data argument of addMatrix: absent (zeros), one number for every cell, or an array. */
  datatype MatrixData = NoData | Filled(value: Num) | Given(values: seq<Num>)

  /** The numbers addMatrix registers, one per cell. */
  function DataValues(rows: nat, cols: nat, data: MatrixData): (r: seq<Num>)
    ensures data.Given? ==> r == data.values
    ensures !data.Given? ==> |r| == rows * cols
    ensures data.NoData? ==> forall k | 0 <= k < |r| :: r[k] == Zero
    ensures data.Filled? ==> forall k | 0 <= k < |r| :: r[k] == data.value
  {
    match data
    case Given(values) => values
    case Filled(v) => seq(rows * cols, _ => v)
    case NoData => seq(rows * cols, _ => Zero)
  }

  /**
   * `getRefMatrix(id)` where its data is read: a missing id is a TypeError
   * (`.Container` of undefined), and so is a number stored under the id (a
   * number has no `data`).
   */
  function RefMatrix(ms: map<Id, Stored>, id: Id): (r: Result<Mat<Id>>)
    ensures r.Ok? <==> id in ms && ms[id].Record?
    ensures r.Ok? ==> r.value == ms[id].m
    ensures r.Err? ==> r.error == TypeError
  {
    if id !in ms || ms[id].Scalar? then Err(TypeError) else Ok(ms[id].m)
  }

  /** Every id of the list has a cell. */
  predicate AllIn(ids: seq<Id>, s: Values) {
    forall k | 0 <= k < |ids| :: ids[k] in s
  }

  /** The values of the cells the ids name, in order. */
  function Read(ids: seq<Id>, s: Values): (r: seq<Num>)
    requires AllIn(ids, s)
    ensures |r| == |ids| && forall k | 0 <= k < |ids| :: r[k] == s[ids[k]]
  {
    seq(|ids|, k requires 0 <= k < |ids| => s[ids[k]])
  }

  /**
   * getMatrix(id): the numbers behind a reference matrix, as a new Matrix of the
   * same shape; a cell that was removed is a TypeError.
   */
  function MatrixValues(ms: map<Id, Stored>, s: Values, id: Id): Result<Mat<Num>> {
    match RefMatrix(ms, id)
    case Err(e) => Err(e)
    case Ok(m) =>
      if !AllIn(m.data, s) then Err(TypeError)
      else MakeMatrix(m.rows, m.cols, Read(m.data, s))
  }

  /** The writes setMatrix makes: data[i] into the cell of id i; undefined (NaN) past the end of data. */
  function Writes(ids: seq<Id>, data: seq<Num>): (r: seq<Binding>)
    ensures |r| == |ids|
    ensures forall k | 0 <= k < |ids| :: r[k] == Binding(ids[k], if k < |data| then data[k] else NaN)
  {
    seq(|ids|, k requires 0 <= k < |ids| => Binding(ids[k], if k < |data| then data[k] else NaN))
  }

  /**
   * setMatrix(id, data): the writes in order, stopping with a TypeError at the
   * first removed cell (the earlier writes stay).
   */
  function SetMatrixOf(ms: map<Id, Stored>, s: Values, id: Id, data: seq<Num>): (Values, Outcome) {
    match RefMatrix(ms, id)
    case Err(e) => (s, Fail(e))
    case Ok(m) =>
      var ws := Writes(m.data, data);
      (Bound(s, ws), if Present(s, ws) then Pass else Fail(TypeError))
  }

  /** One (matrix id, data) pair of the trailing arguments of valueOf, derivative and regression. */
  datatype MatrixBinding = MatrixBinding(id: Id, data: seq<Num>)

  /** The setMatrix calls of the trailing arguments, in order, stopping at the first that throws. */
  function BindMatrices(ms: map<Id, Stored>, s: Values, mbs: seq<MatrixBinding>): (r: (Values, Outcome))
    ensures r.0.Keys == s.Keys
    decreases |mbs|
  {
    if mbs == [] then (s, Pass)
    else
      var (s1, o) := SetMatrixOf(ms, s, mbs[0].id, mbs[0].data);
      if o.Fail? then (s1, o) else BindMatrices(ms, s1, mbs[1..])
  }

  /** The cells of the matrices under ids. */
  function CellsOf(ms: map<Id, Stored>, ids: set<Id>): set<Id> {
    set id, k | id in ids && id in ms && ms[id].Record? && 0 <= k < |ms[id].m.data| :: ms[id].m.data[k]
  }

  /*
   * startWith and getFunction
   */

  /** startWith: every bare id becomes a new builder whose root is that id; other cells are kept. */
  function Started(g: Grid): (r: Grid)
    ensures r.rows == g.rows && r.cols == g.cols && |r.data| == |g.data|
    ensures forall k | 0 <= k < |g.data| :: r.data[k] == if g.data[k].Ref? then Builder(Leaf(g.data[k].id)) else g.data[k]
  {
    Mat(g.rows, g.cols, seq(|g.data|, k requires 0 <= k < |g.data| =>
      if g.data[k].Ref? then Builder(Leaf(g.data[k].id)) else g.data[k]))
  }

  /** A cell's getFunction(): a builder hands out its root (an id string or a raw node); anything else has no such method. */
  function RootOf(c: Cell): Result<Cell> {
    match c
    case Builder(Leaf(id)) => Ok(Ref(id))
    case Builder(e) => Ok(Node(e))
    case _ => Err(TypeError)
  }

  /** getFunction(): the roots of all cells, in a new matrix of the same shape. */
  function Roots(g: Grid): (r: Result<Grid>)
    ensures r.Ok? <==> forall k | 0 <= k < |g.data| :: RootOf(g.data[k]).Ok?
    ensures r.Ok? ==> r.value.rows == g.rows && r.value.cols == g.cols && |r.value.data| == |g.data|
    ensures r.Ok? ==> forall k | 0 <= k < |g.data| :: r.value.data[k] == RootOf(g.data[k]).value
    ensures r.Err? ==> r.error == TypeError
  {
    if forall k | 0 <= k < |g.data| :: RootOf(g.data[k]).Ok? then
      Ok(Mat(g.rows, g.cols, seq(|g.data|, k requires 0 <= k < |g.data| => RootOf(g.data[k]).value)))
    else Err(TypeError)
  }

  /** getFunction() after startWith gives back what startWith was given, for every grid of bare ids and raw nodes. */
  lemma RootsOfStarted(g: Grid)
    requires forall k | 0 <= k < |g.data| :: g.data[k].Ref?
    ensures Roots(Started(g)) == Ok(g)
  {
    var r := Roots(Started(g));
    assert forall k | 0 <= k < |g.data| :: RootOf(Started(g).data[k]) == Ok(g.data[k]);
    assert r.Ok? && r.value.data == g.data;
  }

  /*
   * valueOf and derivative
   */

  /** What valueOf's first loop puts in data[i]: the number of a bare id, or what the cell's valueOf() answers. */
  function FirstPass(c: Cell, lib: MathLib, s: Values): Result<Reply> {
    match c
    case Ref(id) => if id in s then Ok(Number(s[id])) else Err(TypeError)
    case Builder(e) => Evaluate(e, lib, s)
    case _ => Err(TypeError)
  }

  /** valueOf's second loop: an id string (from a bare-id root) is looked up. */
  function SecondPass(r: Reply, s: Values): Result<Num> {
    match r
    case Number(n) => Ok(n)
    case Text(id) => if id in s then Ok(s[id]) else Err(TypeError)
  }

  /** The two loops together compute the value of the cell. */
  lemma Passes(c: Cell, lib: MathLib, s: Values)
    ensures CellValue(c, lib, s) == match FirstPass(c, lib, s) case Err(e) => Err(e) case Ok(r) => SecondPass(r, s)
  {
  }

  /**
   * What `innerFunction` holds: null (nothing started yet), the number a
   * startWith naming a stored number leaves behind, or the grid of cells.
   */
  datatype Inner = Unset | Held(n: Num) | Defined(value: Grid)

  /**
   * valueOf(...bindings): the function must be set; then the bindings; a held
   * number has no cells to read (a TypeError); otherwise every cell.
   */
  function ValueOfSpec(inner: Inner, lib: MathLib, ms: map<Id, Stored>, s: Values, mbs: seq<MatrixBinding>): (r: (Values, Result<Mat<Num>>))
    ensures r.1.Ok? ==> inner.Defined? && r.1.value.rows == inner.value.rows && r.1.value.cols == inner.value.cols
  {
    if inner.Unset? then (s, Err(Undefined))
    else
      var (s1, o) := BindMatrices(ms, s, mbs);
      if o.Fail? then (s1, Err(o.error))
      else if inner.Held? then (s1, Err(TypeError))
      else match AllValues(inner.value.data, lib, s1)
        case Err(e) => (s1, Err(e))
        case Ok(vs) => (s1, Ok(Mat(inner.value.rows, inner.value.cols, vs)))
  }

  /** derivative(parameter, ...bindings): the same, with every cell's derivative. */
  function DerivativeSpec(inner: Inner, p: Id, lib: MathLib, ms: map<Id, Stored>, s: Values, mbs: seq<MatrixBinding>): (r: (Values, Result<Mat<Num>>))
    ensures r.1.Ok? ==> inner.Defined? && r.1.value.rows == inner.value.rows && r.1.value.cols == inner.value.cols
  {
    if inner.Unset? then (s, Err(Undefined))
    else
      var (s1, o) := BindMatrices(ms, s, mbs);
      if o.Fail? then (s1, Err(o.error))
      else if inner.Held? then (s1, Err(TypeError))
      else match AllDerivs(inner.value.data, p, lib, s1)
        case Err(e) => (s1, Err(e))
        case Ok(ds) => (s1, Ok(Mat(inner.value.rows, inner.value.cols, ds)))
  }

  /*
   * regression
   */

  /** The y argument of regression: the id of a stored matrix, a data array shaped like the function, or a matrix. */
  datatype Target = YNamed(id: Id) | YArray(values: seq<Num>) | YMatrix(m: Mat<Num>)

  /** `y.data[i]`: undefined (NaN in arithmetic) past the end. */
  function YAt(y: seq<Num>, i: nat): Num {
    if i < |y| then y[i] else NaN
  }

  /** errdata: prediction minus y, cell by cell. */
  function Errors(prediction: seq<Num>, y: seq<Num>): (r: seq<Num>)
    ensures |r| == |prediction|
    ensures forall i | 0 <= i < |prediction| :: r[i] == Minus(prediction[i], YAt(y, i))
  {
    seq(|prediction|, i requires 0 <= i < |prediction| => Minus(prediction[i], YAt(y, i)))
  }

  /** dp after n terms: `dp += derivative[i] * errdata[i] * learnrate`, from 0. */
  function GradientSum(ds: seq<Num>, errs: seq<Num>, lr: Num, n: nat): Num
    requires n <= |ds| && n <= |errs|
  {
    if n == 0 then Zero else Plus(GradientSum(ds, errs, lr, n - 1), Times(Times(ds[n - 1], errs[n - 1]), lr))
  }

  /** mse after n terms: `mse += Math.pow(errdata[i], 2)`, from 0. */
  function SquareSum(errs: seq<Num>, lib: MathLib, n: nat): Num
    requires n <= |errs|
  {
    if n == 0 then Zero else Plus(SquareSum(errs, lib, n - 1), Power(lib, errs[n - 1], Two))
  }

  /** `mse / errdata.length` */
  function MeanSquare(errs: seq<Num>, lib: MathLib): Num {
    Over(SquareSum(errs, lib, |errs|), Fin(|errs| as real))
  }

  /**
   * regression's loop over the parameters, in order: the derivative of every
   * cell in the current store (so a later parameter sees the earlier ones' new
   * values), then `getParameter(p).value -= dp`; a parameter without a cell is
   * a TypeError raised by the update.
   */
  function Updates(g: Grid, lib: MathLib, s: Values, targets: seq<Id>, errs: seq<Num>, lr: Num): (r: (Values, Outcome))
    requires |errs| == |g.data|
    ensures r.0.Keys == s.Keys
    decreases |targets|
  {
    if targets == [] then (s, Pass)
    else match AllDerivs(g.data, targets[0], lib, s)
      case Err(e) => (s, Fail(e))
      case Ok(ds) =>
        if targets[0] !in s then (s, Fail(TypeError))
        else Updates(g, lib, s[targets[0] := Minus(s[targets[0]], GradientSum(ds, errs, lr, |ds|))], targets[1..], errs, lr)
  }

  /**
   * The y matrix regression compares with: a stored matrix read before
   * anything is bound, an array shaped like the function (a held number has
   * no shape, so the Matrix factory refuses the array), or a matrix.
   */
  function TargetValues(inner: Inner, ms: map<Id, Stored>, s: Values, y: Target): Result<Mat<Num>> {
    match y
    case YNamed(id) => MatrixValues(ms, s, id)
    case YArray(values) => if inner.Defined? then MakeMatrix(inner.value.rows, inner.value.cols, values) else Err(Undefined)
    case YMatrix(m) => Ok(m)
  }

  /**
   * regression(parameter, y, learnrate, ...bindings): the function must be
   * defined; y is resolved; valueOf binds and predicts; the errors are computed
   * once; the parameters move in order; the answer is the mean squared error.
   */
  function RegressionSpec(inner: Inner, lib: MathLib, ms: map<Id, Stored>, s: Values, targets: seq<Id>, y: Target, learnrate: Option<Num>, mbs: seq<MatrixBinding>): (Values, Result<Num>) {
    if inner.Unset? then (s, Err(Undefined))
    else
      var ym := TargetValues(inner, ms, s, y);
      if ym.Err? then (s, Err(ym.error))
      else
        var (s1, prediction) := ValueOfSpec(inner, lib, ms, s, mbs);
        if prediction.Err? then (s1, Err(prediction.error))
        else
          var errs := Errors(prediction.value.data, ym.value.data);
          var (s2, o) := Updates(inner.value, lib, s1, targets, errs, Rate(learnrate));
          (s2, if o.Fail? then Err(o.error) else Ok(MeanSquare(errs, lib)))
  }

  class MatrixFunction {
    var inner: Inner
    const ref: ReferenceObject<Num>
    const matrices: ReferenceObject<Stored>
    const lib: MathLib

    ghost predicate Valid()
      reads this, ref, ref.parameter, matrices, matrices.parameter
    {
      && ref.Valid() && matrices.Valid() && RecordsFit(matrices.Cells())
      && (inner.Defined? ==> Fits(inner.value))
    }

    /** The value of every number cell, by id. */
    function Cells(): (r: Values)
      reads ref, ref.parameter
      ensures r.Keys == ref.parameter.uuids.Keys
    {
      ref.Cells()
    }

    /** What the store of reference matrices holds, by id. */
    function Records(): (r: map<Id, Stored>)
      reads matrices, matrices.parameter
      ensures r.Keys == matrices.parameter.uuids.Keys
    {
      matrices.Cells()
    }

    /** A function over existing stores; `innerFunction` may be left undefined. */
    constructor (innerFunction: Inner, referenceObj: ReferenceObject<Num>, matrices: ReferenceObject<Stored>, lib: MathLib)
      requires referenceObj.Valid() && matrices.Valid() && RecordsFit(matrices.Cells())
      requires innerFunction.Defined? ==> Fits(innerFunction.value)
      ensures Valid() && inner == innerFunction && ref == referenceObj && this.matrices == matrices && this.lib == lib
    {
      inner := innerFunction;
      ref := referenceObj;
      this.matrices := matrices;
      this.lib := lib;
    }

    /** A function without stores of its own: two new ReferenceObjects, each over a new container. */
    constructor Fresh(innerFunction: Inner, gen: nat -> Id, genMatrices: nat -> Id, lib: MathLib)
      requires Injective(gen) && Injective(genMatrices)
      requires innerFunction.Defined? ==> Fits(innerFunction.value)
      ensures fresh(ref) && fresh(ref.parameter) && fresh(matrices) && fresh(matrices.parameter)
      ensures Valid() && inner == innerFunction && this.lib == lib
      ensures Cells().Keys == set id | id in ref.Constants()
      ensures forall i | 0 <= i < 8 :: Cells()[ref.Constants()[i]] == CONSTANT_VALUES[i]
      ensures Records().Keys == set id | id in matrices.Constants()
    {
      var c1 := new UUIDContainer<Num>(gen);
      var r1 := new ReferenceObject(c1, x => x);
      var c2 := new UUIDContainer<Stored>(genMatrices);
      var r2 := new ReferenceObject(c2, x => Scalar(x));
      inner := innerFunction;
      ref := r1;
      matrices := r2;
      this.lib := lib;
    }

    /**
     * addMatrix(rows, cols, data): one new number cell per value, then the
     * reference matrix of their ids under a new id of the matrix store.  A data
     * array whose length is not rows · cols registers its cells and then throws.
     */
    method AddMatrix(rows: nat, cols: nat, data: MatrixData) returns (r: Result<Id>, ghost ids: seq<Id>)
      requires Valid()
      modifies ref.parameter, matrices.parameter
      ensures Valid()
      ensures |ids| == |DataValues(rows, cols, data)| && Distinct(ids)
      ensures forall k | 0 <= k < |ids| :: ids[k] !in old(Cells())
      ensures Cells().Keys == old(Cells()).Keys + set id | id in ids
      ensures forall k | 0 <= k < |ids| :: Cells()[ids[k]] == DataValues(rows, cols, data)[k]
      ensures forall id | id in old(Cells()) :: Cells()[id] == old(Cells())[id]
      ensures r.Ok? <==> rows * cols == |ids|
      ensures r.Ok? ==> r.value !in old(Records()) && Records() == old(Records())[r.value := Record(Mat(rows, cols, ids))]
      ensures r.Err? ==> r.error == Undefined && Records() == old(Records())
      ensures r.Ok? ==> MatrixValues(Records(), Cells(), r.value) == Ok(Mat(rows, cols, DataValues(rows, cols, data)))
    {
      var values := DataValues(rows, cols, data);
      var d := AddCells(values);
      ids := d;
      var m := MakeMatrix(rows, cols, d);
      if m.Err? {
        return Err(m.error), ids;
      }
      var key := matrices.AddParameter(Record(m.value));
      r := Ok(key);
      ReadRecord(Records(), Cells(), key, values);
    }

    /** addMatrix's loop: one new cell per value, in order. */
    method AddCells(values: seq<Num>) returns (ids: seq<Id>)
      requires Valid()
      modifies ref.parameter
      ensures Valid() && |ids| == |values| && Distinct(ids)
      ensures forall k | 0 <= k < |ids| :: ids[k] !in old(Cells())
      ensures Cells().Keys == old(Cells()).Keys + set id | id in ids
      ensures forall k | 0 <= k < |ids| :: Cells()[ids[k]] == values[k]
      ensures forall id | id in old(Cells()) :: Cells()[id] == old(Cells())[id]
    {
      ids := [];
      for i := 0 to |values|
        invariant ref.Valid() && |ids| == i && Distinct(ids)
        invariant forall k | 0 <= k < i :: ids[k] !in old(Cells())
        invariant Cells().Keys == old(Cells()).Keys + set id | id in ids
        invariant forall k | 0 <= k < i :: Cells()[ids[k]] == values[k]
        invariant forall id | id in old(Cells()) :: Cells()[id] == old(Cells())[id]
      {
        var id := ref.AddParameter(values[i]);
        ids := ids + [id];
      }
    }

    /** getRefMatrix(id): whatever the matrix store holds under id. */
    function GetRefMatrix(id: Id): (r: Result<Stored>)
      reads matrices, matrices.parameter
      ensures r.Ok? <==> id in Records()
      ensures r.Ok? ==> r.value == Records()[id]
    {
      matrices.GetParameter(id)
    }

    /** getParameter(id) */
    function GetParameter(id: Id): (r: Result<Num>)
      reads ref, ref.parameter
      ensures r.Ok? <==> id in Cells()
      ensures r.Ok? ==> r.value == Cells()[id]
    {
      ref.GetParameter(id)
    }

    /** getMatrix(id): the current numbers of the matrix under id. */
    method GetMatrix(id: Id) returns (r: Result<Mat<Num>>)
      requires Valid()
      ensures r == MatrixValues(Records(), Cells(), id)
    {
      var refm := GetRefMatrix(id);
      if refm.Err? || refm.value.Scalar? {
        return Err(TypeError);
      }
      var m := refm.value.m;
      var data: seq<Num> := [];
      for i := 0 to |m.data|
        invariant AllIn(m.data[..i], Cells()) && data == Read(m.data[..i], Cells())
      {
        var cell := GetParameter(m.data[i]);
        if cell.Err? {
          return Err(cell.error);
        }
        data := data + [cell.value];
        assert m.data[..i + 1] == m.data[..i] + [m.data[i]];
      }
      assert m.data[..|m.data|] == m.data;
      r := MakeMatrix(m.rows, m.cols, data);
    }

    /** setMatrix(id, data): data[i] into cell i of the matrix, in order; see SetMatrixOf. */
    method SetMatrix(id: Id, data: seq<Num>) returns (o: Outcome)
      requires Valid()
      modifies ref.parameter
      ensures Valid()
      ensures (Cells(), o) == SetMatrixOf(Records(), old(Cells()), id, data)
    {
      var refm := GetRefMatrix(id);
      if refm.Err? || refm.value.Scalar? {
        return Fail(TypeError);
      }
      o := WriteCells(Writes(refm.value.m.data, data));
    }

    /** setMatrix's loop: each binding written in turn, stopping at a removed cell. */
    method WriteCells(ws: seq<Binding>) returns (o: Outcome)
      requires Valid()
      modifies ref.parameter
      ensures Valid()
      ensures Cells() == Bound(old(Cells()), ws) && o == (if Present(old(Cells()), ws) then Pass else Fail(TypeError))
    {
      var i := 0;
      while i < |ws|
        invariant 0 <= i <= |ws| && ref.Valid()
        invariant Present(old(Cells()), ws[..i])
        invariant Cells().Keys == old(Cells()).Keys
        invariant Bound(Cells(), ws[i..]) == Bound(old(Cells()), ws)
      {
        assert ws[i..][1..] == ws[i + 1..];
        var written := ref.SetValue(ws[i].id, ws[i].value);
        if written.Fail? {
          BoundStops(old(Cells()), ws, i);
          return written;
        }
        assert ws[..i + 1] == ws[..i] + [ws[i]];
        i := i + 1;
      }
      assert ws[..i] == ws;
      o := Pass;
    }

    /** removeParameter(id) */
    method RemoveParameter(id: Id)
      requires Valid()
      modifies ref.parameter
      ensures Valid() && Cells() == old(Cells()) - {id}
    {
      ref.RemoveParameter(id);
    }

    /**
     * removeMatrix(id): removes every cell of the matrix and then the matrix; a
     * missing id or a number under it is a TypeError that removes nothing.
     */
    method RemoveMatrix(id: Id) returns (o: Outcome)
      requires Valid()
      modifies ref.parameter, matrices.parameter
      ensures Valid()
      ensures o == if RefMatrix(old(Records()), id).Ok? then Pass else Fail(TypeError)
      ensures o.Pass? ==> Cells() == old(Cells()) - (set k | 0 <= k < |old(Records())[id].m.data| :: old(Records())[id].m.data[k])
      ensures o.Pass? ==> Records() == old(Records()) - {id}
      ensures o.Pass? ==> MatrixValues(Records(), Cells(), id) == Err(TypeError)
      ensures o.Fail? ==> Cells() == old(Cells()) && Records() == old(Records())
    {
      var refm := GetRefMatrix(id);
      if refm.Err? || refm.value.Scalar? {
        return Fail(TypeError);
      }
      var m := refm.value.m;
      for i := 0 to |m.data|
        invariant Valid() && Records() == old(Records())
        invariant Cells() == old(Cells()) - (set k | 0 <= k < i :: m.data[k])
      {
        RemoveParameter(m.data[i]);
        assert (set k | 0 <= k < i + 1 :: m.data[k]) == (set k | 0 <= k < i :: m.data[k]) + {m.data[i]};
      }
      matrices.RemoveParameter(id);
      o := Pass;
    }

    /**
     * startWith(matrix): the matrix under an id, or one given directly, with
     * every bare id turned into a new builder.  A number under the id is
     * assigned first and then has no data to copy: a TypeError, after which
     * the function holds that number.
     */
    method StartWith(matrix: Source) returns (o: Outcome)
      requires Valid() && (matrix.Given? ==> Fits(matrix.m))
      modifies this
      ensures Valid()
      ensures var a := Operand(Records(), matrix);
        && (a.Err? ==> o == Fail(a.error) && inner == old(inner))
        && (a.Ok? && a.value.None? ==> o == Fail(TypeError) && inner == Held(Records()[matrix.id].n))
        && (a.Ok? && a.value.Some? ==> o == Pass && inner == Defined(Started(a.value.value)))
    {
      var a := Operand(matrices.Cells(), matrix);
      if a.Err? {
        return Fail(a.error);
      }
      if a.value.None? {
        inner := Held(matrices.Cells()[matrix.id].n);
        return Fail(TypeError);
      }
      OperandFits(matrices.Cells(), matrix);
      var g := a.value.value;
      var data := g.data;
      for i := 0 to |data|
        invariant |data| == |g.data|
        invariant forall k | 0 <= k < i :: data[k] == if g.data[k].Ref? then Builder(Leaf(g.data[k].id)) else g.data[k]
        invariant forall k | i <= k < |data| :: data[k] == g.data[k]
      {
        if data[i].Ref? {
          data := data[i := Builder(Leaf(data[i].id))];
        }
      }
      assert data == Started(g).data;
      inner := Defined(Mat(g.rows, g.cols, data));
      o := Pass;
    }

    /** br(): a new, undefined function over the same two stores. */
    method Br() returns (f: MatrixFunction)
      requires Valid()
      ensures fresh(f) && f.Valid() && f.inner == Unset
      ensures f.ref == ref && f.matrices == matrices && f.lib == lib
    {
      f := new MatrixFunction(Unset, ref, matrices, lib);
    }

    /** getFunction(): the roots of the cells; an undefined function is a TypeError. */
    method GetFunction() returns (r: Result<Grid>)
      requires Valid()
      ensures r == if !inner.Defined? then Err(TypeError) else Roots(inner.value)
    {
      if !inner.Defined? {
        return Err(TypeError);
      }
      var g := inner.value;
      var data: seq<Cell> := [];
      for i := 0 to |g.data|
        invariant |data| == i
        invariant forall k | 0 <= k < i :: RootOf(g.data[k]) == Ok(data[k])
      {
        var root := RootOf(g.data[i]);
        if root.Err? {
          return Err(root.error);
        }
        data := data + [root.value];
      }
      assert Roots(g).Ok? && Roots(g).value.data == data;
      r := Ok(Mat(g.rows, g.cols, data));
    }

    /** Writes the (matrix id, data) pairs with setMatrix, in order; see BindMatrices. */
    method Bind(mbs: seq<MatrixBinding>) returns (o: Outcome)
      requires Valid()
      modifies ref.parameter
      ensures Valid()
      ensures (Cells(), o) == BindMatrices(Records(), old(Cells()), mbs)
    {
      var i := 0;
      while i < |mbs|
        invariant 0 <= i <= |mbs| && Valid()
        invariant BindMatrices(Records(), old(Cells()), mbs) == BindMatrices(Records(), Cells(), mbs[i..])
      {
        assert mbs[i..][0] == mbs[i] && mbs[i..][1..] == mbs[i + 1..];
        o := SetMatrix(mbs[i].id, mbs[i].data);
        if o.Fail? {
          return;
        }
        i := i + 1;
      }
      o := Pass;
    }

    /**
     * valueOf(...bindings): the numbers of every cell, in a matrix of the
     * function's shape; see ValueOfSpec.
     */
    method ValueOf(mbs: seq<MatrixBinding>) returns (r: Result<Mat<Num>>)
      requires Valid()
      modifies ref.parameter
      ensures Valid()
      ensures (Cells(), r) == ValueOfSpec(inner, lib, Records(), old(Cells()), mbs)
    {
      if inner.Unset? {
        return Err(Undefined);
      }
      var o := Bind(mbs);
      if o.Fail? {
        return Err(o.error);
      }
      if inner.Held? {
        return Err(TypeError);
      }
      var g := inner.value;
      var data := CellValues(g.data, lib, Cells());
      if data.Err? {
        return Err(data.error);
      }
      r := Ok(Mat(g.rows, g.cols, data.value));
    }

    /** derivative(parameter, ...bindings): the derivative of every cell; see DerivativeSpec. */
    method Derivative(parameter: Id, mbs: seq<MatrixBinding>) returns (r: Result<Mat<Num>>)
      requires Valid()
      modifies ref.parameter
      ensures Valid()
      ensures (Cells(), r) == DerivativeSpec(inner, parameter, lib, Records(), old(Cells()), mbs)
    {
      if inner.Unset? {
        return Err(Undefined);
      }
      var o := Bind(mbs);
      if o.Fail? {
        return Err(o.error);
      }
      if inner.Held? {
        return Err(TypeError);
      }
      var g := inner.value;
      var data := CellDerivs(g.data, parameter, lib, Cells());
      if data.Err? {
        return Err(data.error);
      }
      r := Ok(Mat(g.rows, g.cols, data.value));
    }

    /** regression(parameter, y, learnrate, ...bindings): see RegressionSpec. */
    method Regression(parameter: seq<Id>, y: Target, learnrate: Option<Num>, mbs: seq<MatrixBinding>) returns (r: Result<Num>)
      requires Valid()
      modifies ref.parameter
      ensures Valid()
      ensures (Cells(), r) == RegressionSpec(inner, lib, Records(), old(Cells()), parameter, y, learnrate, mbs)
    {
      var lr := Rate(learnrate);
      if inner.Unset? {
        return Err(Undefined);
      }
      var ym: Mat<Num>;
      match y {
        case YNamed(id) =>
          var got := GetMatrix(id);
          if got.Err? {
            return Err(got.error);
          }
          ym := got.value;
        case YArray(values) =>
          if !inner.Defined? {
            return Err(Undefined);
          }
          var made := MakeMatrix(inner.value.rows, inner.value.cols, values);
          if made.Err? {
            return Err(made.error);
          }
          ym := made.value;
        case YMatrix(m) =>
          ym := m;
      }
      var prediction := ValueOf(mbs);
      if prediction.Err? {
        return Err(prediction.error);
      }
      var errdata := ErrorsOf(prediction.value.data, ym.data);
      var o := UpdateParameters(parameter, errdata, lr);
      if o.Fail? {
        return Err(o.error);
      }
      var mse := MeanSquareOf(errdata, lib);
      r := Ok(mse);
    }

    /** regression's loop over the parameters; see Updates. */
    method UpdateParameters(targets: seq<Id>, errs: seq<Num>, lr: Num) returns (o: Outcome)
      requires Valid() && inner.Defined? && |errs| == |inner.value.data|
      modifies ref.parameter
      ensures Valid()
      ensures (Cells(), o) == Updates(inner.value, lib, old(Cells()), targets, errs, lr)
    {
      var g := inner.value;
      for i := 0 to |targets|
        invariant Valid()
        invariant Updates(g, lib, old(Cells()), targets, errs, lr) == Updates(g, lib, Cells(), targets[i..], errs, lr)
      {
        assert targets[i..][0] == targets[i] && targets[i..][1..] == targets[i + 1..];
        var derivative := Derivative(targets[i], []);
        if derivative.Err? {
          return Fail(derivative.error);
        }
        var dp := GradientSumOf(derivative.value.data, errs, lr);
        var cell := GetParameter(targets[i]);
        if cell.Err? {
          return Fail(cell.error);
        }
        var _ := ref.SetValue(targets[i], Minus(cell.value, dp));
      }
      o := Pass;
    }

    /**
     * The builder method of every cell, front to back, step k on cell k, each
     * replacing that cell's root in place; a cell that is not a builder (or is
     * past the end) stops the loop with a TypeError and keeps the cells already
     * changed.  See Grow.
     */
    method GrowCells(steps: seq<Step>) returns (o: Outcome)
      requires Valid() && inner.Defined?
      modifies this
      ensures Valid() && inner.Defined?
      ensures var g := old(inner).value; var grown := Grow(g.data, steps);
        inner.value == Mat(g.rows, g.cols, grown.0) && o == grown.1
    {
      ghost var g := inner.value;
      for i := 0 to |steps|
        invariant Valid() && inner.Defined? && inner.value.rows == g.rows && inner.value.cols == g.cols
        invariant |inner.value.data| == |g.data| && Grows(g.data, i)
        invariant forall k | 0 <= k < |g.data| ::
          inner.value.data[k] == if k < i then Builder(Grown(steps[k], g.data[k].root)) else g.data[k]
      {
        var cells := inner.value.data;
        if i >= |cells| || !cells[i].Builder? {
          assert inner.value.data == Grow(g.data, steps).0;
          return Fail(TypeError);
        }
        inner := Defined(inner.value.(data := cells[i := Builder(Grown(steps[i], cells[i].root))]));
      }
      assert inner.value.data == Grow(g.data, steps).0;
      o := Pass;
    }

    /**
     * add(a) (Sum), subtract(a) (Difference), HadamardProduct(a) (Hadamard):
     * the operand is looked up, the function must be defined, and then see
     * Elementwise.
     */
    method CombineWith(how: Combine, a: Source) returns (o: Outcome)
      requires Valid() && (a.Given? ==> Fits(a.m))
      modifies this
      ensures Valid()
      ensures var x := Operand(Records(), a); var ready := Ready(old(inner), x);
        && (ready.Fail? ==> o == ready && inner == old(inner))
        && (ready.Pass? ==> inner.Defined? && (inner.value, o) == Elementwise(how, old(inner).value, x.value))
    {
      var x := Operand(matrices.Cells(), a);
      if x.Err? {
        return Fail(x.error);
      }
      if inner.Unset? {
        return Fail(TypeError);
      }
      if inner.Held? {
        return Fail(if x.value.Some? then Undefined else TypeError);
      }
      var m := inner.value;
      if x.value.None? || Refused(m, x.value.value) {
        return Fail(Undefined);
      }
      var b := x.value.value;
      if !Convertible(b) {
        return Fail(TypeError);
      }
      o := GrowCells(CombineSteps(how, b));
    }

    /** add(a): every cell builder adds the operand's cell. */
    method Add(a: Source) returns (o: Outcome)
      requires Valid() && (a.Given? ==> Fits(a.m))
      modifies this
      ensures Valid()
      ensures var x := Operand(Records(), a); var ready := Ready(old(inner), x);
        && (ready.Fail? ==> o == ready && inner == old(inner))
        && (ready.Pass? ==> inner.Defined? && (inner.value, o) == Elementwise(Sum, old(inner).value, x.value))
    {
      o := CombineWith(Sum, a);
    }

    /** subtract(a): every cell builder subtracts the operand's cell. */
    method Subtract(a: Source) returns (o: Outcome)
      requires Valid() && (a.Given? ==> Fits(a.m))
      modifies this
      ensures Valid()
      ensures var x := Operand(Records(), a); var ready := Ready(old(inner), x);
        && (ready.Fail? ==> o == ready && inner == old(inner))
        && (ready.Pass? ==> inner.Defined? && (inner.value, o) == Elementwise(Difference, old(inner).value, x.value))
    {
      o := CombineWith(Difference, a);
    }

    /** HadamardProduct(a): every cell builder multiplies by the operand's cell. */
    method HadamardProduct(a: Source) returns (o: Outcome)
      requires Valid() && (a.Given? ==> Fits(a.m))
      modifies this
      ensures Valid()
      ensures var x := Operand(Records(), a); var ready := Ready(old(inner), x);
        && (ready.Fail? ==> o == ready && inner == old(inner))
        && (ready.Pass? ==> inner.Defined? && (inner.value, o) == Elementwise(Hadamard, old(inner).value, x.value))
    {
      o := CombineWith(Hadamard, a);
    }

    /** negate() reads a variable `a` that is declared nowhere: a ReferenceError that changes nothing. */
    method Negate() returns (o: Outcome)
      ensures o == Fail(ReferenceError)
    {
      o := Fail(ReferenceError);
    }

    /**
     * multiplyBy(number) registers the number in a new cell and then reads an
     * undeclared `matrixA`: a ReferenceError that leaves the new cell behind.
     */
    method MultiplyBy(number: Num) returns (o: Outcome, ghost id: Id)
      requires Valid()
      modifies ref.parameter
      ensures Valid() && o == Fail(ReferenceError)
      ensures id !in old(Cells()) && Cells() == old(Cells())[id := number]
    {
      id := ref.AddParameter(number);
      o := Fail(ReferenceError);
    }

    /**
     * MatrixProduct(a): the operand is looked up and the function must be
     * defined; then see MatrixProductOf.  Cell (j, i) of the product is built
     * as a sum starting at ZERO that adds root(j, k) · a(k, i) for k = 0, 1, ...
     */
    method MatrixProduct(a: Source) returns (o: Outcome)
      requires Valid() && (a.Given? ==> Fits(a.m))
      modifies this
      ensures Valid()
      ensures var x := Operand(Records(), a); var ready := Ready(old(inner), x);
        && (ready.Fail? ==> o == ready && inner == old(inner))
        && (ready.Pass? ==> inner.Defined? && (inner.value, o) == MatrixProductOf(old(inner).value, x.value, ref.ZERO))
    {
      var x := Operand(matrices.Cells(), a);
      if x.Err? {
        return Fail(x.error);
      }
      if inner.Unset? {
        return Fail(TypeError);
      }
      if inner.Held? {
        return Fail(if x.value.Some? then Undefined else TypeError);
      }
      OperandFits(matrices.Cells(), a);
      var m := inner.value;
      if x.value.None? || m.cols != x.value.value.rows {
        return Fail(Undefined);
      }
      var b := x.value.value;
      if b.rows == 0 || b.cols == 0 || !Convertible(b) || !Builders(m) {
        return Fail(TypeError);
      }
      var p := ProductGrid(m, b, ref.ZERO);
      if m.rows == 0 {
        inner := Defined(p);
        return Fail(TypeError);
      }
      TransposedFits(p);
      inner := Defined(Transposed(p));
      o := Pass;
    }

    /**
     * addPadding(paddingR, paddingC): the rows of the grid, with paddingR rows
     * of ZERO put before and after them, then paddingC ZERO cells put at both
     * ends of every row; see PaddingOf.
     */
    method AddPadding(paddingR: nat, paddingC: Option<nat>) returns (o: Outcome)
      requires Valid()
      modifies this
      ensures Valid()
      ensures !old(inner).Defined? ==> o == Fail(TypeError) && inner == old(inner)
      ensures old(inner).Defined? ==> var r := PaddingOf(old(inner).value, paddingR, paddingC, ref.ZERO);
        && (r.Err? ==> o == Fail(r.error) && inner == old(inner))
        && (r.Ok? ==> o == Pass && inner == Defined(r.value))
    {
      if !inner.Defined? {
        return Fail(TypeError);
      }
      var m := inner.value;
      if m.rows == 0 || m.cols == 0 {
        return Fail(TypeError);
      }
      var padded := PadGrid(m, paddingR, if paddingC.Some? then paddingC.value else paddingR, ref.ZERO);
      inner := Defined(padded);
      o := Pass;
    }

    /** getPart(row, col, height, width): see GridPart. */
    method GetPart(row: nat, col: nat, height: nat, width: nat) returns (o: Outcome)
      requires Valid()
      modifies this
      ensures Valid()
      ensures !old(inner).Defined? ==> o == Fail(TypeError) && inner == old(inner)
      ensures old(inner).Defined? ==> o == Pass && inner == Defined(GridPart(old(inner).value, row, col, height, width))
    {
      if !inner.Defined? {
        return Fail(TypeError);
      }
      inner := Defined(GridPart(inner.value, row, col, height, width));
      o := Pass;
    }

    /** vec(): see Vec. */
    method Vectorize() returns (o: Outcome)
      requires Valid()
      modifies this
      ensures Valid()
      ensures !old(inner).Defined? ==> o == Fail(TypeError) && inner == old(inner)
      ensures old(inner).Defined? ==> o == Pass && inner == Defined(Vec(old(inner).value))
    {
      if !inner.Defined? {
        return Fail(TypeError);
      }
      inner := Defined(Vec(inner.value));
      o := Pass;
    }

    /** transpose(): see TransposeOf; a failed transposition keeps the function. */
    method Transpose() returns (o: Outcome)
      requires Valid()
      modifies this
      ensures Valid()
      ensures !old(inner).Defined? ==> o == Fail(TypeError) && inner == old(inner)
      ensures old(inner).Defined? ==> var r := TransposeOf(old(inner).value);
        && (r.Err? ==> o == Fail(r.error) && inner == old(inner))
        && (r.Ok? ==> o == Pass && inner == Defined(r.value))
    {
      if !inner.Defined? {
        return Fail(TypeError);
      }
      var r := TransposeOf(inner.value);
      if r.Err? {
        return Fail(r.error);
      }
      TransposedFits(inner.value);
      inner := Defined(r.value);
      o := Pass;
    }

    /**
     * maxPooling(): for each 2 × 2 window, in row-major order, a builder on
     * NEGATIVEINFINITY that takes the max with the four window cells; see
     * PoolingOf.  The first window that cannot be read keeps the function.
     * A held number gives no windows, and the Matrix factory refuses the
     * NaN × NaN shape it computes for them.
     * With FlatIndex the window cells are read as get reads them (the source
     * as written); Clipped is the corrected reading, see PoolingWraps.
     */
    method MaxPooling(reading: Reading) returns (o: Outcome)
      requires Valid()
      modifies this
      ensures Valid()
      ensures !old(inner).Defined? ==> o == Fail(if old(inner).Held? then Undefined else TypeError) && inner == old(inner)
      ensures old(inner).Defined? ==> var r := PoolingOf(old(inner).value, ref.NEGATIVEINFINITY, reading);
        && (r.Err? ==> o == Fail(r.error) && inner == old(inner))
        && (r.Ok? ==> o == Pass && inner == Defined(r.value))
    {
      if !inner.Defined? {
        return Fail(if inner.Held? then Undefined else TypeError);
      }
      var r := PoolGrid(inner.value, ref.NEGATIVEINFINITY, reading);
      if r.Err? {
        return Fail(r.error);
      }
      inner := Defined(r.value);
      o := Pass;
    }

    /** Convolute(a): see ConvoluteOf. */
    method Convolute(a: Source) returns (o: Outcome)
      requires Valid() && (a.Given? ==> Fits(a.m))
      modifies this
      ensures Valid()
      ensures (inner, o) == ConvoluteOf(old(inner), Operand(Records(), a), ref.ZERO)
    {
      var x := Operand(matrices.Cells(), a);
      if x.Err? {
        return Fail(x.error);
      }
      if x.value.None? {
        return Fail(TypeError);
      }
      OperandFits(matrices.Cells(), a);
      var k := TransposeOf(x.value.value);
      if k.Err? {
        return Fail(k.error);
      }
      if !inner.Defined? {
        return Fail(TypeError);
      }
      TransposedFits(x.value.value);
      o := Filter(k.value);
    }

    /** Correlate(a): see CorrelateOf. */
    method Correlate(a: Source) returns (o: Outcome)
      requires Valid() && (a.Given? ==> Fits(a.m))
      modifies this
      ensures Valid()
      ensures (inner, o) == CorrelateOf(old(inner), Operand(Records(), a), ref.ZERO)
    {
      var x := Operand(matrices.Cells(), a);
      if x.Err? {
        return Fail(x.error);
      }
      if !inner.Defined? {
        return Fail(TypeError);
      }
      if x.value.None? {
        return Fail(if inner.value.rows == 0 || inner.value.cols == 0 then TypeError else Undefined);
      }
      OperandFits(matrices.Cells(), a);
      o := Filter(x.value.value);
    }

    /** The padding and window loops of Convolute and Correlate for the filter k; see ConvolutionOf. */
    method Filter(k: Grid) returns (o: Outcome)
      requires Valid() && Fits(k) && inner.Defined?
      modifies this
      ensures Valid()
      ensures var c := ConvolutionOf(old(inner).value, k, ref.ZERO); inner == Defined(c.0) && o == c.1
    {
      var rows, cols := inner.value.rows, inner.value.cols;
      o := AddPadding(k.rows / 2, Some(k.cols / 2));
      if o.Fail? {
        return;
      }
      var g := inner.value;
      var roots := Roots(Started(g));
      if roots.Err? {
        return Fail(roots.error);
      }
      var data := WindowGrid(roots.value, k, ref.ZERO, Span(g.rows, k.rows), Span(g.cols, k.cols));
      if data.Err? {
        return Fail(data.error);
      }
      var made := MakeMatrix(rows, cols, data.value);
      if made.Err? {
        return Fail(made.error);
      }
      inner := Defined(Started(made.value));
      o := Pass;
    }

    /** Sigmoid(): every cell builder applies the logistic function; see Activation. */
    method Sigmoid() returns (o: Outcome)
      requires Valid()
      modifies this
      ensures Valid()
      ensures !old(inner).Defined? ==> o == Fail(TypeError) && inner == old(inner)
      ensures old(inner).Defined? ==> inner.Defined? && (inner.value, o) == Activation(SigmoidStep(ref.ONE), old(inner).value)
    {
      o := Activate(SigmoidStep(ref.ONE));
    }

    /** TanH(): every cell builder applies tanh; see Activation. */
    method TanH() returns (o: Outcome)
      requires Valid()
      modifies this
      ensures Valid()
      ensures !old(inner).Defined? ==> o == Fail(TypeError) && inner == old(inner)
      ensures old(inner).Defined? ==> inner.Defined? && (inner.value, o) == Activation(TanhStep, old(inner).value)
    {
      o := Activate(TanhStep);
    }

    /** ReLu(): every cell builder applies ReLu; see Activation. */
    method ReLu() returns (o: Outcome)
      requires Valid()
      modifies this
      ensures Valid()
      ensures !old(inner).Defined? ==> o == Fail(TypeError) && inner == old(inner)
      ensures old(inner).Defined? ==> inner.Defined? && (inner.value, o) == Activation(ReLuStep, old(inner).value)
    {
      o := Activate(ReLuStep);
    }

    /** LeakyReLu(factor): every cell builder applies LeakyReLu with the factor; see Activation. */
    method LeakyReLu(factor: Num) returns (o: Outcome)
      requires Valid()
      modifies this
      ensures Valid()
      ensures !old(inner).Defined? ==> o == Fail(TypeError) && inner == old(inner)
      ensures old(inner).Defined? ==> inner.Defined? && (inner.value, o) == Activation(LeakyReLuStep(factor), old(inner).value)
    {
      o := Activate(LeakyReLuStep(factor));
    }

    /** The same builder method on every cell. */
    method Activate(step: Step) returns (o: Outcome)
      requires Valid()
      modifies this
      ensures Valid()
      ensures !old(inner).Defined? ==> o == Fail(TypeError) && inner == old(inner)
      ensures old(inner).Defined? ==> inner.Defined? && (inner.value, o) == Activation(step, old(inner).value)
    {
      if !inner.Defined? {
        return Fail(TypeError);
      }
      var g := inner.value;
      o := GrowCells(seq(|g.data|, k requires 0 <= k < |g.data| => step));
    }
  }

  /**
   * valueOf's two loops over the cells: the first asks every cell for its value
   * (a bare id is looked up, a builder evaluates its root), the second looks up
   * the answers that are id strings.  The result is the value of every cell, or
   * the first failure.
   */
  method CellValues(cells: seq<Cell>, lib: MathLib, s: Values) returns (r: Result<seq<Num>>)
    ensures r == AllValues(cells, lib, s)
  {
    var replies: seq<Reply> := [];
    for i := 0 to |cells|
      invariant |replies| == i
      invariant forall k | 0 <= k < i :: FirstPass(cells[k], lib, s) == Ok(replies[k])
    {
      var c := cells[i];
      var reply: Result<Reply>;
      if c.Ref? {
        reply := if c.id in s then Ok(Number(s[c.id])) else Err(TypeError);
      } else if c.Builder? {
        reply := Evaluate(c.root, lib, s);
      } else {
        reply := Err(TypeError);
      }
      if reply.Err? {
        AllValuesFail(cells, lib, s, i);
        return Err(reply.error);
      }
      replies := replies + [reply.value];
    }
    var data: seq<Num> := [];
    for i := 0 to |replies|
      invariant |data| == i
      invariant forall k | 0 <= k < i :: CellValue(cells[k], lib, s) == Ok(data[k])
    {
      Passes(cells[i], lib, s);
      var v := SecondPass(replies[i], s);
      if v.Err? {
        AllValuesFail(cells, lib, s, i);
        return Err(v.error);
      }
      data := data + [v.value];
    }
    assert AllValues(cells, lib, s).Ok? && AllValues(cells, lib, s).value == data;
    r := Ok(data);
  }

  /** derivative's loop over the cells: the derivative of every cell, or the first failure. */
  method CellDerivs(cells: seq<Cell>, p: Id, lib: MathLib, s: Values) returns (r: Result<seq<Num>>)
    ensures r == AllDerivs(cells, p, lib, s)
  {
    var data: seq<Num> := [];
    for i := 0 to |cells|
      invariant |data| == i
      invariant forall k | 0 <= k < i :: CellDeriv(cells[k], p, lib, s) == Ok(data[k])
    {
      var d := CellDeriv(cells[i], p, lib, s);
      if d.Err? {
        AllDerivsFail(cells, p, lib, s, i);
        return Err(d.error);
      }
      data := data + [d.value];
    }
    assert AllDerivs(cells, p, lib, s).Ok? && AllDerivs(cells, p, lib, s).value == data;
    r := Ok(data);
  }

  /**
   * A transformation with an operand: the operand must be found, then the
   * function must be set (its rows are read).  A held number has no shape:
   * an operand with one fails the shape check, and a stored number passes it
   * and then has no data to read.
   */
  function Ready(inner: Inner, x: Result<Option<Grid>>): (o: Outcome)
    ensures o.Pass? <==> x.Ok? && inner.Defined?
    ensures x.Ok? && inner.Held? ==> o == Fail(if x.value.Some? then Undefined else TypeError)
  {
    if x.Err? then Fail(x.error)
    else if inner.Unset? then Fail(TypeError)
    else if inner.Held? then Fail(if x.value.Some? then Undefined else TypeError)
    else Pass
  }

  /**
   * The root built for the window at (r, c) after its first q reads, in
   * row-major order: max with −∞, then with each cell read so far.
   */
  function WindowRoot(m: Grid, r: nat, c: nat, neg: Id, reading: Reading, q: nat): Result<Expr>
    requires q <= 4
  {
    if q == 0 then Ok(Leaf(neg))
    else match WindowRoot(m, r, c, neg, reading, q - 1)
      case Err(e) => Err(e)
      case Ok(f) =>
        match Pooled(m, r + (q - 1) / 2, c + (q - 1) % 2, neg, reading)
        case Err(e) => Err(e)
        case Ok(x) => Ok(Max(f, x))
  }

  /**
   * One window of maxPooling: the top-left cell must be a builder (its br()
   * starts the max), then the four cells are read, two rows of two.
   */
  method PoolWindow(m: Grid, r: nat, c: nat, neg: Id, reading: Reading) returns (f: Result<Expr>)
    requires r % 2 == 0 && c % 2 == 0
    ensures f == PoolRoot(m, r / 2, c / 2, neg, reading)
  {
    var first := At(m, r, c);
    if first.None? || !first.value.Builder? {
      return Err(TypeError);
    }
    var func := Leaf(neg);
    for k := 0 to 2
      invariant WindowRoot(m, r, c, neg, reading, 2 * k) == Ok(func)
    {
      for l := 0 to 2
        invariant WindowRoot(m, r, c, neg, reading, 2 * k + l) == Ok(func)
      {
        var val := Pooled(m, r + k, c + l, neg, reading);
        WindowStep(m, r, c, neg, reading, k, l, func);
        if val.Err? {
          WindowFails(m, r, c, neg, reading, 2 * k + l + 1);
          return Err(val.error);
        }
        func := Max(func, val.value);
      }
    }
    WindowComplete(m, r, c, neg, reading);
    f := Ok(func);
  }

  /** Read (k, l) of a window, the (2k + l)-th, takes the max with that cell or fails with it. */
  lemma WindowStep(m: Grid, r: nat, c: nat, neg: Id, reading: Reading, k: nat, l: nat, func: Expr)
    requires k < 2 && l < 2 && WindowRoot(m, r, c, neg, reading, 2 * k + l) == Ok(func)
    ensures var val := Pooled(m, r + k, c + l, neg, reading);
      WindowRoot(m, r, c, neg, reading, 2 * k + l + 1) == if val.Err? then Err(val.error) else Ok(Max(func, val.value))
  {
    assert (2 * k + l) / 2 == k && (2 * k + l) % 2 == l;
  }

  /** A window read that fails makes the whole window fail, with a TypeError. */
  lemma WindowFails(m: Grid, r: nat, c: nat, neg: Id, reading: Reading, q: nat)
    requires r % 2 == 0 && c % 2 == 0 && 1 <= q <= 4 && WindowRoot(m, r, c, neg, reading, q).Err?
    ensures PoolRoot(m, r / 2, c / 2, neg, reading) == Err(TypeError)
    ensures WindowRoot(m, r, c, neg, reading, q).error == TypeError
  {
    assert 2 * (r / 2) == r && 2 * (c / 2) == c;
  }

  /** After the four reads the window's root is the pooled root. */
  lemma WindowComplete(m: Grid, r: nat, c: nat, neg: Id, reading: Reading)
    requires r % 2 == 0 && c % 2 == 0 && At(m, r, c).Some? && At(m, r, c).value.Builder?
    requires WindowRoot(m, r, c, neg, reading, 4).Ok?
    ensures PoolRoot(m, r / 2, c / 2, neg, reading) == WindowRoot(m, r, c, neg, reading, 4)
  {
    assert 2 * (r / 2) == r && 2 * (c / 2) == c;
    var o00, o01 := Pooled(m, r, c, neg, reading), Pooled(m, r, c + 1, neg, reading);
    var o10, o11 := Pooled(m, r + 1, c, neg, reading), Pooled(m, r + 1, c + 1, neg, reading);
    var w1, w2, w3 := WindowRoot(m, r, c, neg, reading, 1), WindowRoot(m, r, c, neg, reading, 2), WindowRoot(m, r, c, neg, reading, 3);
    assert w3.Ok? && o11.Ok? && WindowRoot(m, r, c, neg, reading, 4) == Ok(Max(w3.value, o11.value));
    assert w2.Ok? && o10.Ok? && w3 == Ok(Max(w2.value, o10.value));
    assert w1.Ok? && o01.Ok? && w2 == Ok(Max(w1.value, o01.value));
    assert WindowRoot(m, r, c, neg, reading, 0) == Ok(Leaf(neg));
    assert o00.Ok? && w1 == Ok(Max(Leaf(neg), o00.value));
  }

  /**
   * MatrixProduct's loops: for each column i of the operand and each row j of
   * the grid, the sum root(j, k) · a(k, i) over k, laid out row i by row i.
   */
  method ProductGrid(m: Grid, b: Grid, zero: Id) returns (p: Grid)
    requires Fits(m) && Fits(b) && Convertible(b) && Builders(m) && m.cols == b.rows
    ensures p == ProductLayout(m, b, zero)
  {
    var t := TransposedOperands(b);
    ghost var rows := ProductRows(m, t, zero);
    var newdata: seq<Cell> := [];
    for i := 0 to t.rows
      invariant newdata == Concat(rows[..i])
    {
      for j := 0 to m.rows
        invariant newdata == Concat(rows[..i]) + rows[i][..j]
      {
        var sum := DotCell(m, t, zero, j, i);
        newdata := newdata + [Builder(sum)];
        assert rows[i][..j + 1] == rows[i][..j] + [rows[i][j]];
      }
      assert rows[i][..m.rows] == rows[i];
      ConcatSnoc(rows[..i], rows[i]);
      assert rows[..i + 1] == rows[..i] + [rows[i]];
    }
    assert rows[..t.rows] == rows;
    p := Mat(t.rows, m.rows, newdata);
  }

  /** The innermost loop of MatrixProduct: one sum, starting at ZERO. */
  method DotCell(m: Grid, t: Mat<Expr>, zero: Id, j: nat, i: nat) returns (sum: Expr)
    requires Fits(m) && Builders(m) && Fits(t) && j < m.rows && i < t.rows && m.cols == t.cols
    ensures sum == DotRoot(m, t, zero, j, i, m.cols)
  {
    sum := Leaf(zero);
    for k := 0 to m.cols
      invariant sum == DotRoot(m, t, zero, j, i, k)
    {
      sum := Expr.Add(Expr.Multiply(RootAt(m, j, k), ExprAt(t, i, k)), sum);
    }
  }

  /**
   * addPadding's loops on the rows of a grid with cells: paddingR rows of ZERO
   * put before and after them, then pc ZERO cells put at both ends of every row.
   */
  method PadGrid(m: Grid, pr: nat, pc: nat, zero: Id) returns (g: Grid)
    requires Fits(m)
    ensures g == Padded(m, pr, pc, zero)
  {
    var tda := Lines(m);
    for i := 0 to pr
      invariant |tda| == m.rows + 2 * i
      invariant forall r | 0 <= r < |tda| :: tda[r] == Unpadded(m, i, zero, r)
    {
      var before := tda;
      tda := [Zeros(m.cols, zero)] + tda + [Zeros(m.cols, zero)];
      forall r | 0 <= r < |tda|
        ensures tda[r] == Unpadded(m, i + 1, zero, r)
      {
        if 0 < r < |tda| - 1 {
          assert tda[r] == before[r - 1];
        }
      }
    }
    for i := 0 to |tda|
      invariant |tda| == m.rows + 2 * pr
      invariant forall r | 0 <= r < |tda| ::
        tda[r] == if r < i then PaddedRow(m, pr, pc, zero, r) else Unpadded(m, pr, zero, r)
    {
      tda := tda[i := Zeros(pc, zero) + tda[i] + Zeros(pc, zero)];
    }
    assert tda == PaddedRows(m, pr, pc, zero);
    g := Mat(m.rows + 2 * pr, m.cols + 2 * pc, Concat(tda));
  }

  /**
   * maxPooling's loops: one root per 2 × 2 window, in row-major order, or the
   * failure of the first window that cannot be read.
   */
  method PoolGrid(m: Grid, neg: Id, reading: Reading) returns (r: Result<Grid>)
    ensures r == PoolingOf(m, neg, reading)
  {
    var newRows, newCols := Halves(m.rows), Halves(m.cols);
    var data: seq<Cell> := [];
    ghost var rows: seq<seq<Cell>> := [];
    for i := 0 to newRows
      invariant |rows| == i && Uniform(rows, newCols) && data == Concat(rows)
      invariant forall i', j | 0 <= i' < i && 0 <= j < newCols ::
        PoolRoot(m, i', j, neg, reading).Ok? && rows[i'][j] == Builder(PoolRoot(m, i', j, neg, reading).value)
    {
      var row := PoolRow(m, i, neg, reading);
      if row.Err? {
        return Err(row.error);
      }
      ConcatSnoc(rows, row.value);
      data := data + row.value;
      rows := rows + [row.value];
    }
    forall i | 0 <= i < newRows
      ensures rows[i] == PoolRows(m, neg, reading)[i]
    {
    }
    assert rows == PoolRows(m, neg, reading);
    r := Ok(Mat(newRows, newCols, data));
  }

  /** The windows of row i of the pooled grid, left to right. */
  method PoolRow(m: Grid, i: nat, neg: Id, reading: Reading) returns (r: Result<seq<Cell>>)
    ensures r.Err? ==> r.error == TypeError && exists j | 0 <= j < Halves(m.cols) :: PoolRoot(m, i, j, neg, reading).Err?
    ensures r.Ok? ==> |r.value| == Halves(m.cols) && forall j | 0 <= j < Halves(m.cols) ::
      PoolRoot(m, i, j, neg, reading).Ok? && r.value[j] == Builder(PoolRoot(m, i, j, neg, reading).value)
  {
    var row: seq<Cell> := [];
    for j := 0 to Halves(m.cols)
      invariant |row| == j
      invariant forall j' | 0 <= j' < j ::
        PoolRoot(m, i, j', neg, reading).Ok? && row[j'] == Builder(PoolRoot(m, i, j', neg, reading).value)
    {
      var f := PoolWindow(m, 2 * i, 2 * j, neg, reading);
      if f.Err? {
        assert PoolRoot(m, i, j, neg, reading).Err?;
        return Err(TypeError);
      }
      row := row + [Builder(f.value)];
    }
    r := Ok(row);
  }

  /** regression's first loop: `errdata[i] = prediction.data[i] - y.data[i]`. */
  method ErrorsOf(prediction: seq<Num>, y: seq<Num>) returns (errs: seq<Num>)
    ensures errs == Errors(prediction, y)
  {
    errs := [];
    for i := 0 to |prediction|
      invariant |errs| == i && forall k | 0 <= k < i :: errs[k] == Minus(prediction[k], YAt(y, k))
    {
      errs := errs + [Minus(prediction[i], if i < |y| then y[i] else NaN)];
    }
  }

  /** The inner loop: dp, the sum of derivative · error · learnrate over the cells. */
  method GradientSumOf(ds: seq<Num>, errs: seq<Num>, lr: Num) returns (dp: Num)
    requires |ds| <= |errs|
    ensures dp == GradientSum(ds, errs, lr, |ds|)
  {
    dp := Zero;
    for i := 0 to |ds|
      invariant dp == GradientSum(ds, errs, lr, i)
    {
      dp := Plus(dp, Times(Times(ds[i], errs[i]), lr));
    }
  }

  /** The last loop and the division: the mean of the squared errors. */
  method MeanSquareOf(errs: seq<Num>, lib: MathLib) returns (mse: Num)
    ensures mse == MeanSquare(errs, lib)
  {
    mse := Zero;
    for i := 0 to |errs|
      invariant mse == SquareSum(errs, lib, i)
    {
      mse := Plus(mse, Power(lib, errs[i], Two));
    }
    mse := Over(mse, Fin(|errs| as real));
  }

  /*
   * Properties
   */

  /** getMatrix reads back, in order, the values the cells of a stored matrix hold. */
  lemma ReadRecord(ms: map<Id, Stored>, s: Values, id: Id, values: seq<Num>)
    requires RecordsFit(ms) && RefMatrix(ms, id).Ok?
    requires |values| == |ms[id].m.data|
    requires forall k | 0 <= k < |values| :: ms[id].m.data[k] in s && s[ms[id].m.data[k]] == values[k]
    ensures MatrixValues(ms, s, id) == Ok(Mat(ms[id].m.rows, ms[id].m.cols, values))
  {
    var m := ms[id].m;
    assert AllIn(m.data, s);
    assert Read(m.data, s) == values;
  }

  /** Writing distinct cells in order: each cell ends with the one value written to it. */
  lemma {:induction false} LastDistinct(bs: seq<Binding>, k: nat, d: Num)
    requires k < |bs| && forall i, j | 0 <= i < j < |bs| :: bs[i].id != bs[j].id
    ensures LastValue(bs, bs[k].id, d) == bs[k].value
    decreases |bs|
  {
    var rest := bs[1..];
    var e := if bs[0].id == bs[k].id then bs[0].value else d;
    if k == 0 {
      assert !Names(rest, bs[0].id) by {
        forall i | 0 <= i < |rest| ensures rest[i].id != bs[0].id {
          assert rest[i] == bs[i + 1];
        }
      }
      LastValueDefault(rest, bs[0].id, e, e);
    } else {
      assert rest[k - 1] == bs[k];
      LastDistinct(rest, k - 1, e);
    }
  }

  /**
   * getMatrix after setMatrix(id, data), when every cell of the matrix exists:
   * the data, with NaN for the cells past its end (the cells of a stored
   * matrix are distinct, so no write is overwritten).
   */
  lemma SetThenGet(ms: map<Id, Stored>, s: Values, id: Id, data: seq<Num>)
    requires RecordsFit(ms) && RefMatrix(ms, id).Ok? && AllIn(ms[id].m.data, s)
    ensures var m := ms[id].m; var (s', o) := SetMatrixOf(ms, s, id, data);
      && o == Pass && s'.Keys == s.Keys
      && MatrixValues(ms, s', id) == Ok(Mat(m.rows, m.cols, seq(|m.data|, k requires 0 <= k < |m.data| => YAt(data, k))))
      && (|data| == |m.data| ==> MatrixValues(ms, s', id) == Ok(Mat(m.rows, m.cols, data)))
  {
    var m := ms[id].m;
    var ws := Writes(m.data, data);
    var s' := Bound(s, ws);
    assert Present(s, ws);
    var values := seq(|m.data|, k requires 0 <= k < |m.data| => YAt(data, k));
    forall k | 0 <= k < |m.data|
      ensures m.data[k] in s' && s'[m.data[k]] == values[k]
    {
      BoundPointwise(s, ws, m.data[k]);
      LastDistinct(ws, k, s[m.data[k]]);
    }
    ReadRecord(ms, s', id, values);
    if |data| == |m.data| {
      assert values == data;
    }
  }

  /** The real sum Σ_{i < n} e_i². */
  function SquareTotal(es: seq<real>, n: nat): real
    requires n <= |es|
  {
    if n == 0 then 0.0 else SquareTotal(es, n - 1) + es[n - 1] * es[n - 1]
  }

  /** The real sum Σ_{i < n} d_i · e_i · lr. */
  function GradientTotal(ds: seq<real>, es: seq<real>, lr: real, n: nat): real
    requires n <= |ds| && n <= |es|
  {
    if n == 0 then 0.0 else GradientTotal(ds, es, lr, n - 1) + ds[n - 1] * es[n - 1] * lr
  }

  /** Finite errors e_i: the loop's sum of squares is Σ e_i². */
  lemma {:induction false} SquaresFinite(errs: seq<Num>, es: seq<real>, lib: MathLib, n: nat)
    requires n <= |errs| == |es| && forall i | 0 <= i < |errs| :: errs[i] == Fin(es[i])
    ensures SquareSum(errs, lib, n) == Fin(SquareTotal(es, n))
  {
    if n > 0 {
      SquaresFinite(errs, es, lib, n - 1);
      PowerTwo(lib, errs[n - 1]);
    }
  }

  /** Finite errors: regression answers the mean squared error (Σ e_i²) / n; with no cells it answers NaN (0 / 0). */
  lemma MeanSquareFinite(errs: seq<Num>, es: seq<real>, lib: MathLib)
    requires |errs| == |es| && forall i | 0 <= i < |errs| :: errs[i] == Fin(es[i])
    ensures |errs| > 0 ==> MeanSquare(errs, lib) == Fin(SquareTotal(es, |es|) / (|es| as real))
    ensures |errs| == 0 ==> MeanSquare(errs, lib).NaN?
  {
    SquaresFinite(errs, es, lib, |errs|);
  }

  /** One undefined error (a y shorter than the prediction, say) makes the mean squared error NaN. */
  lemma {:induction false} SquaresNaN(errs: seq<Num>, lib: MathLib, n: nat, i: nat)
    requires i < n <= |errs| && errs[i].NaN?
    ensures SquareSum(errs, lib, n).NaN?
  {
    if i < n - 1 {
      SquaresNaN(errs, lib, n - 1, i);
    } else {
      PowerTwo(lib, errs[i]);
    }
  }

  lemma MeanSquareNaN(prediction: seq<Num>, y: seq<Num>, lib: MathLib)
    requires |y| < |prediction|
    ensures MeanSquare(Errors(prediction, y), lib).NaN?
  {
    var errs := Errors(prediction, y);
    SquaresNaN(errs, lib, |errs|, |y|);
  }

  /** Finite derivatives, errors and rate: dp is Σ d_i · e_i · lr. */
  lemma {:induction false} GradientFinite(ds: seq<Num>, errs: seq<Num>, dr: seq<real>, es: seq<real>, lr: real, n: nat)
    requires n <= |ds| == |dr| && n <= |errs| == |es|
    requires forall i | 0 <= i < |ds| :: ds[i] == Fin(dr[i])
    requires forall i | 0 <= i < |errs| :: errs[i] == Fin(es[i])
    ensures GradientSum(ds, errs, Fin(lr), n) == Fin(GradientTotal(dr, es, lr, n))
  {
    if n > 0 {
      GradientFinite(ds, errs, dr, es, lr, n - 1);
    }
  }

  /**
   * One parameter p whose cells all have finite derivatives d_i, finite errors
   * e_i and a finite rate: p moves to p − Σ d_i · e_i · lr and nothing else changes.
   */
  lemma UpdateOne(g: Grid, lib: MathLib, s: Values, p: Id, errs: seq<Num>, es: seq<real>, dr: seq<real>, lr: real, w: real)
    requires |errs| == |g.data| == |es| == |dr| && p in s && s[p] == Fin(w)
    requires forall i | 0 <= i < |errs| :: errs[i] == Fin(es[i])
    requires forall i | 0 <= i < |g.data| :: CellDeriv(g.data[i], p, lib, s) == Ok(Fin(dr[i]))
    ensures Updates(g, lib, s, [p], errs, Fin(lr)) == (s[p := Fin(w - GradientTotal(dr, es, lr, |dr|))], Pass)
  {
    var ds := AllDerivs(g.data, p, lib, s).value;
    GradientFinite(ds, errs, dr, es, lr, |ds|);
    assert [p][1..] == [];
  }

  /** The loop changes only the parameters it is given, and fails only with a TypeError or a derivative's error. */
  lemma {:induction false} UpdatesFrame(g: Grid, lib: MathLib, s: Values, targets: seq<Id>, errs: seq<Num>, lr: Num, id: Id)
    requires |errs| == |g.data| && id in s && id !in targets
    ensures Updates(g, lib, s, targets, errs, lr).0[id] == s[id]
    decreases |targets|
  {
    if targets != [] {
      match AllDerivs(g.data, targets[0], lib, s)
      case Err(_) =>
      case Ok(ds) =>
        if targets[0] in s {
          var s1 := s[targets[0] := Minus(s[targets[0]], GradientSum(ds, errs, lr, |ds|))];
          assert id !in targets[1..];
          UpdatesFrame(g, lib, s1, targets[1..], errs, lr, id);
        }
    }
  }

  /**
   * The parameters move one after the other: updating a list is updating its
   * first part and then, from the store that leaves, the rest.
   */
  lemma {:induction false} UpdatesAppend(g: Grid, lib: MathLib, s: Values, t1: seq<Id>, t2: seq<Id>, errs: seq<Num>, lr: Num)
    requires |errs| == |g.data|
    ensures var (s1, o1) := Updates(g, lib, s, t1, errs, lr);
      Updates(g, lib, s, t1 + t2, errs, lr) == if o1.Fail? then (s1, o1) else Updates(g, lib, s1, t2, errs, lr)
    decreases |t1|
  {
    if t1 == [] {
      assert t1 + t2 == t2;
    } else {
      assert (t1 + t2)[0] == t1[0] && (t1 + t2)[1..] == t1[1..] + t2;
      match AllDerivs(g.data, t1[0], lib, s)
      case Err(_) =>
      case Ok(ds) =>
        if t1[0] in s {
          var s1 := s[t1[0] := Minus(s[t1[0]], GradientSum(ds, errs, lr, |ds|))];
          UpdatesAppend(g, lib, s1, t1[1..], t2, errs, lr);
        }
    }
  }

  /** The first failing cell decides the error of AllValues: always a TypeError. */
  lemma AllValuesFail(cells: seq<Cell>, lib: MathLib, s: Values, i: nat)
    requires i < |cells| && CellValue(cells[i], lib, s).Err?
    ensures AllValues(cells, lib, s) == Err(TypeError)
  {
    CellValueFails(cells[i], lib, s);
  }

  /** The error of AllDerivs is the error of the first failing cell. */
  lemma {:induction false} AllDerivsFail(cells: seq<Cell>, p: Id, lib: MathLib, s: Values, i: nat)
    requires i < |cells| && CellDeriv(cells[i], p, lib, s).Err?
    requires forall k | 0 <= k < i :: CellDeriv(cells[k], p, lib, s).Ok?
    ensures AllDerivs(cells, p, lib, s) == Err(CellDeriv(cells[i], p, lib, s).error)
    decreases |cells|
  {
    var n := |cells| - 1;
    if i < n {
      var init := cells[..n];
      assert init[i] == cells[i] && forall k | 0 <= k < i :: init[k] == cells[k];
      AllDerivsFail(init, p, lib, s, i);
    }
  }

  /*
   * Convolute and Correlate
   */

  /** `data[0]`: undefined when there is no first cell. */
  function First(cells: seq<Cell>): Cell {
    if cells == [] then Missing else cells[0]
  }

  /** How often `i < size - filter + 1` holds for i = 0, 1, ... */
  function Span(size: nat, filter: nat): (r: nat)
    ensures r + filter == size + 1 || (r == 0 && size + 1 < filter)
  {
    if size + 1 >= filter then size + 1 - filter else 0
  }

  /**
   * The product for the window at (i, j): the filter as one row,
   * `startWith(filter).vec().transpose()`, times the column of the window's
   * roots, `startWith(roots).getPart(i, j, filter.rows, filter.cols).vec().getFunction()`;
   * the cell kept is `innerFunction.data[0]` of the product.
   */
  function WindowCell(roots: Grid, k: Grid, zero: Id, i: nat, j: nat): Result<Cell>
    requires Fits(roots) && Fits(k)
  {
    var kv := TransposeOf(Vec(Started(k)));
    if kv.Err? then Err(kv.error)
    else
      var x := Roots(Vec(GridPart(Started(roots), i, j, k.rows, k.cols)));
      if x.Err? then Err(x.error)
      else
        TransposedFits(Vec(Started(k)));
        var product := MatrixProductOf(kv.value, Some(x.value), zero);
        if product.1.Fail? then Err(product.1.error) else Ok(First(product.0.data))
  }

  /** The results in order: all the values, or the error of the first that failed. */
  function Collect<T>(rs: seq<Result<T>>): (r: Result<seq<T>>)
    ensures r.Ok? ==> |r.value| == |rs|
  {
    if rs == [] then Ok([])
    else
      var before := Collect(rs[..|rs| - 1]);
      var last := rs[|rs| - 1];
      if before.Err? then before
      else if last.Err? then Err(last.error)
      else Ok(before.value + [last.value])
  }

  /** f(0), f(1), ..., f(n - 1). */
  function Results<T>(f: nat -> Result<T>, n: nat): (r: seq<Result<T>>)
    ensures |r| == n
  {
    if n == 0 then [] else Results(f, n - 1) + [f(n - 1)]
  }

  /** The product of the window at (i, j), for every j. */
  function RowWindows(roots: Grid, k: Grid, zero: Id, i: nat): nat -> Result<Cell>
    requires Fits(roots) && Fits(k)
  {
    (j: nat) => WindowCell(roots, k, zero, i, j)
  }

  /** The cells the inner loop pushes for row i: its n window products, or the error of the first window that throws. */
  function WindowRow(roots: Grid, k: Grid, zero: Id, i: nat, n: nat): Result<seq<Cell>>
    requires Fits(roots) && Fits(k)
  {
    Collect(Results(RowWindows(roots, k, zero, i), n))
  }

  /** The cells of row i of nc windows, for every i. */
  function GridRows(roots: Grid, k: Grid, zero: Id, nc: nat): nat -> Result<seq<Cell>>
    requires Fits(roots) && Fits(k)
  {
    (i: nat) => WindowRow(roots, k, zero, i, nc)
  }

  /** The cells both loops push: n rows of nc products in row-major order, or the error of the first window that throws. */
  function WindowRows(roots: Grid, k: Grid, zero: Id, nc: nat, n: nat): Result<seq<Cell>>
    requires Fits(roots) && Fits(k)
  {
    var rows := Collect(Results(GridRows(roots, k, zero, nc), n));
    if rows.Err? then Err(rows.error) else Ok(Concat(rows.value))
  }

  /**
   * The loops shared by Convolute and Correlate, for a filter k as they read
   * it: pad by ⌊k.rows/2⌋ rows and ⌊k.cols/2⌋ columns of ZERO (the padded grid
   * stays when anything after fails), take the roots, compute one product per
   * window position in row-major order, and start over with the products as
   * a matrix of the old shape, which throws unless there are rows · cols of them.
   */
  function ConvolutionOf(m: Grid, k: Grid, zero: Id): (r: (Grid, Outcome))
    requires Fits(m) && Fits(k)
  {
    var padded := PaddingOf(m, k.rows / 2, Some(k.cols / 2), zero);
    if padded.Err? then (m, Fail(padded.error))
    else
      var g := padded.value;
      var roots := Roots(Started(g));
      if roots.Err? then (g, Fail(roots.error))
      else
        var data := WindowRows(roots.value, k, zero, Span(g.cols, k.cols), Span(g.rows, k.rows));
        if data.Err? then (g, Fail(data.error))
        else
          var made := MakeMatrix(m.rows, m.cols, data.value);
          if made.Err? then (g, Fail(made.error)) else (Started(made.value), Pass)
  }

  /**
   * Convolute(a): the operand is looked up and transposed (a number or a
   * matrix without cells cannot be: a TypeError), the function must be
   * defined; then the loops run with the transposed filter.
   */
  function ConvoluteOf(inner: Inner, x: Result<Option<Grid>>, zero: Id): (Inner, Outcome)
    requires inner.Defined? ==> Fits(inner.value)
    requires x.Ok? && x.value.Some? ==> Fits(x.value.value)
  {
    if x.Err? then (inner, Fail(x.error))
    else if x.value.None? then (inner, Fail(TypeError))
    else
      var k := TransposeOf(x.value.value);
      if k.Err? then (inner, Fail(k.error))
      else if !inner.Defined? then (inner, Fail(TypeError))
      else
        TransposedFits(x.value.value);
        var c := ConvolutionOf(inner.value, k.value, zero);
        (Defined(c.0), c.1)
  }

  /**
   * Correlate(a): the loops with the operand as it is.  A number under the
   * operand's id has no rows: the padding by NaN adds nothing and the matrix
   * it builds throws (Undefined), after the spread of a grid without cells
   * has already failed (TypeError).
   */
  function CorrelateOf(inner: Inner, x: Result<Option<Grid>>, zero: Id): (Inner, Outcome)
    requires inner.Defined? ==> Fits(inner.value)
    requires x.Ok? && x.value.Some? ==> Fits(x.value.value)
  {
    if x.Err? then (inner, Fail(x.error))
    else if !inner.Defined? then (inner, Fail(TypeError))
    else if x.value.None? then
      (inner, Fail(if inner.value.rows == 0 || inner.value.cols == 0 then TypeError else Undefined))
    else
      var c := ConvolutionOf(inner.value, x.value.value, zero);
      (Defined(c.0), c.1)
  }

  /** One window's product, computed with the product loops. */
  method Window(roots: Grid, k: Grid, zero: Id, i: nat, j: nat) returns (r: Result<Cell>)
    requires Fits(roots) && Fits(k)
    ensures r == WindowCell(roots, k, zero, i, j)
  {
    var kv := TransposeOf(Vec(Started(k)));
    if kv.Err? {
      return Err(kv.error);
    }
    var x := Roots(Vec(GridPart(Started(roots), i, j, k.rows, k.cols)));
    if x.Err? {
      return Err(x.error);
    }
    TransposedFits(Vec(Started(k)));
    var m, b := kv.value, x.value;
    if m.cols != b.rows {
      return Err(Undefined);
    }
    if b.rows == 0 || b.cols == 0 || !Convertible(b) || !Builders(m) {
      return Err(TypeError);
    }
    var p := ProductGrid(m, b, zero);
    if m.rows == 0 {
      return Err(TypeError);
    }
    r := Ok(First(Transposed(p).data));
  }

  /** The two window loops of Convolute and Correlate, pushing one product per window. */
  method WindowGrid(roots: Grid, k: Grid, zero: Id, nr: nat, nc: nat) returns (r: Result<seq<Cell>>)
    requires Fits(roots) && Fits(k)
    ensures r == WindowRows(roots, k, zero, nc, nr)
  {
    ghost var f := GridRows(roots, k, zero, nc);
    ghost var rows: seq<seq<Cell>> := [];
    var data: seq<Cell> := [];
    var i := 0;
    while i < nr
      invariant i <= nr && Collect(Results(f, i)) == Ok(rows) && data == Concat(rows)
    {
      var row := WindowLine(roots, k, zero, i, nc);
      assert f(i) == row;
      CollectSnoc(Results(f, i), row);
      if row.Err? {
        ResultsStop(f, i + 1, nr);
        return Err(row.error);
      }
      ConcatSnoc(rows, row.value);
      rows := rows + [row.value];
      data := data + row.value;
      i := i + 1;
    }
    r := Ok(data);
  }

  /** The inner loop: the windows of row i. */
  method WindowLine(roots: Grid, k: Grid, zero: Id, i: nat, nc: nat) returns (r: Result<seq<Cell>>)
    requires Fits(roots) && Fits(k)
    ensures r == WindowRow(roots, k, zero, i, nc)
  {
    ghost var f := RowWindows(roots, k, zero, i);
    var data: seq<Cell> := [];
    var j := 0;
    while j < nc
      invariant j <= nc && Collect(Results(f, j)) == Ok(data)
    {
      var c := Window(roots, k, zero, i, j);
      assert f(j) == c;
      CollectSnoc(Results(f, j), c);
      if c.Err? {
        ResultsStop(f, j + 1, nc);
        return Err(c.error);
      }
      data := data + [c.value];
      j := j + 1;
    }
    r := Ok(data);
  }

  lemma {:induction false} ResultsAt<T>(f: nat -> Result<T>, n: nat, t: nat)
    requires t < n
    ensures Results(f, n)[t] == f(t)
    decreases n
  {
    if t < n - 1 {
      ResultsAt(f, n - 1, t);
    }
  }

  /** Once the first j results fail, any longer run fails with the same error. */
  lemma {:induction false} ResultsStop<T>(f: nat -> Result<T>, j: nat, n: nat)
    requires j <= n && Collect(Results(f, j)).Err?
    ensures Collect(Results(f, n)) == Collect(Results(f, j))
    decreases n
  {
    if n > j {
      ResultsStop(f, j, n - 1);
      CollectSnoc(Results(f, n - 1), f(n - 1));
    }
  }

  /** When every result succeeds, so does the run, with every value in its place. */
  lemma ResultsOk<T>(f: nat -> Result<T>, n: nat)
    requires forall t | 0 <= t < n :: f(t).Ok?
    ensures Collect(Results(f, n)).Ok?
    ensures forall t | 0 <= t < n :: Collect(Results(f, n)).value[t] == f(t).value
  {
    forall t | 0 <= t < n
      ensures Results(f, n)[t] == f(t)
    {
      ResultsAt(f, n, t);
    }
    CollectAll(Results(f, n));
  }

  lemma CollectSnoc<T>(rs: seq<Result<T>>, r: Result<T>)
    ensures Collect(rs + [r]) == if Collect(rs).Err? then Collect(rs) else if r.Err? then Err(r.error) else Ok(Collect(rs).value + [r.value])
  {
    assert (rs + [r])[..|rs|] == rs;
  }

  /** Collecting succeeds exactly when every result does, and then keeps every value in its place. */
  lemma {:induction false} CollectAll<T>(rs: seq<Result<T>>)
    ensures Collect(rs).Ok? <==> forall t | 0 <= t < |rs| :: rs[t].Ok?
    ensures Collect(rs).Ok? ==> forall t | 0 <= t < |rs| :: Collect(rs).value[t] == rs[t].value
    decreases |rs|
  {
    if rs != [] {
      var init := rs[..|rs| - 1];
      CollectAll(init);
      assert forall t | 0 <= t < |init| :: init[t] == rs[t];
    }
  }

  /** Every cell of a successful run of the loops is one window: n rows of nc. */
  lemma WindowRowsLength(roots: Grid, k: Grid, zero: Id, nc: nat, n: nat)
    requires Fits(roots) && Fits(k) && WindowRows(roots, k, zero, nc, n).Ok?
    ensures |WindowRows(roots, k, zero, nc, n).value| == n * nc
  {
    var f := GridRows(roots, k, zero, nc);
    var all := Results(f, n);
    CollectAll(all);
    var rows := Collect(all).value;
    forall t | 0 <= t < n
      ensures |rows[t]| == nc
    {
      ResultsAt(f, n, t);
      assert rows[t] == f(t).value;
    }
    ConcatLength(rows, nc);
  }

  /** Cells a convolution can start from: bare ids and builders on a bare id. */
  predicate Plain(g: Grid) {
    forall c | c in g.data :: c.Ref? || (c.Builder? && c.root.Leaf?)
  }

  /** The transposition of a column is the same cells as one row. */
  lemma ColumnTransposed(m: Grid)
    requires Fits(m) && m.cols == 1
    ensures Transposed(m).data == m.data
  {
    var cols := Columns(m);
    assert cols == [Column(m, 0)];
    assert Column(m, 0) == m.data;
    assert Concat(cols) == Concat([]) + cols[0];
  }

  /** A part that lies inside the grid holds only cells of the grid. */
  lemma PartInside(m: Grid, row: nat, col: nat, height: nat, width: nat)
    requires Fits(m) && row + height <= m.rows && col + width <= m.cols
    ensures forall c | c in GridPart(m, row, col, height, width).data :: c in m.data
  {
    var part := GridPart(m, row, col, height, width);
    forall t | 0 <= t < |part.data|
      ensures part.data[t] in m.data
    {
      SplitIndex(t, height, width);
      var i, j := t / width, t % width;
      GridPartAt(m, row, col, height, width, i, j);
      AtInside(m, row + i, col + j);
    }
  }

  /** The padded grid holds the cells of the grid and the bare ZERO id. */
  lemma PaddedInside(m: Grid, pr: nat, pc: nat, zero: Id)
    requires Fits(m)
    ensures forall c | c in Padded(m, pr, pc, zero).data :: c in m.data || c == Ref(zero)
  {
    var g := Padded(m, pr, pc, zero);
    forall t | 0 <= t < |g.data|
      ensures g.data[t] in m.data || g.data[t] == Ref(zero)
    {
      SplitIndex(t, g.rows, g.cols);
      var r, c := t / g.cols, t % g.cols;
      PaddedCell(m, pr, pc, zero, r, c);
      if pr <= r < pr + m.rows && pc <= c < pc + m.cols {
        AtInside(m, r - pr, c - pc);
      }
    }
  }

  /** Every window that lies inside a grid of bare ids, with a plain filter that has cells, gives its product. */
  lemma WindowInside(roots: Grid, k: Grid, zero: Id, i: nat, j: nat)
    requires Fits(roots) && Fits(k) && Plain(k) && forall c | c in roots.data :: c.Ref?
    requires k.rows > 0 && k.cols > 0 && i + k.rows <= roots.rows && j + k.cols <= roots.cols
    ensures WindowCell(roots, k, zero, i, j).Ok?
  {
    var line := Vec(Started(k));
    MulMono(k.cols, k.rows);
    ColumnTransposed(line);
    TransposedFits(line);
    var kv := Transposed(line);
    assert Builders(kv) by {
      forall t | 0 <= t < |kv.data|
        ensures kv.data[t].Builder?
      {
        assert k.data[t] in k.data;
      }
    }
    var started := Started(roots);
    assert forall c | c in started.data :: c.Builder? && c.root.Leaf? by {
      forall t | 0 <= t < |started.data|
        ensures started.data[t].Builder? && started.data[t].root.Leaf?
      {
        assert roots.data[t] in roots.data;
      }
    }
    var part := GridPart(started, i, j, k.rows, k.cols);
    PartInside(started, i, j, k.rows, k.cols);
    var x := Roots(Vec(part));
    assert forall t | 0 <= t < |part.data| :: RootOf(part.data[t]).Ok? && RootOf(part.data[t]).value.Ref? by {
      forall t | 0 <= t < |part.data|
        ensures RootOf(part.data[t]).Ok? && RootOf(part.data[t]).value.Ref?
      {
        assert part.data[t] in part.data;
      }
    }
    assert x.Ok? && Convertible(x.value);
  }

  /** A row of windows inside the grid gives one product per window. */
  lemma WindowRowInside(roots: Grid, k: Grid, zero: Id, i: nat, n: nat)
    requires Fits(roots) && Fits(k) && Plain(k) && forall c | c in roots.data :: c.Ref?
    requires k.rows > 0 && k.cols > 0 && i + k.rows <= roots.rows && n + k.cols <= roots.cols + 1
    ensures WindowRow(roots, k, zero, i, n).Ok?
  {
    var f := RowWindows(roots, k, zero, i);
    forall j | 0 <= j < n
      ensures f(j).Ok?
    {
      WindowInside(roots, k, zero, i, j);
    }
    ResultsOk(f, n);
  }

  /** All the window positions inside the grid give their products. */
  lemma WindowRowsInside(roots: Grid, k: Grid, zero: Id, nc: nat, n: nat)
    requires Fits(roots) && Fits(k) && Plain(k) && forall c | c in roots.data :: c.Ref?
    requires k.rows > 0 && k.cols > 0 && n + k.rows <= roots.rows + 1 && nc + k.cols <= roots.cols + 1
    ensures WindowRows(roots, k, zero, nc, n).Ok?
  {
    var f := GridRows(roots, k, zero, nc);
    forall i | 0 <= i < n
      ensures f(i).Ok?
    {
      WindowRowInside(roots, k, zero, i, nc);
    }
    ResultsOk(f, n);
  }

  /**
   * With a filter of odd height and width, a grid with cells whose cells are
   * bare ids or builders on bare ids is replaced by a grid of the same shape:
   * the padding gives exactly rows × cols window positions.
   */
  lemma ConvolutionKeepsShape(m: Grid, k: Grid, zero: Id)
    requires Fits(m) && Fits(k) && Plain(m) && Plain(k)
    requires m.rows > 0 && m.cols > 0 && k.rows % 2 == 1 && k.cols % 2 == 1
    ensures var c := ConvolutionOf(m, k, zero); c.1 == Pass && Fits(c.0) && c.0.rows == m.rows && c.0.cols == m.cols
  {
    var g := Padded(m, k.rows / 2, k.cols / 2, zero);
    PaddedInside(m, k.rows / 2, k.cols / 2, zero);
    assert Plain(g) by {
      forall c | c in g.data
        ensures c.Ref? || (c.Builder? && c.root.Leaf?)
      {
      }
    }
    var roots := Roots(Started(g));
    assert roots.Ok? && forall c | c in roots.value.data :: c.Ref? by {
      forall t | 0 <= t < |g.data|
        ensures RootOf(Started(g).data[t]).Ok? && RootOf(Started(g).data[t]).value.Ref?
      {
        assert g.data[t] in g.data;
      }
    }
    assert Span(g.rows, k.rows) == m.rows && Span(g.cols, k.cols) == m.cols;
    WindowRowsInside(roots.value, k, zero, m.cols, m.rows);
    WindowRowsLength(roots.value, k, zero, m.cols, m.rows);
  }

  /** a · b < c · d when a ≤ c and b ≤ d, all positive, one of them strictly. */
  lemma ProductGrows(a: nat, b: nat, c: nat, d: nat)
    requires 0 < a <= c && 0 < b <= d && (a < c || b < d)
    ensures a * b < c * d
  {
    assert c * d - a * b == (c - a) * d + a * (d - b);
    MulMono(c - a, d);
    MulMono(d - b, a);
    assert (d - b) * a == a * (d - b);
  }

  /**
   * A filter of even height or width always throws: the padding gives one
   * window position more per row or per column than the grid has cells, so
   * the final matrix does not fit, and the function is left padded.
   */
  lemma ConvolutionEvenFilter(m: Grid, k: Grid, zero: Id)
    requires Fits(m) && Fits(k) && m.rows > 0 && m.cols > 0 && (k.rows % 2 == 0 || k.cols % 2 == 0)
    ensures ConvolutionOf(m, k, zero).1.Fail?
    ensures ConvolutionOf(m, k, zero).0 == Padded(m, k.rows / 2, k.cols / 2, zero)
  {
    var g := Padded(m, k.rows / 2, k.cols / 2, zero);
    var roots := Roots(Started(g));
    if roots.Ok? {
      var nr, nc := Span(g.rows, k.rows), Span(g.cols, k.cols);
      assert nr == m.rows + (if k.rows % 2 == 0 then 1 else 0);
      assert nc == m.cols + (if k.cols % 2 == 0 then 1 else 0);
      var data := WindowRows(roots.value, k, zero, nc, nr);
      if data.Ok? {
        WindowRowsLength(roots.value, k, zero, nc, nr);
        ProductGrows(m.rows, m.cols, nr, nc);
      }
    }
  }
}
