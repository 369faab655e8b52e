/**
 * The Matrix record: `rows`, `cols` and a row-major `data` array.  `Mat` is the
 * value of a record (what it holds at one moment); the class `Matrix` is the
 * record itself, whose `data` array is shared, not copied, and which `set` and
 * `rotateHalf` change in place.
 */
module Matrices {
  import opened Wrappers
  import opened Arith
  import Misc

  datatype Mat<T> = Mat(rows: nat, cols: nat, data: seq<T>)

  /** The shape agrees with the data, as the factory checks. */
  predicate Fits<T>(m: Mat<T>) {
    m.rows * m.cols == |m.data|
  }

  /** `Matrix(rows, cols, data)`: throws (console.warn's undefined) unless rows · cols == data.length. */
  function MakeMatrix<T>(rows: nat, cols: nat, data: seq<T>): (r: Result<Mat<T>>)
    ensures r.Ok? <==> rows * cols == |data|
    ensures r.Ok? ==> Fits(r.value) && r.value.rows == rows && r.value.cols == cols && r.value.data == data
    ensures r.Err? ==> r.error == Undefined
  {
    if rows * cols != |data| then Err(Undefined) else Ok(Mat(rows, cols, data))
  }

  /** `get(row, col)`: the element at row · cols + col, undefined (None) past the end of data. */
  function At<T>(m: Mat<T>, row: nat, col: nat): Option<T> {
    var k := row * m.cols + col;
    if k < |m.data| then Some(m.data[k]) else None
  }

  /** Inside the shape, get finds the cell. */
  lemma AtInside<T>(m: Mat<T>, row: nat, col: nat)
    requires Fits(m) && row < m.rows && col < m.cols
    ensures row * m.cols + col < |m.data| && At(m, row, col) == Some(m.data[row * m.cols + col])
  {
    CellFits(row, col, m.rows, m.cols);
  }

  /** The column is not checked: a column past the last one reads the next row. */
  lemma AtWraps<T>(m: Mat<T>, row: nat, col: nat)
    requires col >= m.cols
    ensures At(m, row, col) == At(m, row + 1, col - m.cols)
  {
    assert row * m.cols + col == (row + 1) * m.cols + (col - m.cols);
  }

  /** `set` followed by `get` at the same place reads the new value; every other index keeps its element. */
  lemma AtAfterSet<T>(m: Mat<T>, row: nat, col: nat, v: T, row': nat, col': nat)
    requires row * m.cols + col < |m.data|
    ensures At(Mat(m.rows, m.cols, m.data[row * m.cols + col := v]), row, col) == Some(v)
    ensures row' * m.cols + col' != row * m.cols + col ==>
      At(Mat(m.rows, m.cols, m.data[row * m.cols + col := v]), row', col') == At(m, row', col')
  {
  }

  /*
   * Rows laid end to end, as the nested push loops and toOneDimension build them.
   */

  function Concat<T>(rows: seq<seq<T>>): seq<T> {
    if rows == [] then [] else Concat(rows[..|rows| - 1]) + rows[|rows| - 1]
  }

  predicate Uniform<T>(rows: seq<seq<T>>, w: nat) {
    forall r | 0 <= r < |rows| :: |rows[r]| == w
  }

  lemma {:induction false} ConcatStride<T>(rows: seq<seq<T>>, w: nat, i: nat, j: nat)
    requires Uniform(rows, w) && i < |rows| && j < w
    ensures |Concat(rows)| == Stride(|rows|, w)
    ensures Stride(i, w) + j < |Concat(rows)| && Concat(rows)[Stride(i, w) + j] == rows[i][j]
    decreases |rows|
  {
    var init := rows[..|rows| - 1];
    if i < |rows| - 1 {
      ConcatStride(init, w, i, j);
    } else if init != [] {
      ConcatStride(init, w, 0, 0);
    }
  }

  lemma ConcatLength<T>(rows: seq<seq<T>>, w: nat)
    requires Uniform(rows, w)
    ensures |Concat(rows)| == |rows| * w
    decreases |rows|
  {
    if rows != [] {
      ConcatLength(rows[..|rows| - 1], w);
    }
  }

  /** Element j of row i sits at i · w + j of the concatenation of rows of width w. */
  lemma ConcatAt<T>(rows: seq<seq<T>>, w: nat, i: nat, j: nat)
    requires Uniform(rows, w) && i < |rows| && j < w
    ensures |Concat(rows)| == |rows| * w
    ensures i * w + j < |Concat(rows)| && Concat(rows)[i * w + j] == rows[i][j]
  {
    ConcatStride(rows, w, i, j);
  }

  lemma ConcatSnoc<T>(rows: seq<seq<T>>, row: seq<T>)
    ensures Concat(rows + [row]) == Concat(rows) + row
  {
    assert (rows + [row])[..|rows|] == rows;
  }

  /*
   * transpose
   */

  /** Column i of m, top to bottom. */
  function Column<T>(m: Mat<T>, i: nat): (r: seq<T>)
    requires Fits(m) && i < m.cols
    ensures |r| == m.rows
  {
    seq(m.rows, j requires 0 <= j < m.rows => CellFits(j, i, m.rows, m.cols); m.data[j * m.cols + i])
  }

  function Columns<T>(m: Mat<T>): (r: seq<seq<T>>)
    requires Fits(m)
    ensures |r| == m.cols && Uniform(r, m.rows)
  {
    seq(m.cols, i requires 0 <= i < m.cols => Column(m, i))
  }

  /** The transposed value: the columns of m become its rows. */
  function Transposed<T>(m: Mat<T>): Mat<T>
    requires Fits(m)
  {
    Mat(m.cols, m.rows, Concat(Columns(m)))
  }

  /** Transposing swaps the shape and moves cell (j, i) to (i, j). */
  lemma TransposedAt<T>(m: Mat<T>, i: nat, j: nat)
    requires Fits(m) && i < m.cols && j < m.rows
    ensures Fits(Transposed(m)) && Transposed(m).rows == m.cols && Transposed(m).cols == m.rows
    ensures j * m.cols + i < |m.data| && i * m.rows + j < |Transposed(m).data|
    ensures Transposed(m).data[i * m.rows + j] == m.data[j * m.cols + i]
  {
    ConcatAt(Columns(m), m.rows, i, j);
    CellFits(j, i, m.rows, m.cols);
    CellFits(i, j, m.cols, m.rows);
  }

  lemma TransposedFits<T>(m: Mat<T>)
    requires Fits(m)
    ensures Fits(Transposed(m)) && Transposed(m).rows == m.cols && Transposed(m).cols == m.rows
  {
    ConcatLength(Columns(m), m.rows);
  }

  /** transpose is an involution. */
  lemma TransposeTwice<T>(m: Mat<T>)
    requires Fits(m)
    ensures Fits(Transposed(m)) && Transposed(Transposed(m)) == m
  {
    var t := Transposed(m);
    TransposedFits(m);
    TransposedFits(t);
    var tt := Transposed(t);
    forall k | 0 <= k < |m.data|
      ensures tt.data[k] == m.data[k]
    {
      SplitIndex(k, m.rows, m.cols);
      var j, i := k / m.cols, k % m.cols;
      TransposedAt(t, j, i);
      TransposedAt(m, i, j);
    }
  }

  /**
   * `transpose()` on a value: `[...twoDimensionalArray()]` spreads undefined (a
   * TypeError) when the matrix has no cells, otherwise the transposed matrix.
   */
  function TransposeOf<T>(m: Mat<T>): (r: Result<Mat<T>>)
    requires Fits(m)
    ensures r.Err? <==> m.rows == 0 || m.cols == 0
    ensures r.Err? ==> r.error == TypeError
    ensures r.Ok? ==> r.value == Transposed(m)
  {
    if m.rows == 0 || m.cols == 0 then Err(TypeError) else Ok(Transposed(m))
  }

  /*
   * getPart
   */

  function PartRow<T>(m: Mat<T>, row: nat, col: nat, i: nat, width: nat): (r: seq<Option<T>>)
    ensures |r| == width
  {
    seq(width, j requires 0 <= j < width => At(m, row + i, col + j))
  }

  function PartRows<T>(m: Mat<T>, row: nat, col: nat, height: nat, width: nat): (r: seq<seq<Option<T>>>)
    ensures |r| == height && Uniform(r, width)
  {
    seq(height, i requires 0 <= i < height => PartRow(m, row, col, i, width))
  }

  /** `getPart(row, col, height, width)`: height × width cells read with get, undefined where get finds none. */
  function Part<T>(m: Mat<T>, row: nat, col: nat, height: nat, width: nat): Mat<Option<T>> {
    Mat(height, width, Concat(PartRows(m, row, col, height, width)))
  }

  /** Cell (i, j) of the part is get(row + i, col + j); the part always fits its shape. */
  lemma PartAt<T>(m: Mat<T>, row: nat, col: nat, height: nat, width: nat, i: nat, j: nat)
    requires i < height && j < width
    ensures Fits(Part(m, row, col, height, width))
    ensures Part(m, row, col, height, width).data[i * width + j] == At(m, row + i, col + j)
  {
    ConcatAt(PartRows(m, row, col, height, width), width, i, j);
  }

  lemma PartFits<T>(m: Mat<T>, row: nat, col: nat, height: nat, width: nat)
    ensures Fits(Part(m, row, col, height, width))
  {
    ConcatLength(PartRows(m, row, col, height, width), width);
  }

  /*
   * rotateHalf
   */

  function Reversed<T>(s: seq<T>): (r: seq<T>)
    ensures |r| == |s| && forall k | 0 <= k < |s| :: r[k] == s[|s| - 1 - k]
  {
    seq(|s|, k requires 0 <= k < |s| => s[|s| - 1 - k])
  }

  lemma ReversedTwice<T>(s: seq<T>)
    ensures Reversed(Reversed(s)) == s
  {
  }

  /** Reversing row-major data turns the matrix by half a turn: cell (i, j) comes from (rows-1-i, cols-1-j). */
  lemma RotatedCell<T>(m: Mat<T>, i: nat, j: nat)
    requires Fits(m) && i < m.rows && j < m.cols
    ensures (m.rows - 1 - i) * m.cols + (m.cols - 1 - j) < |m.data|
    ensures Reversed(m.data)[i * m.cols + j] == m.data[(m.rows - 1 - i) * m.cols + (m.cols - 1 - j)]
  {
    CellFits(i, j, m.rows, m.cols);
    CellFits(m.rows - 1 - i, m.cols - 1 - j, m.rows, m.cols);
    var n := m.rows * m.cols;
    assert (m.rows - 1 - i) * m.cols == n - m.cols - i * m.cols;
  }

  /** The record.  Its data array is shared with whoever handed it over. */
  class Matrix<T> {
    const rows: nat
    const cols: nat
    const data: array<T>

    ghost predicate Valid()
      reads this
    {
      rows * cols == data.Length
    }

    /** What the record holds now. */
    function Value(): (m: Mat<T>)
      reads this, data
      ensures Valid() ==> Fits(m)
    {
      Mat(rows, cols, data[..])
    }

    constructor (rows: nat, cols: nat, data: array<T>)
      requires rows * cols == data.Length
      ensures this.rows == rows && this.cols == cols && this.data == data && Valid()
    {
      this.rows, this.cols, this.data := rows, cols, data;
    }

    /** `get(row, col)` */
    function Get(row: nat, col: nat): (r: Option<T>)
      reads this, data
      ensures r == At(Value(), row, col)
    {
      var k := row * cols + col;
      if k < data.Length then Some(data[k]) else None
    }

    /** `set(row, col, value)` within data; the model does not grow the array. */
    method Set(row: nat, col: nat, value: T)
      requires row * cols + col < data.Length
      modifies data
      ensures data[..] == old(data[..])[row * cols + col := value]
    {
      data[row * cols + col] := value;
    }

    /** `twoDimensionalArray()`: the rows, or undefined (None) when the matrix has no cells. */
    function TwoDimensionalArray(): (r: Option<seq<Misc.Nested<T>>>)
      requires Valid()
      reads this, data
      ensures rows > 0 && cols > 0 ==> r == Some(Misc.GridRows(data[..], rows, cols))
      ensures rows == 0 || cols == 0 ==> r == None
    {
      var cells := data[..];
      Misc.TwoDimensional(cells, rows, cols);
      var shaped := Misc.ShapeSpec(Misc.Items(cells), [rows, cols]).result;
      if shaped.Ok? && shaped.value != [] && shaped.value[0].List? then Some(shaped.value[0].items) else None
    }

    /** `transpose()`: a new cols × rows record; a TypeError for a matrix without cells. */
    method Transpose() returns (r: Result<Matrix<T>>)
      requires Valid()
      ensures r.Err? <==> rows == 0 || cols == 0
      ensures r.Err? ==> r.error == TypeError
      ensures r.Ok? ==> fresh(r.value) && fresh(r.value.data) && r.value.Valid() && r.value.Value() == Transposed(Value())
    {
      if TwoDimensionalArray().None? {
        return Err(TypeError);
      }
      ghost var m := Value();
      var d: seq<T> := [];
      for i := 0 to cols
        invariant d == Concat(Columns(m)[..i])
      {
        for j := 0 to rows
          invariant d == Concat(Columns(m)[..i]) + Column(m, i)[..j]
        {
          CellFits(j, i, rows, cols);
          d := d + [data[j * cols + i]];
        }
        assert Columns(m)[..i + 1] == Columns(m)[..i] + [Column(m, i)];
        ConcatSnoc(Columns(m)[..i], Column(m, i));
      }
      assert Columns(m)[..cols] == Columns(m);
      TransposedFits(m);
      var a := new T[|d|](k requires 0 <= k < |d| => d[k]);
      assert a[..] == d;
      var t := new Matrix(cols, rows, a);
      r := Ok(t);
    }

    /** `getPart(row, col, height, width)`: a new height × width record of what get finds (None for undefined). */
    method GetPart(row: nat, col: nat, height: nat, width: nat) returns (r: Matrix<Option<T>>)
      ensures fresh(r) && fresh(r.data) && r.Valid() && r.Value() == Part(Value(), row, col, height, width)
    {
      ghost var m := Value();
      ghost var rs := PartRows(m, row, col, height, width);
      var d: seq<Option<T>> := [];
      for i := 0 to height
        invariant d == Concat(rs[..i])
      {
        for j := 0 to width
          invariant d == Concat(rs[..i]) + rs[i][..j]
        {
          d := d + [Get(row + i, col + j)];
        }
        assert rs[..i + 1] == rs[..i] + [rs[i]];
        ConcatSnoc(rs[..i], rs[i]);
      }
      assert rs[..height] == rs;
      PartFits(m, row, col, height, width);
      var a := new Option<T>[|d|](k requires 0 <= k < |d| => d[k]);
      assert a[..] == d;
      r := new Matrix(height, width, a);
    }

    /** `rotateHalf()`: reverses data in place (Array.prototype.reverse) and wraps the same array in a new record. */
    method RotateHalf() returns (r: Matrix<T>)
      requires Valid()
      modifies data
      ensures fresh(r) && r.rows == rows && r.cols == cols && r.data == data && r.Valid()
      ensures data[..] == Reversed(old(data[..]))
    {
      var n := data.Length;
      var lo := 0;
      while lo < n / 2
        invariant 0 <= lo <= n / 2
        invariant forall k | 0 <= k < lo :: data[k] == old(data[n - 1 - k]) && data[n - 1 - k] == old(data[k])
        invariant forall k | lo <= k < n - lo :: data[k] == old(data[k])
      {
        data[lo], data[n - 1 - lo] := data[n - 1 - lo], data[lo];
        lo := lo + 1;
      }
      r := new Matrix(rows, cols, data);
    }
  }

  /** `Matrix(rows, cols, data)` over an array: the record keeps the very array it is given. */
  method NewMatrix<T>(rows: nat, cols: nat, data: array<T>) returns (r: Result<Matrix<T>>)
    ensures r.Ok? <==> rows * cols == data.Length
    ensures r.Err? ==> r.error == Undefined
    ensures r.Ok? ==> fresh(r.value) && r.value.Valid() && r.value.data == data && r.value.rows == rows && r.value.cols == cols
  {
    if rows * cols != data.Length {
      return Err(Undefined);
    }
    var m := new Matrix(rows, cols, data);
    r := Ok(m);
  }
}
