/** The array helpers of the library's MISC namespace: initArray, toOneDimension, shapeArray and map. */
module Misc {
  import opened Wrappers
  import opened Numbers
  import opened Arith

  /** initArray(length, value): an array of `length` copies of `value` (none when length <= 0). */
  method InitArray<T>(length: int, value: T) returns (arr: seq<T>)
    ensures |arr| == if length > 0 then length else 0
    ensures forall i | 0 <= i < |arr| :: arr[i] == value
  {
    arr := [];
    var i := 0;
    while i < length
      invariant 0 <= i == |arr|
      invariant i <= if length > 0 then length else 0
      invariant forall k | 0 <= k < |arr| :: arr[k] == value
    {
      arr := arr + [value];
      i := i + 1;
    }
  }

  /** A JavaScript array whose elements may themselves be arrays. */
  datatype Nested<T> = Item(v: T) | List(items: seq<Nested<T>>)

  /** A flat array viewed as nested data. */
  function Items<T>(xs: seq<T>): (r: seq<Nested<T>>)
    ensures |r| == |xs| && forall i | 0 <= i < |xs| :: r[i] == Item(xs[i])
  {
    seq(|xs|, i requires 0 <= i < |xs| => Item(xs[i]))
  }

  /** Wraps every chunk as an array element. */
  function Lists<T>(cs: seq<seq<Nested<T>>>): (r: seq<Nested<T>>)
    ensures |r| == |cs| && forall i | 0 <= i < |cs| :: r[i] == List(cs[i])
  {
    seq(|cs|, i requires 0 <= i < |cs| => List(cs[i]))
  }

  /** The non-array elements of a nested array, in order (depth first). */
  function Flatten<T>(arr: seq<Nested<T>>): seq<T>
    decreases arr
  {
    if arr == [] then []
    else
      Flatten(arr[..|arr| - 1]) +
      match arr[|arr| - 1]
      case Item(v) => [v]
      case List(items) => Flatten(items)
  }

  /** toOneDimension(arr): concatenates the flattened elements, recursing into nested arrays. */
  method ToOneDimension<T>(arr: seq<Nested<T>>) returns (single: seq<T>)
    ensures single == Flatten(arr)
    decreases arr
  {
    single := [];
    for i := 0 to |arr|
      invariant single == Flatten(arr[..i])
    {
      assert arr[..i + 1][..i] == arr[..i];
      match arr[i]
      case Item(v) =>
        single := single + [v];
      case List(items) =>
        var inner := ToOneDimension(items);
        single := single + inner;
    }
    assert arr[..|arr|] == arr;
  }

  lemma {:induction false} FlattenAppend<T>(a: seq<Nested<T>>, b: seq<Nested<T>>)
    ensures Flatten(a + b) == Flatten(a) + Flatten(b)
    decreases |b|
  {
    if b != [] {
      var b' := b[..|b| - 1];
      assert (a + b)[..|a + b| - 1] == a + b';
      assert (a + b)[|a + b| - 1] == b[|b| - 1];
      FlattenAppend(a, b');
    } else {
      assert a + b == a;
    }
  }

  /** A flat array is its own flattening. */
  lemma {:induction false} FlattenItems<T>(xs: seq<T>)
    ensures Flatten(Items(xs)) == xs
  {
    if xs != [] {
      assert Items(xs)[..|xs| - 1] == Items(xs[..|xs| - 1]);
      FlattenItems(xs[..|xs| - 1]);
    }
  }

  /** Consecutive chunks of `dim` elements; the last one may be shorter. */
  function Chunks<X>(data: seq<X>, dim: nat): seq<seq<X>>
    requires dim > 0
    decreases |data|
  {
    if |data| <= dim then (if data == [] then [] else [data])
    else [data[..dim]] + Chunks(data[dim..], dim)
  }

  /** Appending one element either starts a new chunk (when the last one is full) or extends the last one. */
  lemma {:induction false} ChunksSnoc<X>(xs: seq<X>, x: X, dim: nat)
    requires dim > 0
    ensures var c := Chunks(xs, dim);
      if c == [] || |c[|c| - 1]| == dim then Chunks(xs + [x], dim) == c + [[x]]
      else Chunks(xs + [x], dim) == c[..|c| - 1] + [c[|c| - 1] + [x]]
    decreases |xs|
  {
    if |xs| > dim {
      assert (xs + [x])[..dim] == xs[..dim];
      assert (xs + [x])[dim..] == xs[dim..] + [x];
      ChunksSnoc(xs[dim..], x, dim);
    } else if |xs| == dim {
      assert Chunks(xs + [x], dim) == [(xs + [x])[..dim]] + Chunks((xs + [x])[dim..], dim);
      assert (xs + [x])[..dim] == xs;
      assert (xs + [x])[dim..] == [x];
    } else if xs == [] {
      assert xs + [x] == [x];
    }
  }

  /** The last chunk is full exactly when the length is a multiple of `dim`. */
  lemma {:induction false} LastChunkFull<X>(xs: seq<X>, dim: nat)
    requires dim > 0 && xs != []
    ensures var c := Chunks(xs, dim); c != [] && (|c[|c| - 1]| == dim <==> |xs| % dim == 0)
    decreases |xs|
  {
    if |xs| > dim {
      LastChunkFull(xs[dim..], dim);
      ModStep(|xs|, dim);
    } else {
      ModSmall(|xs|, dim);
    }
  }

  lemma {:induction false} ChunksCount<X>(data: seq<X>, rows: nat, dim: nat)
    requires dim > 0 && |data| == rows * dim
    ensures |Chunks(data, dim)| == rows
    decreases rows
  {
    if rows == 1 {
      assert Chunks(data, dim) == [data];
    } else if rows > 1 {
      MulPred(rows, dim);
      ChunksCount(data[dim..], rows - 1, dim);
    }
  }

  /** Chunk i starts at offset i · dim, written as a sum so that the induction stays linear. */
  lemma {:induction false} ChunkAt<X>(data: seq<X>, dim: nat, i: nat)
    requires dim > 0 && Stride(i, dim) + dim <= |data|
    ensures |Chunks(data, dim)| > i
    ensures Chunks(data, dim)[i] == data[Stride(i, dim)..Stride(i, dim) + dim]
    decreases i
  {
    if |data| == dim {
      assert Chunks(data, dim) == [data];
    } else if i == 0 {
      assert Chunks(data, dim) == [data[..dim]] + Chunks(data[dim..], dim);
    } else {
      var rest := data[dim..];
      var o := Stride(i - 1, dim);
      ChunkAt(rest, dim, i - 1);
      assert Chunks(data, dim) == [data[..dim]] + Chunks(rest, dim);
      assert rest[o..o + dim] == data[o + dim..o + dim + dim];
    }
  }

  lemma ChunkRow<X>(data: seq<X>, rows: nat, dim: nat, i: nat)
    requires dim > 0 && |data| == rows * dim && i < rows
    ensures i * dim + dim <= |data| && |Chunks(data, dim)| > i
    ensures Chunks(data, dim)[i] == data[i * dim..i * dim + dim]
  {
    RowFits(i, rows, dim);
    ChunkAt(data, dim, i);
  }

  /** Chunking a multiple of `dim` elements gives exactly the rows of a row-major grid. */
  lemma ChunksExact<X>(data: seq<X>, rows: nat, dim: nat)
    requires dim > 0 && |data| == rows * dim
    ensures |Chunks(data, dim)| == rows
    ensures forall i | 0 <= i < rows ::
      i * dim + dim <= |data| && Chunks(data, dim)[i] == data[i * dim..i * dim + dim]
  {
    ChunksCount(data, rows, dim);
    forall i | 0 <= i < rows
      ensures i * dim + dim <= |data| && Chunks(data, dim)[i] == data[i * dim..i * dim + dim]
    {
      ChunkRow(data, rows, dim, i);
    }
  }

  lemma FlattenSingle<T>(xs: seq<Nested<T>>)
    ensures Flatten([List(xs)]) == Flatten(xs)
  {
    assert [List(xs)][..0] == [];
  }

  lemma ListsCons<T>(c: seq<Nested<T>>, cs: seq<seq<Nested<T>>>)
    ensures Lists([c] + cs) == [List(c)] + Lists(cs)
  {
  }

  /** Chunking does not change the flattened contents. */
  lemma {:induction false} FlattenChunks<T>(data: seq<Nested<T>>, dim: nat)
    requires dim > 0
    ensures Flatten(Lists(Chunks(data, dim))) == Flatten(data)
    decreases |data|
  {
    if |data| <= dim {
      if data != [] {
        ListsCons(data, []);
        FlattenSingle(data);
      }
    } else {
      var head, tail := data[..dim], data[dim..];
      var rest := Lists(Chunks(tail, dim));
      assert Chunks(data, dim) == [head] + Chunks(tail, dim);
      ListsCons(head, Chunks(tail, dim));
      FlattenAppend([List(head)], rest);
      FlattenSingle(head);
      FlattenChunks(tail, dim);
      assert Flatten(Lists(Chunks(data, dim))) == Flatten(head) + Flatten(tail);
      assert data == head + tail;
      FlattenAppend(head, tail);
    }
  }

  /** The array that shapeArray pops its dimensions from. */
  class Shape {
    var dims: seq<nat>

    constructor (dims: seq<nat>)
      ensures this.dims == dims
    {
      this.dims := dims;
    }
  }

  /** What shapeArray returns, and what is left of the caller's shape array afterwards. */
  datatype Reshaped<T> = Reshaped(result: Result<seq<Nested<T>>>, rest: seq<nat>)

  /**
   * shapeArray(data, shape): chunks the data by the last dimension, then by the
   * one before it, and so on.  A missing or zero dimension with data left to
   * chunk reads a property of `undefined` (a TypeError).
   */
  function ShapeSpec<T>(data: seq<Nested<T>>, dims: seq<nat>): Reshaped<T>
    decreases |dims|
  {
    var rest := if dims == [] then [] else dims[..|dims| - 1];
    if data != [] && (dims == [] || dims[|dims| - 1] == 0) then Reshaped(Err(TypeError), rest)
    else
      var arr := if data == [] then [] else Lists(Chunks(data, dims[|dims| - 1]));
      if rest == [] then Reshaped(Ok(arr), rest) else ShapeSpec(arr, rest)
  }

  method ShapeArray<T>(input: seq<Nested<T>>, shape: Shape) returns (r: Result<seq<Nested<T>>>)
    modifies shape
    ensures r == ShapeSpec(input, old(shape.dims)).result
    ensures shape.dims == ShapeSpec(input, old(shape.dims)).rest
    decreases |shape.dims|
  {
    var data := input;
    var dim: nat := 0;                   // a missing dimension behaves like 0 here
    if shape.dims != [] {
      dim := shape.dims[|shape.dims| - 1];
      shape.dims := shape.dims[..|shape.dims| - 1];
    }
    if data != [] && dim == 0 {
      return Err(TypeError);
    }
    ghost var popped := shape.dims;
    var arr: seq<seq<Nested<T>>> := [];
    var i := 0;
    while i < |data|
      invariant 0 <= i <= |data|
      invariant data != [] ==> dim > 0
      invariant shape.dims == popped
      invariant data != [] ==> arr == Chunks(data[..i], dim)
    {
      assert data[..i + 1] == data[..i] + [data[i]];
      ChunksSnoc(data[..i], data[i], dim);
      if i > 0 {
        LastChunkFull(data[..i], dim);
      }
      if i % dim == 0 {
        arr := arr + [[data[i]]];                             // arr[i / dim] = []
      } else {
        arr := arr[..|arr| - 1] + [arr[|arr| - 1] + [data[i]]];  // arr[i / dim].push(...)
      }
      i := i + 1;
    }
    assert data[..|data|] == data;
    var shaped := if data == [] then [] else Lists(arr);
    if shape.dims != [] {
      r := ShapeArray(shaped, shape);
    } else {
      r := Ok(shaped);
    }
  }

  /** shapeArray never loses or reorders data: flattening its result gives back the input. */
  lemma {:induction false} ShapeRoundTrip<T>(data: seq<Nested<T>>, dims: seq<nat>)
    requires ShapeSpec(data, dims).result.Ok?
    ensures Flatten(ShapeSpec(data, dims).result.value) == Flatten(data)
    decreases |dims|
  {
    var rest := if dims == [] then [] else dims[..|dims| - 1];
    if data != [] {
      FlattenChunks(data, dims[|dims| - 1]);
      if rest != [] {
        ShapeRoundTrip(Lists(Chunks(data, dims[|dims| - 1])), rest);
      }
    } else if rest != [] {
      ShapeRoundTrip(data, rest);
    }
  }

  /** The rows of a row-major grid with `cols` columns. */
  function GridRows<T>(data: seq<T>, rows: nat, cols: nat): (r: seq<Nested<T>>)
    requires |data| == rows * cols
    ensures |r| == rows
  {
    seq(rows, i requires 0 <= i < rows => RowFits(i, rows, cols); List(Items(data[i * cols..i * cols + cols])))
  }

  /**
   * shapeArray(data, [rows, cols]) (as twoDimensionalArray calls it) is a single
   * array holding the rows; it is empty, so that its element 0 is undefined, when
   * the grid has no cells.
   */
  lemma TwoDimensional<T>(data: seq<T>, rows: nat, cols: nat)
    requires |data| == rows * cols
    ensures rows > 0 && cols > 0 ==> ShapeSpec(Items(data), [rows, cols]).result == Ok([List(GridRows(data, rows, cols))])
    ensures rows == 0 || cols == 0 ==> ShapeSpec(Items(data), [rows, cols]).result == Ok([])
  {
    assert [rows, cols][..1] == [rows];
    if rows > 0 && cols > 0 {
      RowFits(0, rows, cols);
      var level := Lists(Chunks(Items(data), cols));
      ChunkedRows(data, rows, cols);
      assert ShapeSpec(Items(data), [rows, cols]) == ShapeSpec(level, [rows]);
      assert |level| == rows;
      assert Chunks(level, rows) == [level];
      assert [rows][..0] == [];
      assert Lists([level]) == [List(level)];
      assert ShapeSpec(level, [rows]).result == Ok([List(level)]);
    } else {
      assert rows * cols == 0;
    }
  }

  lemma ChunkedRows<T>(data: seq<T>, rows: nat, cols: nat)
    requires |data| == rows * cols && cols > 0
    ensures Lists(Chunks(Items(data), cols)) == GridRows(data, rows, cols)
  {
    ChunksExact(Items(data), rows, cols);
    var level := Lists(Chunks(Items(data), cols));
    forall i | 0 <= i < rows
      ensures level[i] == GridRows(data, rows, cols)[i]
    {
      RowFits(i, rows, cols);
      assert Items(data)[i * cols..i * cols + cols] == Items(data[i * cols..i * cols + cols]);
    }
  }

  /** MISC.map: maps `val` from the range [min, max] linearly onto [newMin, newMax]. */
  function MapRange(val: Num, min: Num, max: Num, newMin: Num, newMax: Num): (r: Num)
    ensures val.Fin? && min.Fin? && max.Fin? && newMin.Fin? && newMax.Fin? && min != max ==> r.Fin?
    ensures val.NaN? || min.NaN? || max.NaN? || newMin.NaN? || newMax.NaN? ==> r.NaN?
  {
    Plus(Times(Over(Minus(val, min), Minus(max, min)), Minus(newMax, newMin)), newMin)
  }

  /** On finite values with min != max, map is the linear interpolation through both endpoints. */
  lemma MapRangeLinear(val: real, min: real, max: real, newMin: real, newMax: real)
    requires min != max
    ensures MapRange(Fin(val), Fin(min), Fin(max), Fin(newMin), Fin(newMax))
         == Fin((val - min) / (max - min) * (newMax - newMin) + newMin)
    ensures MapRange(Fin(min), Fin(min), Fin(max), Fin(newMin), Fin(newMax)) == Fin(newMin)
    ensures MapRange(Fin(max), Fin(min), Fin(max), Fin(newMin), Fin(newMax)) == Fin(newMax)
  {
  }

  /** A degenerate source range (min == max) maps every value to NaN or an infinity. */
  lemma MapRangeDegenerate(val: real, m: real, newMin: real, newMax: real)
    ensures !MapRange(Fin(val), Fin(m), Fin(m), Fin(newMin), Fin(newMax)).Fin?
  {
  }
}
