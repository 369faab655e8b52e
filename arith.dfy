/** Integer facts behind row-major indexing: `i * cols + j` and its inverse by division. */
module Arith {
  lemma MulMono(a: int, d: int)
    requires d > 0
    ensures a >= 1 ==> a * d >= d
    ensures a <= -1 ==> a * d <= -d
  {
  }

  /** Euclidean division is unique: a quotient and remainder in range are the ones `/` and `%` give. */
  lemma DivModUnique(n: int, d: int, q: int, r: int)
    requires d > 0 && 0 <= r < d && n == q * d + r
    ensures n % d == r && n / d == q
  {
    var q', r' := n / d, n % d;
    assert (q - q') * d == r' - r;
    MulMono(q - q', d);
  }

  lemma ModStep(n: int, d: int)
    requires n >= d > 0
    ensures (n - d) % d == n % d
  {
    var q, r := n / d, n % d;
    assert n == q * d + r;
    assert n - d == (q - 1) * d + r;
    DivModUnique(n - d, d, q - 1, r);
  }

  lemma ModSmall(n: int, d: int)
    requires 0 < n <= d
    ensures n % d == 0 <==> n == d
  {
    if n < d {
      DivModUnique(n, d, 0, n);
    } else {
      DivModUnique(n, d, 1, 0);
    }
  }

  lemma MulPred(n: int, d: int)
    ensures (n - 1) * d + d == n * d
  {
  }

  /** i · d, built by repeated addition so that proofs about offsets stay linear. */
  function Stride(i: nat, d: nat): (r: nat)
    ensures r == i * d
  {
    if i == 0 then 0 else Stride(i - 1, d) + d
  }

  /** Row i of a grid with `rows` rows of `cols` cells lies inside the grid. */
  lemma {:induction false} RowFits(i: int, rows: int, cols: nat)
    requires 0 <= i < rows
    ensures 0 <= i * cols && i * cols + cols <= rows * cols
    decreases rows
  {
    if i < rows - 1 {
      RowFits(i, rows - 1, cols);
    }
    assert rows * cols == (rows - 1) * cols + cols;
  }

  /** Cell (i, j) of a grid with `rows` rows of `cols` cells has a flat index inside the grid. */
  lemma CellFits(i: int, j: int, rows: int, cols: int)
    requires 0 <= i < rows && 0 <= j < cols
    ensures 0 <= i * cols + j < rows * cols
  {
    RowFits(i, rows, cols);
  }

  /** The row and column of flat index `i * cols + j` are recovered by division and remainder. */
  lemma FlatIndex(i: int, j: int, cols: int)
    requires 0 <= j < cols
    ensures (i * cols + j) / cols == i && (i * cols + j) % cols == j
  {
    DivModUnique(i * cols + j, cols, i, j);
  }

  lemma NonPositiveProduct(rows: int, cols: int)
    requires rows >= 0
    ensures cols <= 0 ==> rows * cols <= 0
  {
  }

  /** A flat index inside a grid splits into a row inside the grid and a column inside the row. */
  lemma SplitIndex(k: int, rows: nat, cols: int)
    requires 0 <= k < rows * cols
    ensures cols > 0 && 0 <= k / cols < rows && 0 <= k % cols < cols
    ensures k == (k / cols) * cols + k % cols
  {
    NonPositiveProduct(rows, cols);
    var q := k / cols;
    assert q * cols == (q - rows) * cols + rows * cols;
    MulMono(q - rows + 1, cols);
    assert (q - rows + 1) * cols == (q - rows) * cols + cols;
  }
}
