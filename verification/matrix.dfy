/** A dense real matrix stored row-major in a flat buffer, and its product. */
module Matrices {
  import opened Wrappers

  /** `d` holds the entries row by row. The constructor from a list of values
      does not check that `|d| == rows * cols`. */
  datatype Matrix = Matrix(d: seq<real>, rows: nat, cols: nat)

  /** The buffer has exactly one entry per cell. */
  predicate Valid(m: Matrix) {
    |m.d| == m.rows * m.cols
  }

  /** The error a bounds-checked buffer access raises. */
  datatype MatrixError = OutOfRange

  /** The buffer entry at `k`, or 0 outside the buffer. */
  function Get(d: seq<real>, k: int): real {
    if 0 <= k < |d| then d[k] else 0.0
  }

  /** The entry in row `r`, column `c` of a buffer with `cols` columns. */
  function Cell(d: seq<real>, cols: nat, r: nat, c: nat): real {
    Get(d, r * cols + c)
  }

  function Entry(m: Matrix, r: nat, c: nat): real {
    Cell(m.d, m.cols, r, c)
  }

  /** A `rows` x `cols` matrix of zeros. */
  function Zeros(rows: nat, cols: nat): (m: Matrix)
    ensures Valid(m) && m.rows == rows && m.cols == cols
    ensures forall r, c | 0 <= r < rows && 0 <= c < cols :: Entry(m, r, c) == 0.0
  {
    Matrix(seq(rows * cols, k => 0.0), rows, cols)
  }

  /** The sum of the first `n` products of row `r` of `a` with column `c` of `b`. */
  function RowTimesColumn(a: Matrix, b: Matrix, r: nat, c: nat, n: nat): real {
    if n == 0 then 0.0
    else RowTimesColumn(a, b, r, c, n - 1) + Entry(a, r, n - 1) * Entry(b, n - 1, c)
  }

  /** The buffer accesses the product makes for row `r`, column `c` and
      summation index `i` both land inside the operands' buffers. */
  predicate AccessInRange(a: Matrix, b: Matrix, r: nat, c: nat, i: nat) {
    a.cols * r + i < |a.d| && i * b.cols + c < |b.d|
  }

  /** Every access the product makes is in range. */
  predicate AllAccessesInRange(a: Matrix, b: Matrix) {
    forall r, c, i | 0 <= r < a.rows && 0 <= c < b.cols && 0 <= i < a.cols :: AccessInRange(a, b, r, c, i)
  }

  /** Every access is in range exactly when there is none to make, or both
      buffers hold at least `rows * cols` entries. */
  lemma {:induction false} AccessesInRangeIffLargeEnough(a: Matrix, b: Matrix)
    requires a.cols == b.rows
    ensures AllAccessesInRange(a, b) <==>
      (a.rows == 0 || b.cols == 0 || a.cols == 0 || (a.rows * a.cols <= |a.d| && b.rows * b.cols <= |b.d|))
  {
    if a.rows != 0 && b.cols != 0 && a.cols != 0 {
      if AllAccessesInRange(a, b) {
        assert AccessInRange(a, b, a.rows - 1, b.cols - 1, a.cols - 1);
        assert a.cols * (a.rows - 1) + (a.cols - 1) == a.rows * a.cols - 1;
        assert (a.cols - 1) * b.cols + (b.cols - 1) == b.rows * b.cols - 1;
      }
      if a.rows * a.cols <= |a.d| && b.rows * b.cols <= |b.d| {
        forall r: nat, c: nat, i: nat | r < a.rows && c < b.cols && i < a.cols
          ensures AccessInRange(a, b, r, c, i)
        {
          FlatIndexInBounds(r, i, a.rows, a.cols);
          FlatIndexInBounds(i, c, b.rows, b.cols);
        }
      }
    }
  }

  /** Well-formed operands never cause an out-of-range access. */
  lemma ValidOperandsInRange(a: Matrix, b: Matrix)
    requires Valid(a) && Valid(b) && a.cols == b.rows
    ensures AllAccessesInRange(a, b)
  {
    AccessesInRangeIffLargeEnough(a, b);
  }

  /** Row-major indices of a `rows` x `cols` grid stay inside it. */
  lemma FlatIndexInBounds(r: nat, c: nat, rows: nat, cols: nat)
    requires r < rows && c < cols
    ensures r * cols + c < rows * cols
    ensures cols * r + c < rows * cols
  {
    assert r * cols + c < r * cols + cols == (r + 1) * cols;
    assert (r + 1) * cols <= rows * cols;
  }

  /** Earlier rows of a row-major grid come first. */
  lemma FlatIndexMonotone(r1: nat, c1: nat, r2: nat, c2: nat, cols: nat)
    requires c1 < cols && r1 < r2
    ensures r1 * cols + c1 < r2 * cols + c2
  {
    assert (r1 + 1) * cols <= r2 * cols;
  }

  /** Distinct cells of a row-major grid have distinct indices. */
  lemma FlatIndexDistinct(r1: nat, c1: nat, r2: nat, c2: nat, cols: nat)
    requires c1 < cols && c2 < cols && (r1 != r2 || c1 != c2)
    ensures r1 * cols + c1 != r2 * cols + c2
  {
    if r1 < r2 {
      FlatIndexMonotone(r1, c1, r2, c2, cols);
    } else if r2 < r1 {
      FlatIndexMonotone(r2, c2, r1, c1, cols);
    }
  }

  /** What cell (r, c) of the product buffer holds once the summation has
      reached cell (row, col) and index `i`: finished cells hold the full
      sum, the current cell the first `i` terms, later cells still 0. */
  function Expected(a: Matrix, b: Matrix, r: nat, c: nat, row: nat, col: nat, i: nat): real {
    if r < row || (r == row && c < col) then RowTimesColumn(a, b, r, c, a.cols)
    else if r == row && c == col then RowTimesColumn(a, b, r, c, i)
    else 0.0
  }

  /** The product buffer `d` agrees with `Expected` everywhere. */
  predicate Progress(d: seq<real>, a: Matrix, b: Matrix, row: nat, col: nat, i: nat) {
    && |d| == a.rows * b.cols
    && forall r, c | 0 <= r < a.rows && 0 <= c < b.cols :: Cell(d, b.cols, r, c) == Expected(a, b, r, c, row, col, i)
  }

  /** One step of the summation: adding term `i` to the current cell. */
  lemma AccumulateStep(d: seq<real>, a: Matrix, b: Matrix, row: nat, col: nat, i: nat)
    requires row < a.rows && col < b.cols && i < a.cols
    requires Progress(d, a, b, row, col, i)
    ensures row * b.cols + col < |d|
    ensures Progress(d[row * b.cols + col := d[row * b.cols + col] + Entry(a, row, i) * Entry(b, i, col)],
                     a, b, row, col, i + 1)
  {
    var n := b.cols;
    var idx := row * n + col;
    FlatIndexInBounds(row, col, a.rows, n);
    var d' := d[idx := d[idx] + Entry(a, row, i) * Entry(b, i, col)];
    forall r, c | 0 <= r < a.rows && 0 <= c < n
      ensures Cell(d', n, r, c) == Expected(a, b, r, c, row, col, i + 1)
    {
      FlatIndexInBounds(r, c, a.rows, n);
      if r != row || c != col {
        FlatIndexDistinct(r, c, row, col, n);
        assert Cell(d', n, r, c) == Cell(d, n, r, c);
      } else {
        assert Cell(d, n, row, col) == Expected(a, b, row, col, row, col, i);
        assert Cell(d', n, row, col) == Cell(d, n, row, col) + Entry(a, row, i) * Entry(b, i, col);
      }
    }
  }

  /** A finished cell moves the summation on to the next cell of the row. */
  lemma NextColumn(d: seq<real>, a: Matrix, b: Matrix, row: nat, col: nat)
    requires Progress(d, a, b, row, col, a.cols)
    ensures Progress(d, a, b, row, col + 1, 0)
  {
    forall r, c | 0 <= r < a.rows && 0 <= c < b.cols
      ensures Expected(a, b, r, c, row, col, a.cols) == Expected(a, b, r, c, row, col + 1, 0)
    {
    }
  }

  /** A finished row moves the summation on to the start of the next row. */
  lemma NextRow(d: seq<real>, a: Matrix, b: Matrix, row: nat)
    requires Progress(d, a, b, row, b.cols, 0)
    ensures Progress(d, a, b, row + 1, 0, 0)
  {
    forall r, c | 0 <= r < a.rows && 0 <= c < b.cols
      ensures Expected(a, b, r, c, row, b.cols, 0) == Expected(a, b, r, c, row + 1, 0, 0)
    {
    }
  }

  /** The innermost loop of the product: sums row `row` of `a` times column
      `col` of `b` into the current cell of the product buffer `d`. */
  method SumCell(a: Matrix, b: Matrix, d: seq<real>, row: nat, col: nat) returns (d': seq<real>)
    requires a.cols == b.rows && row < a.rows && col < b.cols
    requires AllAccessesInRange(a, b)
    requires Progress(d, a, b, row, col, 0)
    ensures Progress(d', a, b, row, col, a.cols)
  {
    var n := b.cols;
    var idx := row * n + col;
    d' := d;
    var i := 0;
    while i < a.cols
      invariant 0 <= i <= a.cols
      invariant Progress(d', a, b, row, col, i)
    {
      assert AccessInRange(a, b, row, col, i);
      var ai := a.cols * row + i;
      var bi := i * n + col;
      assert ai == row * a.cols + i;
      assert a.d[ai] * b.d[bi] == Entry(a, row, i) * Entry(b, i, col);
      AccumulateStep(d', a, b, row, col, i);
      d' := d'[idx := d'[idx] + a.d[ai] * b.d[bi]];
      i := i + 1;
    }
  }

  /** The product of `a` and `b`, which must agree on the inner dimension.
      It fails exactly when one of the buffer accesses the summation makes is
      outside an operand's buffer; otherwise it is the `a.rows` x `b.cols`
      matrix whose entry (r, c) is the sum over i of a[r, i] * b[i, c]. */
  method Multiply(a: Matrix, b: Matrix) returns (res: Result<Matrix, MatrixError>)
    requires a.cols == b.rows
    ensures res.Failure? <==> !AllAccessesInRange(a, b)
    ensures res.Success? ==>
      && Valid(res.value) && res.value.rows == a.rows && res.value.cols == b.cols
      && forall r, c | 0 <= r < a.rows && 0 <= c < b.cols ::
           Entry(res.value, r, c) == RowTimesColumn(a, b, r, c, a.cols)
  {
    AccessesInRangeIffLargeEnough(a, b);
    if !(a.rows == 0 || b.cols == 0 || a.cols == 0 || (a.rows * a.cols <= |a.d| && b.rows * b.cols <= |b.d|)) {
      return Failure(OutOfRange);
    }
    var n := b.cols;
    var d := Zeros(a.rows, n).d;
    var row := 0;
    while row < a.rows
      invariant 0 <= row <= a.rows
      invariant Progress(d, a, b, row, 0, 0)
    {
      var col := 0;
      while col < n
        invariant 0 <= col <= n
        invariant Progress(d, a, b, row, col, 0)
      {
        d := SumCell(a, b, d, row, col);
        NextColumn(d, a, b, row, col);
        col := col + 1;
      }
      NextRow(d, a, b, row);
      row := row + 1;
    }
    res := Success(Matrix(d, a.rows, n));
  }
}
