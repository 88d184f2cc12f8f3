/**
 * The matrix records of the sparse-kernel benchmark: a dense matrix stored in one
 * flat vector under a row-major or column-major layout, and the compressed sparse
 * row (CSR) and compressed sparse column (CSC) records that the converters fill.
 */
module Matrix {
  import opened Ints

  /**
   * Matrix elements are single-precision floats in the program. The model keeps
   * them as reals and looks at them only through the nonzero test, so no float
   * rounding is modelled.
   */
  type Float = real

  /**
   * Magnitudes at or below this threshold are treated as zero: the single-precision
   * literal `1e-10f`, whose exact value is 14411519 / 2^57 (about 1.0000000134e-10).
   */
  const NonzeroThreshold: real := 14411519.0 / 144115188075855872.0

  /** The converters' test `abs(v) > 1e-10f`. */
  predicate IsNonzero(v: Float) {
    v > NonzeroThreshold || v < -NonzeroThreshold
  }

  datatype Layout = RowMajor | ColumnMajor

  /** `DenseMatrix`: `rows * cols` elements in one vector, addressed through `layout`. */
  datatype DenseMatrix = DenseMatrix(data: seq<Float>, rows: nat, cols: nat, layout: Layout) {
    predicate Valid() {
      |data| == rows * cols
    }
  }

  /**
   * The position in the flat vector that both `operator()` overloads address:
   * `i * cols + j` in row-major layout, `j * rows + i` in column-major layout.
   */
  function Offset(layout: Layout, rows: nat, cols: nat, i: nat, j: nat): nat {
    match layout
    case RowMajor => i * cols + j
    case ColumnMajor => j * rows + i
  }

  /** `a * b + c < n * b` whenever `a < n` and `c < b`. */
  lemma MulAddBelow(a: nat, b: nat, c: nat, n: nat)
    requires a < n && c < b
    ensures a * b + c < n * b
  {
    ScaleMonotone(a + 1, n, b);
    assert (a + 1) * b == a * b + b;
  }

  /** For indices in range, both layouts address a position inside the vector. */
  lemma OffsetInBounds(layout: Layout, rows: nat, cols: nat, i: nat, j: nat)
    requires i < rows && j < cols
    ensures Offset(layout, rows, cols, i, j) < rows * cols
  {
    match layout
    case RowMajor =>
      MulAddBelow(i, cols, j, rows);
    case ColumnMajor =>
      MulAddBelow(j, rows, i, cols);
      assert cols * rows == rows * cols;
  }

  /** `a * b + c == a' * b + c'` with `c, c' < b` forces `a == a'` and `c == c'`. */
  lemma MulAddInjective(a: nat, c: nat, a': nat, c': nat, b: nat)
    requires c < b && c' < b
    requires a * b + c == a' * b + c'
    ensures a == a' && c == c'
  {
    if a < a' {
      MulAddBelow(a, b, c, a');
      assert false;
    } else if a' < a {
      MulAddBelow(a', b, c', a);
      assert false;
    }
  }

  /** Each layout maps distinct index pairs in range to distinct positions. */
  lemma OffsetInjective(layout: Layout, rows: nat, cols: nat, i: nat, j: nat, i': nat, j': nat)
    requires i < rows && j < cols && i' < rows && j' < cols
    requires Offset(layout, rows, cols, i, j) == Offset(layout, rows, cols, i', j')
    ensures i == i' && j == j'
  {
    match layout
    case RowMajor =>
      MulAddInjective(i, j, i', j', cols);
    case ColumnMajor =>
      MulAddInjective(j, i, j', i', rows);
  }

  /** Every position of the vector is addressed by some index pair in range. */
  lemma OffsetOnto(layout: Layout, rows: nat, cols: nat, k: nat)
    requires k < rows * cols
    ensures exists i: nat, j: nat :: i < rows && j < cols && Offset(layout, rows, cols, i, j) == k
  {
    match layout
    case RowMajor =>
      var i, j := k / cols, k % cols;
      assert k == i * cols + j;
      if i >= rows {
        ScaleMonotone(rows, i, cols);
        assert false;
      }
      assert Offset(layout, rows, cols, i, j) == k;
    case ColumnMajor =>
      var j, i := k / rows, k % rows;
      assert k == j * rows + i;
      if j >= cols {
        ScaleMonotone(cols, j, rows);
        assert false;
      }
      assert Offset(layout, rows, cols, i, j) == k;
  }

  /** The constructor: `rows * cols` zeros in the given layout. */
  function NewDense(r: nat, c: nat, l: Layout): (m: DenseMatrix)
    ensures m.Valid() && m.rows == r && m.cols == c && m.layout == l
    ensures forall k :: 0 <= k < |m.data| ==> m.data[k] == 0.0
  {
    DenseMatrix(seq(r * c, _ => 0.0), r, c, l)
  }

  /** The const accessor: the element at row `i`, column `j`. */
  function At(m: DenseMatrix, i: nat, j: nat): Float
    requires m.Valid() && i < m.rows && j < m.cols
  {
    OffsetInBounds(m.layout, m.rows, m.cols, i, j);
    m.data[Offset(m.layout, m.rows, m.cols, i, j)]
  }

  /**
   * The non-const accessor used as an lvalue, `m(i, j) = v`: it writes the same
   * position the const accessor reads, and no other element moves.
   */
  function Store(m: DenseMatrix, i: nat, j: nat, v: Float): (r: DenseMatrix)
    requires m.Valid() && i < m.rows && j < m.cols
    ensures r.Valid() && r.rows == m.rows && r.cols == m.cols && r.layout == m.layout
    ensures At(r, i, j) == v
    ensures forall i', j' :: 0 <= i' < m.rows && 0 <= j' < m.cols && (i', j') != (i, j) ==>
              At(r, i', j') == At(m, i', j')
  {
    OffsetInBounds(m.layout, m.rows, m.cols, i, j);
    var r := m.(data := m.data[Offset(m.layout, m.rows, m.cols, i, j) := v]);
    forall i', j' | 0 <= i' < m.rows && 0 <= j' < m.cols && (i', j') != (i, j)
      ensures At(r, i', j') == At(m, i', j')
    {
      StoreLeavesOthers(m, r, i, j, v, i', j');
    }
    r
  }

  lemma StoreLeavesOthers(m: DenseMatrix, r: DenseMatrix, i: nat, j: nat, v: Float, i': nat, j': nat)
    requires m.Valid() && i < m.rows && j < m.cols && i' < m.rows && j' < m.cols && (i', j') != (i, j)
    requires Offset(m.layout, m.rows, m.cols, i, j) < |m.data|
    requires r == m.(data := m.data[Offset(m.layout, m.rows, m.cols, i, j) := v])
    ensures r.Valid() && At(r, i', j') == At(m, i', j')
  {
    var p := Offset(m.layout, m.rows, m.cols, i, j);
    var q := Offset(m.layout, m.rows, m.cols, i', j');
    OffsetInBounds(m.layout, m.rows, m.cols, i', j');
    if q == p {
      OffsetInjective(m.layout, m.rows, m.cols, i', j', i, j);
    }
    assert r.data[q] == m.data[q];
  }

  /** A freshly constructed matrix reads as zero everywhere. */
  lemma NewDenseReadsZero(r: nat, c: nat, l: Layout, i: nat, j: nat)
    requires i < r && j < c
    ensures At(NewDense(r, c, l), i, j) == 0.0 && !IsNonzero(At(NewDense(r, c, l), i, j))
  {
    OffsetInBounds(l, r, c, i, j);
  }

  /** `CSRMatrix`: values and column indices in row order, `rows + 1` row pointers. */
  class CsrMatrix {
    var values: seq<Float>
    var colIndices: seq<nat>
    var rowPtrs: array<nat>
    var rows: nat
    var cols: nat

    constructor (r: nat, c: nat)
      ensures rows == r && cols == c
      ensures fresh(rowPtrs) && rowPtrs.Length == r + 1
      ensures forall k :: 0 <= k < rowPtrs.Length ==> rowPtrs[k] == 0
      ensures values == [] && colIndices == []
    {
      rows, cols := r, c;
      values, colIndices := [], [];
      rowPtrs := new nat[r + 1](_ => 0);
    }
  }

  /** `CSCMatrix`: values and row indices in column order, `cols + 1` column pointers. */
  class CscMatrix {
    var values: array<Float>
    var rowIndices: array<nat>
    var colPtrs: array<nat>
    var rows: nat
    var cols: nat

    constructor (r: nat, c: nat)
      ensures rows == r && cols == c
      ensures fresh(colPtrs) && colPtrs.Length == c + 1
      ensures forall k :: 0 <= k < colPtrs.Length ==> colPtrs[k] == 0
      ensures fresh(values) && fresh(rowIndices) && values.Length == 0 && rowIndices.Length == 0
    {
      rows, cols := r, c;
      values := new Float[0];
      rowIndices := new nat[0];
      colPtrs := new nat[c + 1](_ => 0);
    }
  }
}
