/**
 * The dense-to-sparse converters `dense_to_csr` and `dense_to_csc`.
 *
 * Both compress a sequence of "lines" of the dense matrix: CSR compresses the rows,
 * CSC the columns. A compressed line is the list of positions (and values) of the
 * entries that pass the nonzero test, in increasing position order; the index array
 * is the concatenation of the compressed lines and the pointer array holds the
 * running lengths of that concatenation.
 */
module SparseConversion {
  import opened Matrix

  // ---------------------------------------------------------------------------
  // One compressed line

  /** Positions of the entries of `s` that pass the nonzero test, in increasing order. */
  function NonzeroPositions(s: seq<Float>): seq<nat>
  {
    if s == [] then []
    else NonzeroPositions(s[..|s| - 1]) + (if IsNonzero(s[|s| - 1]) then [|s| - 1] else [])
  }

  /** The values of the entries of `s` that pass the nonzero test, in position order. */
  function NonzeroValues(s: seq<Float>): seq<Float>
  {
    if s == [] then []
    else NonzeroValues(s[..|s| - 1]) + (if IsNonzero(s[|s| - 1]) then [s[|s| - 1]] else [])
  }

  /** The number of entries of `s` that pass the nonzero test. */
  function Count(s: seq<Float>): nat {
    |NonzeroPositions(s)|
  }

  /**
   * A compressed line lists exactly the passing entries of `s`, each once, in
   * strictly increasing position order, together with their values.
   */
  lemma NonzeroPositionsCorrect(s: seq<Float>)
    ensures |NonzeroValues(s)| == |NonzeroPositions(s)|
    ensures forall k :: 0 <= k < |NonzeroPositions(s)| ==>
              NonzeroPositions(s)[k] < |s| && IsNonzero(s[NonzeroPositions(s)[k]]) &&
              NonzeroValues(s)[k] == s[NonzeroPositions(s)[k]]
    ensures forall k1, k2 :: 0 <= k1 < k2 < |NonzeroPositions(s)| ==>
              NonzeroPositions(s)[k1] < NonzeroPositions(s)[k2]
    ensures forall j :: 0 <= j < |s| && IsNonzero(s[j]) ==> j in NonzeroPositions(s)
  {
    NonzeroPositionsSound(s);
    NonzeroPositionsSorted(s);
    NonzeroPositionsComplete(s);
  }

  /** Each listed position is inside `s`, passes the test, and carries its value. */
  lemma {:induction false} NonzeroPositionsSound(s: seq<Float>)
    ensures |NonzeroValues(s)| == |NonzeroPositions(s)|
    ensures forall k :: 0 <= k < |NonzeroPositions(s)| ==>
              NonzeroPositions(s)[k] < |s| && IsNonzero(s[NonzeroPositions(s)[k]]) &&
              NonzeroValues(s)[k] == s[NonzeroPositions(s)[k]]
  {
    if s != [] {
      var init := s[..|s| - 1];
      NonzeroPositionsSound(init);
      assert forall k :: 0 <= k < |init| ==> init[k] == s[k];
    }
  }

  /** The listed positions strictly increase and stay below `|s|`. */
  lemma {:induction false} NonzeroPositionsSorted(s: seq<Float>)
    ensures forall k :: 0 <= k < |NonzeroPositions(s)| ==> NonzeroPositions(s)[k] < |s|
    ensures forall k1, k2 :: 0 <= k1 < k2 < |NonzeroPositions(s)| ==>
              NonzeroPositions(s)[k1] < NonzeroPositions(s)[k2]
  {
    if s != [] {
      NonzeroPositionsSorted(s[..|s| - 1]);
    }
  }

  /** Every passing position of `s` is listed. */
  lemma {:induction false} NonzeroPositionsComplete(s: seq<Float>)
    ensures forall j :: 0 <= j < |s| && IsNonzero(s[j]) ==> j in NonzeroPositions(s)
  {
    if s != [] {
      var init := s[..|s| - 1];
      NonzeroPositionsComplete(init);
      assert forall j :: 0 <= j < |init| ==> init[j] == s[j];
    }
  }

  /** Looking at one more entry of `s` appends at most that entry to the compressed prefix. */
  lemma NonzeroPositionsStep(s: seq<Float>, n: nat)
    requires n < |s|
    ensures NonzeroPositions(s[..n + 1]) == NonzeroPositions(s[..n]) + (if IsNonzero(s[n]) then [n] else [])
    ensures NonzeroValues(s[..n + 1]) == NonzeroValues(s[..n]) + (if IsNonzero(s[n]) then [s[n]] else [])
  {
    assert s[..n + 1][..n] == s[..n];
  }

  /** Compressing a prefix of `s` yields a prefix of the compressed `s`. */
  lemma {:induction false} NonzeroPositionsPrefix(s: seq<Float>, n: nat)
    requires n <= |s|
    ensures NonzeroPositions(s[..n]) <= NonzeroPositions(s)
    ensures NonzeroValues(s[..n]) <= NonzeroValues(s)
    decreases |s| - n
  {
    if n == |s| {
      assert s[..n] == s;
    } else {
      NonzeroPositionsStep(s, n);
      NonzeroPositionsPrefix(s, n + 1);
    }
  }

  // ---------------------------------------------------------------------------
  // A sequence of compressed lines

  /** The index array: the compressed lines one after the other. */
  function Indices(lines: seq<seq<Float>>): seq<nat>
  {
    if lines == [] then []
    else Indices(lines[..|lines| - 1]) + NonzeroPositions(lines[|lines| - 1])
  }

  /** The value array: the values of the compressed lines one after the other. */
  function Values(lines: seq<seq<Float>>): seq<Float>
  {
    if lines == [] then []
    else Values(lines[..|lines| - 1]) + NonzeroValues(lines[|lines| - 1])
  }

  /** The pointer array: where each compressed line starts, plus the total at the end. */
  function Pointers(lines: seq<seq<Float>>): seq<nat>
  {
    seq(|lines| + 1, t requires 0 <= t <= |lines| => |Indices(lines[..t])|)
  }

  lemma IndicesStep(lines: seq<seq<Float>>, t: nat)
    requires t < |lines|
    ensures Indices(lines[..t + 1]) == Indices(lines[..t]) + NonzeroPositions(lines[t])
    ensures Values(lines[..t + 1]) == Values(lines[..t]) + NonzeroValues(lines[t])
  {
    assert lines[..t + 1][..t] == lines[..t];
  }

  lemma {:induction false} ValuesLength(lines: seq<seq<Float>>)
    ensures |Values(lines)| == |Indices(lines)|
  {
    if lines != [] {
      ValuesLength(lines[..|lines| - 1]);
      NonzeroPositionsCorrect(lines[|lines| - 1]);
    }
  }

  /** The lines compressed so far are a prefix of all the lines compressed. */
  lemma {:induction false} IndicesPrefix(lines: seq<seq<Float>>, t: nat)
    requires t <= |lines|
    ensures Indices(lines[..t]) <= Indices(lines) && Values(lines[..t]) <= Values(lines)
    decreases |lines| - t
  {
    if t == |lines| {
      assert lines[..t] == lines;
    } else {
      IndicesStep(lines, t);
      IndicesPrefix(lines, t + 1);
    }
  }

  /**
   * The pointer array has one entry per line plus one. It starts at 0, it grows by
   * each line's count, so it never decreases, and it ends at the length of the index
   * and value arrays.
   */
  lemma PointersShape(lines: seq<seq<Float>>)
    ensures |Pointers(lines)| == |lines| + 1 && Pointers(lines)[0] == 0
    ensures Pointers(lines)[|lines|] == |Indices(lines)| == |Values(lines)|
    ensures forall t :: 0 <= t < |lines| ==>
              Pointers(lines)[t + 1] == Pointers(lines)[t] + Count(lines[t])
    ensures forall t, u :: 0 <= t <= u <= |lines| ==> Pointers(lines)[t] <= Pointers(lines)[u]
  {
    assert lines[..|lines|] == lines;
    assert lines[..0] == [];
    ValuesLength(lines);
    forall t | 0 <= t < |lines|
      ensures Pointers(lines)[t + 1] == Pointers(lines)[t] + Count(lines[t])
    {
      PointersStep(lines, t);
    }
    forall t, u | 0 <= t <= u <= |lines|
      ensures Pointers(lines)[t] <= Pointers(lines)[u]
    {
      PointersMonotone(lines, t, u);
    }
  }

  lemma PointersStep(lines: seq<seq<Float>>, t: nat)
    requires t < |lines|
    ensures Pointers(lines)[t + 1] == Pointers(lines)[t] + Count(lines[t])
  {
    IndicesStep(lines, t);
  }

  lemma PointersMonotone(lines: seq<seq<Float>>, t: nat, u: nat)
    requires t <= u <= |lines|
    ensures Pointers(lines)[t] <= Pointers(lines)[u]
  {
    IndicesPrefix(lines[..u], t);
    assert lines[..u][..t] == lines[..t];
  }

  /** Slot `Pointers(lines)[t] + k` of the arrays holds entry `k` of compressed line `t`. */
  lemma SegmentAt(lines: seq<seq<Float>>, t: nat, k: nat)
    requires t < |lines| && k < Count(lines[t])
    ensures k < |NonzeroValues(lines[t])|
    ensures Pointers(lines)[t] + k < |Indices(lines)| == |Values(lines)|
    ensures Indices(lines)[Pointers(lines)[t] + k] == NonzeroPositions(lines[t])[k]
    ensures Values(lines)[Pointers(lines)[t] + k] == NonzeroValues(lines[t])[k]
  {
    IndicesStep(lines, t);
    IndicesPrefix(lines, t + 1);
    ValuesLength(lines[..t]);
    ValuesLength(lines);
    NonzeroPositionsCorrect(lines[t]);
  }

  /** Every slot of the arrays lies in the segment of exactly one line. */
  lemma {:induction false} SegmentOf(lines: seq<seq<Float>>, p: nat) returns (t: nat, k: nat)
    requires p < |Indices(lines)|
    ensures t < |lines| && k < Count(lines[t]) && p == Pointers(lines)[t] + k
  {
    var last := |lines| - 1;
    var before := Indices(lines[..last]);
    assert lines[..last + 1] == lines;
    IndicesStep(lines, last);
    if p < |before| {
      t, k := SegmentOf(lines[..last], p);
      assert lines[..last][..t] == lines[..t];
      assert lines[..last][t] == lines[t];
    } else {
      t, k := last, p - |before|;
    }
  }

  /** Segment `t` of the arrays, between pointers `t` and `t + 1`, is compressed line `t`. */
  lemma LineSegment(lines: seq<seq<Float>>, t: nat)
    requires t < |lines|
    ensures Pointers(lines)[t] <= Pointers(lines)[t + 1] <= |Indices(lines)| == |Values(lines)|
    ensures Indices(lines)[Pointers(lines)[t]..Pointers(lines)[t + 1]] == NonzeroPositions(lines[t])
    ensures Values(lines)[Pointers(lines)[t]..Pointers(lines)[t + 1]] == NonzeroValues(lines[t])
  {
    IndicesSegment(lines, t);
    ValuesSegment(lines, t);
  }

  lemma IndicesSegment(lines: seq<seq<Float>>, t: nat)
    requires t < |lines|
    ensures |Indices(lines[..t])| <= |Indices(lines[..t + 1])| <= |Indices(lines)|
    ensures Indices(lines)[|Indices(lines[..t])|..|Indices(lines[..t + 1])|] == NonzeroPositions(lines[t])
  {
    var A, B := Indices(lines[..t]), Indices(lines[..t + 1]);
    IndicesStep(lines, t);
    IndicesPrefix(lines, t + 1);
    assert Indices(lines)[|A|..|B|] == B[|A|..|B|];
  }

  lemma ValuesSegment(lines: seq<seq<Float>>, t: nat)
    requires t < |lines|
    ensures |Values(lines)| == |Indices(lines)|
    ensures |Indices(lines[..t])| <= |Indices(lines[..t + 1])| <= |Values(lines)|
    ensures Values(lines)[|Indices(lines[..t])|..|Indices(lines[..t + 1])|] == NonzeroValues(lines[t])
  {
    var VA, VB := Values(lines[..t]), Values(lines[..t + 1]);
    IndicesStep(lines, t);
    IndicesPrefix(lines, t + 1);
    ValuesLength(lines[..t]);
    ValuesLength(lines[..t + 1]);
    ValuesLength(lines);
    assert Values(lines)[|VA|..|VB|] == VB[|VA|..|VB|];
  }

  /**
   * Segment `t` of the arrays holds the positions of the passing entries of line `t`,
   * strictly increasing and inside the line, with the line's values at those
   * positions, and every passing entry of the line appears in it.
   */
  lemma LineContents(lines: seq<seq<Float>>, t: nat)
    requires t < |lines|
    ensures var P, I, V := Pointers(lines), Indices(lines), Values(lines);
      P[t + 1] <= |I| == |V| &&
      (forall k :: P[t] <= k < P[t + 1] ==>
         I[k] < |lines[t]| && V[k] == lines[t][I[k]] && IsNonzero(V[k])) &&
      (forall k1, k2 :: P[t] <= k1 < k2 < P[t + 1] ==> I[k1] < I[k2]) &&
      (forall j :: 0 <= j < |lines[t]| && IsNonzero(lines[t][j]) ==>
         exists k :: P[t] <= k < P[t + 1] && I[k] == j)
  {
    LineSegment(lines, t);
    SegmentContents(Indices(lines), Values(lines), Pointers(lines)[t], Pointers(lines)[t + 1], lines[t]);
  }

  /** What a stretch `[lo, hi)` of the arrays holding a compressed line says about that line. */
  lemma SegmentContents(I: seq<nat>, V: seq<Float>, lo: nat, hi: nat, line: seq<Float>)
    requires lo <= hi <= |I| == |V|
    requires I[lo..hi] == NonzeroPositions(line) && V[lo..hi] == NonzeroValues(line)
    ensures forall k :: lo <= k < hi ==> I[k] < |line| && V[k] == line[I[k]] && IsNonzero(V[k])
    ensures forall k1, k2 :: lo <= k1 < k2 < hi ==> I[k1] < I[k2]
    ensures forall j :: 0 <= j < |line| && IsNonzero(line[j]) ==> exists k :: lo <= k < hi && I[k] == j
  {
    SegmentSound(I, V, lo, hi, line);
    SegmentComplete(I, lo, hi, line);
  }

  lemma SegmentSound(I: seq<nat>, V: seq<Float>, lo: nat, hi: nat, line: seq<Float>)
    requires lo <= hi <= |I| == |V|
    requires I[lo..hi] == NonzeroPositions(line) && V[lo..hi] == NonzeroValues(line)
    ensures forall k :: lo <= k < hi ==> I[k] < |line| && V[k] == line[I[k]] && IsNonzero(V[k])
    ensures forall k1, k2 :: lo <= k1 < k2 < hi ==> I[k1] < I[k2]
  {
    var ps, vs := NonzeroPositions(line), NonzeroValues(line);
    NonzeroPositionsSound(line);
    NonzeroPositionsSorted(line);
    assert forall k :: lo <= k < hi ==> I[k] == ps[k - lo] && V[k] == vs[k - lo];
  }

  lemma SegmentComplete(I: seq<nat>, lo: nat, hi: nat, line: seq<Float>)
    requires lo <= hi <= |I|
    requires I[lo..hi] == NonzeroPositions(line)
    ensures forall j :: 0 <= j < |line| && IsNonzero(line[j]) ==> exists k :: lo <= k < hi && I[k] == j
  {
    var ps := NonzeroPositions(line);
    NonzeroPositionsComplete(line);
    forall j | 0 <= j < |line| && IsNonzero(line[j])
      ensures exists k :: lo <= k < hi && I[k] == j
    {
      var m :| 0 <= m < |ps| && ps[m] == j;
      assert I[lo + m] == j;
    }
  }

  // ---------------------------------------------------------------------------
  // Rows and columns of a dense matrix

  function DenseRow(d: DenseMatrix, i: nat): (row: seq<Float>)
    requires d.Valid() && i < d.rows
    ensures |row| == d.cols && forall j :: 0 <= j < d.cols ==> row[j] == At(d, i, j)
  {
    seq(d.cols, j requires 0 <= j < d.cols => At(d, i, j))
  }

  function DenseCol(d: DenseMatrix, j: nat): (col: seq<Float>)
    requires d.Valid() && j < d.cols
    ensures |col| == d.rows && forall i :: 0 <= i < d.rows ==> col[i] == At(d, i, j)
  {
    seq(d.rows, i requires 0 <= i < d.rows => At(d, i, j))
  }

  function Rows(d: DenseMatrix): (lines: seq<seq<Float>>)
    requires d.Valid()
    ensures |lines| == d.rows && forall i :: 0 <= i < d.rows ==> lines[i] == DenseRow(d, i)
  {
    seq(d.rows, i requires 0 <= i < d.rows => DenseRow(d, i))
  }

  function Cols(d: DenseMatrix): (lines: seq<seq<Float>>)
    requires d.Valid()
    ensures |lines| == d.cols && forall j :: 0 <= j < d.cols ==> lines[j] == DenseCol(d, j)
  {
    seq(d.cols, j requires 0 <= j < d.cols => DenseCol(d, j))
  }

  // ---------------------------------------------------------------------------
  // Properties of the CSR and CSC arrays of a dense matrix

  /**
   * CSR row pointers: `rows + 1` entries, starting at 0, non-decreasing, ending at the
   * number of stored values and column indices; row `i` holds as many entries as
   * dense row `i` has passing entries.
   */
  lemma CsrShape(d: DenseMatrix)
    requires d.Valid()
    ensures var P := Pointers(Rows(d));
      |P| == d.rows + 1 && P[0] == 0 &&
      (forall t, u :: 0 <= t <= u <= d.rows ==> P[t] <= P[u]) &&
      P[d.rows] == |Values(Rows(d))| == |Indices(Rows(d))| &&
      (forall i :: 0 <= i < d.rows ==> P[i + 1] - P[i] == Count(DenseRow(d, i)))
  {
    PointersShape(Rows(d));
  }

  /**
   * CSR row `i` is lossless: its column indices are inside the matrix and strictly
   * increasing, each stored value is the dense element at that row and column and
   * passes the nonzero test, and every passing element of the row is stored, so
   * (by the strict order) exactly once.
   */
  lemma CsrRowContents(d: DenseMatrix, i: nat)
    requires d.Valid() && i < d.rows
    ensures var P, I, V := Pointers(Rows(d)), Indices(Rows(d)), Values(Rows(d));
      P[i + 1] <= |I| == |V| &&
      (forall k :: P[i] <= k < P[i + 1] ==>
         I[k] < d.cols && V[k] == At(d, i, I[k]) && IsNonzero(V[k])) &&
      (forall k1, k2 :: P[i] <= k1 < k2 < P[i + 1] ==> I[k1] < I[k2]) &&
      (forall j :: 0 <= j < d.cols && IsNonzero(At(d, i, j)) ==>
         exists k :: P[i] <= k < P[i + 1] && I[k] == j)
  {
    LineContents(Rows(d), i);
  }

  /**
   * CSC column pointers: the prefix sums of the per-column counts, starting at 0,
   * non-decreasing, and ending at the number of stored values and row indices.
   */
  lemma CscShape(d: DenseMatrix)
    requires d.Valid()
    ensures var P := Pointers(Cols(d));
      |P| == d.cols + 1 && P[0] == 0 &&
      (forall j :: 0 <= j < d.cols ==> P[j + 1] == P[j] + Count(DenseCol(d, j))) &&
      (forall t, u :: 0 <= t <= u <= d.cols ==> P[t] <= P[u]) &&
      P[d.cols] == |Values(Cols(d))| == |Indices(Cols(d))|
  {
    PointersShape(Cols(d));
  }

  /**
   * CSC column `j` is lossless: its row indices are inside the matrix and strictly
   * increasing, each stored value is the dense element at that row and column, and
   * every passing element of the column is stored exactly once.
   */
  lemma CscColumnContents(d: DenseMatrix, j: nat)
    requires d.Valid() && j < d.cols
    ensures var P, I, V := Pointers(Cols(d)), Indices(Cols(d)), Values(Cols(d));
      P[j + 1] <= |I| == |V| &&
      (forall k :: P[j] <= k < P[j + 1] ==>
         I[k] < d.rows && V[k] == At(d, I[k], j) && IsNonzero(V[k])) &&
      (forall k1, k2 :: P[j] <= k1 < k2 < P[j + 1] ==> I[k1] < I[k2]) &&
      (forall i :: 0 <= i < d.rows && IsNonzero(At(d, i, j)) ==>
         exists k :: P[j] <= k < P[j + 1] && I[k] == i)
  {
    LineContents(Cols(d), j);
  }

  /** The column counts restricted to the first `r` rows, summed over the first `c` columns. */
  function ColumnPrefixSum(d: DenseMatrix, r: nat, c: nat): nat
    requires d.Valid() && r <= d.rows && c <= d.cols
  {
    if c == 0 then 0 else ColumnPrefixSum(d, r, c - 1) + Count(DenseCol(d, c - 1)[..r])
  }

  /** Taking one more row into the column counts adds that row's count. */
  lemma {:induction false} ColumnPrefixSumStep(d: DenseMatrix, r: nat, c: nat)
    requires d.Valid() && r < d.rows && c <= d.cols
    ensures ColumnPrefixSum(d, r + 1, c) == ColumnPrefixSum(d, r, c) + Count(DenseRow(d, r)[..c])
  {
    if c > 0 {
      ColumnPrefixSumStep(d, r, c - 1);
      NonzeroPositionsStep(DenseCol(d, c - 1), r);
      NonzeroPositionsStep(DenseRow(d, r), c - 1);
    }
  }

  lemma {:induction false} ColumnPrefixSumAllRows(d: DenseMatrix, c: nat)
    requires d.Valid() && c <= d.cols
    ensures ColumnPrefixSum(d, d.rows, c) == |Indices(Cols(d)[..c])|
  {
    if c > 0 {
      ColumnPrefixSumAllRows(d, c - 1);
      IndicesStep(Cols(d), c - 1);
      assert DenseCol(d, c - 1)[..d.rows] == DenseCol(d, c - 1);
    }
  }

  lemma {:induction false} RowsAgreeWithColumns(d: DenseMatrix, r: nat)
    requires d.Valid() && r <= d.rows
    ensures |Indices(Rows(d)[..r])| == ColumnPrefixSum(d, r, d.cols)
  {
    if r == 0 {
      ColumnPrefixSumNoRows(d, d.cols);
    } else {
      RowsAgreeWithColumns(d, r - 1);
      IndicesStep(Rows(d), r - 1);
      ColumnPrefixSumStep(d, r - 1, d.cols);
      assert DenseRow(d, r - 1)[..d.cols] == DenseRow(d, r - 1);
    }
  }

  lemma {:induction false} ColumnPrefixSumNoRows(d: DenseMatrix, c: nat)
    requires d.Valid() && c <= d.cols
    ensures ColumnPrefixSum(d, 0, c) == 0
  {
    if c > 0 {
      ColumnPrefixSumNoRows(d, c - 1);
    }
  }

  /** CSR and CSC built from the same dense matrix store the same number of entries. */
  lemma NonzeroCountsAgree(d: DenseMatrix)
    requires d.Valid()
    ensures |Indices(Rows(d))| == |Indices(Cols(d))|
    ensures |Values(Rows(d))| == |Values(Cols(d))|
  {
    RowsAgreeWithColumns(d, d.rows);
    ColumnPrefixSumAllRows(d, d.cols);
    assert Rows(d)[..d.rows] == Rows(d);
    assert Cols(d)[..d.cols] == Cols(d);
    ValuesLength(Rows(d));
    ValuesLength(Cols(d));
  }

  // ---------------------------------------------------------------------------
  // The converters

  /** `dense_to_csr`: one row-major pass that appends the passing entries of each row. */
  method DenseToCsr(d: DenseMatrix) returns (csr: CsrMatrix)
    requires d.Valid()
    ensures fresh(csr) && fresh(csr.rowPtrs)
    ensures csr.rows == d.rows && csr.cols == d.cols
    ensures csr.rowPtrs[..] == Pointers(Rows(d))
    ensures csr.colIndices == Indices(Rows(d)) && csr.values == Values(Rows(d))
  {
    ghost var lines := Rows(d);
    csr := new CsrMatrix(d.rows, d.cols);
    var nnz := 0;
    csr.rowPtrs[0] := 0;
    var i := 0;
    while i < d.rows
      invariant 0 <= i <= d.rows
      invariant fresh(csr) && fresh(csr.rowPtrs) && csr.rowPtrs.Length == d.rows + 1
      invariant csr.rows == d.rows && csr.cols == d.cols
      invariant csr.colIndices == Indices(lines[..i]) && csr.values == Values(lines[..i])
      invariant nnz == |csr.colIndices|
      invariant csr.rowPtrs[..i + 1] == Pointers(lines)[..i + 1]
    {
      nnz := AppendRow(d, i, csr, nnz);
      IndicesStep(lines, i);
      csr.rowPtrs[i + 1] := nnz;
      assert csr.rowPtrs[..i + 2] == csr.rowPtrs[..i + 1] + [nnz];
      assert Pointers(lines)[..i + 2] == Pointers(lines)[..i + 1] + [Pointers(lines)[i + 1]];
      i := i + 1;
    }
    assert lines[..d.rows] == lines;
    assert csr.rowPtrs[..] == csr.rowPtrs[..d.rows + 1];
  }

  /**
   * The inner loop of `dense_to_csr`: scans row `i` in column order and appends each
   * passing entry's value and column index, so the arrays grow by compressed row `i`.
   */
  method AppendRow(d: DenseMatrix, i: nat, csr: CsrMatrix, nnz0: nat) returns (nnz: nat)
    requires d.Valid() && i < d.rows && nnz0 == |csr.colIndices|
    modifies csr`values, csr`colIndices
    ensures csr.colIndices == old(csr.colIndices) + NonzeroPositions(DenseRow(d, i))
    ensures csr.values == old(csr.values) + NonzeroValues(DenseRow(d, i))
    ensures nnz == |csr.colIndices|
  {
    var row := DenseRow(d, i);
    nnz := nnz0;
    var j := 0;
    assert row[..0] == [];
    while j < d.cols
      invariant 0 <= j <= d.cols
      invariant csr.colIndices == old(csr.colIndices) + NonzeroPositions(row[..j])
      invariant csr.values == old(csr.values) + NonzeroValues(row[..j])
      invariant nnz == |csr.colIndices|
    {
      var val := At(d, i, j);
      NonzeroPositionsStep(row, j);
      if IsNonzero(val) {
        csr.values := csr.values + [val];
        csr.colIndices := csr.colIndices + [j];
        nnz := nnz + 1;
      }
      j := j + 1;
    }
    assert row[..d.cols] == row;
  }

  /** First pass of `dense_to_csc`: the number of passing entries of each column. */
  method CountColumns(d: DenseMatrix) returns (colCounts: array<nat>)
    requires d.Valid()
    ensures fresh(colCounts) && colCounts.Length == d.cols
    ensures forall j :: 0 <= j < d.cols ==> colCounts[j] == Count(DenseCol(d, j))
  {
    colCounts := new nat[d.cols](_ => 0);
    var j := 0;
    while j < d.cols
      invariant 0 <= j <= d.cols
      invariant forall t :: 0 <= t < j ==> colCounts[t] == Count(DenseCol(d, t))
      invariant forall t :: j <= t < d.cols ==> colCounts[t] == 0
    {
      var col := DenseCol(d, j);
      var i := 0;
      assert col[..0] == [];
      while i < d.rows
        invariant 0 <= i <= d.rows
        invariant colCounts[j] == Count(col[..i])
        invariant forall t :: 0 <= t < j ==> colCounts[t] == Count(DenseCol(d, t))
        invariant forall t :: j < t < d.cols ==> colCounts[t] == 0
      {
        NonzeroPositionsStep(col, i);
        if IsNonzero(At(d, i, j)) {
          colCounts[j] := colCounts[j] + 1;
        }
        i := i + 1;
      }
      assert col[..d.rows] == col;
      j := j + 1;
    }
  }

  /**
   * The state of the fill pass for one column whose segment starts at `base`: the
   * first `n` slots of the segment hold the first `n` entries of the compressed column
   * and were written once each, the remaining slots of the segment are not written yet.
   */
  ghost predicate ColumnFilled(ri: seq<nat>, vs: seq<Float>, w: seq<nat>, base: nat, col: seq<Float>, n: nat)
  {
    n <= Count(col) && base + Count(col) <= |ri| && |ri| == |vs| == |w| &&
    |NonzeroValues(col)| == Count(col) &&
    ri[base..base + n] == NonzeroPositions(col)[..n] &&
    vs[base..base + n] == NonzeroValues(col)[..n] &&
    (forall p :: base <= p < base + n ==> w[p] == 1) &&
    (forall p :: base + n <= p < base + Count(col) ==> w[p] == 0)
  }

  /** The fill state of every column, with segment starts `ptrs` and fill counts `offs`. */
  ghost predicate AllFilled(d: DenseMatrix, ptrs: seq<nat>, offs: seq<nat>, ri: seq<nat>, vs: seq<Float>, w: seq<nat>)
    requires d.Valid()
  {
    |ptrs| == d.cols + 1 && |offs| == d.cols && |ri| == |vs| == |w| &&
    forall t :: 0 <= t < d.cols ==> ColumnFilledAt(d, ptrs, offs, ri, vs, w, t)
  }

  /** The fill state of column `t`. */
  ghost predicate ColumnFilledAt(d: DenseMatrix, ptrs: seq<nat>, offs: seq<nat>, ri: seq<nat>, vs: seq<Float>,
                                 w: seq<nat>, t: nat)
    requires d.Valid() && t < d.cols && |ptrs| == d.cols + 1 && |offs| == d.cols
  {
    ColumnFilled(ri, vs, w, ptrs[t], DenseCol(d, t), offs[t])
  }

  /** A write outside a column's segment leaves that column's fill state alone. */
  lemma ColumnFilledFrame(ri: seq<nat>, vs: seq<Float>, w: seq<nat>, base: nat, col: seq<Float>, n: nat,
                          p: nat, x: nat, v: Float)
    requires ColumnFilled(ri, vs, w, base, col, n)
    requires p < |ri| && (p < base || base + Count(col) <= p)
    ensures ColumnFilled(ri[p := x], vs[p := v], w[p := w[p] + 1], base, col, n)
  {
    assert ri[p := x][base..base + n] == ri[base..base + n];
    assert vs[p := v][base..base + n] == vs[base..base + n];
  }

  /** Writing the next entry of the compressed column into the next slot extends the fill. */
  lemma ColumnFilledExtend(ri: seq<nat>, vs: seq<Float>, w: seq<nat>, base: nat, col: seq<Float>, n: nat,
                           x: nat, v: Float)
    requires ColumnFilled(ri, vs, w, base, col, n) && n < Count(col)
    requires NonzeroPositions(col)[n] == x && NonzeroValues(col)[n] == v
    ensures ColumnFilled(ri[base + n := x], vs[base + n := v], w[base + n := w[base + n] + 1], base, col, n + 1)
  {
    var p := base + n;
    assert ri[p := x][base..p + 1] == ri[base..p] + [x];
    assert vs[p := v][base..p + 1] == vs[base..p] + [v];
    assert NonzeroPositions(col)[..n + 1] == NonzeroPositions(col)[..n] + [x];
    assert NonzeroValues(col)[..n + 1] == NonzeroValues(col)[..n] + [v];
  }

  /** Before the fill pass nothing is written into any column segment. */
  lemma FillStart(d: DenseMatrix, ri: seq<nat>, vs: seq<Float>, w: seq<nat>)
    requires d.Valid() && |ri| == |vs| == |w| == |Indices(Cols(d))|
    requires forall p :: 0 <= p < |w| ==> w[p] == 0
    ensures AllFilled(d, Pointers(Cols(d)), seq(d.cols, _ => 0), ri, vs, w)
  {
    var lines := Cols(d);
    var zeros := seq(d.cols, _ => 0);
    forall t | 0 <= t < d.cols
      ensures ColumnFilledAt(d, Pointers(lines), zeros, ri, vs, w, t)
    {
      LineSegment(lines, t);
    }
  }

  /**
   * Element `(i, j)` passes and column `j` has been filled with the passing entries
   * above row `i`: its slot `ptrs[j] + offs[j]` is inside the arrays and inside the
   * segment of column `j`, and writing row `i` and the element there extends the fill
   * of column `j` while every other column keeps its fill.
   */
  lemma FillPlace(d: DenseMatrix, P: seq<nat>, offs: seq<nat>, ri: seq<nat>, vs: seq<Float>, w: seq<nat>,
                  i: nat, j: nat, p: nat)
    requires d.Valid() && i < d.rows && j < d.cols && P == Pointers(Cols(d))
    requires AllFilled(d, P, offs, ri, vs, w)
    requires offs[j] == Count(DenseCol(d, j)[..i]) && IsNonzero(At(d, i, j))
    requires p == P[j] + offs[j]
    ensures p < P[j + 1] && p < |ri|
    ensures AllFilled(d, P, offs[j := offs[j] + 1], ri[p := i], vs[p := At(d, i, j)], w[p := w[p] + 1])
  {
    var lines := Cols(d);
    var v := At(d, i, j);
    FillStep(d, j, i);
    PointersStep(lines, j);
    assert ColumnFilledAt(d, P, offs, ri, vs, w, j);
    ColumnFilledExtend(ri, vs, w, P[j], DenseCol(d, j), offs[j], i, v);
    var offs', ri', vs', w' := offs[j := offs[j] + 1], ri[p := i], vs[p := v], w[p := w[p] + 1];
    forall t | 0 <= t < d.cols
      ensures ColumnFilledAt(d, P, offs', ri', vs', w', t)
    {
      if t != j {
        assert ColumnFilledAt(d, P, offs, ri, vs, w, t);
        FillOther(d, ri, vs, w, offs[t], p, i, v, t, j);
      }
    }
  }

  /** A write inside the segment of column `j` leaves the fill state of column `t != j` alone. */
  lemma FillOther(d: DenseMatrix, ri: seq<nat>, vs: seq<Float>, w: seq<nat>, n: nat, p: nat, x: nat, v: Float,
                  t: nat, j: nat)
    requires d.Valid() && t < d.cols && j < d.cols && t != j
    requires ColumnFilled(ri, vs, w, Pointers(Cols(d))[t], DenseCol(d, t), n)
    requires Pointers(Cols(d))[j] <= p < Pointers(Cols(d))[j + 1] && p < |ri|
    ensures ColumnFilled(ri[p := x], vs[p := v], w[p := w[p] + 1], Pointers(Cols(d))[t], DenseCol(d, t), n)
  {
    var lines := Cols(d);
    PointersStep(lines, t);
    if t < j {
      PointersMonotone(lines, t + 1, j);
    } else {
      PointersMonotone(lines, j + 1, t);
    }
    ColumnFilledFrame(ri, vs, w, Pointers(lines)[t], DenseCol(d, t), n, p, x, v);
  }

  /** With every column completely filled, the arrays are the compressed columns, each slot written once. */
  lemma FillEnd(d: DenseMatrix, offs: seq<nat>, ri: seq<nat>, vs: seq<Float>, w: seq<nat>)
    requires d.Valid() && AllFilled(d, Pointers(Cols(d)), offs, ri, vs, w)
    requires offs == CountsAbove(d, d.rows)
    requires |ri| == |Indices(Cols(d))|
    ensures forall t :: 0 <= t < d.cols ==> offs[t] == Count(DenseCol(d, t))
    ensures ri == Indices(Cols(d)) && vs == Values(Cols(d))
    ensures forall p :: 0 <= p < |w| ==> w[p] == 1
  {
    var lines := Cols(d);
    WholeColumns(d, offs);
    ValuesLength(lines);
    forall p | 0 <= p < |ri|
      ensures ri[p] == Indices(lines)[p] && vs[p] == Values(lines)[p] && w[p] == 1
    {
      var t, k := SegmentOf(lines, p);
      assert ColumnFilledAt(d, Pointers(lines), offs, ri, vs, w, t);
      FillEndAt(d, ri, vs, w, p, t, k);
    }
    assert ri == Indices(lines);
    assert vs == Values(lines);
  }

  /** A slot of a completely filled column holds the matching entry of the compressed columns. */
  lemma FillEndAt(d: DenseMatrix, ri: seq<nat>, vs: seq<Float>, w: seq<nat>, p: nat, t: nat, k: nat)
    requires d.Valid() && t < d.cols && k < Count(DenseCol(d, t))
    requires ColumnFilled(ri, vs, w, Pointers(Cols(d))[t], DenseCol(d, t), Count(DenseCol(d, t)))
    requires p == Pointers(Cols(d))[t] + k
    ensures p < |ri| && p < |Indices(Cols(d))| == |Values(Cols(d))|
    ensures ri[p] == Indices(Cols(d))[p] && vs[p] == Values(Cols(d))[p] && w[p] == 1
  {
    var base, n := Pointers(Cols(d))[t], Count(DenseCol(d, t));
    SegmentAt(Cols(d), t, k);
    assert ri[base..base + n][k] == ri[p];
    assert vs[base..base + n][k] == vs[p];
  }

  /**
   * Second pass of `dense_to_csc`: a row-major sweep that writes each passing entry
   * into slot `colPtrs[j] + colOffsets[j]` of its column and bumps that column's
   * offset. Every computed slot is in bounds, each slot is written exactly once
   * (`writes` counts the writes per slot), the offsets end equal to the column
   * counts, and the arrays end as the compressed columns.
   */
  method FillColumns(d: DenseMatrix, colPtrs: array<nat>, values: array<Float>, rowIndices: array<nat>)
    returns (colOffsets: array<nat>, ghost writes: seq<nat>)
    requires d.Valid() && colPtrs != rowIndices
    requires colPtrs[..] == Pointers(Cols(d))
    requires values.Length == rowIndices.Length == |Indices(Cols(d))|
    modifies values, rowIndices
    ensures fresh(colOffsets) && colOffsets.Length == d.cols
    ensures forall j :: 0 <= j < d.cols ==> colOffsets[j] == Count(DenseCol(d, j))
    ensures rowIndices[..] == Indices(Cols(d)) && values[..] == Values(Cols(d))
    ensures |writes| == values.Length && forall p :: 0 <= p < |writes| ==> writes[p] == 1
  {
    ghost var P := Pointers(Cols(d));
    colOffsets := new nat[d.cols](_ => 0);
    writes := seq(values.Length, _ => 0);
    assert colOffsets[..] == seq(d.cols, _ => 0);
    FillStart(d, rowIndices[..], values[..], writes);
    CountsAboveNone(d);
    var i := 0;
    while i < d.rows
      invariant 0 <= i <= d.rows
      invariant colOffsets[..] == CountsAbove(d, i)
      invariant AllFilled(d, P, colOffsets[..], rowIndices[..], values[..], writes)
    {
      writes := FillRow(d, i, colPtrs, colOffsets, values, rowIndices, P, writes);
      i := i + 1;
    }
    FillEnd(d, colOffsets[..], rowIndices[..], values[..], writes);
  }

  lemma WholeColumns(d: DenseMatrix, offs: seq<nat>)
    requires d.Valid() && offs == CountsAbove(d, d.rows)
    ensures forall t :: 0 <= t < d.cols ==> offs[t] == Count(DenseCol(d, t))
  {
    forall t | 0 <= t < d.cols
      ensures offs[t] == Count(DenseCol(d, t))
    {
      WholeColumn(d, t);
    }
  }

  lemma WholeColumn(d: DenseMatrix, t: nat)
    requires d.Valid() && t < d.cols
    ensures Count(DenseCol(d, t)[..d.rows]) == Count(DenseCol(d, t))
  {
    assert DenseCol(d, t)[..d.rows] == DenseCol(d, t);
  }

  /** One row of the fill pass: every passing element of row `i` goes to the next slot of its column. */
  method FillRow(d: DenseMatrix, i: nat, colPtrs: array<nat>, colOffsets: array<nat>,
                 values: array<Float>, rowIndices: array<nat>, ghost P: seq<nat>, ghost writes0: seq<nat>)
    returns (ghost writes: seq<nat>)
    requires d.Valid() && i < d.rows && P == Pointers(Cols(d)) && colPtrs[..] == P
    requires colOffsets != rowIndices && colPtrs != rowIndices && colPtrs != colOffsets
    requires colOffsets[..] == CountsAbove(d, i)
    requires AllFilled(d, P, colOffsets[..], rowIndices[..], values[..], writes0)
    modifies colOffsets, values, rowIndices
    ensures colOffsets[..] == CountsAbove(d, i + 1)
    ensures AllFilled(d, P, colOffsets[..], rowIndices[..], values[..], writes)
  {
    writes := writes0;
    SweepStart(d, i);
    var j := 0;
    while j < d.cols
      invariant 0 <= j <= d.cols
      invariant colOffsets[..] == SweepCounts(d, i, j)
      invariant AllFilled(d, P, colOffsets[..], rowIndices[..], values[..], writes)
    {
      var val := At(d, i, j);
      FillStep(d, j, i);
      SweepStep(d, i, j);
      if IsNonzero(val) {
        var idx := colPtrs[j] + colOffsets[j];
        ghost var ri0, vs0, offs0 := rowIndices[..], values[..], colOffsets[..];
        FillPlace(d, P, offs0, ri0, vs0, writes, i, j, idx);
        values[idx] := val;
        rowIndices[idx] := i;
        writes := writes[idx := writes[idx] + 1];
        colOffsets[j] := colOffsets[j] + 1;
        assert rowIndices[..] == ri0[idx := i];
        assert values[..] == vs0[idx := val];
        assert colOffsets[..] == offs0[j := offs0[j] + 1];
      }
      j := j + 1;
    }
    SweepEnd(d, i);
  }

  /** Per column, the number of passing entries in the first `i` rows. */
  ghost function CountsAbove(d: DenseMatrix, i: nat): seq<nat>
    requires d.Valid() && i <= d.rows
  {
    seq(d.cols, t requires 0 <= t < d.cols => Count(DenseCol(d, t)[..i]))
  }

  /** The column offsets part-way through row `i`: columns before `j` have taken row `i` in. */
  ghost function SweepCounts(d: DenseMatrix, i: nat, j: nat): seq<nat>
    requires d.Valid() && i < d.rows && j <= d.cols
  {
    seq(d.cols, t requires 0 <= t < d.cols => Count(DenseCol(d, t)[..if t < j then i + 1 else i]))
  }

  lemma CountsAboveNone(d: DenseMatrix)
    requires d.Valid()
    ensures CountsAbove(d, 0) == seq(d.cols, _ => 0)
  {
  }

  lemma SweepStart(d: DenseMatrix, i: nat)
    requires d.Valid() && i < d.rows
    ensures SweepCounts(d, i, 0) == CountsAbove(d, i)
  {
  }

  lemma SweepEnd(d: DenseMatrix, i: nat)
    requires d.Valid() && i < d.rows
    ensures SweepCounts(d, i, d.cols) == CountsAbove(d, i + 1)
  {
  }

  lemma SweepStep(d: DenseMatrix, i: nat, j: nat)
    requires d.Valid() && i < d.rows && j < d.cols
    ensures SweepCounts(d, i, j)[j] == Count(DenseCol(d, j)[..i])
    ensures SweepCounts(d, i, j + 1) ==
            SweepCounts(d, i, j)[j := SweepCounts(d, i, j)[j] + (if IsNonzero(At(d, i, j)) then 1 else 0)]
  {
    FillStep(d, j, i);
  }

  /**
   * What the fill pass needs about element `(i, j)`: the column's count over the first
   * `i + 1` rows grows by one exactly when the element passes, it stays within the
   * column's full count, and in that case entry `Count(col[..i])` of the compressed
   * column is row `i` with the element's value.
   */
  lemma FillStep(d: DenseMatrix, j: nat, i: nat)
    requires d.Valid() && j < d.cols && i < d.rows
    ensures var col := DenseCol(d, j); var v := At(d, i, j);
      |NonzeroValues(col)| == Count(col) &&
      Count(col[..i + 1]) == Count(col[..i]) + (if IsNonzero(v) then 1 else 0) &&
      Count(col[..i + 1]) <= Count(col) &&
      (IsNonzero(v) ==>
         NonzeroPositions(col)[Count(col[..i])] == i &&
         NonzeroValues(col)[Count(col[..i])] == v)
  {
    var col := DenseCol(d, j);
    assert col[i] == At(d, i, j);
    LinePrefixStep(col, i);
  }

  lemma LinePrefixStep(s: seq<Float>, i: nat)
    requires i < |s|
    ensures |NonzeroValues(s)| == Count(s)
    ensures Count(s[..i + 1]) == Count(s[..i]) + (if IsNonzero(s[i]) then 1 else 0)
    ensures Count(s[..i + 1]) <= Count(s)
    ensures IsNonzero(s[i]) ==>
              NonzeroPositions(s)[Count(s[..i])] == i && NonzeroValues(s)[Count(s[..i])] == s[i]
  {
    NonzeroPositionsStep(s, i);
    NonzeroPositionsPrefix(s, i + 1);
    NonzeroPositionsCorrect(s);
    NonzeroPositionsCorrect(s[..i + 1]);
  }

  /** `dense_to_csc`: count per column, prefix-sum the pointers, size the arrays, fill. */
  method DenseToCsc(d: DenseMatrix) returns (csc: CscMatrix)
    requires d.Valid()
    ensures fresh(csc) && fresh(csc.colPtrs) && fresh(csc.values) && fresh(csc.rowIndices)
    ensures csc.rows == d.rows && csc.cols == d.cols
    ensures csc.colPtrs[..] == Pointers(Cols(d))
    ensures csc.rowIndices[..] == Indices(Cols(d)) && csc.values[..] == Values(Cols(d))
  {
    ghost var lines := Cols(d);
    csc := new CscMatrix(d.rows, d.cols);
    var colCounts := CountColumns(d);
    PrefixSums(d, colCounts, csc.colPtrs);
    var nnz := csc.colPtrs[d.cols];
    PointersShape(lines);
    csc.values := new Float[nnz](_ => 0.0);
    csc.rowIndices := new nat[nnz](_ => 0);
    var colOffsets;
    ghost var writes;
    colOffsets, writes := FillColumns(d, csc.colPtrs, csc.values, csc.rowIndices);
  }

  /** The pointer pass of `dense_to_csc`: `colPtrs[j + 1] = colPtrs[j] + colCounts[j]`. */
  method PrefixSums(d: DenseMatrix, colCounts: array<nat>, colPtrs: array<nat>)
    requires d.Valid() && colCounts != colPtrs
    requires colCounts.Length == d.cols && colPtrs.Length == d.cols + 1
    requires forall j :: 0 <= j < d.cols ==> colCounts[j] == Count(DenseCol(d, j))
    modifies colPtrs
    ensures colPtrs[..] == Pointers(Cols(d))
  {
    ghost var lines := Cols(d);
    colPtrs[0] := 0;
    assert lines[..0] == [];
    var j := 0;
    while j < d.cols
      invariant 0 <= j <= d.cols
      invariant colPtrs[..j + 1] == Pointers(lines)[..j + 1]
    {
      PointersStep(lines, j);
      colPtrs[j + 1] := colPtrs[j] + colCounts[j];
      assert colPtrs[..j + 2] == colPtrs[..j + 1] + [colPtrs[j + 1]];
      assert Pointers(lines)[..j + 2] == Pointers(lines)[..j + 1] + [Pointers(lines)[j + 1]];
      j := j + 1;
    }
    assert colPtrs[..] == colPtrs[..d.cols + 1];
  }
}
