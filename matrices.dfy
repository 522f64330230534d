/** Row operations shared by the rank computation and the linear solver: a
    matrix is a sequence of rows, each a sequence of reals. */
module Matrices {
  import opened Vectors

  type Matrix = seq<seq<real>>

  /** Every row of `m` has `cols` entries. */
  predicate IsMatrix(m: Matrix, cols: nat)
  {
    forall i :: 0 <= i < |m| ==> |m[i]| == cols
  }

  /** Row `r` is the partial pivot for column `col` among the rows from `lo`
      on: its entry has the largest magnitude, and no earlier row reaches it
      (the scan replaces its candidate only on a strictly larger entry). */
  predicate IsPivot(m: Matrix, col: nat, lo: nat, r: nat)
    requires forall i :: 0 <= i < |m| ==> col < |m[i]|
  {
    lo <= r < |m| &&
    (forall i :: lo <= i < |m| ==> Abs(m[i][col]) <= Abs(m[r][col])) &&
    (forall i :: lo <= i < r ==> Abs(m[i][col]) < Abs(m[r][col]))
  }

  /** The partial pivot for column `col` among the rows from `lo` on. */
  function PivotRow(m: Matrix, col: nat, lo: nat): (r: nat)
    requires lo < |m| && forall i :: 0 <= i < |m| ==> col < |m[i]|
    ensures IsPivot(m, col, lo, r)
    decreases |m| - lo
  {
    if lo == |m| - 1 then lo
    else
      var rest := PivotRow(m, col, lo + 1);
      if Abs(m[rest][col]) > Abs(m[lo][col]) then rest else lo
  }

  /** There is one partial pivot: any row the scan settles on is `PivotRow`. */
  lemma PivotUnique(m: Matrix, col: nat, lo: nat, r: nat)
    requires lo < |m| && forall i :: 0 <= i < |m| ==> col < |m[i]|
    requires IsPivot(m, col, lo, r)
    ensures r == PivotRow(m, col, lo)
  {
  }

  /** `m` with rows `a` and `b` exchanged. */
  function SwapRows(m: Matrix, a: nat, b: nat): (s: Matrix)
    requires a < |m| && b < |m|
    ensures |s| == |m| && s[a] == m[b] && s[b] == m[a]
    ensures forall i :: 0 <= i < |m| && i != a && i != b ==> s[i] == m[i]
  {
    m[a := m[b]][b := m[a]]
  }

  /** `row` minus `f` times `pivot`, on the columns from `from` on; the
      columns before `from` are left as they are. */
  function SubtractMultiple(row: seq<real>, pivot: seq<real>, f: real, from: nat): (r: seq<real>)
    requires |row| == |pivot|
    ensures |r| == |row|
    ensures forall j :: 0 <= j < from && j < |row| ==> r[j] == row[j]
    ensures forall j :: from <= j < |row| ==> r[j] == row[j] - f * pivot[j]
  {
    seq(|row|, j requires 0 <= j < |row| => if j < from then row[j] else row[j] - f * pivot[j])
  }

  /** The partial-pivot search of column `col` from row `pivotRow` down. */
  method FindPivot(mat: array<seq<real>>, col: nat, pivotRow: nat) returns (maxRow: nat, maxVal: real)
    requires pivotRow < mat.Length && forall k :: 0 <= k < mat.Length ==> col < |mat[k]|
    ensures maxRow == PivotRow(mat[..], col, pivotRow)
    ensures maxVal == Abs(mat[maxRow][col])
  {
    ghost var M := mat[..];
    maxRow := pivotRow;
    maxVal := Abs(mat[maxRow][col]);
    var i := pivotRow + 1;
    while i < mat.Length
      invariant pivotRow < i <= mat.Length && pivotRow <= maxRow < i
      invariant maxVal == Abs(M[maxRow][col])
      invariant forall k :: pivotRow <= k < i ==> Abs(M[k][col]) <= maxVal
      invariant forall k :: pivotRow <= k < maxRow ==> Abs(M[k][col]) < maxVal
    {
      if Abs(mat[i][col]) > maxVal {
        maxVal := Abs(mat[i][col]);
        maxRow := i;
      }
      i := i + 1;
    }
    PivotUnique(M, col, pivotRow, maxRow);
  }

  /** Row `i` loses `factor` times row `pivotRow`, from column `from` on, in place. */
  method SubtractRowInPlace(mat: array<seq<real>>, i: nat, pivotRow: nat, factor: real, from: nat)
    requires i < mat.Length && pivotRow < mat.Length && i != pivotRow
    requires |mat[i]| == |mat[pivotRow]|
    modifies mat
    ensures mat[..] == old(mat[..])[i := SubtractMultiple(old(mat[i]), old(mat[pivotRow]), factor, from)]
  {
    ghost var row := mat[i];
    ghost var pivot := mat[pivotRow];
    var j := from;
    while j < |mat[i]|
      invariant |mat[i]| == |row|
      invariant from <= j
      invariant forall jj :: 0 <= jj < |row| ==>
        mat[i][jj] == if from <= jj < j then row[jj] - factor * pivot[jj] else row[jj]
      invariant forall k :: 0 <= k < mat.Length && k != i ==> mat[k] == old(mat[k])
      decreases |row| - j
    {
      mat[i] := mat[i][j := mat[i][j] - factor * mat[pivotRow][j]];
      j := j + 1;
    }
    ghost var expected := SubtractMultiple(row, pivot, factor, from);
    assert forall jj :: 0 <= jj < |row| ==> mat[i][jj] == expected[jj];
    assert mat[i] == expected;
    assert mat[..] == old(mat[..])[i := expected];
  }
}
