/** The rank of an ordered list of vectors: Gaussian elimination with partial
    pivoting on a working copy whose rows are the vectors. */
module RankEngine {
  import opened Vectors
  import opened Matrices

  /** The working matrix: one row per vector. */
  function RowsOf(vs: seq<Vector3>): (m: Matrix)
    ensures |m| == |vs| && IsMatrix(m, 3)
    ensures forall i :: 0 <= i < |vs| ==> m[i] == Coords(vs[i])
  {
    seq(|vs|, i requires 0 <= i < |vs| => Coords(vs[i]))
  }

  /** `row` minus the multiple of `pivot` that clears its entry in column
      `col`, applied from column `col` on. */
  function ClearedRow(row: seq<real>, pivot: seq<real>, col: nat): (r: seq<real>)
    requires |row| == |pivot| && col < |row| && pivot[col] != 0.0
    ensures r == SubtractMultiple(row, pivot, row[col] / pivot[col], col)
    ensures |r| == |row| && r[col] == 0.0
    ensures forall j :: 0 <= j < col ==> r[j] == row[j]
  {
    var f := row[col] / pivot[col];
    assert f * pivot[col] == row[col];
    SubtractMultiple(row, pivot, f, col)
  }

  /** One elimination step: every row below the pivot row loses the multiple
      of the pivot row that clears its entry in column `col`; the pivot row
      and the rows above it are untouched, and so are the columns before
      `col`. */
  function EliminateBelow(m: Matrix, col: nat, pr: nat): (e: Matrix)
    requires IsMatrix(m, 3) && col < 3 && pr < |m| && m[pr][col] != 0.0
    ensures |e| == |m| && IsMatrix(e, 3)
    ensures forall i :: 0 <= i <= pr ==> e[i] == m[i]
    ensures forall i :: pr < i < |m| ==> e[i] == ClearedRow(m[i], m[pr], col)
  {
    seq(|m|, i requires 0 <= i < |m| => if i <= pr then m[i] else ClearedRow(m[i], m[pr], col))
  }

  /** What the elimination loop computes from column `col` on, given the
      current matrix and pivot row: the final pivot row, which is the rank. */
  function RankFrom(m: Matrix, col: nat, pr: nat): (r: nat)
    requires IsMatrix(m, 3) && col <= 3 && pr <= |m|
    ensures pr <= r <= |m|
    ensures r - pr <= 3 - col
    decreases 3 - col
  {
    if col == 3 || pr == |m| then pr
    else
      var p := PivotRow(m, col, pr);
      if Abs(m[p][col]) < PivotEps then RankFrom(m, col + 1, pr)
      else RankFrom(EliminateBelow(SwapRows(m, pr, p), col, pr), col + 1, pr + 1)
  }

  /** The rank of `vs`: never more than the number of vectors, nor than 3. */
  function Rank(vs: seq<Vector3>): (r: nat)
    ensures r <= |vs| && r <= 3
    ensures |vs| == 0 ==> r == 0
  {
    if |vs| == 0 then 0 else RankFrom(RowsOf(vs), 0, 0)
  }

  /** Clears column `col` below row `pivotRow`, in place. */
  method EliminateBelowInPlace(mat: array<seq<real>>, col: nat, pivotRow: nat)
    requires IsMatrix(mat[..], 3) && col < 3 && pivotRow < mat.Length
    requires mat[pivotRow][col] != 0.0
    modifies mat
    ensures mat[..] == EliminateBelow(old(mat[..]), col, pivotRow)
  {
    ghost var M := mat[..];
    ghost var E := EliminateBelow(M, col, pivotRow);
    var i := pivotRow + 1;
    while i < mat.Length
      invariant pivotRow < i <= mat.Length
      invariant forall k :: 0 <= k < mat.Length ==> mat[k] == if pivotRow < k < i then E[k] else M[k]
    {
      var factor := mat[i][col] / mat[pivotRow][col];
      SubtractRowInPlace(mat, i, pivotRow, factor, col);
      i := i + 1;
    }
    assert mat[..] == E;
  }

  /** One pass of the column loop: pick the pivot of column `col`; when it
      reaches 1e-9 in magnitude, swap it up and clear the column below it,
      and otherwise leave the matrix alone. Whatever happens, the rank still
      to be found is unchanged. */
  method EliminationStep(mat: array<seq<real>>, col: nat, pivotRow: nat) returns (pivoted: bool)
    requires IsMatrix(mat[..], 3) && col < 3 && pivotRow < mat.Length
    modifies mat
    ensures var M := old(mat[..]); pivoted <==> Abs(M[PivotRow(M, col, pivotRow)][col]) >= PivotEps
    ensures !pivoted ==> mat[..] == old(mat[..])
    ensures var M := old(mat[..]);
      pivoted ==> Abs(M[PivotRow(M, col, pivotRow)][col]) >= PivotEps &&
                  mat[..] == EliminateBelow(SwapRows(M, pivotRow, PivotRow(M, col, pivotRow)), col, pivotRow)
    ensures IsMatrix(mat[..], 3)
    ensures RankFrom(mat[..], col + 1, if pivoted then pivotRow + 1 else pivotRow) == RankFrom(old(mat[..]), col, pivotRow)
  {
    ghost var M := mat[..];
    var maxRow, maxVal := FindPivot(mat, col, pivotRow);
    pivoted := maxVal >= PivotEps;
    if pivoted {
      mat[pivotRow], mat[maxRow] := mat[maxRow], mat[pivotRow];
      assert mat[..] == SwapRows(M, pivotRow, maxRow);
      EliminateBelowInPlace(mat, col, pivotRow);
    }
  }

  /** calculateRank: elimination on a copy of the vectors, so the caller's
      list is never touched; the result is the final pivot row. */
  method CalculateRank(vectors: seq<Vector3>) returns (rank: nat)
    ensures rank == Rank(vectors)
    ensures rank <= |vectors| && rank <= 3
  {
    if |vectors| == 0 {
      return 0;
    }
    var mat := new seq<real>[|vectors|](i requires 0 <= i < |vectors| => Coords(vectors[i]));
    assert mat[..] == RowsOf(vectors);
    var rows := mat.Length;
    rank := 0;
    var pivotRow := 0;
    var col := 0;
    while col < 3 && pivotRow < rows
      invariant col <= 3 && pivotRow <= rows && rank == pivotRow
      invariant IsMatrix(mat[..], 3)
      invariant RankFrom(mat[..], col, pivotRow) == Rank(vectors)
      decreases 3 - col
    {
      var pivoted := EliminationStep(mat, col, pivotRow);
      if pivoted {
        pivotRow := pivotRow + 1;
        rank := rank + 1;
      }
      col := col + 1;
    }
  }

  // ---------------------------------------------------------------------
  // Appending the zero vector never changes the rank.

  /** A zero row appended at the bottom never becomes the pivot. */
  lemma PivotAppendZero(m: Matrix, z: seq<real>, col: nat, pr: nat)
    requires IsMatrix(m, 3) && col < 3 && pr < |m|
    requires |z| == 3 && z[col] == 0.0
    ensures IsMatrix(m + [z], 3)
    ensures PivotRow(m + [z], col, pr) == PivotRow(m, col, pr)
  {
    var mz := m + [z];
    var p := PivotRow(m, col, pr);
    assert IsPivot(mz, col, pr, p);
    PivotUnique(mz, col, pr, p);
  }

  /** Swapping and eliminating leave an appended zero row zero. */
  lemma EliminateAppendZero(m: Matrix, z: seq<real>, col: nat, pr: nat, p: nat)
    requires IsMatrix(m, 3) && col < 3 && pr < |m| && p < |m| && m[p][col] != 0.0
    requires |z| == 3 && forall j :: 0 <= j < 3 ==> z[j] == 0.0
    ensures IsMatrix(m + [z], 3)
    ensures EliminateBelow(SwapRows(m + [z], pr, p), col, pr) == EliminateBelow(SwapRows(m, pr, p), col, pr) + [z]
  {
    var s := SwapRows(m, pr, p);
    assert SwapRows(m + [z], pr, p) == s + [z];
    var e := EliminateBelow(s + [z], col, pr);
    assert e[|s|] == z;
  }

  lemma {:induction false} RankFromAppendZero(m: Matrix, z: seq<real>, col: nat, pr: nat)
    requires IsMatrix(m, 3) && col <= 3 && pr <= |m|
    requires |z| == 3 && forall j :: 0 <= j < 3 ==> z[j] == 0.0
    ensures IsMatrix(m + [z], 3)
    ensures RankFrom(m + [z], col, pr) == RankFrom(m, col, pr)
    decreases 3 - col
  {
    assert IsMatrix(m + [z], 3);
    if col < 3 {
      if pr == |m| {
        RankFromAppendZero(m, z, col + 1, pr);
        AppendZeroPastRows(m, z, col, pr);
      } else {
        var p := PivotRow(m, col, pr);
        if Abs(m[p][col]) < PivotEps {
          RankFromAppendZero(m, z, col + 1, pr);
          AppendZeroSkip(m, z, col, pr);
        } else {
          var e := EliminateBelow(SwapRows(m, pr, p), col, pr);
          RankFromAppendZero(e, z, col + 1, pr + 1);
          AppendZeroPivot(m, z, col, pr);
        }
      }
    }
  }

  lemma AppendZeroPastRows(m: Matrix, z: seq<real>, col: nat, pr: nat)
    requires IsMatrix(m, 3) && col < 3 && pr == |m|
    requires |z| == 3 && z[col] == 0.0
    requires IsMatrix(m + [z], 3) && RankFrom(m + [z], col + 1, pr) == pr
    ensures RankFrom(m + [z], col, pr) == RankFrom(m, col, pr)
  {
    assert PivotRow(m + [z], col, pr) == pr;
  }

  lemma AppendZeroSkip(m: Matrix, z: seq<real>, col: nat, pr: nat)
    requires IsMatrix(m, 3) && col < 3 && pr < |m|
    requires |z| == 3 && z[col] == 0.0
    requires Abs(m[PivotRow(m, col, pr)][col]) < PivotEps
    requires IsMatrix(m + [z], 3) && RankFrom(m + [z], col + 1, pr) == RankFrom(m, col + 1, pr)
    ensures RankFrom(m + [z], col, pr) == RankFrom(m, col, pr)
  {
    PivotAppendZero(m, z, col, pr);
  }

  lemma AppendZeroPivot(m: Matrix, z: seq<real>, col: nat, pr: nat)
    requires IsMatrix(m, 3) && col < 3 && pr < |m|
    requires |z| == 3 && forall j :: 0 <= j < 3 ==> z[j] == 0.0
    requires Abs(m[PivotRow(m, col, pr)][col]) >= PivotEps
    requires IsMatrix(m + [z], 3)
    requires var e := EliminateBelow(SwapRows(m, pr, PivotRow(m, col, pr)), col, pr);
      IsMatrix(e + [z], 3) && RankFrom(e + [z], col + 1, pr + 1) == RankFrom(e, col + 1, pr + 1)
    ensures RankFrom(m + [z], col, pr) == RankFrom(m, col, pr)
  {
    var p := PivotRow(m, col, pr);
    PivotAppendZero(m, z, col, pr);
    assert (m + [z])[p] == m[p];
    RankFromPivotStep(m, col, pr, p);
    RankFromPivotStep(m + [z], col, pr, p);
    EliminateAppendZero(m, z, col, pr, p);
  }

  /** One pivot step of the rank computation. */
  lemma RankFromPivotStep(m: Matrix, col: nat, pr: nat, p: nat)
    requires IsMatrix(m, 3) && col < 3 && pr < |m| && p == PivotRow(m, col, pr)
    requires Abs(m[p][col]) >= PivotEps
    ensures RankFrom(m, col, pr) == RankFrom(EliminateBelow(SwapRows(m, pr, p), col, pr), col + 1, pr + 1)
  {
  }

  /** The zero vector adds nothing to the rank of any list. */
  lemma RankAppendZero(vs: seq<Vector3>)
    ensures Rank(vs + [Zero]) == Rank(vs)
  {
    assert RowsOf(vs + [Zero]) == RowsOf(vs) + [Coords(Zero)];
    RankFromAppendZero(RowsOf(vs), Coords(Zero), 0, 0);
  }

  // ---------------------------------------------------------------------
  // The rank of a single vector.

  /** Some entry of `row` from column `col` on is a usable pivot. */
  predicate HasPivotFrom(row: seq<real>, col: nat)
    requires |row| == 3
  {
    exists j :: col <= j < 3 && Abs(row[j]) >= PivotEps
  }

  lemma {:induction false} RankFromSingleRow(row: seq<real>, col: nat)
    requires |row| == 3 && col <= 3
    ensures IsMatrix([row], 3)
    ensures RankFrom([row], col, 0) == if HasPivotFrom(row, col) then 1 else 0
    decreases 3 - col
  {
    assert IsMatrix([row], 3);
    if col < 3 {
      assert PivotRow([row], col, 0) == 0;
      if Abs(row[col]) < PivotEps {
        RankFromSingleRow(row, col + 1);
        assert HasPivotFrom(row, col) == HasPivotFrom(row, col + 1);
      } else {
        assert HasPivotFrom(row, col);
      }
    } else {
      assert !HasPivotFrom(row, col);
    }
  }

  /** A single vector has rank 1 exactly when one of its components reaches
      the pivot threshold, and rank 0 otherwise. */
  lemma RankSingleton(v: Vector3)
    ensures Rank([v]) == if Abs(v.x) >= PivotEps || Abs(v.y) >= PivotEps || Abs(v.z) >= PivotEps then 1 else 0
  {
    assert RowsOf([v]) == [Coords(v)];
    RankFromSingleRow(Coords(v), 0);
    var row := Coords(v);
    if HasPivotFrom(row, 0) {
      var j :| 0 <= j < 3 && Abs(row[j]) >= PivotEps;
      assert j == 0 || j == 1 || j == 2;
    } else {
      assert !(Abs(row[0]) >= PivotEps) && !(Abs(row[1]) >= PivotEps) && !(Abs(row[2]) >= PivotEps);
    }
  }

  // ---------------------------------------------------------------------
  // Two parallel vectors never have rank 2.

  /** A vector that is not the zero vector has rank one on its own. */
  lemma RankNonZeroSingleton(v: Vector3)
    requires NormSq(v) >= ZeroNormSq
    ensures Rank([v]) == 1
  {
    NonZeroHasPivot(v);
    RankSingleton(v);
  }

  /** Every 2x2 minor of the two rows vanishes: the rows are parallel. */
  predicate Parallel(a: seq<real>, b: seq<real>)
    requires |a| == 3 && |b| == 3
  {
    forall i, j :: 0 <= i < 3 && 0 <= j < 3 ==> Minor(a, b, i, j) == 0.0
  }

  /** The 2x2 minor of rows `a`, `b` on columns `i`, `j`. */
  function Minor(a: seq<real>, b: seq<real>, i: nat, j: nat): real
    requires i < |a| && j < |a| && i < |b| && j < |b|
  {
    a[i] * b[j] - a[j] * b[i]
  }

  /** Every entry of `row` from column `col` on is zero. */
  predicate ZeroFrom(row: seq<real>, col: nat)
  {
    forall j :: col <= j < |row| ==> row[j] == 0.0
  }

  lemma {:induction false} RankFromLastRowVanishes(m: Matrix, col: nat)
    requires IsMatrix(m, 3) && |m| >= 1 && col <= 3
    requires ZeroFrom(m[|m| - 1], col)
    ensures RankFrom(m, col, |m| - 1) == |m| - 1
    decreases 3 - col
  {
    if col < 3 {
      assert PivotRow(m, col, |m| - 1) == |m| - 1;
      RankFromLastRowVanishes(m, col + 1);
    }
  }

  lemma ParallelSwap(a: seq<real>, b: seq<real>)
    requires |a| == 3 && |b| == 3 && Parallel(a, b)
    ensures Parallel(b, a)
  {
    forall i, j | 0 <= i < 3 && 0 <= j < 3
      ensures Minor(b, a, i, j) == 0.0
    {
      assert Minor(a, b, i, j) == 0.0;
    }
  }

  /** When the minor on columns `c`, `j` vanishes, clearing `b[c]` with the
      multiple `b[c] / a[c]` of `a` also clears `b[j]`. */
  lemma ClearsParallelEntry(a: seq<real>, b: seq<real>, c: nat, j: nat, f: real)
    requires c < |a| && j < |a| && c < |b| && j < |b|
    requires a[c] != 0.0 && Minor(a, b, c, j) == 0.0 && f == b[c] / a[c]
    ensures b[j] - f * a[j] == 0.0
  {
    var a0, b0, aj, bj := a[c], b[c], a[j], b[j];
    assert a0 * bj == aj * b0;
    calc {
      f * aj;
      (b0 / a0) * aj;
      (aj * b0) / a0;
      (a0 * bj) / a0;
      bj;
    }
  }

  /** Eliminating the second of two parallel rows clears it from column `col` on. */
  lemma EliminateParallelPair(s: Matrix, col: nat)
    requires IsMatrix(s, 3) && |s| == 2 && col < 3 && s[0][col] != 0.0 && Parallel(s[0], s[1])
    ensures ZeroFrom(EliminateBelow(s, col, 0)[1], col)
  {
    ClearsParallelRow(s[0], s[1], col);
  }

  /** Clearing a row parallel to the pivot row leaves it zero from the pivot column on. */
  lemma ClearsParallelRow(a: seq<real>, b: seq<real>, col: nat)
    requires |a| == 3 && |b| == 3 && col < 3 && a[col] != 0.0 && Parallel(a, b)
    ensures ZeroFrom(ClearedRow(b, a, col), col)
  {
    var f := b[col] / a[col];
    var r := SubtractMultiple(b, a, f, col);
    forall j | col <= j < 3
      ensures r[j] == 0.0
    {
      assert Minor(a, b, col, j) == 0.0;
      ClearsParallelEntry(a, b, col, j, f);
    }
  }

  lemma {:induction false} RankFromParallelPair(m: Matrix, col: nat)
    requires IsMatrix(m, 3) && |m| == 2 && col <= 3 && Parallel(m[0], m[1])
    ensures RankFrom(m, col, 0) <= 1
    decreases 3 - col
  {
    if col < 3 {
      var p := PivotRow(m, col, 0);
      if Abs(m[p][col]) < PivotEps {
        RankFromParallelPair(m, col + 1);
      } else {
        var s := SwapRows(m, 0, p);
        if p == 1 {
          ParallelSwap(m[0], m[1]);
        }
        EliminateParallelPair(s, col);
        RankFromLastRowVanishes(EliminateBelow(s, col, 0), col + 1);
      }
    }
  }

  /** A vanishing cross product makes every minor vanish. */
  lemma CrossZeroParallel(a: Vector3, b: Vector3)
    requires Cross(a, b) == Zero
    ensures Parallel(Coords(a), Coords(b))
  {
    var u, v := Coords(a), Coords(b);
    forall i, j | 0 <= i < 3 && 0 <= j < 3
      ensures Minor(u, v, i, j) == 0.0
    {
    }
  }

  /** Two vectors of rank 2 are not parallel: their cross product is not zero. */
  lemma RankTwoCrossNonZero(a: Vector3, b: Vector3)
    requires Rank([a, b]) == 2
    ensures Cross(a, b) != Zero
  {
    if Cross(a, b) == Zero {
      var m := RowsOf([a, b]);
      assert m[0] == Coords(a) && m[1] == Coords(b);
      CrossZeroParallel(a, b);
      RankFromParallelPair(m, 0);
    }
  }

  // ---------------------------------------------------------------------
  // The rank can drop when a vector is appended.

  /** With the 1e-9 pivot tolerance, (1, 0, 0) and (1, 1.5e-9, 0) have rank 2,
      yet appending (2, 1.5e-9, 0) gives rank 1: the new row becomes the
      pivot of the first column and leaves second-column entries of only
      7.5e-10 below it. */
  lemma RankNotMonotone(a: Vector3, b: Vector3, c: Vector3)
    requires a == Vector3(1.0, 0.0, 0.0) && b == Vector3(1.0, 0.0000000015, 0.0) && c == Vector3(2.0, 0.0000000015, 0.0)
    ensures Rank([a, b]) == 2 && Rank([a, b, c]) == 1
  {
    RankOfPair(a, b);
    RankOfTriple(a, b, c);
  }

  lemma RankOfPair(a: Vector3, b: Vector3)
    requires a == Vector3(1.0, 0.0, 0.0) && b == Vector3(1.0, 0.0000000015, 0.0)
    ensures Rank([a, b]) == 2
  {
    var m := RowsOf([a, b]);
    assert m == [[1.0, 0.0, 0.0], [1.0, 0.0000000015, 0.0]];
    assert PivotRow(m, 0, 1) == 1;
    assert PivotRow(m, 0, 0) == 0;
    assert SwapRows(m, 0, 0) == m;
    var e := EliminateBelow(m, 0, 0);
    var r1 := ClearedRow(m[1], m[0], 0);
    assert m[1][0] / m[0][0] == 1.0;
    assert r1 == SubtractMultiple(m[1], m[0], 1.0, 0);
    assert r1[1] == 0.0000000015 && r1[2] == 0.0;
    assert r1 == [0.0, 0.0000000015, 0.0];
    assert e[0] == m[0] && e[1] == r1;
    assert e == [[1.0, 0.0, 0.0], [0.0, 0.0000000015, 0.0]];
    assert PivotRow(e, 1, 1) == 1;
    assert RankFrom(m, 0, 0) == RankFrom(e, 1, 1);
  }

  lemma RankOfTriple(a: Vector3, b: Vector3, c: Vector3)
    requires a == Vector3(1.0, 0.0, 0.0) && b == Vector3(1.0, 0.0000000015, 0.0) && c == Vector3(2.0, 0.0000000015, 0.0)
    ensures Rank([a, b, c]) == 1
  {
    var m := RowsOf([a, b, c]);
    assert m == [[1.0, 0.0, 0.0], [1.0, 0.0000000015, 0.0], [2.0, 0.0000000015, 0.0]];
    assert PivotRow(m, 0, 2) == 2;
    assert PivotRow(m, 0, 1) == 2;
    assert PivotRow(m, 0, 0) == 2;
    var s := SwapRows(m, 0, 2);
    assert s == [[2.0, 0.0000000015, 0.0], [1.0, 0.0000000015, 0.0], [1.0, 0.0, 0.0]];
    var e := EliminateBelow(s, 0, 0);
    var r1 := ClearedRow(s[1], s[0], 0);
    var r2 := ClearedRow(s[2], s[0], 0);
    assert s[1][0] / s[0][0] == 0.5 && s[2][0] / s[0][0] == 0.5;
    assert r1 == SubtractMultiple(s[1], s[0], 0.5, 0);
    assert r2 == SubtractMultiple(s[2], s[0], 0.5, 0);
    assert r1[1] == 0.00000000075 && r1[2] == 0.0;
    assert r2[1] == -0.00000000075 && r2[2] == 0.0;
    assert r1 == [0.0, 0.00000000075, 0.0];
    assert r2 == [0.0, -0.00000000075, 0.0];
    assert e[0] == s[0] && e[1] == r1 && e[2] == r2;
    assert e == [[2.0, 0.0000000015, 0.0], [0.0, 0.00000000075, 0.0], [0.0, -0.00000000075, 0.0]];
    assert RankFrom(m, 0, 0) == RankFrom(e, 1, 1);
    assert PivotRow(e, 1, 2) == 2;
    assert PivotRow(e, 1, 1) == 1;
    assert RankFrom(e, 1, 1) == RankFrom(e, 2, 1);
    assert PivotRow(e, 2, 2) == 2;
    assert PivotRow(e, 2, 1) == 1;
    assert RankFrom(e, 2, 1) == RankFrom(e, 3, 1);
  }

  /** A vector whose first component reaches the pivot tolerance makes the
      rank at least one: the first column then has a pivot. */
  lemma RankPositive(vs: seq<Vector3>, i: nat)
    requires i < |vs| && Abs(vs[i].x) >= PivotEps
    ensures Rank(vs) >= 1
  {
    var m := RowsOf(vs);
    var p := PivotRow(m, 0, 0);
    assert m[i][0] == vs[i].x;
    assert Abs(m[p][0]) >= Abs(m[i][0]);
  }
}
