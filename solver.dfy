/** Solving `x_1*b_1 + ... + x_k*b_k = t` for the coefficients `x`:
    Gauss-Jordan reduction of the 3 x (k+1) augmented matrix to reduced
    row-echelon form, then reading each coefficient off the row whose entry
    in that variable's column is (nearly) 1. The solver does not check that
    a solution exists. */
module LinearSolver {
  import opened Vectors
  import opened Matrices

  /** The augmented matrix: equation `r` holds component `r` of every basis
      vector, then component `r` of the target. */
  function Augmented(basis: seq<Vector3>, target: Vector3): (m: Matrix)
    ensures |m| == 3 && IsMatrix(m, |basis| + 1)
    ensures forall r, c :: 0 <= r < 3 && 0 <= c < |basis| ==> m[r][c] == At(basis[c], r)
    ensures forall r :: 0 <= r < 3 ==> m[r][|basis|] == At(target, r)
  {
    seq(3, r requires 0 <= r < 3 =>
      seq(|basis|, c requires 0 <= c < |basis| => At(basis[c], r)) + [At(target, r)])
  }

  /** `row` divided by its own entry in column `col`, from column `col` on. */
  function ScaledRow(row: seq<real>, col: nat): (r: seq<real>)
    requires col < |row| && row[col] != 0.0
    ensures |r| == |row| && r[col] == 1.0
    ensures forall j :: 0 <= j < col ==> r[j] == row[j]
    ensures forall j :: col <= j < |row| ==> r[j] == row[j] / row[col]
  {
    seq(|row|, j requires 0 <= j < |row| => if j < col then row[j] else row[j] / row[col])
  }

  /** Every row other than the pivot row loses its entry in column `col`
      times the pivot row, from column `col` on. Once the pivot entry is 1,
      this clears column `col` everywhere but in the pivot row. */
  function EliminateOthers(m: Matrix, w: nat, col: nat, pr: nat): (e: Matrix)
    requires IsMatrix(m, w) && col < w && pr < |m|
    ensures |e| == |m| && IsMatrix(e, w) && e[pr] == m[pr]
    ensures forall i :: 0 <= i < |m| && i != pr ==> e[i] == SubtractMultiple(m[i], m[pr], m[i][col], col)
    ensures m[pr][col] == 1.0 ==> forall i :: 0 <= i < |m| && i != pr ==> e[i][col] == 0.0
  {
    seq(|m|, i requires 0 <= i < |m| =>
      if i == pr then m[pr] else SubtractMultiple(m[i], m[pr], m[i][col], col))
  }

  /** What the reduction loop computes from variable column `col` on: the
      reduced matrix and the number of pivot rows. */
  function GaussJordanFrom(m: Matrix, k: nat, col: nat, pr: nat): (res: (Matrix, nat))
    requires IsMatrix(m, k + 1) && col <= k && pr <= |m|
    ensures |res.0| == |m| && IsMatrix(res.0, k + 1)
    ensures pr <= res.1 <= |m| && res.1 - pr <= k - col
    decreases k - col
  {
    if col == k || pr == |m| then (m, pr)
    else
      var p := PivotRow(m, col, pr);
      if Abs(m[p][col]) < PivotEps then GaussJordanFrom(m, k, col + 1, pr)
      else
        var s := SwapRows(m, pr, p);
        var n := s[pr := ScaledRow(s[pr], col)];
        GaussJordanFrom(EliminateOthers(n, k + 1, col, pr), k, col + 1, pr + 1)
  }

  /** The reduced augmented matrix of the system. */
  function Reduced(basis: seq<Vector3>, target: Vector3): (m: Matrix)
    ensures |m| == 3 && IsMatrix(m, |basis| + 1)
  {
    GaussJordanFrom(Augmented(basis, target), |basis|, 0, 0).0
  }

  /** The reduction finds a pivot in every variable column. */
  predicate FullyPivoted(basis: seq<Vector3>, target: Vector3)
  {
    GaussJordanFrom(Augmented(basis, target), |basis|, 0, 0).1 == |basis|
  }

  /** Exact independence does not give a pivot: (1e-10, 0, 0) is not the zero
      vector, yet its column never reaches the 1e-9 pivot tolerance, so the
      reduction finds no pivot for it, whatever the target. */
  lemma TinyBasisNotPivoted(w: Vector3, t: Vector3)
    requires w == Vector3(0.0000000001, 0.0, 0.0)
    ensures w != Zero && !FullyPivoted([w], t)
  {
    var m := Augmented([w], t);
    assert m[0][0] == w.x && m[1][0] == w.y && m[2][0] == w.z;
    var p := PivotRow(m, 0, 0);
    assert Abs(m[p][0]) < PivotEps;
    assert GaussJordanFrom(m, 1, 0, 0) == GaussJordanFrom(m, 1, 1, 0);
  }

  /** One non-zero vector always gets its pivot: some component reaches the
      1e-9 tolerance, so the reduction pivots its column, whatever the target. */
  lemma SingleVectorPivoted(w: Vector3, t: Vector3)
    requires NormSq(w) >= ZeroNormSq
    ensures FullyPivoted([w], t)
  {
    NonZeroHasPivot(w);
    var m := Augmented([w], t);
    assert m[0][0] == w.x && m[1][0] == w.y && m[2][0] == w.z;
    var p := PivotRow(m, 0, 0);
    assert Abs(m[p][0]) >= PivotEps;
  }

  /** The entry is within 1e-4 of 1. */
  predicate NearOne(a: real)
  {
    Abs(a - 1.0) < CoeffEps
  }

  /** The first row from `r` on whose entry in column `c` is nearly 1. */
  function FirstUnitRow(m: Matrix, c: nat, r: nat): (found: Option<nat>)
    requires forall i :: 0 <= i < |m| ==> c < |m[i]|
    requires r <= |m|
    ensures found.Some? ==> r <= found.value < |m| && NearOne(m[found.value][c])
    ensures found.Some? ==> forall i :: r <= i < found.value ==> !NearOne(m[i][c])
    ensures found.None? <==> forall i :: r <= i < |m| ==> !NearOne(m[i][c])
    decreases |m| - r
  {
    if r == |m| then None
    else if NearOne(m[r][c]) then Some(r)
    else FirstUnitRow(m, c, r + 1)
  }

  /** The coefficient of variable `c`: the last-column entry of the first row
      whose column-`c` entry is nearly 1, or 0 when there is none. */
  function Coefficient(m: Matrix, k: nat, c: nat): (r: real)
    requires IsMatrix(m, k + 1) && c < k
    ensures (forall i :: 0 <= i < |m| ==> !NearOne(m[i][c])) ==> r == 0.0
    ensures r != 0.0 ==> exists i :: 0 <= i < |m| && NearOne(m[i][c]) && m[i][k] == r
  {
    match FirstUnitRow(m, c, 0)
    case None => 0.0
    case Some(r) => m[r][k]
  }

  /** The solution vector: one coefficient per basis vector, in basis order. */
  function Solve(basis: seq<Vector3>, target: Vector3): (x: seq<real>)
    ensures |x| == |basis|
    ensures forall c :: 0 <= c < |basis| && FirstUnitRow(Reduced(basis, target), c, 0).None? ==> x[c] == 0.0
  {
    var m := Reduced(basis, target);
    seq(|basis|, c requires 0 <= c < |basis| => Coefficient(m, |basis|, c))
  }

  // ---------------------------------------------------------------------
  // The imperative solver.

  /** Builds the augmented matrix, one equation row at a time. */
  method BuildAugmented(basis: seq<Vector3>, target: Vector3) returns (mat: array<seq<real>>)
    ensures fresh(mat) && mat[..] == Augmented(basis, target)
  {
    var numVars := |basis|;
    mat := new seq<real>[3];
    for r := 0 to 3
      invariant forall i :: 0 <= i < r ==> mat[i] == Augmented(basis, target)[i]
    {
      var row: seq<real> := [];
      for c := 0 to numVars
        invariant row == seq(c, cc requires 0 <= cc < c => At(basis[cc], r))
      {
        row := row + [At(basis[c], r)];
      }
      row := row + [At(target, r)];
      mat[r] := row;
    }
    assert mat[..] == Augmented(basis, target);
  }

  /** Divides the pivot row by its pivot entry, from column `col` on, in place. */
  method NormalizeRowInPlace(mat: array<seq<real>>, pr: nat, col: nat)
    requires pr < mat.Length && col < |mat[pr]| && mat[pr][col] != 0.0
    modifies mat
    ensures mat[..] == old(mat[..])[pr := ScaledRow(old(mat[pr]), col)]
  {
    ghost var row := mat[pr];
    var pivotVal := mat[pr][col];
    var j := col;
    while j < |mat[pr]|
      invariant col <= j <= |row| && |mat[pr]| == |row|
      invariant forall jj :: 0 <= jj < |row| ==>
        mat[pr][jj] == if col <= jj < j then row[jj] / pivotVal else row[jj]
      invariant forall i :: 0 <= i < mat.Length && i != pr ==> mat[i] == old(mat[i])
    {
      mat[pr] := mat[pr][j := mat[pr][j] / pivotVal];
      j := j + 1;
    }
    assert mat[pr] == ScaledRow(row, col);
    assert mat[..] == old(mat[..])[pr := ScaledRow(row, col)];
  }

  /** Clears column `col` in every row but the pivot row, in place. */
  method EliminateOthersInPlace(mat: array<seq<real>>, w: nat, col: nat, pr: nat)
    requires IsMatrix(mat[..], w) && col < w && pr < mat.Length
    modifies mat
    ensures mat[..] == EliminateOthers(old(mat[..]), w, col, pr)
  {
    ghost var M := mat[..];
    ghost var E := EliminateOthers(M, w, col, pr);
    for i := 0 to mat.Length
      invariant forall k :: 0 <= k < mat.Length ==> mat[k] == if k < i then E[k] else M[k]
    {
      if i != pr {
        var factor := mat[i][col];
        SubtractRowInPlace(mat, i, pr, factor, col);
      }
    }
    assert mat[..] == E;
  }

  /** One pass of the column loop: pick the pivot of column `col`; when it
      reaches 1e-9 in magnitude, swap it up, scale it to 1 and clear its
      column in every other row, and otherwise leave the matrix alone. The
      reduction still to be done is unchanged. */
  method ReductionStep(mat: array<seq<real>>, k: nat, col: nat, pivotRow: nat) returns (pivoted: bool)
    requires IsMatrix(mat[..], k + 1) && col < k && pivotRow < mat.Length
    modifies mat
    ensures var M := old(mat[..]); pivoted <==> Abs(M[PivotRow(M, col, pivotRow)][col]) >= PivotEps
    ensures !pivoted ==> mat[..] == old(mat[..])
    ensures var M := old(mat[..]);
      pivoted ==> Abs(M[PivotRow(M, col, pivotRow)][col]) >= PivotEps &&
                  var S := SwapRows(M, pivotRow, PivotRow(M, col, pivotRow));
                  mat[..] == EliminateOthers(S[pivotRow := ScaledRow(S[pivotRow], col)], k + 1, col, pivotRow)
    ensures IsMatrix(mat[..], k + 1)
    ensures GaussJordanFrom(mat[..], k, col + 1, if pivoted then pivotRow + 1 else pivotRow)
         == GaussJordanFrom(old(mat[..]), k, col, pivotRow)
  {
    ghost var M := mat[..];
    var maxRow, maxVal := FindPivot(mat, col, pivotRow);
    pivoted := maxVal >= PivotEps;
    if pivoted {
      mat[pivotRow], mat[maxRow] := mat[maxRow], mat[pivotRow];
      ghost var S := SwapRows(M, pivotRow, maxRow);
      assert mat[..] == S;
      NormalizeRowInPlace(mat, pivotRow, col);
      assert mat[..] == S[pivotRow := ScaledRow(S[pivotRow], col)];
      EliminateOthersInPlace(mat, k + 1, col, pivotRow);
    }
  }

  /** The first row whose entry in column `c` is within 1e-4 of 1, or -1. */
  method FindUnitRow(mat: array<seq<real>>, c: nat) returns (foundRow: int)
    requires forall i :: 0 <= i < mat.Length ==> c < |mat[i]|
    ensures foundRow == -1 <==> FirstUnitRow(mat[..], c, 0).None?
    ensures foundRow != -1 ==> FirstUnitRow(mat[..], c, 0) == Some(foundRow)
  {
    foundRow := -1;
    var r := 0;
    while r < mat.Length
      invariant 0 <= r <= mat.Length
      invariant FirstUnitRow(mat[..], c, 0) == FirstUnitRow(mat[..], c, r)
    {
      if Abs(mat[r][c] - 1.0) < CoeffEps {
        foundRow := r;
        break;
      }
      r := r + 1;
    }
  }

  /** The reduction loop: column by column, while pivot rows remain. */
  method ReduceInPlace(mat: array<seq<real>>, numVars: nat)
    requires mat.Length == 3 && IsMatrix(mat[..], numVars + 1)
    modifies mat
    ensures mat[..] == GaussJordanFrom(old(mat[..]), numVars, 0, 0).0
  {
    var numEqs := 3;
    var pivotRow := 0;
    var col := 0;
    while col < numVars && pivotRow < numEqs
      invariant col <= numVars && pivotRow <= numEqs
      invariant IsMatrix(mat[..], numVars + 1)
      invariant GaussJordanFrom(mat[..], numVars, col, pivotRow) == GaussJordanFrom(old(mat[..]), numVars, 0, 0)
      decreases numVars - col
    {
      var pivoted := ReductionStep(mat, numVars, col, pivotRow);
      if pivoted {
        pivotRow := pivotRow + 1;
      }
      col := col + 1;
    }
  }

  /** Reads one coefficient per variable column off the reduced matrix. */
  method ReadSolution(mat: array<seq<real>>, numVars: nat) returns (solution: seq<real>)
    requires IsMatrix(mat[..], numVars + 1)
    ensures |solution| == numVars
    ensures forall c :: 0 <= c < numVars ==> solution[c] == Coefficient(mat[..], numVars, c)
  {
    var sol := new real[numVars](_ => 0.0);
    for c := 0 to numVars
      invariant forall cc :: 0 <= cc < c ==> sol[cc] == Coefficient(mat[..], numVars, cc)
      invariant forall cc :: c <= cc < numVars ==> sol[cc] == 0.0
    {
      var foundRow := FindUnitRow(mat, c);
      if foundRow != -1 {
        sol[c] := mat[foundRow][numVars];
      }
    }
    solution := sol[..];
  }

  /** solveSystem: the coefficients of `target` over `basis`, as read off the
      reduced row-echelon form. Never fails; exactly one coefficient per basis
      vector, and 0 for a variable whose column has no entry near 1. */
  method SolveSystem(basis: seq<Vector3>, target: Vector3) returns (solution: seq<real>)
    ensures solution == Solve(basis, target)
    ensures |solution| == |basis|
    ensures forall c :: 0 <= c < |basis| ==>
      ((forall r :: 0 <= r < 3 ==> !NearOne(Reduced(basis, target)[r][c])) ==> solution[c] == 0.0)
  {
    var mat := BuildAugmented(basis, target);
    ReduceInPlace(mat, |basis|);
    solution := ReadSolution(mat, |basis|);
    assert solution == Solve(basis, target);
  }

  // ---------------------------------------------------------------------
  // When every variable column gets a pivot, the solver recovers the
  // coefficients of any exact combination of the basis.

  /** The first `n` entries of `row` times the first `n` entries of `x`. */
  function RowDot(row: seq<real>, x: seq<real>, n: nat): real
    requires n <= |row| && n <= |x|
  {
    if n == 0 then 0.0 else RowDot(row, x, n - 1) + row[n - 1] * x[n - 1]
  }

  /** `x[0]*basis[0] + ... + x[n-1]*basis[n-1]`. */
  function CombineUpTo(basis: seq<Vector3>, x: seq<real>, n: nat): Vector3
    requires n <= |basis| && n <= |x|
  {
    if n == 0 then Zero else Add(CombineUpTo(basis, x, n - 1), Scale(x[n - 1], basis[n - 1]))
  }

  /** The combination of the basis vectors with the coefficients `x`. */
  function Combination(basis: seq<Vector3>, x: seq<real>): Vector3
    requires |x| == |basis|
  {
    CombineUpTo(basis, x, |basis|)
  }

  /** `x` satisfies every equation of the augmented matrix `m`. */
  predicate Satisfies(m: Matrix, x: seq<real>, k: nat)
    requires IsMatrix(m, k + 1) && |x| == k
  {
    forall r :: 0 <= r < |m| ==> RowDot(m[r], x, k) == m[r][k]
  }

  /** The first `n` columns of `m` are the first `n` columns of the identity. */
  predicate UnitColumns(m: Matrix, n: nat)
    requires forall r :: 0 <= r < |m| ==> n <= |m[r]|
  {
    forall r, c :: 0 <= r < |m| && 0 <= c < n ==> m[r][c] == if r == c then 1.0 else 0.0
  }

  lemma {:induction false} CombineComponent(basis: seq<Vector3>, x: seq<real>, n: nat, r: nat, row: seq<real>)
    requires n <= |basis| && n <= |x| && r < 3 && n <= |row|
    requires forall c :: 0 <= c < n ==> row[c] == At(basis[c], r)
    ensures At(CombineUpTo(basis, x, n), r) == RowDot(row, x, n)
  {
    if n > 0 {
      CombineComponent(basis, x, n - 1, r, row);
      AtAddScale(CombineUpTo(basis, x, n - 1), x[n - 1], basis[n - 1], r);
    }
  }

  lemma AtAddScale(a: Vector3, s: real, b: Vector3, r: nat)
    requires r < 3
    ensures At(Add(a, Scale(s, b)), r) == At(a, r) + s * At(b, r)
  {
  }

  /** Every equation of the augmented matrix of a combination holds of its coefficients. */
  lemma AugmentedSatisfied(basis: seq<Vector3>, x: seq<real>)
    requires |x| == |basis|
    ensures Satisfies(Augmented(basis, Combination(basis, x)), x, |basis|)
  {
    var m := Augmented(basis, Combination(basis, x));
    forall r | 0 <= r < 3
      ensures RowDot(m[r], x, |basis|) == m[r][|basis|]
    {
      CombineComponent(basis, x, |basis|, r, m[r]);
    }
  }

  lemma {:induction false} RowDotScaled(u: seq<real>, v: seq<real>, x: seq<real>, n: nat, p: real)
    requires n <= |u| && n <= |v| && n <= |x| && p != 0.0
    requires forall j :: 0 <= j < n ==> u[j] == v[j] / p
    ensures RowDot(u, x, n) == RowDot(v, x, n) / p
  {
    if n > 0 {
      RowDotScaled(u, v, x, n - 1, p);
      var a, b, y := RowDot(v, x, n - 1), v[n - 1], x[n - 1];
      assert (b / p) * y == (b * y) / p;
      assert a / p + (b * y) / p == (a + b * y) / p;
    }
  }

  lemma {:induction false} RowDotSubtract(u: seq<real>, v: seq<real>, pivot: seq<real>, f: real, x: seq<real>, n: nat)
    requires n <= |u| && n <= |v| && n <= |pivot| && n <= |x|
    requires forall j :: 0 <= j < n ==> u[j] == v[j] - f * pivot[j]
    ensures RowDot(u, x, n) == RowDot(v, x, n) - f * RowDot(pivot, x, n)
  {
    if n > 0 {
      RowDotSubtract(u, v, pivot, f, x, n - 1);
      var y := x[n - 1];
      assert (v[n - 1] - f * pivot[n - 1]) * y == v[n - 1] * y - f * (pivot[n - 1] * y);
    }
  }

  lemma {:induction false} RowDotUnit(row: seq<real>, x: seq<real>, n: nat, c: nat)
    requires n <= |row| && n <= |x| && c < n
    requires forall j :: 0 <= j < n ==> row[j] == if j == c then 1.0 else 0.0
    ensures RowDot(row, x, n) == x[c]
  {
    if n - 1 == c {
      RowDotZero(row, x, n - 1);
    } else {
      RowDotUnit(row, x, n - 1, c);
    }
  }

  lemma {:induction false} RowDotZero(row: seq<real>, x: seq<real>, n: nat)
    requires n <= |row| && n <= |x|
    requires forall j :: 0 <= j < n ==> row[j] == 0.0
    ensures RowDot(row, x, n) == 0.0
  {
    if n > 0 {
      RowDotZero(row, x, n - 1);
    }
  }

  /** Swapping two rows at or below row `col` keeps the solution and the unit columns. */
  lemma SwapKeepsSolution(m: Matrix, k: nat, col: nat, p: nat, x: seq<real>)
    requires IsMatrix(m, k + 1) && |x| == k && col < k && col <= p < |m|
    requires Satisfies(m, x, k) && UnitColumns(m, col)
    ensures IsMatrix(SwapRows(m, col, p), k + 1)
    ensures Satisfies(SwapRows(m, col, p), x, k) && UnitColumns(SwapRows(m, col, p), col)
  {
    var s := SwapRows(m, col, p);
    assert forall r :: 0 <= r < |m| ==> s[r] == m[r] || (r == col && s[r] == m[p]) || (r == p && s[r] == m[col]);
  }

  /** Scaling the pivot row keeps the solution and makes its pivot entry 1. */
  lemma ScaleKeepsSolution(s: Matrix, k: nat, col: nat, x: seq<real>)
    requires IsMatrix(s, k + 1) && |x| == k && col < k && col < |s| && s[col][col] != 0.0
    requires Satisfies(s, x, k) && UnitColumns(s, col)
    ensures IsMatrix(s[col := ScaledRow(s[col], col)], k + 1)
    ensures Satisfies(s[col := ScaledRow(s[col], col)], x, k)
    ensures UnitColumns(s[col := ScaledRow(s[col], col)], col)
    ensures forall j :: 0 <= j < col ==> ScaledRow(s[col], col)[j] == 0.0
  {
    var row := s[col];
    var p := row[col];
    var u := ScaledRow(row, col);
    forall j | 0 <= j < k + 1
      ensures u[j] == row[j] / p
    {
      if j < col {
        assert row[j] == 0.0;
      }
    }
    RowDotScaled(u, row, x, k, p);
  }

  /** Clearing the pivot column from the other rows keeps the solution. */
  lemma EliminateKeepsSolution(n: Matrix, k: nat, col: nat, x: seq<real>)
    requires IsMatrix(n, k + 1) && |x| == k && col < k && col < |n|
    requires Satisfies(n, x, k)
    requires forall j :: 0 <= j < col ==> n[col][j] == 0.0
    ensures Satisfies(EliminateOthers(n, k + 1, col, col), x, k)
  {
    var e := EliminateOthers(n, k + 1, col, col);
    forall r | 0 <= r < |n| && r != col
      ensures RowDot(e[r], x, k) == e[r][k]
    {
      SubtractedEverywhere(n[r], n[col], n[r][col], col);
      SubtractKeepsSolution(n[r], n[col], e[r], n[r][col], k, x);
    }
  }

  /** Subtracting a multiple of a satisfied equation from a satisfied
      equation leaves it satisfied. */
  lemma SubtractKeepsSolution(row: seq<real>, pivot: seq<real>, u: seq<real>, f: real, k: nat, x: seq<real>)
    requires |row| == k + 1 && |pivot| == k + 1 && |u| == k + 1 && |x| == k
    requires forall j :: 0 <= j < k ==> u[j] == row[j] - f * pivot[j]
    requires u[k] == row[k] - f * pivot[k]
    requires RowDot(row, x, k) == row[k] && RowDot(pivot, x, k) == pivot[k]
    ensures RowDot(u, x, k) == u[k]
  {
    RowDotSubtract(u, row, pivot, f, x, k);
  }

  /** Subtracting from column `col` on is subtracting everywhere when the
      pivot row is zero before `col`. */
  lemma SubtractedEverywhere(row: seq<real>, pivot: seq<real>, f: real, col: nat)
    requires |row| == |pivot|
    requires forall j :: 0 <= j < col && j < |pivot| ==> pivot[j] == 0.0
    ensures forall j :: 0 <= j < |row| ==> SubtractMultiple(row, pivot, f, col)[j] == row[j] - f * pivot[j]
  {
    var u := SubtractMultiple(row, pivot, f, col);
    forall j | 0 <= j < col && j < |u|
      ensures u[j] == row[j] - f * pivot[j]
    {
      assert f * pivot[j] == 0.0;
    }
  }

  /** Clearing the pivot column adds column `col` to the unit columns. */
  lemma EliminateAddsUnitColumn(n: Matrix, k: nat, col: nat)
    requires IsMatrix(n, k + 1) && col < k && col < |n|
    requires UnitColumns(n, col) && n[col][col] == 1.0
    ensures UnitColumns(EliminateOthers(n, k + 1, col, col), col + 1)
  {
  }

  lemma {:induction false} GaussJordanSolves(m: Matrix, k: nat, col: nat, x: seq<real>)
    requires IsMatrix(m, k + 1) && |x| == k && col <= k && col <= |m|
    requires Satisfies(m, x, k) && UnitColumns(m, col)
    requires GaussJordanFrom(m, k, col, col).1 == k
    ensures Satisfies(GaussJordanFrom(m, k, col, col).0, x, k)
    ensures UnitColumns(GaussJordanFrom(m, k, col, col).0, k)
    decreases k - col
  {
    if col < k {
      assert col < |m|;
      var p := PivotRow(m, col, col);
      if Abs(m[p][col]) < PivotEps {
        assert false;
      } else {
        SwapKeepsSolution(m, k, col, p, x);
        var s := SwapRows(m, col, p);
        ScaleKeepsSolution(s, k, col, x);
        var n := s[col := ScaledRow(s[col], col)];
        EliminateKeepsSolution(n, k, col, x);
        EliminateAddsUnitColumn(n, k, col);
        GaussJordanSolves(EliminateOthers(n, k + 1, col, col), k, col + 1, x);
      }
    }
  }

  /** With unit columns, each coefficient is read off its own row. */
  lemma ReadsSolution(m: Matrix, k: nat, x: seq<real>)
    requires IsMatrix(m, k + 1) && |x| == k && k <= |m|
    requires Satisfies(m, x, k) && UnitColumns(m, k)
    ensures forall c :: 0 <= c < k ==> Coefficient(m, k, c) == x[c]
  {
    forall c | 0 <= c < k
      ensures Coefficient(m, k, c) == x[c]
    {
      assert NearOne(m[c][c]);
      assert forall i :: 0 <= i < |m| && i != c ==> !NearOne(m[i][c]);
      assert FirstUnitRow(m, c, 0) == Some(c);
      RowDotUnit(m[c], x, k, c);
    }
  }

  lemma ReducedSolved(basis: seq<Vector3>, x: seq<real>, t: Vector3)
    requires |x| == |basis| && t == Combination(basis, x)
    requires FullyPivoted(basis, t)
    ensures forall c :: 0 <= c < |basis| ==> Coefficient(Reduced(basis, t), |basis|, c) == x[c]
  {
    AugmentedSatisfied(basis, x);
    GaussJordanSolves(Augmented(basis, t), |basis|, 0, x);
    ReadsSolution(Reduced(basis, t), |basis|, x);
  }

  lemma SolveReadsCoefficients(basis: seq<Vector3>, target: Vector3, x: seq<real>)
    requires |x| == |basis|
    requires forall c :: 0 <= c < |basis| ==> Coefficient(Reduced(basis, target), |basis|, c) == x[c]
    ensures Solve(basis, target) == x
  {
  }

  /** When the reduction finds a pivot in every variable column, the solver
      returns exactly the coefficients of any combination of the basis. */
  lemma SolveRecoversCoefficients(basis: seq<Vector3>, x: seq<real>)
    requires |x| == |basis|
    requires FullyPivoted(basis, Combination(basis, x))
    ensures Solve(basis, Combination(basis, x)) == x
  {
    var t := Combination(basis, x);
    ReducedSolved(basis, x, t);
    SolveReadsCoefficients(basis, t, x);
  }
}
