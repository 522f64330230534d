/** Vectors of the three-dimensional real space, the tolerances the engine
    compares against, and an Option type for the operations that may answer
    "no result". All arithmetic is exact (`real`); every comparison of a
    Euclidean norm against a threshold is stated on the squared norm. */
module Vectors {

  datatype Option<T> = None | Some(value: T)

  /** A vector (x, y, z). */
  datatype Vector3 = Vector3(x: real, y: real, z: real)

  /** A pivot below this magnitude counts as zero during elimination. */
  const PivotEps: real := 0.000000001
  /** A vector whose norm is below 1e-6 is the zero vector: squared, 1e-12. */
  const ZeroNormSq: real := 0.000000000001
  /** The projector uses the first vector whose norm exceeds 1e-5: squared, 1e-10. */
  const LineNormSq: real := 0.0000000001
  /** Coefficients within 1e-4 of a value are taken to equal it. */
  const CoeffEps: real := 0.0001
  /** Gram-Schmidt only projects onto earlier outputs whose squared norm exceeds this. */
  const ProjectNormSq: real := 0.000000001

  const Zero: Vector3 := Vector3(0.0, 0.0, 0.0)

  function Abs(a: real): (r: real)
    ensures r >= 0.0 && (r == a || r == -a)
  {
    if a < 0.0 then -a else a
  }

  /** Component `i` of `v` (0 = x, 1 = y, 2 = z). */
  function At(v: Vector3, i: nat): real
    requires i < 3
  {
    if i == 0 then v.x else if i == 1 then v.y else v.z
  }

  /** The components of `v` as a row of a matrix. */
  function Coords(v: Vector3): (row: seq<real>)
    ensures |row| == 3 && forall i :: 0 <= i < 3 ==> row[i] == At(v, i)
  {
    [v.x, v.y, v.z]
  }

  function Dot(a: Vector3, b: Vector3): real
  {
    a.x * b.x + a.y * b.y + a.z * b.z
  }

  function NormSq(v: Vector3): real
  {
    Dot(v, v)
  }

  function Add(a: Vector3, b: Vector3): Vector3
  {
    Vector3(a.x + b.x, a.y + b.y, a.z + b.z)
  }

  function Sub(a: Vector3, b: Vector3): Vector3
  {
    Vector3(a.x - b.x, a.y - b.y, a.z - b.z)
  }

  function Scale(s: real, v: Vector3): Vector3
  {
    Vector3(s * v.x, s * v.y, s * v.z)
  }

  function Cross(a: Vector3, b: Vector3): Vector3
  {
    Vector3(a.y * b.z - a.z * b.y, a.z * b.x - a.x * b.z, a.x * b.y - a.y * b.x)
  }

  /** The squared norm is never negative. */
  lemma NormSqNonNegative(v: Vector3)
    ensures NormSq(v) >= 0.0
  {
    assert v.x * v.x >= 0.0 && v.y * v.y >= 0.0 && v.z * v.z >= 0.0;
  }

  /** The cross product is orthogonal to both of its factors. */
  lemma CrossOrthogonal(a: Vector3, b: Vector3)
    ensures Dot(Cross(a, b), a) == 0.0 && Dot(Cross(a, b), b) == 0.0
  {
  }

  /** Dot product is linear in its first argument: (u - s*b).w == u.w - s*(b.w). */
  lemma DotSubScale(u: Vector3, s: real, b: Vector3, w: Vector3)
    ensures Dot(Sub(u, Scale(s, b)), w) == Dot(u, w) - s * Dot(b, w)
  {
  }

  lemma DotScaleLeft(s: real, a: Vector3, w: Vector3)
    ensures Dot(Scale(s, a), w) == s * Dot(a, w)
  {
  }

  lemma DotSymmetric(a: Vector3, b: Vector3)
    ensures Dot(a, b) == Dot(b, a)
  {
  }

  /** A vector that is not the zero vector (squared norm at least 1e-12) has a
      component of magnitude at least the pivot tolerance 1e-9. */
  lemma NonZeroHasPivot(v: Vector3)
    requires NormSq(v) >= ZeroNormSq
    ensures Abs(v.x) >= PivotEps || Abs(v.y) >= PivotEps || Abs(v.z) >= PivotEps
  {
    if Abs(v.x) < PivotEps && Abs(v.y) < PivotEps && Abs(v.z) < PivotEps {
      SquareBelow(v.x, PivotEps);
      SquareBelow(v.y, PivotEps);
      SquareBelow(v.z, PivotEps);
      assert false;
    }
  }

  lemma SquareBelow(c: real, e: real)
    requires Abs(c) < e
    ensures c * c <= e * e
  {
    var a := Abs(c);
    assert c * c == a * a;
    assert a * a <= a * e;
    assert a * e <= e * e;
  }

  /** A vector other than the origin has a positive squared norm. */
  lemma NonZeroNormSqPositive(v: Vector3)
    requires v != Zero
    ensures NormSq(v) > 0.0
  {
    SquareNonNegative(v.x);
    SquareNonNegative(v.y);
    SquareNonNegative(v.z);
    if v.x != 0.0 {
      var d := SquareBound(v.x);
    } else if v.y != 0.0 {
      var d := SquareBound(v.y);
    } else {
      assert v.z != 0.0 by { assert v == Vector3(v.x, v.y, v.z); }
      var d := SquareBound(v.z);
    }
  }

  /** The square of a non-zero number exceeds some positive bound. */
  lemma SquareBound(a: real) returns (d: real)
    requires a != 0.0
    ensures d > 0.0
    ensures a * a >= d
  {
    var b := Abs(a);
    assert a * a == b * b;
    d := ProductBound(b, b / 2.0);
  }

  lemma ProductBound(a: real, h: real) returns (d: real)
    requires 0.0 < h <= a
    ensures d > 0.0
    ensures a * a >= d
  {
    assert a * a >= a * h;
    d := a * h;
  }

  lemma SquareNonNegative(a: real)
    ensures a * a >= 0.0
  {
    if a < 0.0 {
      assert a * a == (-a) * (-a);
    }
  }

  /** A vector whose first component is at least 1 is not the zero vector. */
  lemma NormSqFromFirst(v: Vector3)
    requires v.x >= 1.0
    ensures NormSq(v) >= ZeroNormSq
  {
    SquareNonNegative(v.y);
    SquareNonNegative(v.z);
    assert v.x * v.x >= v.x * 1.0;
  }
}
