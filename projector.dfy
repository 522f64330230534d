/** Orthogonal projection of a target vector onto the span of a list of
    vectors, dispatched on the rank of the list, and the coordinates of that
    projection in the extracted basis. */
module Projector {
  import opened Vectors
  import opened RankEngine
  import opened LinearSolver
  import opened BasisExtractor

  /** The coordinates found for a target, and the basis they refer to. */
  datatype Coordinates = Coordinates(coordinates: seq<real>, basisUsed: seq<Vector3>)

  /** Position of the first vector of `vs[i..]` whose norm exceeds 1e-5
      (squared, 1e-10), if any. */
  function FirstLineVectorFrom(vs: seq<Vector3>, i: nat): (r: Option<nat>)
    requires i <= |vs|
    ensures r.Some? ==>
      (i <= r.value < |vs| && NormSq(vs[r.value]) > LineNormSq &&
       forall k :: i <= k < r.value ==> NormSq(vs[k]) <= LineNormSq)
    ensures r.None? ==> forall k :: i <= k < |vs| ==> NormSq(vs[k]) <= LineNormSq
    decreases |vs| - i
  {
    if i == |vs| then None
    else if NormSq(vs[i]) > LineNormSq then Some(i)
    else FirstLineVectorFrom(vs, i + 1)
  }

  function FirstLineVector(vs: seq<Vector3>): Option<nat>
  {
    FirstLineVectorFrom(vs, 0)
  }

  /** The projection of `t` onto the line along `w`: it lies on that line
      (parallel to `w`), and what is left of `t` is orthogonal to `w`. */
  function LineProjection(w: Vector3, t: Vector3): (r: Vector3)
    requires NormSq(w) > 0.0
    ensures Cross(r, w) == Zero
    ensures Dot(Sub(t, r), w) == 0.0
  {
    var s := Dot(t, w) / NormSq(w);
    DotSubScale(t, s, w, w);
    assert s * NormSq(w) == Dot(t, w);
    assert Sub(t, Sub(t, Scale(s, w))) == Scale(s, w);
    Scale(s, w)
  }

  /** The projection of `t` onto the plane with normal `n`: it lies in that
      plane. */
  function PlaneProjection(n: Vector3, t: Vector3): (r: Vector3)
    requires NormSq(n) > 0.0
    ensures Dot(r, n) == 0.0
  {
    var s := Dot(t, n) / NormSq(n);
    DotSubScale(t, s, n, n);
    assert s * NormSq(n) == Dot(t, n);
    Sub(t, Scale(s, n))
  }

  /** The projection of `t` onto the span of `vs`: the origin for rank 0; for
      rank 1, the projection onto the first vector of norm above 1e-5 (none:
      no result); for rank 2, the projection onto the plane of the first two
      basis vectors (fewer than two: no result); for rank 3, `t` itself. */
  function GetProjection(vs: seq<Vector3>, t: Vector3): (r: Option<Vector3>)
    ensures Rank(vs) == 0 ==> r == Some(Zero)
    ensures Rank(vs) == 1 ==> (r.None? <==> forall k :: 0 <= k < |vs| ==> NormSq(vs[k]) <= LineNormSq)
    ensures Rank(vs) == 2 ==> (r.None? <==> |BasisOf(vs)| < 2)
    ensures Rank(vs) == 3 ==> r == Some(t)
  {
    var rank := Rank(vs);
    if rank == 0 then Some(Zero)
    else if rank == 1 then
      match FirstLineVector(vs)
      case None => None
      case Some(k) => Some(LineProjection(vs[k], t))
    else if rank == 2 then
      var basis := BasisOf(vs);
      if |basis| < 2 then None
      else
        FirstTwoIndependent(vs);
        NonZeroNormSqPositive(Cross(basis[0], basis[1]));
        Some(PlaneProjection(Cross(basis[0], basis[1]), t))
    else Some(t)
  }

  /** The coordinates of the projection of `t` in the basis extracted from
      `vs`; no result for an empty basis or when the projection has none. */
  function GetCoordinates(vs: seq<Vector3>, t: Vector3): (r: Option<Coordinates>)
    ensures r.None? <==> |BasisOf(vs)| == 0 || GetProjection(BasisOf(vs), t).None?
    ensures r.Some? ==>
      (r.value.basisUsed == BasisOf(vs) && |r.value.coordinates| == |r.value.basisUsed| &&
       1 <= |r.value.basisUsed| <= 3)
  {
    var basis := BasisOf(vs);
    if |basis| == 0 then None
    else
      match GetProjection(basis, t)
      case None => None
      case Some(p) => Some(Coordinates(Solve(basis, p), basis))
  }

  // ---------------------------------------------------------------------
  // What the projection guarantees.

  /** Projecting onto the line twice is projecting once. */
  lemma LineProjectionIdempotent(w: Vector3, t: Vector3)
    requires NormSq(w) > 0.0
    ensures LineProjection(w, LineProjection(w, t)) == LineProjection(w, t)
  {
    var s := Dot(t, w) / NormSq(w);
    DotScaleLeft(s, w, w);
    assert Dot(LineProjection(w, t), w) / NormSq(w) == s;
  }

  /** What is left of `t` after projecting onto the plane of `a` and `b` is
      orthogonal to both, and the projection lies in the plane. */
  lemma PlaneResidualOrthogonal(a: Vector3, b: Vector3, t: Vector3)
    requires NormSq(Cross(a, b)) > 0.0
    ensures Dot(Sub(t, PlaneProjection(Cross(a, b), t)), a) == 0.0
    ensures Dot(Sub(t, PlaneProjection(Cross(a, b), t)), b) == 0.0
    ensures Dot(PlaneProjection(Cross(a, b), t), Cross(a, b)) == 0.0
  {
    var n := Cross(a, b);
    var s := Dot(t, n) / NormSq(n);
    CrossOrthogonal(a, b);
    ResidualIsScaledNormal(n, t, s);
    DotScaleLeft(s, n, a);
    DotScaleLeft(s, n, b);
    DotSubScale(t, s, n, n);
    assert s * NormSq(n) == Dot(t, n);
  }

  lemma ResidualIsScaledNormal(n: Vector3, t: Vector3, s: real)
    requires NormSq(n) > 0.0 && s == Dot(t, n) / NormSq(n)
    ensures Sub(t, PlaneProjection(n, t)) == Scale(s, n)
  {
  }

  /** Projecting onto the plane twice is projecting once. */
  lemma PlaneProjectionIdempotent(n: Vector3, t: Vector3)
    requires NormSq(n) > 0.0
    ensures PlaneProjection(n, PlaneProjection(n, t)) == PlaneProjection(n, t)
  {
    var p := PlaneProjection(n, t);
    var s := Dot(t, n) / NormSq(n);
    DotSubScale(t, s, n, n);
    assert s * NormSq(n) == Dot(t, n);
    assert Dot(p, n) == 0.0;
    assert Dot(p, n) / NormSq(n) == 0.0;
    assert Scale(0.0, n) == Zero;
  }

  /** The projection is idempotent: projecting a projection gives it back. */
  lemma ProjectionIdempotent(vs: seq<Vector3>, t: Vector3)
    requires GetProjection(vs, t).Some?
    ensures GetProjection(vs, GetProjection(vs, t).value) == GetProjection(vs, t)
  {
    var rank := Rank(vs);
    if rank == 1 {
      var k := FirstLineVector(vs).value;
      LineProjectionIdempotent(vs[k], t);
    } else if rank == 2 {
      var basis := BasisOf(vs);
      FirstTwoIndependent(vs);
      NonZeroNormSqPositive(Cross(basis[0], basis[1]));
      PlaneProjectionIdempotent(Cross(basis[0], basis[1]), t);
    }
  }

  /** The projection lies in the span it was taken on, and what is left of
      the target is orthogonal to the vectors the projection used: for rank 1
      the result is parallel to the line vector and the residual orthogonal
      to it; for rank 2 the result is orthogonal to the plane's normal and the
      residual orthogonal to the first two basis vectors; for rank 3 nothing
      is left. */
  lemma ProjectionResidualOrthogonal(vs: seq<Vector3>, t: Vector3)
    requires GetProjection(vs, t).Some?
    ensures Rank(vs) == 1 ==>
      (FirstLineVector(vs).Some? &&
       Cross(GetProjection(vs, t).value, vs[FirstLineVector(vs).value]) == Zero &&
       Dot(Sub(t, GetProjection(vs, t).value), vs[FirstLineVector(vs).value]) == 0.0)
    ensures Rank(vs) == 2 ==>
      (|BasisOf(vs)| >= 2 &&
       Dot(GetProjection(vs, t).value, Cross(BasisOf(vs)[0], BasisOf(vs)[1])) == 0.0 &&
       Dot(Sub(t, GetProjection(vs, t).value), BasisOf(vs)[0]) == 0.0 &&
       Dot(Sub(t, GetProjection(vs, t).value), BasisOf(vs)[1]) == 0.0)
    ensures Rank(vs) == 3 ==> Sub(t, GetProjection(vs, t).value) == Zero
  {
    var rank := Rank(vs);
    if rank == 2 {
      var basis := BasisOf(vs);
      FirstTwoIndependent(vs);
      NonZeroNormSqPositive(Cross(basis[0], basis[1]));
      PlaneResidualOrthogonal(basis[0], basis[1], t);
    }
  }

  // ---------------------------------------------------------------------
  // Coordinates of a vector of the span.

  lemma CombinationOne(b: seq<Vector3>, x: seq<real>)
    requires |b| == 1 && |x| == 1
    ensures Combination(b, x) == Scale(x[0], b[0])
  {
    assert CombineUpTo(b, x, 0) == Zero;
  }

  lemma CombinationTwo(b: seq<Vector3>, x: seq<real>)
    requires |b| == 2 && |x| == 2
    ensures Combination(b, x) == Add(Scale(x[0], b[0]), Scale(x[1], b[1]))
  {
    assert CombineUpTo(b, x, 0) == Zero;
    assert CombineUpTo(b, x, 1) == Scale(x[0], b[0]);
  }

  /** A multiple of `w` is its own projection onto the line along `w`. */
  lemma LineFixesMultiple(w: Vector3, c: real)
    requires NormSq(w) > 0.0
    ensures LineProjection(w, Scale(c, w)) == Scale(c, w)
  {
    DotScaleLeft(c, w, w);
    assert Dot(Scale(c, w), w) / NormSq(w) == c;
  }

  /** A vector of the plane of `a` and `b` is its own projection onto it. */
  lemma PlaneFixesCombination(a: Vector3, b: Vector3, c: real, d: real)
    requires NormSq(Cross(a, b)) > 0.0
    ensures PlaneProjection(Cross(a, b), Add(Scale(c, a), Scale(d, b))) == Add(Scale(c, a), Scale(d, b))
  {
    var n := Cross(a, b);
    var t := Add(Scale(c, a), Scale(d, b));
    CrossOrthogonal(a, b);
    DotSymmetric(a, n);
    DotSymmetric(b, n);
    DotScaleLeft(c, a, n);
    DotScaleLeft(d, b, n);
    assert Dot(t, n) == Dot(Scale(c, a), n) + Dot(Scale(d, b), n);
    assert Dot(t, n) == 0.0;
    assert Dot(t, n) / NormSq(n) == 0.0;
    assert Scale(0.0, n) == Zero;
  }

  /** A vector of the span of the basis is its own projection. */
  lemma ProjectionFixesSpan(vs: seq<Vector3>, x: seq<real>)
    requires |x| == |BasisOf(vs)| > 0
    requires |BasisOf(vs)| == 1 ==> NormSq(BasisOf(vs)[0]) > LineNormSq
    ensures GetProjection(BasisOf(vs), Combination(BasisOf(vs), x)) == Some(Combination(BasisOf(vs), x))
  {
    var basis := BasisOf(vs);
    var t := Combination(basis, x);
    if |basis| == 1 {
      CombinationOne(basis, x);
      assert FirstLineVector(basis) == Some(0);
      LineFixesMultiple(basis[0], x[0]);
    } else if |basis| == 2 {
      BasisIdempotent(vs);
      CombinationTwo(basis, x);
      FirstTwoIndependent(vs);
      NonZeroNormSqPositive(Cross(basis[0], basis[1]));
      PlaneFixesCombination(basis[0], basis[1], x[0], x[1]);
    }
  }

  /** For a combination of the basis vectors with coefficients `x`, the
      coordinates are `x` whenever the reduction finds a pivot for every basis
      vector (and, for a one-vector basis, that vector is longer than 1e-5). */
  lemma CoordinatesRecoverCoefficients(vs: seq<Vector3>, x: seq<real>)
    requires |x| == |BasisOf(vs)| > 0
    requires |BasisOf(vs)| == 1 ==> NormSq(BasisOf(vs)[0]) > LineNormSq
    requires FullyPivoted(BasisOf(vs), Combination(BasisOf(vs), x))
    ensures GetCoordinates(vs, Combination(BasisOf(vs), x)) == Some(Coordinates(x, BasisOf(vs)))
  {
    ProjectionFixesSpan(vs, x);
    SolveRecoversCoefficients(BasisOf(vs), x);
  }

  /** For a one-vector basis and any target with coordinates, the coordinates
      recombine to the projection of the target. */
  lemma LineCoordinatesRecombine(vs: seq<Vector3>, t: Vector3)
    requires |BasisOf(vs)| == 1 && GetCoordinates(vs, t).Some?
    ensures Combination(BasisOf(vs), GetCoordinates(vs, t).value.coordinates) == GetProjection(BasisOf(vs), t).value
  {
    var basis := BasisOf(vs);
    var w := basis[0];
    assert FirstLineVector(basis) == Some(0);
    var s := Dot(t, w) / NormSq(w);
    var p := GetProjection(basis, t).value;
    assert p == Scale(s, w);
    BasisDrawnFromInput(vs);
    assert basis == [w];
    SingleVectorPivoted(w, p);
    CombinationOne(basis, [s]);
    SolveRecoversCoefficients(basis, [s]);
  }

  /** A one-vector basis whose vector is not the zero vector but no longer
      than 1e-5, such as (2e-6, 0, 0), gives no coordinates for any target:
      the line projection finds no vector to project onto. */
  lemma ShortLineNoCoordinates(vs: seq<Vector3>, t: Vector3)
    requires |BasisOf(vs)| == 1 && NormSq(BasisOf(vs)[0]) <= LineNormSq
    ensures GetCoordinates(vs, t).None?
  {
  }

  /** An empty basis (every input vector is the zero vector) has no coordinates. */
  lemma NoCoordinatesForZeroVectors(vs: seq<Vector3>, t: Vector3)
    requires forall v :: v in vs ==> NormSq(v) < ZeroNormSq
    ensures GetCoordinates(vs, t).None?
  {
    BasisEmptyIff(vs);
  }
}
