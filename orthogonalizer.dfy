/** Gram-Schmidt orthogonalisation: each input vector loses its projection onto
    every earlier output, one output at a time (the running vector is the one
    projected, as in the modified algorithm), and is kept when what remains is
    not the zero vector. A projection is only taken onto an output whose squared
    norm exceeds a guard; the guard is a parameter so that the engine's guard
    and a guard matching the acceptance tolerance can be compared. */
module Orthogonalizer {
  import opened Vectors
  import opened RankEngine

  /** `u` without its projection onto `b`, when `b` passes the guard: what is
      left is orthogonal to `b`. Otherwise `u` is left as it is. */
  function ProjectOut(u: Vector3, b: Vector3, guard: real): (r: Vector3)
    requires guard >= 0.0
    ensures NormSq(b) > guard ==> Dot(r, b) == 0.0
    ensures NormSq(b) <= guard ==> r == u
  {
    if NormSq(b) > guard then
      var s := Dot(u, b) / NormSq(b);
      DotSubScale(u, s, b, b);
      assert s * NormSq(b) == Dot(u, b);
      Sub(u, Scale(s, b))
    else u
  }

  /** `u` after projecting out each vector of `basis`, first to last; the
      result is orthogonal to the last vector when that one passes the guard. */
  function Reduce(u: Vector3, basis: seq<Vector3>, guard: real): (r: Vector3)
    requires guard >= 0.0
    ensures |basis| > 0 && NormSq(basis[|basis| - 1]) > guard ==> Dot(r, basis[|basis| - 1]) == 0.0
    ensures |basis| == 0 ==> r == u
    decreases |basis|
  {
    if |basis| == 0 then u
    else ProjectOut(Reduce(u, basis[..|basis| - 1], guard), basis[|basis| - 1], guard)
  }

  /** The outputs so far, with the reduced vector `u` appended when it is not
      the zero vector. */
  function Keep(prev: seq<Vector3>, u: Vector3): seq<Vector3>
  {
    if NormSq(u) > ZeroNormSq then prev + [u] else prev
  }

  /** The outputs for the input list `vs`: no more than the inputs, and each
      with a squared norm above the zero tolerance. */
  function Orthogonalize(vs: seq<Vector3>, guard: real): (out: seq<Vector3>)
    requires guard >= 0.0
    ensures |out| <= |vs|
    ensures forall k :: 0 <= k < |out| ==> NormSq(out[k]) > ZeroNormSq
    decreases |vs|
  {
    if |vs| == 0 then []
    else
      var prev := Orthogonalize(vs[..|vs| - 1], guard);
      Keep(prev, Reduce(vs[|vs| - 1], prev, guard))
  }

  /** Reducing against one more vector of `basis` is one more projection. */
  lemma ReduceExtend(v: Vector3, basis: seq<Vector3>, j: nat, guard: real)
    requires guard >= 0.0 && j < |basis|
    ensures Reduce(v, basis[..j + 1], guard) == ProjectOut(Reduce(v, basis[..j], guard), basis[j], guard)
  {
    assert basis[..j + 1][..j] == basis[..j];
  }

  /** Orthogonalising one more input vector is one more `Keep`. */
  lemma OrthogonalizeExtend(vs: seq<Vector3>, i: nat, guard: real)
    requires guard >= 0.0 && i < |vs|
    ensures Orthogonalize(vs[..i + 1], guard) ==
      Keep(Orthogonalize(vs[..i], guard), Reduce(vs[i], Orthogonalize(vs[..i], guard), guard))
  {
    assert vs[..i + 1][..i] == vs[..i];
  }

  /** One projection of the running vector onto an earlier output: the dot
      product and the squared norm are taken first, then, when the squared
      norm passes the guard, the x, y and z components each lose their share
      in turn. The running vector ends orthogonal to `basisVec`, or unchanged. */
  method ProjectStep(u0: Vector3, basisVec: Vector3, guard: real) returns (u: Vector3)
    requires guard >= 0.0
    ensures u == ProjectOut(u0, basisVec, guard)
    ensures NormSq(basisVec) > guard ==> Dot(u, basisVec) == 0.0
    ensures NormSq(basisVec) <= guard ==> u == u0
  {
    u := u0;
    var dotProduct := Dot(u, basisVec);
    var basisNormSq := NormSq(basisVec);
    if basisNormSq > guard {
      var scalar := dotProduct / basisNormSq;
      u := u.(x := u.x - scalar * basisVec.x);
      u := u.(y := u.y - scalar * basisVec.y);
      u := u.(z := u.z - scalar * basisVec.z);
      assert u == Vector3(u0.x - scalar * basisVec.x, u0.y - scalar * basisVec.y, u0.z - scalar * basisVec.z);
    }
  }

  /** The orthogonalisation loop with an explicit guard: the running vector is
      reduced against each earlier output by `ProjectStep`, and kept when what
      remains is not the zero vector. */
  method OrthogonalizeWith(vectors: seq<Vector3>, guard: real) returns (orthogonalBasis: seq<Vector3>)
    requires guard >= 0.0
    ensures orthogonalBasis == Orthogonalize(vectors, guard)
  {
    orthogonalBasis := [];
    var i := 0;
    while i < |vectors|
      invariant i <= |vectors|
      invariant orthogonalBasis == Orthogonalize(vectors[..i], guard)
    {
      var v := vectors[i];
      var u := v;
      var j := 0;
      while j < |orthogonalBasis|
        invariant j <= |orthogonalBasis|
        invariant u == Reduce(v, orthogonalBasis[..j], guard)
      {
        u := ProjectStep(u, orthogonalBasis[j], guard);
        ReduceExtend(v, orthogonalBasis, j, guard);
        j := j + 1;
      }
      assert orthogonalBasis[..j] == orthogonalBasis;
      OrthogonalizeExtend(vectors, i, guard);
      ghost var prev := orthogonalBasis;
      if NormSq(u) > ZeroNormSq {
        orthogonalBasis := orthogonalBasis + [u];
      }
      assert orthogonalBasis == Keep(prev, u);
      i := i + 1;
    }
    assert vectors[..i] == vectors;
  }

  /** The engine's orthogonalisation: projections only onto outputs whose
      squared norm exceeds 1e-9. */
  method GramSchmidt(vectors: seq<Vector3>) returns (orthogonalBasis: seq<Vector3>)
    ensures orthogonalBasis == Orthogonalize(vectors, ProjectNormSq)
    ensures |orthogonalBasis| <= |vectors|
    ensures forall k :: 0 <= k < |orthogonalBasis| ==> NormSq(orthogonalBasis[k]) > ZeroNormSq
    ensures OrthogonalToEarlierGuarded(orthogonalBasis, ProjectNormSq)
  {
    orthogonalBasis := OrthogonalizeWith(vectors, ProjectNormSq);
    LaterOrthogonalToGuarded(vectors, ProjectNormSq);
  }

  /** The orthogonalisation with the projection guard set to the acceptance
      tolerance, so that every output is projected out of later vectors. */
  method CorrectedGramSchmidt(vectors: seq<Vector3>) returns (orthogonalBasis: seq<Vector3>)
    ensures orthogonalBasis == Orthogonalize(vectors, ZeroNormSq)
    ensures |orthogonalBasis| <= |vectors|
    ensures forall k :: 0 <= k < |orthogonalBasis| ==> NormSq(orthogonalBasis[k]) > ZeroNormSq
    ensures forall k1, k2 :: 0 <= k1 < |orthogonalBasis| && 0 <= k2 < |orthogonalBasis| && k1 != k2 ==>
      Dot(orthogonalBasis[k1], orthogonalBasis[k2]) == 0.0
  {
    orthogonalBasis := OrthogonalizeWith(vectors, ZeroNormSq);
    CorrectedOrthogonal(vectors);
  }

  // ---------------------------------------------------------------------
  // What the orthogonalisation guarantees.

  /** Every two vectors of `basis` that both pass the guard are orthogonal. */
  predicate GuardedOrthogonal(basis: seq<Vector3>, guard: real)
  {
    forall k1, k2 ::
      (0 <= k1 < |basis| && 0 <= k2 < |basis| && k1 != k2 &&
       NormSq(basis[k1]) > guard && NormSq(basis[k2]) > guard) ==>
      Dot(basis[k1], basis[k2]) == 0.0
  }

  lemma GuardedOrthogonalPrefix(basis: seq<Vector3>, n: nat, guard: real)
    requires n <= |basis| && GuardedOrthogonal(basis, guard)
    ensures GuardedOrthogonal(basis[..n], guard)
  {
    var prefix := basis[..n];
    forall k1, k2 | 0 <= k1 < |prefix| && 0 <= k2 < |prefix| && k1 != k2 &&
        NormSq(prefix[k1]) > guard && NormSq(prefix[k2]) > guard
      ensures Dot(prefix[k1], prefix[k2]) == 0.0
    {
      assert prefix[k1] == basis[k1] && prefix[k2] == basis[k2];
    }
  }

  /** Projecting out `b` keeps orthogonality to any `c` orthogonal to `b`. */
  lemma ProjectOutKeeps(w: Vector3, b: Vector3, c: Vector3, guard: real)
    requires guard >= 0.0 && Dot(w, c) == 0.0 && (NormSq(b) > guard ==> Dot(b, c) == 0.0)
    ensures Dot(ProjectOut(w, b, guard), c) == 0.0
  {
    if NormSq(b) > guard {
      DotSubScale(w, Dot(w, b) / NormSq(b), b, c);
    }
  }

  /** When the vectors of `basis` that pass the guard are pairwise orthogonal,
      the reduced vector is orthogonal to each of them. */
  lemma {:induction false} ReduceOrthogonal(u: Vector3, basis: seq<Vector3>, guard: real)
    requires guard >= 0.0 && GuardedOrthogonal(basis, guard)
    ensures forall k :: 0 <= k < |basis| && NormSq(basis[k]) > guard ==> Dot(Reduce(u, basis, guard), basis[k]) == 0.0
    decreases |basis|
  {
    if |basis| > 0 {
      var n := |basis| - 1;
      var prefix := basis[..n];
      var b := basis[n];
      GuardedOrthogonalPrefix(basis, n, guard);
      ReduceOrthogonal(u, prefix, guard);
      var w := Reduce(u, prefix, guard);
      forall k | 0 <= k < |basis| && NormSq(basis[k]) > guard
        ensures Dot(ProjectOut(w, b, guard), basis[k]) == 0.0
      {
        if k != n {
          assert basis[k] == prefix[k];
          if NormSq(b) > guard {
            DotSymmetric(b, basis[k]);
          }
          ProjectOutKeeps(w, b, basis[k], guard);
        }
      }
    }
  }

  /** Every output that passes the guard is orthogonal to every other output. */
  lemma {:induction false} OrthogonalizeGuardedOrthogonal(vs: seq<Vector3>, guard: real)
    requires guard >= 0.0
    ensures GuardedOrthogonal(Orthogonalize(vs, guard), guard)
    decreases |vs|
  {
    if |vs| > 0 {
      var prev := Orthogonalize(vs[..|vs| - 1], guard);
      OrthogonalizeGuardedOrthogonal(vs[..|vs| - 1], guard);
      var u := Reduce(vs[|vs| - 1], prev, guard);
      if NormSq(u) > ZeroNormSq {
        ReduceOrthogonal(vs[|vs| - 1], prev, guard);
        var out := prev + [u];
        forall k1, k2 | 0 <= k1 < |out| && 0 <= k2 < |out| && k1 != k2 &&
          NormSq(out[k1]) > guard && NormSq(out[k2]) > guard
          ensures Dot(out[k1], out[k2]) == 0.0
        {
          if k1 == |prev| {
            assert out[k2] == prev[k2];
          } else if k2 == |prev| {
            assert out[k1] == prev[k1];
            DotSymmetric(u, prev[k1]);
          } else {
            assert out[k1] == prev[k1] && out[k2] == prev[k2];
          }
        }
      }
    }
  }

  /** Every output is orthogonal to each earlier output that passes the guard. */
  predicate OrthogonalToEarlierGuarded(out: seq<Vector3>, guard: real)
  {
    forall k1, k2 :: 0 <= k1 < k2 < |out| && NormSq(out[k1]) > guard ==> Dot(out[k1], out[k2]) == 0.0
  }

  /** Each output is orthogonal to every earlier output whose squared norm
      exceeds the guard, whatever its own squared norm. */
  lemma {:induction false} LaterOrthogonalToGuarded(vs: seq<Vector3>, guard: real)
    requires guard >= 0.0
    ensures OrthogonalToEarlierGuarded(Orthogonalize(vs, guard), guard)
    decreases |vs|
  {
    if |vs| > 0 {
      var prev := Orthogonalize(vs[..|vs| - 1], guard);
      LaterOrthogonalToGuarded(vs[..|vs| - 1], guard);
      var u := Reduce(vs[|vs| - 1], prev, guard);
      if NormSq(u) > ZeroNormSq {
        OrthogonalizeGuardedOrthogonal(vs[..|vs| - 1], guard);
        ReduceOrthogonal(vs[|vs| - 1], prev, guard);
        var out := prev + [u];
        forall k1, k2 | 0 <= k1 < k2 < |out| && NormSq(out[k1]) > guard
          ensures Dot(out[k1], out[k2]) == 0.0
        {
          assert out[k1] == prev[k1];
          if k2 == |prev| {
            DotSymmetric(u, prev[k1]);
          } else {
            assert out[k2] == prev[k2];
          }
        }
      }
    }
  }

  /** With the guard at the acceptance tolerance, the outputs are pairwise orthogonal. */
  lemma CorrectedOrthogonal(vs: seq<Vector3>)
    ensures forall k1, k2 ::
      (0 <= k1 < |Orthogonalize(vs, ZeroNormSq)| && 0 <= k2 < |Orthogonalize(vs, ZeroNormSq)| && k1 != k2) ==>
      Dot(Orthogonalize(vs, ZeroNormSq)[k1], Orthogonalize(vs, ZeroNormSq)[k2]) == 0.0
  {
    OrthogonalizeGuardedOrthogonal(vs, ZeroNormSq);
  }

  /** With the engine's guard, two copies of (2e-6, 0, 0) both come out: the
      first output (squared norm 4e-12) is accepted but falls under the 1e-9
      guard, so it is never projected out of the second, and the two outputs
      are parallel rather than orthogonal. */
  lemma AsWrittenNotOrthogonal()
    ensures var v := Vector3(0.000002, 0.0, 0.0);
      Orthogonalize([v, v], ProjectNormSq) == [v, v] && Dot(v, v) != 0.0
  {
    var v := Vector3(0.000002, 0.0, 0.0);
    assert NormSq(v) == 0.000000000004;
    assert [v, v][..1] == [v];
    assert [v][..0] == [];
    assert Orthogonalize([v], ProjectNormSq) == [v];
    assert Reduce(v, [v], ProjectNormSq) == v;
  }

  /** The number of outputs is not the rank: the two copies of (2e-6, 0, 0)
      have rank 1, yet both come out. */
  lemma GramSchmidtCountDiffers(v: Vector3)
    requires v == Vector3(0.000002, 0.0, 0.0)
    ensures |Orthogonalize([v, v], ProjectNormSq)| == 2
    ensures Rank([v, v]) == 1
  {
    AsWrittenNotOrthogonal();
    RankPositive([v, v], 0);
    assert Cross(v, v) == Zero;
    if Rank([v, v]) == 2 {
      RankTwoCrossNonZero(v, v);
    }
  }
}
