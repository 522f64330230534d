/** The two rank comparisons: linear independence of a list, and membership
    of a vector in the span of a list. */
module SpanQueries {
  import opened Vectors
  import opened RankEngine

  /** Independent: no vectors at all, or at most three whose rank is their
      number; more than three vectors in three dimensions are never independent. */
  function IsLinearlyIndependent(vs: seq<Vector3>): (r: bool)
    ensures r <==> Rank(vs) == |vs|
    ensures |vs| == 0 ==> r
    ensures |vs| > 3 ==> !r
  {
    if |vs| == 0 then true
    else if |vs| > 3 then false
    else Rank(vs) == |vs|
  }

  /** In the span: for an empty list, the target is the origin up to the pivot
      tolerance in each component; otherwise appending the target leaves the
      rank unchanged. */
  function IsInSpan(basis: seq<Vector3>, target: Vector3): (r: bool)
    ensures r <==> Rank(basis + [target]) == Rank(basis)
    ensures |basis| == 0 ==> (r <==> Abs(target.x) < PivotEps && Abs(target.y) < PivotEps && Abs(target.z) < PivotEps)
  {
    if |basis| == 0 then
      RankSingleton(target);
      assert basis + [target] == [target];
      Abs(target.x) < PivotEps && Abs(target.y) < PivotEps && Abs(target.z) < PivotEps
    else
      Rank(basis) == Rank(basis + [target])
  }

  /** The origin lies in the span of every list. */
  lemma ZeroInEverySpan(basis: seq<Vector3>)
    ensures IsInSpan(basis, Zero)
  {
    RankAppendZero(basis);
  }

  /** A vector that is not the zero vector is never in the span of the empty list. */
  lemma NonZeroNotInEmptySpan(target: Vector3)
    requires NormSq(target) >= ZeroNormSq
    ensures !IsInSpan([], target)
  {
    NonZeroHasPivot(target);
  }

  /** Membership compares ranks computed with the 1e-9 pivot tolerance, not
      directions: (1e-10, 0, 0) on its own has rank 0, so (1e-8, 0, 0), a
      hundred times it, is not in its span. */
  lemma MultipleNotInSpan(b: Vector3, t: Vector3)
    requires b == Vector3(0.0000000001, 0.0, 0.0) && t == Vector3(0.00000001, 0.0, 0.0)
    ensures t == Scale(100.0, b)
    ensures !IsInSpan([b], t)
  {
    RankSingleton(b);
    RankPositive([b, t], 1);
    assert [b] + [t] == [b, t];
  }
}
