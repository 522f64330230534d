/** Basis extraction: scan the vectors in order, skip the zero vectors, keep
    each vector that raises the rank of the vectors kept so far, and stop once
    three are kept. */
module BasisExtractor {
  import opened Vectors
  import opened RankEngine

  /** What the scan keeps from `vs[i..]` when it has kept `acc` so far. */
  function BasisFrom(vs: seq<Vector3>, i: nat, acc: seq<Vector3>): (b: seq<Vector3>)
    requires i <= |vs|
    ensures acc <= b
    decreases |vs| - i
  {
    if i == |vs| then acc
    else if NormSq(vs[i]) < ZeroNormSq then BasisFrom(vs, i + 1, acc)
    else if Rank(acc + [vs[i]]) > Rank(acc) then
      if |acc| + 1 == 3 then acc + [vs[i]] else BasisFrom(vs, i + 1, acc + [vs[i]])
    else if |acc| == 3 then acc
    else BasisFrom(vs, i + 1, acc)
  }

  /** The basis extracted from `vs`: linearly independent (its rank is its
      length), and so of at most three vectors. */
  function BasisOf(vs: seq<Vector3>): (b: seq<Vector3>)
    ensures Rank(b) == |b| && |b| <= 3
  {
    BasisFromIndependent(vs, 0, []);
    BasisFrom(vs, 0, [])
  }

  /** The extraction loop, calling the rank computation twice per non-zero vector. */
  method GetBasis(vectors: seq<Vector3>) returns (basis: seq<Vector3>)
    ensures basis == BasisOf(vectors)
  {
    basis := [];
    var i := 0;
    while i < |vectors|
      invariant i <= |vectors| && |basis| < 3
      invariant BasisFrom(vectors, i, basis) == BasisOf(vectors)
    {
      var v := vectors[i];
      if NormSq(v) < ZeroNormSq {
        i := i + 1;
        continue;
      }
      var currentRank := CalculateRank(basis);
      var newRank := CalculateRank(basis + [v]);
      if newRank > currentRank {
        basis := basis + [v];
      }
      if |basis| == 3 {
        break;
      }
      i := i + 1;
    }
  }

  /** Kept vectors stay independent: the rank of what is kept equals its length. */
  lemma {:induction false} BasisFromIndependent(vs: seq<Vector3>, i: nat, acc: seq<Vector3>)
    requires i <= |vs| && Rank(acc) == |acc|
    ensures Rank(BasisFrom(vs, i, acc)) == |BasisFrom(vs, i, acc)|
    decreases |vs| - i
  {
    if i < |vs| && NormSq(vs[i]) >= ZeroNormSq {
      var next := if Rank(acc + [vs[i]]) > Rank(acc) then acc + [vs[i]] else acc;
      assert Rank(next) == |next|;
      if |next| != 3 {
        BasisFromIndependent(vs, i + 1, next);
      }
    } else if i < |vs| {
      BasisFromIndependent(vs, i + 1, acc);
    }
  }

  /** Every vector the scan adds is not the zero vector. */
  lemma {:induction false} BasisFromNonZero(vs: seq<Vector3>, i: nat, acc: seq<Vector3>)
    requires i <= |vs|
    requires forall k :: 0 <= k < |acc| ==> NormSq(acc[k]) >= ZeroNormSq
    ensures forall k :: 0 <= k < |BasisFrom(vs, i, acc)| ==> NormSq(BasisFrom(vs, i, acc)[k]) >= ZeroNormSq
    decreases |vs| - i
  {
    if i < |vs| {
      if NormSq(vs[i]) < ZeroNormSq {
        BasisFromNonZero(vs, i + 1, acc);
      } else if Rank(acc + [vs[i]]) > Rank(acc) {
        NonZeroSnoc(acc, vs[i]);
        if |acc| + 1 != 3 {
          BasisFromNonZero(vs, i + 1, acc + [vs[i]]);
        }
      } else if |acc| != 3 {
        BasisFromNonZero(vs, i + 1, acc);
      }
    }
  }

  lemma NonZeroSnoc(acc: seq<Vector3>, v: Vector3)
    requires forall k :: 0 <= k < |acc| ==> NormSq(acc[k]) >= ZeroNormSq
    requires NormSq(v) >= ZeroNormSq
    ensures forall k :: 0 <= k < |acc + [v]| ==> NormSq((acc + [v])[k]) >= ZeroNormSq
  {
  }

  /** Each kept vector raised the rank of the vectors kept before it. */
  predicate RankIncreasing(b: seq<Vector3>)
    decreases |b|
  {
    |b| == 0 || (RankIncreasing(b[..|b| - 1]) && Rank(b) > Rank(b[..|b| - 1]))
  }

  lemma {:induction false} RankIncreasingAppend(acc: seq<Vector3>, v: Vector3)
    requires RankIncreasing(acc) && Rank(acc + [v]) > Rank(acc)
    ensures RankIncreasing(acc + [v])
  {
    assert (acc + [v])[..|acc|] == acc;
  }

  lemma {:induction false} BasisFromRankIncreasing(vs: seq<Vector3>, i: nat, acc: seq<Vector3>)
    requires i <= |vs| && RankIncreasing(acc)
    ensures RankIncreasing(BasisFrom(vs, i, acc))
    decreases |vs| - i
  {
    if i < |vs| {
      if NormSq(vs[i]) < ZeroNormSq {
        BasisFromRankIncreasing(vs, i + 1, acc);
      } else {
        var next := if Rank(acc + [vs[i]]) > Rank(acc) then acc + [vs[i]] else acc;
        if Rank(acc + [vs[i]]) > Rank(acc) {
          RankIncreasingAppend(acc, vs[i]);
        }
        if |next| != 3 {
          BasisFromRankIncreasing(vs, i + 1, next);
        }
      }
    }
  }

  /** `a` is `b` with some elements removed, in the same order. */
  predicate Subsequence<T(==)>(a: seq<T>, b: seq<T>)
    decreases |b|
  {
    |a| <= |b| &&
    (|a| == 0 ||
     (a[|a| - 1] == b[|b| - 1] && Subsequence(a[..|a| - 1], b[..|b| - 1])) ||
     Subsequence(a, b[..|b| - 1]))
  }

  lemma SubsequenceExtend<T>(a: seq<T>, b: seq<T>, x: T)
    requires Subsequence(a, b)
    ensures Subsequence(a, b + [x]) && Subsequence(a + [x], b + [x])
  {
    assert (b + [x])[..|b|] == b;
    assert (a + [x])[..|a|] == a;
  }

  lemma SubsequenceSnoc<T>(a: seq<T>, b: seq<T>, x: T)
    requires Subsequence(a, b)
    ensures Subsequence(a, b + [x])
  {
    assert (b + [x])[..|b|] == b;
  }

  lemma {:induction false} SubsequenceOfPrefix<T>(a: seq<T>, b: seq<T>, j: nat)
    requires j <= |b| && Subsequence(a, b[..j])
    ensures Subsequence(a, b)
    decreases |b| - j
  {
    if j < |b| {
      SubsequenceSnoc(a, b[..j], b[j]);
      assert b[..j] + [b[j]] == b[..j + 1];
      SubsequenceOfPrefix(a, b, j + 1);
    } else {
      assert b[..j] == b;
    }
  }

  lemma {:induction false} SubsequenceMembers<T>(a: seq<T>, b: seq<T>)
    requires Subsequence(a, b)
    ensures forall x :: x in a ==> x in b
    decreases |b|
  {
    if |a| > 0 {
      var a', b' := a[..|a| - 1], b[..|b| - 1];
      assert a == a' + [a[|a| - 1]] && b == b' + [b[|b| - 1]];
      if a[|a| - 1] == b[|b| - 1] && Subsequence(a', b') {
        SubsequenceMembers(a', b');
      } else {
        SubsequenceMembers(a, b');
      }
    }
  }

  lemma {:induction false} BasisFromSubsequence(vs: seq<Vector3>, i: nat, acc: seq<Vector3>)
    requires i <= |vs| && Subsequence(acc, vs[..i])
    ensures Subsequence(BasisFrom(vs, i, acc), vs)
    decreases |vs| - i
  {
    if i == |vs| {
      SubsequenceOfPrefix(acc, vs, i);
    } else {
      SubsequenceNext(acc, vs, i);
      if NormSq(vs[i]) < ZeroNormSq {
        BasisFromSubsequence(vs, i + 1, acc);
      } else if Rank(acc + [vs[i]]) > Rank(acc) {
        BasisFromSubsequenceKept(vs, i, acc + [vs[i]]);
      } else {
        BasisFromSubsequenceKept(vs, i, acc);
      }
    }
  }

  lemma {:induction false} BasisFromSubsequenceKept(vs: seq<Vector3>, i: nat, next: seq<Vector3>)
    requires i < |vs| && Subsequence(next, vs[..i + 1])
    ensures |next| == 3 ==> Subsequence(next, vs)
    ensures |next| != 3 ==> Subsequence(BasisFrom(vs, i + 1, next), vs)
    decreases |vs| - i, 0
  {
    if |next| == 3 {
      SubsequenceOfPrefix(next, vs, i + 1);
    } else {
      BasisFromSubsequence(vs, i + 1, next);
    }
  }

  /** What is drawn from `vs[..i]` is drawn from `vs[..i + 1]`, with or without `vs[i]`. */
  lemma SubsequenceNext(acc: seq<Vector3>, vs: seq<Vector3>, i: nat)
    requires i < |vs| && Subsequence(acc, vs[..i])
    ensures Subsequence(acc, vs[..i + 1]) && Subsequence(acc + [vs[i]], vs[..i + 1])
  {
    assert vs[..i] + [vs[i]] == vs[..i + 1];
    SubsequenceExtend(acc, vs[..i], vs[i]);
  }

  /** The first non-zero vector from `vs[i]` on is always kept by a scan
      that has kept nothing yet. */
  lemma {:induction false} BasisFromNonEmpty(vs: seq<Vector3>, i: nat, j: nat)
    requires i <= j < |vs| && NormSq(vs[j]) >= ZeroNormSq
    ensures |BasisFrom(vs, i, [])| > 0
    decreases j - i
  {
    if NormSq(vs[i]) < ZeroNormSq {
      BasisFromNonEmpty(vs, i + 1, j);
    } else {
      RankNonZeroSingleton(vs[i]);
      assert Rank([] + [vs[i]]) > Rank([]);
    }
  }

  /** The basis is an order-preserving subsequence of the input, holds no
      zero vector, and each of its vectors raised the rank when it was kept. */
  lemma {:induction false} BasisDrawnFromInput(vs: seq<Vector3>)
    ensures Subsequence(BasisOf(vs), vs)
    ensures forall k :: 0 <= k < |BasisOf(vs)| ==> NormSq(BasisOf(vs)[k]) >= ZeroNormSq
    ensures RankIncreasing(BasisOf(vs))
  {
    assert vs[..0] == [];
    BasisFromSubsequence(vs, 0, []);
    BasisFromNonZero(vs, 0, []);
    BasisFromRankIncreasing(vs, 0, []);
  }

  /** The basis is empty exactly when every input vector is the zero vector. */
  lemma {:induction false} BasisEmptyIff(vs: seq<Vector3>)
    ensures |BasisOf(vs)| == 0 <==> forall v :: v in vs ==> NormSq(v) < ZeroNormSq
  {
    if j :| 0 <= j < |vs| && NormSq(vs[j]) >= ZeroNormSq {
      BasisFromNonEmpty(vs, 0, j);
    } else {
      BasisDrawnFromInput(vs);
      SubsequenceMembers(BasisOf(vs), vs);
      if |BasisOf(vs)| > 0 {
        assert BasisOf(vs)[0] in BasisOf(vs);
      }
    }
  }

  lemma {:induction false} RankIncreasingPrefix(b: seq<Vector3>, k: nat)
    requires RankIncreasing(b) && k <= |b|
    ensures RankIncreasing(b[..k])
    decreases |b|
  {
    if k < |b| {
      PrefixOfPrefix(b, |b| - 1, k);
      RankIncreasingPrefix(b[..|b| - 1], k);
    } else {
      PrefixOfPrefix(b, |b|, k);
    }
  }

  lemma {:induction false} RankIncreasingAt(b: seq<Vector3>, i: nat)
    requires RankIncreasing(b) && i < |b|
    ensures Rank(b[..i + 1]) > Rank(b[..i])
  {
    RankIncreasingPrefix(b, i + 1);
    PrefixOfPrefix(b, i + 1, i);
  }

  lemma PrefixOfPrefix<T>(b: seq<T>, j: nat, k: nat)
    requires k <= j <= |b|
    ensures b[..j][..k] == b[..k]
    ensures b[..|b|] == b
  {
  }

  lemma PrefixSnoc<T>(b: seq<T>, i: nat)
    requires i < |b|
    ensures b[..i] + [b[i]] == b[..i + 1]
  {
  }

  /** One scan step on a non-zero vector that raises the rank. */
  lemma {:induction false} BasisFromStepKept(vs: seq<Vector3>, i: nat, acc: seq<Vector3>)
    requires i < |vs| && NormSq(vs[i]) >= ZeroNormSq && Rank(acc + [vs[i]]) > Rank(acc)
    ensures |acc| == 2 ==> BasisFrom(vs, i, acc) == acc + [vs[i]]
    ensures |acc| != 2 ==> BasisFrom(vs, i, acc) == BasisFrom(vs, i + 1, acc + [vs[i]])
  {
  }

  /** Scanning a rank-increasing list of non-zero vectors, at most three long,
      keeps every vector. */
  lemma {:induction false} BasisFromKeepsAll(b: seq<Vector3>, i: nat)
    requires RankIncreasing(b) && |b| <= 3 && i < |b|
    requires forall k :: 0 <= k < |b| ==> NormSq(b[k]) >= ZeroNormSq
    ensures BasisFrom(b, i, b[..i]) == b
    decreases |b| - i
  {
    RankIncreasingAt(b, i);
    PrefixSnoc(b, i);
    BasisFromStepKept(b, i, b[..i]);
    if i + 1 < |b| {
      BasisFromKeepsAll(b, i + 1);
    } else {
      PrefixOfPrefix(b, |b|, |b|);
    }
  }

  /** Extracting a basis from a basis gives it back. */
  lemma {:induction false} BasisIdempotent(vs: seq<Vector3>)
    ensures BasisOf(BasisOf(vs)) == BasisOf(vs)
  {
    var b := BasisOf(vs);
    BasisDrawnFromInput(vs);
    if |b| > 0 {
      assert b[..0] == [];
      BasisFromKeepsAll(b, 0);
    }
  }

  /** A rank-increasing list has full rank. */
  lemma {:induction false} IncreasingFullRank(b: seq<Vector3>)
    requires RankIncreasing(b)
    ensures Rank(b) == |b|
    decreases |b|
  {
    if |b| > 0 {
      IncreasingFullRank(b[..|b| - 1]);
    }
  }

  /** The first two vectors of a rank-increasing list are not parallel. */
  lemma {:induction false} FirstTwoOfIncreasing(b: seq<Vector3>)
    requires RankIncreasing(b) && |b| >= 2
    ensures Cross(b[0], b[1]) != Zero
  {
    var pair := b[..2];
    RankIncreasingPrefix(b, 2);
    IncreasingFullRank(pair);
    assert pair == [b[0], b[1]];
    RankTwoCrossNonZero(b[0], b[1]);
  }

  /** The first two basis vectors span a plane: their cross product is not zero. */
  lemma {:induction false} FirstTwoIndependent(vs: seq<Vector3>)
    requires |BasisOf(vs)| >= 2
    ensures Cross(BasisOf(vs)[0], BasisOf(vs)[1]) != Zero
  {
    BasisDrawnFromInput(vs);
    FirstTwoOfIncreasing(BasisOf(vs));
  }

  // ---------------------------------------------------------------------
  // The basis need not have the rank of the input.

  /** With the 1e-9 pivot tolerance, the scan over (1, 0, 0), (1, 1.5e-9, 0),
      (2, 1.5e-9, 0) keeps the first two, of rank 2, while the three together
      have rank 1. */
  lemma BasisRankDiffers(a: Vector3, b: Vector3, c: Vector3)
    requires a == Vector3(1.0, 0.0, 0.0) && b == Vector3(1.0, 0.0000000015, 0.0) && c == Vector3(2.0, 0.0000000015, 0.0)
    ensures BasisOf([a, b, c]) == [a, b]
    ensures Rank(BasisOf([a, b, c])) == 2 && Rank([a, b, c]) == 1
  {
    RankNotMonotone(a, b, c);
    RankSingleton(a);
    NormSqFromFirst(a);
    NormSqFromFirst(b);
    NormSqFromFirst(c);
    BasisOfThree([a, b, c], a, b, c);
  }

  /** The scan over three non-zero vectors where the second raises the rank
      and the third does not keeps the first two. */
  lemma {:induction false} BasisOfThree(vs: seq<Vector3>, a: Vector3, b: Vector3, c: Vector3)
    requires vs == [a, b, c]
    requires NormSq(a) >= ZeroNormSq && NormSq(b) >= ZeroNormSq && NormSq(c) >= ZeroNormSq
    requires Rank([a]) > 0 && Rank([a, b]) > Rank([a]) && Rank([a, b, c]) <= Rank([a, b])
    ensures BasisOf(vs) == [a, b]
  {
    FirstTwoTaken(vs, a, b);
    assert [a, b] + [c] == vs;
    BasisFromPasses(vs, 2, [a, b]);
    assert BasisFrom(vs, 3, [a, b]) == [a, b];
  }

  lemma {:induction false} FirstTwoTaken(vs: seq<Vector3>, a: Vector3, b: Vector3)
    requires |vs| == 3 && vs[0] == a && vs[1] == b
    requires NormSq(a) >= ZeroNormSq && NormSq(b) >= ZeroNormSq
    requires Rank([a]) > 0 && Rank([a, b]) > Rank([a])
    ensures BasisOf(vs) == BasisFrom(vs, 2, [a, b])
  {
    assert [] + [a] == [a];
    assert [a] + [b] == [a, b];
    BasisFromStepKept(vs, 0, []);
    BasisFromStepKept(vs, 1, [a]);
  }

  /** A non-zero vector that does not raise the rank, with room left, is passed over. */
  lemma {:induction false} BasisFromPasses(vs: seq<Vector3>, i: nat, acc: seq<Vector3>)
    requires i < |vs| && NormSq(vs[i]) >= ZeroNormSq && Rank(acc + [vs[i]]) <= Rank(acc) && |acc| != 3
    ensures BasisFrom(vs, i, acc) == BasisFrom(vs, i + 1, acc)
  {
  }
}
