/** Dependency analysis: one left-to-right pass that keeps the vectors that
    change the rank of those kept so far when appended, and describes every other vector either as
    the zero vector or as a combination of earlier kept vectors. */
module DependencyAnalysis {
  import opened Vectors
  import opened RankEngine
  import opened LinearSolver

  /** `coefficient` times the input vector at position `index`. */
  datatype Term = Term(coefficient: real, index: nat)

  /** What the pass says about the input vector at position `index`. */
  datatype Relation =
    | ZeroVector(index: nat)
    | Dependent(index: nat, terms: seq<Term>)

  /** A kept vector and its position in the input. */
  datatype Accepted = Accepted(vec: Vector3, index: nat)

  /** The state of the pass: the kept vectors and the relations emitted. */
  datatype Scan = Scan(accepted: seq<Accepted>, relations: seq<Relation>)

  function Vecs(acc: seq<Accepted>): (vs: seq<Vector3>)
    ensures |vs| == |acc| && forall k :: 0 <= k < |acc| ==> vs[k] == acc[k].vec
  {
    seq(|acc|, k requires 0 <= k < |acc| => acc[k].vec)
  }

  /** The terms of a relation: each coefficient of at least 1e-4 in magnitude,
      paired with the input position of its kept vector, in order. */
  function TermsOf(coeffs: seq<real>, acc: seq<Accepted>): (ts: seq<Term>)
    requires |coeffs| == |acc|
    ensures |ts| <= |coeffs|
    ensures forall t :: t in ts ==>
      Abs(t.coefficient) >= CoeffEps &&
      exists k :: 0 <= k < |acc| && coeffs[k] == t.coefficient && acc[k].index == t.index
    ensures forall k :: 0 <= k < |acc| && Abs(coeffs[k]) >= CoeffEps ==> Term(coeffs[k], acc[k].index) in ts
    decreases |coeffs|
  {
    if |coeffs| == 0 then []
    else
      var rest := TermsOf(coeffs[1..], acc[1..]);
      assert forall k :: 1 <= k < |acc| ==> coeffs[k] == coeffs[1..][k - 1] && acc[k] == acc[1..][k - 1];
      if Abs(coeffs[0]) < CoeffEps then rest else [Term(coeffs[0], acc[0].index)] + rest
  }

  /** Positions strictly increase along `acc`. */
  predicate IndicesIncrease(acc: seq<Accepted>)
  {
    forall k1, k2 :: 0 <= k1 < k2 < |acc| ==> acc[k1].index < acc[k2].index
  }

  /** Positions strictly increase along the terms `ts`. */
  predicate TermsIncrease(ts: seq<Term>)
  {
    forall j :: 0 <= j < |ts| - 1 ==> ts[j].index < ts[j + 1].index
  }

  /** When the kept positions increase, the terms come in increasing position
      order, so no kept vector is named twice. */
  lemma {:induction false} TermsInOrder(coeffs: seq<real>, acc: seq<Accepted>)
    requires |coeffs| == |acc| && IndicesIncrease(acc)
    ensures TermsIncrease(TermsOf(coeffs, acc))
    decreases |coeffs|
  {
    if |coeffs| > 0 {
      var rest := TermsOf(coeffs[1..], acc[1..]);
      IncreaseTail(acc);
      TermsInOrder(coeffs[1..], acc[1..]);
      if Abs(coeffs[0]) >= CoeffEps {
        HeadBeforeRest(coeffs, acc);
        ConsInOrder(Term(coeffs[0], acc[0].index), rest);
        assert TermsOf(coeffs, acc) == [Term(coeffs[0], acc[0].index)] + rest;
      } else {
        assert TermsOf(coeffs, acc) == rest;
      }
    }
  }

  lemma IncreaseTail(acc: seq<Accepted>)
    requires |acc| > 0 && IndicesIncrease(acc)
    ensures IndicesIncrease(acc[1..])
  {
    forall k1, k2 | 0 <= k1 < k2 < |acc[1..]| ensures acc[1..][k1].index < acc[1..][k2].index {
      assert acc[1..][k1] == acc[k1 + 1] && acc[1..][k2] == acc[k2 + 1];
    }
  }

  /** The first term drawn from the tail has a larger position than the head. */
  lemma HeadBeforeRest(coeffs: seq<real>, acc: seq<Accepted>)
    requires |coeffs| == |acc| > 0 && IndicesIncrease(acc)
    ensures var rest := TermsOf(coeffs[1..], acc[1..]); |rest| > 0 ==> acc[0].index < rest[0].index
  {
    var rest := TermsOf(coeffs[1..], acc[1..]);
    if |rest| > 0 {
      assert rest[0] in rest;
      var k :| 0 <= k < |acc[1..]| && acc[1..][k].index == rest[0].index;
      assert acc[1..][k] == acc[k + 1];
    }
  }

  /** A term placed before terms in increasing position order, at a smaller
      position than the first of them, keeps the order. */
  lemma ConsInOrder(t: Term, rest: seq<Term>)
    requires TermsIncrease(rest)
    requires |rest| > 0 ==> t.index < rest[0].index
    ensures TermsIncrease([t] + rest)
  {
    var ts := [t] + rest;
    forall j | 0 <= j < |ts| - 1 ensures ts[j].index < ts[j + 1].index {
      if j > 0 {
        assert ts[j] == rest[j - 1] && ts[j + 1] == rest[j];
      }
    }
  }

  /** One iteration of the pass, on the input vector at position `i`: a zero
      vector is reported, the first non-zero vector is kept, and a later one is
      kept when it changes the rank of the kept vectors, or else described by
      the solver's coefficients over them. */
  function Step(vs: seq<Vector3>, i: nat, st: Scan): Scan
    requires i < |vs|
  {
    var v := vs[i];
    if NormSq(v) < ZeroNormSq then Scan(st.accepted, st.relations + [ZeroVector(i)])
    else if |st.accepted| == 0 then Scan([Accepted(v, i)], st.relations)
    else
      var kept := Vecs(st.accepted);
      if Rank(kept + [v]) == Rank(kept) then
        Scan(st.accepted, st.relations + [Dependent(i, TermsOf(Solve(kept, v), st.accepted))])
      else
        Scan(st.accepted + [Accepted(v, i)], st.relations)
  }

  /** The pass from position `i` on. */
  function ScanFrom(vs: seq<Vector3>, i: nat, st: Scan): Scan
    requires i <= |vs|
    decreases |vs| - i
  {
    if i == |vs| then st else ScanFrom(vs, i + 1, Step(vs, i, st))
  }

  /** The pass from position `i` on adds one entry for each remaining vector. */
  lemma {:induction false} ScanFromCount(vs: seq<Vector3>, i: nat, st: Scan)
    requires i <= |vs|
    ensures var r := ScanFrom(vs, i, st); |r.accepted| + |r.relations| == |st.accepted| + |st.relations| + (|vs| - i)
    decreases |vs| - i
  {
    if i < |vs| {
      StepCount(vs, i, st);
      ScanFromCount(vs, i + 1, Step(vs, i, st));
    }
  }

  /** One step adds exactly one entry: the vector is either kept or given a relation. */
  lemma StepCount(vs: seq<Vector3>, i: nat, st: Scan)
    requires i < |vs|
    ensures var r := Step(vs, i, st); |r.accepted| + |r.relations| == |st.accepted| + |st.relations| + 1
  {
  }

  /** The whole pass, from the first vector with nothing kept and no relations. */
  function FinalScan(vs: seq<Vector3>): Scan
  {
    ScanFrom(vs, 0, Scan([], []))
  }

  /** The relations the pass emits. */
  function DependencyRelations(vs: seq<Vector3>): seq<Relation>
  {
    FinalScan(vs).relations
  }

  /** The whole pass gives every input vector exactly one entry, so there
      are never more relations than vectors. */
  lemma PassCount(vs: seq<Vector3>)
    ensures |FinalScan(vs).accepted| + |FinalScan(vs).relations| == |vs|
    ensures |DependencyRelations(vs)| <= |vs|
  {
    ScanFromCount(vs, 0, Scan([], []));
  }

  /** The vectors the pass keeps. */
  function AcceptedOf(vs: seq<Vector3>): seq<Accepted>
  {
    FinalScan(vs).accepted
  }

  /** The pass, with the accumulators updated in place. */
  method GetDependencyRelations(vectors: seq<Vector3>) returns (relations: seq<Relation>)
    ensures relations == DependencyRelations(vectors)
  {
    relations := [];
    var independentVectors: seq<Accepted> := [];
    var i := 0;
    while i < |vectors|
      invariant i <= |vectors|
      invariant ScanFrom(vectors, i, Scan(independentVectors, relations)) == FinalScan(vectors)
    {
      ScanFromUnfold(vectors, i, Scan(independentVectors, relations));
      independentVectors, relations := ScanStep(vectors, i, independentVectors, relations);
      i := i + 1;
    }
  }

  lemma ScanFromUnfold(vs: seq<Vector3>, i: nat, st: Scan)
    requires i < |vs|
    ensures ScanFrom(vs, i, st) == ScanFrom(vs, i + 1, Step(vs, i, st))
  {
  }

  /** One iteration of the pass: a zero vector is reported, the first
      non-zero vector is kept, and any later one is kept when it changes the
      rank of the kept vectors, or else described by the solver's
      coefficients over them. */
  method ScanStep(vectors: seq<Vector3>, i: nat, accepted: seq<Accepted>, rels: seq<Relation>)
      returns (independentVectors: seq<Accepted>, relations: seq<Relation>)
    requires i < |vectors|
    ensures Scan(independentVectors, relations) == Step(vectors, i, Scan(accepted, rels))
  {
    independentVectors, relations := accepted, rels;
    var currentVec := vectors[i];
    if NormSq(currentVec) < ZeroNormSq {
      relations := relations + [ZeroVector(i)];
    } else if |independentVectors| == 0 {
      independentVectors := independentVectors + [Accepted(currentVec, i)];
      assert independentVectors == [Accepted(currentVec, i)];
    } else {
      var kept := Vecs(independentVectors);
      var rankWithout := CalculateRank(kept);
      var rankWith := CalculateRank(kept + [currentVec]);
      if rankWith == rankWithout {
        var coeffs := SolveSystem(kept, currentVec);
        relations := relations + [Dependent(i, TermsOf(coeffs, independentVectors))];
      } else {
        independentVectors := independentVectors + [Accepted(currentVec, i)];
      }
    }
  }

  // ---------------------------------------------------------------------
  // What the pass guarantees.

  /** Some kept vector sits at input position `k`. */
  predicate AcceptedAt(acc: seq<Accepted>, k: nat)
  {
    exists j :: 0 <= j < |acc| && acc[j].index == k
  }

  /** Some relation is about input position `k`. */
  predicate RelationAt(rels: seq<Relation>, k: nat)
  {
    exists j :: 0 <= j < |rels| && rels[j].index == k
  }

  /** Relations come in input order, each about a position before `i`. */
  predicate InOrder(rels: seq<Relation>, i: nat)
  {
    (forall j :: 0 <= j < |rels| ==> rels[j].index < i) &&
    (forall j1, j2 :: 0 <= j1 < j2 < |rels| ==> rels[j1].index < rels[j2].index)
  }

  /** Kept vectors are non-zero input vectors before position `i`, in input order. */
  predicate KeptFromInput(vs: seq<Vector3>, acc: seq<Accepted>, i: nat)
  {
    (forall j :: 0 <= j < |acc| ==>
      acc[j].index < i && acc[j].index < |vs| && acc[j].vec == vs[acc[j].index] &&
      NormSq(acc[j].vec) >= ZeroNormSq) &&
    (forall j1, j2 :: 0 <= j1 < j2 < |acc| ==> acc[j1].index < acc[j2].index)
  }

  /** A relation marks the zero vector exactly when its vector is the zero vector. */
  predicate ZeroMarked(vs: seq<Vector3>, rels: seq<Relation>)
  {
    forall j :: 0 <= j < |rels| && rels[j].index < |vs| ==>
      (rels[j].ZeroVector? <==> NormSq(vs[rels[j].index]) < ZeroNormSq)
  }

  /** Every position before `i` is kept or has a relation, never both. */
  predicate Covered(st: Scan, i: nat)
  {
    forall k :: 0 <= k < i ==> (AcceptedAt(st.accepted, k) <==> !RelationAt(st.relations, k))
  }

  /** Every term of a combination has a coefficient of at least 1e-4 in
      magnitude and refers to an earlier kept vector. */
  predicate TermsReferToKept(st: Scan)
  {
    forall j, t :: 0 <= j < |st.relations| && st.relations[j].Dependent? && t in st.relations[j].terms ==>
      Abs(t.coefficient) >= CoeffEps && t.index < st.relations[j].index && AcceptedAt(st.accepted, t.index)
  }

  /** Nothing is kept before the first non-zero vector, which is kept. */
  predicate FirstKept(vs: seq<Vector3>, acc: seq<Accepted>, i: nat)
    requires i <= |vs|
  {
    (|acc| == 0 ==> forall k :: 0 <= k < i ==> NormSq(vs[k]) < ZeroNormSq) &&
    (|acc| > 0 ==> forall k :: 0 <= k < acc[0].index && k < |vs| ==> NormSq(vs[k]) < ZeroNormSq)
  }

  predicate ScanInvariant(vs: seq<Vector3>, i: nat, st: Scan)
    requires i <= |vs|
  {
    InOrder(st.relations, i) && KeptFromInput(vs, st.accepted, i) && ZeroMarked(vs, st.relations) &&
    Covered(st, i) && TermsReferToKept(st) && FirstKept(vs, st.accepted, i)
  }

  lemma StepInOrder(vs: seq<Vector3>, i: nat, st: Scan)
    requires i < |vs| && InOrder(st.relations, i)
    ensures InOrder(Step(vs, i, st).relations, i + 1)
  {
  }

  lemma StepKeptFromInput(vs: seq<Vector3>, i: nat, st: Scan)
    requires i < |vs| && KeptFromInput(vs, st.accepted, i)
    ensures KeptFromInput(vs, Step(vs, i, st).accepted, i + 1)
  {
    var v := vs[i];
    if NormSq(v) < ZeroNormSq {
      KeptLater(vs, st.accepted, i);
    } else if |st.accepted| == 0 {
      assert Step(vs, i, st).accepted == st.accepted + [Accepted(v, i)];
      KeptAppend(vs, st.accepted, i);
    } else {
      var kept := Vecs(st.accepted);
      if Rank(kept + [v]) == Rank(kept) {
        KeptLater(vs, st.accepted, i);
      } else {
        KeptAppend(vs, st.accepted, i);
      }
    }
  }

  lemma KeptLater(vs: seq<Vector3>, acc: seq<Accepted>, i: nat)
    requires KeptFromInput(vs, acc, i)
    ensures KeptFromInput(vs, acc, i + 1)
  {
  }

  lemma KeptAppend(vs: seq<Vector3>, acc: seq<Accepted>, i: nat)
    requires i < |vs| && KeptFromInput(vs, acc, i) && NormSq(vs[i]) >= ZeroNormSq
    ensures KeptFromInput(vs, acc + [Accepted(vs[i], i)], i + 1)
  {
    var n := acc + [Accepted(vs[i], i)];
    assert forall j :: 0 <= j < |acc| ==> n[j] == acc[j];
    assert n[|acc|] == Accepted(vs[i], i);
  }

  lemma StepZeroMarked(vs: seq<Vector3>, i: nat, st: Scan)
    requires i < |vs| && ZeroMarked(vs, st.relations)
    ensures ZeroMarked(vs, Step(vs, i, st).relations)
  {
  }

  lemma RelationAtAppend(rels: seq<Relation>, r: Relation, k: nat)
    ensures RelationAt(rels + [r], k) <==> RelationAt(rels, k) || r.index == k
  {
    var n := rels + [r];
    if RelationAt(n, k) {
      var j :| 0 <= j < |n| && n[j].index == k;
      if j < |rels| {
        assert rels[j].index == k;
      }
    }
    if RelationAt(rels, k) {
      var j :| 0 <= j < |rels| && rels[j].index == k;
      assert n[j].index == k;
    }
    assert n[|rels|] == r;
  }

  lemma AcceptedAtAppend(acc: seq<Accepted>, a: Accepted, k: nat)
    ensures AcceptedAt(acc + [a], k) <==> AcceptedAt(acc, k) || a.index == k
  {
    var n := acc + [a];
    if AcceptedAt(n, k) {
      var j :| 0 <= j < |n| && n[j].index == k;
      if j < |acc| {
        assert acc[j].index == k;
      }
    }
    if AcceptedAt(acc, k) {
      var j :| 0 <= j < |acc| && acc[j].index == k;
      assert n[j].index == k;
    }
    assert n[|acc|] == a;
  }

  /** Nothing at position `i` or later is kept yet. */
  lemma NotYetAccepted(acc: seq<Accepted>, i: nat)
    requires forall j :: 0 <= j < |acc| ==> acc[j].index < i
    ensures !AcceptedAt(acc, i)
  {
  }

  lemma NotYetRelated(rels: seq<Relation>, i: nat)
    requires forall j :: 0 <= j < |rels| ==> rels[j].index < i
    ensures !RelationAt(rels, i)
  {
  }

  lemma CoveredAddRelation(st: Scan, r: Relation, i: nat)
    requires Covered(st, i) && r.index == i
    requires forall j :: 0 <= j < |st.accepted| ==> st.accepted[j].index < i
    requires forall j :: 0 <= j < |st.relations| ==> st.relations[j].index < i
    ensures Covered(Scan(st.accepted, st.relations + [r]), i + 1)
  {
    NotYetAccepted(st.accepted, i);
    forall k | 0 <= k < i + 1
      ensures AcceptedAt(st.accepted, k) <==> !RelationAt(st.relations + [r], k)
    {
      RelationAtAppend(st.relations, r, k);
    }
  }

  lemma CoveredAddAccepted(st: Scan, a: Accepted, i: nat)
    requires Covered(st, i) && a.index == i
    requires forall j :: 0 <= j < |st.accepted| ==> st.accepted[j].index < i
    requires forall j :: 0 <= j < |st.relations| ==> st.relations[j].index < i
    ensures Covered(Scan(st.accepted + [a], st.relations), i + 1)
  {
    NotYetRelated(st.relations, i);
    forall k | 0 <= k < i + 1
      ensures AcceptedAt(st.accepted + [a], k) <==> !RelationAt(st.relations, k)
    {
      AcceptedAtAppend(st.accepted, a, k);
    }
  }

  lemma StepCovered(vs: seq<Vector3>, i: nat, st: Scan)
    requires i < |vs| && Covered(st, i) && InOrder(st.relations, i) && KeptFromInput(vs, st.accepted, i)
    ensures Covered(Step(vs, i, st), i + 1)
  {
    var next := Step(vs, i, st);
    if next.accepted == st.accepted {
      assert |next.relations| == |st.relations| + 1;
      CoveredAddRelation(st, next.relations[|st.relations|], i);
      assert next.relations == st.relations + [next.relations[|st.relations|]];
    } else {
      CoveredAddAccepted(st, Accepted(vs[i], i), i);
      assert next.accepted == st.accepted + [Accepted(vs[i], i)];
    }
  }

  /** The terms computed against the kept list refer to kept vectors before `i`. */
  lemma TermsOfKept(coeffs: seq<real>, acc: seq<Accepted>, i: nat)
    requires |coeffs| == |acc|
    requires forall j :: 0 <= j < |acc| ==> acc[j].index < i
    ensures forall t :: t in TermsOf(coeffs, acc) ==>
      Abs(t.coefficient) >= CoeffEps && t.index < i && AcceptedAt(acc, t.index)
  {
    forall t | t in TermsOf(coeffs, acc)
      ensures Abs(t.coefficient) >= CoeffEps && t.index < i && AcceptedAt(acc, t.index)
    {
      var k :| 0 <= k < |acc| && coeffs[k] == t.coefficient && acc[k].index == t.index;
    }
  }

  lemma TermsAddRelation(st: Scan, r: Relation)
    requires TermsReferToKept(st)
    requires r.Dependent? ==> forall t :: t in r.terms ==>
      Abs(t.coefficient) >= CoeffEps && t.index < r.index && AcceptedAt(st.accepted, t.index)
    ensures TermsReferToKept(Scan(st.accepted, st.relations + [r]))
  {
    var n := st.relations + [r];
    assert forall j :: 0 <= j < |st.relations| ==> n[j] == st.relations[j];
    assert n[|st.relations|] == r;
  }

  lemma TermsAddAccepted(st: Scan, a: Accepted)
    requires TermsReferToKept(st)
    ensures TermsReferToKept(Scan(st.accepted + [a], st.relations))
  {
    forall k | AcceptedAt(st.accepted, k)
      ensures AcceptedAt(st.accepted + [a], k)
    {
      AcceptedAtAppend(st.accepted, a, k);
    }
  }

  lemma StepTermsReferToKept(vs: seq<Vector3>, i: nat, st: Scan)
    requires i < |vs| && TermsReferToKept(st) && KeptFromInput(vs, st.accepted, i)
    ensures TermsReferToKept(Step(vs, i, st))
  {
    var v := vs[i];
    if NormSq(v) < ZeroNormSq {
      TermsAddRelation(st, ZeroVector(i));
    } else if |st.accepted| == 0 {
      assert TermsReferToKept(Scan([], st.relations));
      TermsAddAccepted(Scan([], st.relations), Accepted(v, i));
      assert [] + [Accepted(v, i)] == [Accepted(v, i)];
    } else {
      var kept := Vecs(st.accepted);
      if Rank(kept + [v]) == Rank(kept) {
        TermsOfKept(Solve(kept, v), st.accepted, i);
        TermsAddRelation(st, Dependent(i, TermsOf(Solve(kept, v), st.accepted)));
      } else {
        TermsAddAccepted(st, Accepted(v, i));
      }
    }
  }

  lemma StepFirstKept(vs: seq<Vector3>, i: nat, st: Scan)
    requires i < |vs| && FirstKept(vs, st.accepted, i)
    ensures FirstKept(vs, Step(vs, i, st).accepted, i + 1)
  {
  }

  lemma {:induction false} ScanFromInvariant(vs: seq<Vector3>, i: nat, st: Scan)
    requires i <= |vs| && ScanInvariant(vs, i, st)
    ensures ScanInvariant(vs, |vs|, ScanFrom(vs, i, st))
    decreases |vs| - i
  {
    if i < |vs| {
      StepInOrder(vs, i, st);
      StepKeptFromInput(vs, i, st);
      StepZeroMarked(vs, i, st);
      StepCovered(vs, i, st);
      StepTermsReferToKept(vs, i, st);
      StepFirstKept(vs, i, st);
      ScanFromInvariant(vs, i + 1, Step(vs, i, st));
    }
  }

  lemma FinalInvariant(vs: seq<Vector3>)
    ensures ScanInvariant(vs, |vs|, FinalScan(vs))
  {
    ScanFromInvariant(vs, 0, Scan([], []));
  }

  /** Relations come in input order, one per position at most. */
  lemma RelationsInInputOrder(vs: seq<Vector3>)
    ensures InOrder(DependencyRelations(vs), |vs|)
  {
    FinalInvariant(vs);
  }

  /** Exactly the zero vectors get a zero-vector entry. */
  lemma ZeroVectorEntries(vs: seq<Vector3>)
    ensures forall k :: 0 <= k < |vs| ==> (ZeroVector(k) in DependencyRelations(vs) <==> NormSq(vs[k]) < ZeroNormSq)
  {
    FinalInvariant(vs);
    var st := FinalScan(vs);
    forall k | 0 <= k < |vs|
      ensures ZeroVector(k) in st.relations <==> NormSq(vs[k]) < ZeroNormSq
    {
      if NormSq(vs[k]) < ZeroNormSq {
        forall j | 0 <= j < |st.accepted|
          ensures st.accepted[j].index != k
        {
        }
        assert !AcceptedAt(st.accepted, k);
        var j :| 0 <= j < |st.relations| && st.relations[j].index == k;
        assert st.relations[j] == ZeroVector(k);
      } else {
        forall j | 0 <= j < |st.relations|
          ensures st.relations[j] != ZeroVector(k)
        {
        }
      }
    }
  }

  /** Every input vector is either kept or described by exactly one relation:
      a vector that changes the rank of the kept list is kept and gets no entry. */
  lemma EveryVectorAccountedFor(vs: seq<Vector3>)
    ensures forall k :: 0 <= k < |vs| ==> (AcceptedAt(AcceptedOf(vs), k) <==> !RelationAt(DependencyRelations(vs), k))
    ensures KeptFromInput(vs, AcceptedOf(vs), |vs|)
  {
    FinalInvariant(vs);
  }

  /** A combination refers only to kept vectors earlier in the input, with
      coefficients of at least 1e-4 in magnitude. */
  lemma CombinationsUseEarlierKept(vs: seq<Vector3>)
    ensures forall j, t ::
      (0 <= j < |DependencyRelations(vs)| && DependencyRelations(vs)[j].Dependent? &&
       t in DependencyRelations(vs)[j].terms) ==>
        Abs(t.coefficient) >= CoeffEps && t.index < DependencyRelations(vs)[j].index &&
        AcceptedAt(AcceptedOf(vs), t.index)
  {
    FinalInvariant(vs);
  }

  /** The first non-zero input vector is always kept, as the first kept vector. */
  lemma FirstNonZeroKept(vs: seq<Vector3>, k: nat)
    requires k < |vs| && NormSq(vs[k]) >= ZeroNormSq
    requires forall k' :: 0 <= k' < k ==> NormSq(vs[k']) < ZeroNormSq
    ensures |AcceptedOf(vs)| > 0 && AcceptedOf(vs)[0].index == k
  {
    FinalInvariant(vs);
    var acc := AcceptedOf(vs);
    assert |acc| > 0;
    assert NormSq(vs[acc[0].index]) >= ZeroNormSq;
  }

  /** The state of the pass when it reaches position `k`. */
  function ScanTo(vs: seq<Vector3>, k: nat): Scan
    requires k <= |vs|
  {
    if k == 0 then Scan([], []) else Step(vs, k - 1, ScanTo(vs, k - 1))
  }

  /** The pass is the first `k` steps followed by the rest. */
  lemma {:induction false} ScanSplit(vs: seq<Vector3>, k: nat)
    requires k <= |vs|
    ensures FinalScan(vs) == ScanFrom(vs, k, ScanTo(vs, k))
  {
    if k > 0 {
      ScanSplit(vs, k - 1);
    }
  }

  /** Later steps only append to both accumulators. */
  lemma {:induction false} ScanFromGrows(vs: seq<Vector3>, i: nat, st: Scan)
    requires i <= |vs|
    ensures st.accepted <= ScanFrom(vs, i, st).accepted
    ensures st.relations <= ScanFrom(vs, i, st).relations
    decreases |vs| - i
  {
    if i < |vs| {
      var next := Step(vs, i, st);
      var last := ScanFrom(vs, i + 1, next);
      StepGrows(vs, i, st);
      ScanFromGrows(vs, i + 1, next);
      PrefixChain(st.accepted, next.accepted, last.accepted);
      PrefixChain(st.relations, next.relations, last.relations);
      assert ScanFrom(vs, i, st) == last;
    }
  }

  lemma PrefixChain<T>(a: seq<T>, b: seq<T>, c: seq<T>)
    requires a <= b && b <= c
    ensures a <= c
  {
  }

  /** One step only appends to both accumulators. */
  lemma StepGrows(vs: seq<Vector3>, i: nat, st: Scan)
    requires i < |vs|
    ensures st.accepted <= Step(vs, i, st).accepted
    ensures st.relations <= Step(vs, i, st).relations
  {
  }

  lemma PrefixAcceptedAt(a: seq<Accepted>, b: seq<Accepted>, k: nat)
    requires a <= b && AcceptedAt(a, k)
    ensures AcceptedAt(b, k)
  {
    var j :| 0 <= j < |a| && a[j].index == k;
    assert b[j] == a[j];
  }

  lemma PrefixRelationAt(a: seq<Relation>, b: seq<Relation>, k: nat)
    requires a <= b && RelationAt(a, k)
    ensures RelationAt(b, k)
  {
    var j :| 0 <= j < |a| && a[j].index == k;
    assert b[j] == a[j];
  }

  /** The vector at position `k` is kept exactly when it is not the zero
      vector and either nothing is kept yet or appending it changes the rank
      of the vectors kept so far; a non-zero vector that leaves that rank unchanged
      is described by the coefficients the solver finds over them. */
  lemma KeptIffChangesRank(vs: seq<Vector3>, k: nat)
    requires k < |vs|
    ensures var acc := ScanTo(vs, k).accepted;
      AcceptedAt(AcceptedOf(vs), k) <==>
        NormSq(vs[k]) >= ZeroNormSq && (|acc| == 0 || Rank(Vecs(acc) + [vs[k]]) != Rank(Vecs(acc)))
    ensures var acc := ScanTo(vs, k).accepted;
      (NormSq(vs[k]) >= ZeroNormSq && |acc| > 0 && Rank(Vecs(acc) + [vs[k]]) == Rank(Vecs(acc))) ==>
        Dependent(k, TermsOf(Solve(Vecs(acc), vs[k]), acc)) in DependencyRelations(vs)
  {
    var st := ScanTo(vs, k);
    assert ScanTo(vs, k + 1) == Step(vs, k, st);
    StepDecides(vs, k, st);
    StepSurvives(vs, k);
  }

  /** What step `k` does with position `k`: keep it, or record a relation about it. */
  lemma StepDecides(vs: seq<Vector3>, k: nat, st: Scan)
    requires k < |vs|
    ensures var next := Step(vs, k, st);
      (NormSq(vs[k]) >= ZeroNormSq && (|st.accepted| == 0 || Rank(Vecs(st.accepted) + [vs[k]]) != Rank(Vecs(st.accepted)))) ==>
        AcceptedAt(next.accepted, k)
    ensures var next := Step(vs, k, st);
      !(NormSq(vs[k]) >= ZeroNormSq && (|st.accepted| == 0 || Rank(Vecs(st.accepted) + [vs[k]]) != Rank(Vecs(st.accepted)))) ==>
        RelationAt(next.relations, k) && |next.relations| == |st.relations| + 1
    ensures var next := Step(vs, k, st);
      (NormSq(vs[k]) >= ZeroNormSq && |st.accepted| > 0 && Rank(Vecs(st.accepted) + [vs[k]]) == Rank(Vecs(st.accepted))) ==>
        next.relations[|st.relations|] == Dependent(k, TermsOf(Solve(Vecs(st.accepted), vs[k]), st.accepted))
  {
    var next := Step(vs, k, st);
    var v := vs[k];
    if NormSq(v) >= ZeroNormSq && (|st.accepted| == 0 || Rank(Vecs(st.accepted) + [v]) != Rank(Vecs(st.accepted))) {
      assert next.accepted == st.accepted + [Accepted(v, k)];
      AcceptedAtAppend(st.accepted, Accepted(v, k), k);
    } else {
      var r := next.relations[|st.relations|];
      assert next.relations == st.relations + [r];
      RelationAtAppend(st.relations, r, k);
    }
  }

  /** A decision taken at step `k` survives to the end of the pass. */
  lemma StepSurvives(vs: seq<Vector3>, k: nat)
    requires k < |vs|
    ensures AcceptedAt(ScanTo(vs, k + 1).accepted, k) ==> AcceptedAt(AcceptedOf(vs), k)
    ensures RelationAt(ScanTo(vs, k + 1).relations, k) ==> !AcceptedAt(AcceptedOf(vs), k)
    ensures ScanTo(vs, k + 1).relations <= DependencyRelations(vs)
  {
    var next := ScanTo(vs, k + 1);
    ScanSplit(vs, k + 1);
    ScanFromGrows(vs, k + 1, next);
    FinalInvariant(vs);
    if AcceptedAt(next.accepted, k) {
      PrefixAcceptedAt(next.accepted, AcceptedOf(vs), k);
    }
    if RelationAt(next.relations, k) {
      PrefixRelationAt(next.relations, DependencyRelations(vs), k);
    }
  }

  /** Because appending a vector can lower the rank, the pass may keep a
      vector whose rank comparison differs downwards: for (1, 0, 0),
      (1, 1.5e-9, 0) and (2, 1.5e-9, 0) all three are kept and no relation is
      emitted, although the three vectors together have rank 1. */
  lemma KeptButDependent(a: Vector3, b: Vector3, c: Vector3)
    requires a == Vector3(1.0, 0.0, 0.0) && b == Vector3(1.0, 0.0000000015, 0.0) && c == Vector3(2.0, 0.0000000015, 0.0)
    ensures DependencyRelations([a, b, c]) == []
    ensures AcceptedOf([a, b, c]) == [Accepted(a, 0), Accepted(b, 1), Accepted(c, 2)]
    ensures Rank([a, b, c]) == 1
  {
    var vs := [a, b, c];
    RankNotMonotone(a, b, c);
    var s1 := Scan([Accepted(a, 0)], []);
    var s2 := Scan([Accepted(a, 0), Accepted(b, 1)], []);
    var s3 := Scan([Accepted(a, 0), Accepted(b, 1), Accepted(c, 2)], []);
    ExampleSteps(a, b, c);
    assert ScanFrom(vs, 3, s3) == s3;
    assert ScanFrom(vs, 2, s2) == s3;
    assert ScanFrom(vs, 1, s1) == s3;
  }

  /** The three steps of the pass on (1, 0, 0), (1, 1.5e-9, 0), (2, 1.5e-9, 0). */
  lemma ExampleSteps(a: Vector3, b: Vector3, c: Vector3)
    requires a == Vector3(1.0, 0.0, 0.0) && b == Vector3(1.0, 0.0000000015, 0.0) && c == Vector3(2.0, 0.0000000015, 0.0)
    ensures Step([a, b, c], 0, Scan([], [])) == Scan([Accepted(a, 0)], [])
    ensures Step([a, b, c], 1, Scan([Accepted(a, 0)], [])) == Scan([Accepted(a, 0), Accepted(b, 1)], [])
    ensures Step([a, b, c], 2, Scan([Accepted(a, 0), Accepted(b, 1)], [])) ==
      Scan([Accepted(a, 0), Accepted(b, 1), Accepted(c, 2)], [])
  {
    RankNotMonotone(a, b, c);
    RankSingleton(a);
    NormSqFromFirst(a);
    NormSqFromFirst(b);
    NormSqFromFirst(c);
    SecondStep([a, b, c], a, b);
    ThirdStep([a, b, c], a, b, c);
  }

  lemma SecondStep(vs: seq<Vector3>, a: Vector3, b: Vector3)
    requires |vs| == 3 && vs[1] == b && NormSq(b) >= ZeroNormSq && Rank([a, b]) != Rank([a])
    ensures Step(vs, 1, Scan([Accepted(a, 0)], [])) == Scan([Accepted(a, 0), Accepted(b, 1)], [])
  {
    var st := Scan([Accepted(a, 0)], []);
    assert Vecs(st.accepted) == [a];
    assert [a] + [b] == [a, b];
    StepKeeps(vs, 1, st);
  }

  lemma ThirdStep(vs: seq<Vector3>, a: Vector3, b: Vector3, c: Vector3)
    requires vs == [a, b, c] && NormSq(c) >= ZeroNormSq && Rank([a, b, c]) != Rank([a, b])
    ensures Step(vs, 2, Scan([Accepted(a, 0), Accepted(b, 1)], [])) ==
      Scan([Accepted(a, 0), Accepted(b, 1), Accepted(c, 2)], [])
  {
    var st := Scan([Accepted(a, 0), Accepted(b, 1)], []);
    KeptPair(a, b, c, vs);
    StepKeeps(vs, 2, st);
    assert st.accepted + [Accepted(c, 2)] == [Accepted(a, 0), Accepted(b, 1), Accepted(c, 2)];
  }

  lemma KeptPair(a: Vector3, b: Vector3, c: Vector3, vs: seq<Vector3>)
    requires vs == [a, b, c]
    ensures Vecs([Accepted(a, 0), Accepted(b, 1)]) == [a, b]
    ensures [a, b] + [vs[2]] == vs
  {
  }

  /** A non-zero vector that changes the rank of the kept vectors is appended to them. */
  lemma StepKeeps(vs: seq<Vector3>, i: nat, st: Scan)
    requires i < |vs| && NormSq(vs[i]) >= ZeroNormSq && |st.accepted| > 0
    requires Rank(Vecs(st.accepted) + [vs[i]]) != Rank(Vecs(st.accepted))
    ensures Step(vs, i, st) == Scan(st.accepted + [Accepted(vs[i], i)], st.relations)
  {
  }

  /** When the dependent vector is exactly a combination `x` of the kept vectors
      and the reduction finds a pivot for every kept vector, the emitted terms
      are exactly the coefficients of `x` of at least 1e-4 in magnitude. */
  lemma CombinationRecoversCoefficients(acc: seq<Accepted>, x: seq<real>)
    requires |x| == |acc| && FullyPivoted(Vecs(acc), Combination(Vecs(acc), x))
    ensures TermsOf(Solve(Vecs(acc), Combination(Vecs(acc), x)), acc) == TermsOf(x, acc)
  {
    SolveRecoversCoefficients(Vecs(acc), x);
  }
}
