# LinVis linear-algebra engine, in Dafny

This project models the computational core of LinVis: the engine in
`src/utils/linearAlgebra.ts`. Given a list of vectors of three-dimensional
space, the engine answers these questions:

- their rank, by Gaussian elimination with partial pivoting;
- whether they are linearly independent;
- whether a target lies in their span;
- how each dependent vector is written in terms of earlier kept vectors;
- a greedily extracted basis;
- the coefficients of a target over a basis, by Gauss–Jordan reduction;
- a Gram–Schmidt orthogonalisation;
- the orthogonal projection of a target onto their span;
- the coordinates of that projection in the extracted basis.

All arithmetic is exact (`real`), and the engine's tolerances are kept as
constants:

- 1e-9 for a usable pivot;
- 1e-6 for a zero vector;
- 1e-5 for the rank-1 line vector;
- 1e-4 for a nonzero coefficient and for "near 1".

The engine compares Euclidean norms against thresholds, and each such
comparison is stated on the squared norm. So `norm < 1e-6` becomes
`NormSq < 1e-12`, and `norm > 1e-5` becomes `NormSq > 1e-10`. The
projections are written without square roots. The unit vector
`u = w/|w|` gives `u*(t·u) = w*(t·w)/(w·w)`, and the plane case uses the
un-normalised cross product in the same way.

Modules, one per file:

- `Vectors` (`vectors.dfy`): the vector type, dot and cross products, the
  tolerances, and facts about squares.
- `Matrices` (`matrices.dfy`): the partial-pivot search, the row swap and
  the in-place row subtraction that both eliminations share.
- `RankEngine` (`rank.dfy`): `calculateRank` as a method over an array of
  rows, proved equal to the specification function `Rank`.
- `SpanQueries` (`span.dfy`): `isLinearlyIndependent` and `isInSpan`.
- `LinearSolver` (`solver.dfy`): `solveSystem`. It is a method over the
  3×(k+1) augmented matrix, proved equal to `Solve`, with the coefficient
  round trip proved about `Solve`.
- `BasisExtractor` (`basis.dfy`): `getBasis`, a method proved equal to
  `BasisOf`, and the properties of the extracted basis.
- `DependencyAnalysis` (`dependencies.dfy`): `getDependencyRelations`. It
  is a method over the accepted list and the relation list, proved equal to
  a left-to-right scan function whose invariants are proved. Relations are
  records rather than strings: a zero-vector marker, or a list of
  (coefficient, original index) terms.
- `Orthogonalizer` (`orthogonalizer.dfy`): `gramSchmidt`, a method that
  updates the running vector against each earlier output and is proved
  equal to `Orthogonalize`.
- `Projector` (`projector.dfy`): `getProjection` and `getCoordinates`, as
  functions dispatching on the rank.

The inputs are sequences (values), so no operation can alter its caller's
list. The working matrices are fresh arrays filled from those values, which
is the deep copy at `src/utils/linearAlgebra.ts:10-11`.

Where the comments in `src/utils/linearAlgebra.ts` and its code differ, the
model follows the code:

- The comments at lines 244-245 describe the projection of the original
  vector `v`, but line 246 takes the dot product with the running, already
  reduced vector `u`. The model projects `u`, which is modified
  Gram–Schmidt.
- The comment at line 257 says a vector that survives the projections was
  linearly independent of the earlier ones. With the 1e-9 guard at line 249
  this does not always hold (see Findings).

## Model

| member | source | states |
|---|---|---|
| RankEngine.CalculateRank | src/utils/linearAlgebra.ts:7-47 | the elimination loop returns exactly `Rank(vectors)`, which is at most the number of vectors and at most 3 |
| RankEngine.Rank | src/utils/linearAlgebra.ts:8-17 | the rank is 0 for no vectors and never exceeds the number of vectors nor 3 |
| RankEngine.RankFrom | src/utils/linearAlgebra.ts:17-45 | the rank still to be found from a column on is at least the current pivot row, at most the number of rows, and grows by at most one per remaining column |
| RankEngine.EliminateBelow | src/utils/linearAlgebra.ts:36-41 | the rows up to the pivot row are kept, and each row below it has `factor` times the pivot row subtracted, with `factor` chosen from the pivot column |
| RankEngine.EliminationStep | src/utils/linearAlgebra.ts:18-44 | one column pass pivots exactly when the partial pivot reaches 1e-9 in magnitude; then the matrix becomes the old one with the pivot swapped up and the column cleared below it (`EliminateBelow` of `SwapRows`), and otherwise it is unchanged; the rank still to be found is unchanged |
| RankEngine.EliminateBelowInPlace | src/utils/linearAlgebra.ts:36-41 | the in-place clearing of a column below the pivot row yields exactly `EliminateBelow` of the old rows |
| RankEngine.RankAppendZero | src/utils/linearAlgebra.ts:17-45 | appending the zero vector never changes the rank |
| RankEngine.RankSingleton | src/utils/linearAlgebra.ts:17-30 | one vector has rank 1 exactly when some component reaches 1e-9 in magnitude, and rank 0 otherwise |
| RankEngine.RankNonZeroSingleton | src/utils/linearAlgebra.ts:17-44 | a vector of norm at least 1e-6 has rank 1 on its own |
| RankEngine.RankPositive | src/utils/linearAlgebra.ts:17-30 | a vector whose first component reaches 1e-9 in magnitude makes the rank at least 1 |
| RankEngine.RankNotMonotone | src/utils/linearAlgebra.ts:17-45 | appending a vector can lower the rank: (1, 0, 0), (1, 1.5e-9, 0) have rank 2, and with (2, 1.5e-9, 0) appended rank 1 |
| RankEngine.RankTwoCrossNonZero | src/utils/linearAlgebra.ts:17-44 | two vectors of rank 2 are not parallel: their cross product is not zero |
| Matrices.FindPivot | src/utils/linearAlgebra.ts:19-27 | the search returns the first row of largest magnitude in the column from the pivot row down, and that magnitude |
| Matrices.PivotRow | src/utils/linearAlgebra.ts:19-27 | the chosen row is at or below the pivot row, no later row is strictly larger, and no earlier row is as large |
| Matrices.SwapRows | src/utils/linearAlgebra.ts:33 | the two rows change places and every other row is unchanged |
| Matrices.SubtractMultiple | src/utils/linearAlgebra.ts:38-40 | the row keeps its entries before the starting column and loses `f` times the pivot row's entry in each later one |
| Matrices.SubtractRowInPlace | src/utils/linearAlgebra.ts:38-40 | only the target row changes, by subtracting `factor` times the pivot row from the given column on |
| SpanQueries.IsLinearlyIndependent | src/utils/linearAlgebra.ts:49-53 | true iff the rank equals the number of vectors; always true for no vectors and false for more than three |
| SpanQueries.IsInSpan | src/utils/linearAlgebra.ts:55-63 | true iff appending the target leaves the rank unchanged; for an empty list, true iff every component is below 1e-9 in magnitude |
| SpanQueries.ZeroInEverySpan | src/utils/linearAlgebra.ts:55-63 | the origin is in the span of every list |
| SpanQueries.NonZeroNotInEmptySpan | src/utils/linearAlgebra.ts:55-59 | a vector of norm at least 1e-6 is never in the span of the empty list |
| SpanQueries.MultipleNotInSpan | src/utils/linearAlgebra.ts:55-63 | (1e-8, 0, 0) is 100 times (1e-10, 0, 0), yet it is not in the span of that vector |
| LinearSolver.SolveSystem | src/utils/linearAlgebra.ts:145-230 | never fails, returns `Solve(basis, target)` with one coefficient per basis vector, and 0 for a column with no entry within 1e-4 of 1 |
| LinearSolver.Solve | src/utils/linearAlgebra.ts:210-229 | one coefficient per basis vector; a variable whose reduced column has no near-1 entry gets 0 |
| LinearSolver.SolveRecoversCoefficients | src/utils/linearAlgebra.ts:143-230 | when the target is the combination of the basis with coefficients `x` and every variable column gets a pivot, the solver returns exactly `x` |
| LinearSolver.GaussJordanSolves | src/utils/linearAlgebra.ts:167-203 | when every variable column gets a pivot, a solution of the system still solves the reduced matrix, whose variable columns are the identity's |
| LinearSolver.Augmented | src/utils/linearAlgebra.ts:156-165 | three equations, one column per basis vector holding that vector's components, then the target's components as the last column |
| LinearSolver.ScaledRow | src/utils/linearAlgebra.ts:187-191 | the pivot row divided by its pivot entry from the pivot column on: that entry becomes 1 and earlier entries stay |
| LinearSolver.EliminateOthers | src/utils/linearAlgebra.ts:193-201 | the pivot row is kept and every other row loses its pivot-column entry times the pivot row, so with a unit pivot the column is cleared outside the pivot row |
| LinearSolver.GaussJordanFrom | src/utils/linearAlgebra.ts:167-203 | the reduction keeps the matrix shape; the number of pivot rows stays within the rows and grows by at most one per remaining variable column |
| LinearSolver.Coefficient | src/utils/linearAlgebra.ts:210-226 | 0 when no row of the variable's column is within 1e-4 of 1; a non-zero coefficient is the last-column entry of a row whose entry in that column is near 1 |
| LinearSolver.SingleVectorPivoted | src/utils/linearAlgebra.ts:171-203 | one vector of norm at least 1e-6 always gets its pivot, whatever the target |
| LinearSolver.TinyBasisNotPivoted | src/utils/linearAlgebra.ts:167-203 | the non-zero vector (1e-10, 0, 0) never gets a pivot, so an exactly independent basis need not satisfy the pivot condition of `SolveRecoversCoefficients` |
| LinearSolver.BuildAugmented | src/utils/linearAlgebra.ts:156-165 | the fresh 3×(k+1) matrix has the basis vectors as columns and the target as last column |
| LinearSolver.NormalizeRowInPlace | src/utils/linearAlgebra.ts:187-191 | only the pivot row changes, divided by its pivot entry from the pivot column on |
| LinearSolver.EliminateOthersInPlace | src/utils/linearAlgebra.ts:193-201 | every row but the pivot row loses its column entry times the pivot row, exactly as `EliminateOthers` |
| LinearSolver.ReductionStep | src/utils/linearAlgebra.ts:172-202 | one column pass pivots exactly when the partial pivot reaches 1e-9 in magnitude; then the matrix becomes the old one with the pivot swapped up, its row scaled by `ScaledRow` and the column cleared in every other row by `EliminateOthers`, and otherwise it is unchanged; the reduction still to be done is unchanged |
| LinearSolver.ReduceInPlace | src/utils/linearAlgebra.ts:168-203 | the whole loop yields the reduced matrix `GaussJordanFrom(old, k, 0, 0)` |
| LinearSolver.FindUnitRow | src/utils/linearAlgebra.ts:214-222 | returns -1 iff no row has an entry within 1e-4 of 1 in the column, otherwise the first such row |
| LinearSolver.FirstUnitRow | src/utils/linearAlgebra.ts:214-222 | a found row is near 1 and every earlier row is not; none is found iff no row is near 1 |
| LinearSolver.ReadSolution | src/utils/linearAlgebra.ts:210-227 | one entry per variable, each the last-column entry of its unit row or 0 |
| BasisExtractor.GetBasis | src/utils/linearAlgebra.ts:122-141 | the loop returns exactly `BasisOf(vectors)` |
| BasisExtractor.BasisFrom | src/utils/linearAlgebra.ts:124-139 | the scan only ever extends what it has kept so far |
| BasisExtractor.BasisFromNonZero | src/utils/linearAlgebra.ts:129-131 | every vector the scan adds has norm at least 1e-6 |
| BasisExtractor.BasisOf | src/utils/linearAlgebra.ts:122-141 | the scan of the input with the zero skip, the strict rank increase and the stop at three; its result has rank equal to its length, which is at most 3 |
| BasisExtractor.BasisRankDiffers | src/utils/linearAlgebra.ts:122-141 | on (1, 0, 0), (1, 1.5e-9, 0), (2, 1.5e-9, 0) the basis is the first two vectors, of rank 2, while the input has rank 1 |
| BasisExtractor.BasisDrawnFromInput | src/utils/linearAlgebra.ts:122-141 | the basis is an order-preserving subsequence of the input, holds no zero vector, and each vector raised the rank when it was appended |
| BasisExtractor.BasisEmptyIff | src/utils/linearAlgebra.ts:129-136 | the basis is empty exactly when every input vector has norm below 1e-6 |
| BasisExtractor.BasisIdempotent | src/utils/linearAlgebra.ts:122-141 | extracting a basis from a basis gives it back |
| BasisExtractor.FirstTwoIndependent | src/utils/linearAlgebra.ts:294-303 | with two or more basis vectors, the first two have a non-zero cross product |
| DependencyAnalysis.GetDependencyRelations | src/utils/linearAlgebra.ts:69-120 | the loop returns exactly the relations of the left-to-right scan |
| DependencyAnalysis.ScanStep | src/utils/linearAlgebra.ts:75-113 | one iteration (zero check, first vector kept, two rank computations, solver call) produces exactly `Step` of the accumulators |
| DependencyAnalysis.StepCount | src/utils/linearAlgebra.ts:75-113 | one iteration gives its vector exactly one entry: kept or described by one relation |
| DependencyAnalysis.ScanFromCount | src/utils/linearAlgebra.ts:74-114 | the pass from a position on adds one entry per remaining vector |
| DependencyAnalysis.PassCount | src/utils/linearAlgebra.ts:69-120 | the whole pass gives every vector exactly one entry, so there are never more relations than vectors |
| DependencyAnalysis.TermsOf | src/utils/linearAlgebra.ts:98-104 | the terms are exactly the coefficients of magnitude at least 1e-4, each tagged with its kept vector's input position |
| DependencyAnalysis.TermsInOrder | src/utils/linearAlgebra.ts:98-102 | the terms follow the order of the kept vectors, so their input positions strictly increase |
| DependencyAnalysis.RelationsInInputOrder | src/utils/linearAlgebra.ts:74-114 | relations come in increasing input position, at most one per vector |
| DependencyAnalysis.ZeroVectorEntries | src/utils/linearAlgebra.ts:77-82 | a vector gets a zero-vector entry iff its norm is below 1e-6 |
| DependencyAnalysis.EveryVectorAccountedFor | src/utils/linearAlgebra.ts:84-113 | each vector is either kept or described by a relation, never both; kept vectors are non-zero input vectors, in input order, with their positions |
| DependencyAnalysis.KeptIffChangesRank | src/utils/linearAlgebra.ts:84-113 | a vector is kept iff it is non-zero and either nothing is kept yet or appending it changes the rank of the vectors kept before it; a non-zero vector that does not is described by the solver's coefficients over them |
| DependencyAnalysis.CombinationsUseEarlierKept | src/utils/linearAlgebra.ts:92-104 | a dependent-vector relation names only kept vectors earlier in the input, with coefficients of magnitude at least 1e-4 |
| DependencyAnalysis.FirstNonZeroKept | src/utils/linearAlgebra.ts:84-87 | the first non-zero vector is always the first kept vector |
| DependencyAnalysis.KeptButDependent | src/utils/linearAlgebra.ts:84-113 | on (1, 0, 0), (1, 1.5e-9, 0), (2, 1.5e-9, 0) all three vectors are kept and no relation is emitted, although together they have rank 1 |
| DependencyAnalysis.CombinationRecoversCoefficients | src/utils/linearAlgebra.ts:92-104 | for a vector that is the combination `x` of the kept vectors, with every column pivoted, the emitted terms are those of `x` |
| Orthogonalizer.GramSchmidt | src/utils/linearAlgebra.ts:236-270 | returns `Orthogonalize(vectors, 1e-9)`: at most one output per input, each of norm above 1e-6, and every later output orthogonal to each earlier output whose squared norm exceeds 1e-9 |
| Orthogonalizer.OrthogonalizeWith | src/utils/linearAlgebra.ts:239-267 | the loop over inputs and earlier outputs returns exactly `Orthogonalize` with the given guard |
| Orthogonalizer.ProjectStep | src/utils/linearAlgebra.ts:246-254 | takes the dot product and squared norm first; when the squared norm passes the guard, the x, y and z components each lose scalar times the earlier output's component in turn, which equals `ProjectOut`; the running vector ends orthogonal to that output, or unchanged when it fails the guard |
| Orthogonalizer.ProjectOut | src/utils/linearAlgebra.ts:246-254 | with an earlier output that passes the guard, what is left is orthogonal to it; otherwise the running vector is unchanged |
| Orthogonalizer.Reduce | src/utils/linearAlgebra.ts:243-255 | after the projections the running vector is orthogonal to the last earlier output when that one passes the guard; with no earlier outputs it is the input unchanged |
| Orthogonalizer.Orthogonalize | src/utils/linearAlgebra.ts:239-267 | there are no more outputs than inputs and every output has norm above 1e-6 |
| Orthogonalizer.ReduceOrthogonal | src/utils/linearAlgebra.ts:243-255 | after the projections, the running vector is orthogonal to every earlier output that passes the guard |
| Orthogonalizer.OrthogonalizeGuardedOrthogonal | src/utils/linearAlgebra.ts:236-270 | any two outputs that both pass the guard are orthogonal |
| Orthogonalizer.LaterOrthogonalToGuarded | src/utils/linearAlgebra.ts:243-260 | every output is orthogonal to each earlier output that passes the guard, whatever its own norm |
| Orthogonalizer.CorrectedGramSchmidt | src/utils/linearAlgebra.ts:236-270 | with the guard at the acceptance tolerance, the outputs are non-zero, no more than the inputs, and pairwise orthogonal |
| Orthogonalizer.CorrectedOrthogonal | src/utils/linearAlgebra.ts:249-260 | with the guard at the acceptance tolerance, every two outputs are orthogonal |
| Orthogonalizer.AsWrittenNotOrthogonal | src/utils/linearAlgebra.ts:249-260 | with the 1e-9 guard, two copies of (2e-6, 0, 0) both come out, unchanged and parallel |
| Orthogonalizer.GramSchmidtCountDiffers | src/utils/linearAlgebra.ts:239-267 | two copies of (2e-6, 0, 0) have rank 1, yet both come out, so the number of outputs need not be the rank |
| Projector.GetProjection | src/utils/linearAlgebra.ts:272-325 | rank 0 gives the origin; rank 1 has no result iff no vector is longer than 1e-5; rank 2 has no result iff the basis has fewer than two vectors; rank 3 gives the target; the rank-1 and rank-2 values are pinned down by `ProjectionResidualOrthogonal` |
| Projector.FirstLineVectorFrom | src/utils/linearAlgebra.ts:279 | finds the first vector of norm above 1e-5, or reports that there is none |
| Projector.GetCoordinates | src/utils/linearAlgebra.ts:327-342 | no result iff the basis is empty or its projection has none; otherwise one coordinate per basis vector, with between 1 and 3 basis vectors |
| Projector.LineProjection | src/utils/linearAlgebra.ts:283-288 | the result lies on the line (its cross product with the line vector is zero), and what is left of the target is orthogonal to the line vector |
| Projector.PlaneProjection | src/utils/linearAlgebra.ts:300-316 | the projection onto the plane is orthogonal to the plane's normal, the cross product of the two basis vectors |
| Projector.LineProjectionIdempotent | src/utils/linearAlgebra.ts:283-288 | projecting onto the line twice is projecting once |
| Projector.PlaneResidualOrthogonal | src/utils/linearAlgebra.ts:300-316 | what is left after projecting onto the plane is orthogonal to both spanning vectors, and the projection lies in the plane |
| Projector.PlaneProjectionIdempotent | src/utils/linearAlgebra.ts:305-316 | projecting onto the plane twice is projecting once |
| Projector.ProjectionIdempotent | src/utils/linearAlgebra.ts:272-325 | projecting a projection gives it back |
| Projector.ProjectionResidualOrthogonal | src/utils/linearAlgebra.ts:272-325 | the projection lies in the span it is taken on and the residual is orthogonal to it: for rank 1 the result is parallel to the line vector and the residual orthogonal to it; for rank 2 the result is orthogonal to the cross product of the first two basis vectors and the residual orthogonal to both; for rank 3 the residual is zero |
| Projector.ProjectionFixesSpan | src/utils/linearAlgebra.ts:327-333 | every combination of a non-empty extracted basis is its own projection, provided a one-vector basis is longer than 1e-5 |
| Projector.CoordinatesRecoverCoefficients | src/utils/linearAlgebra.ts:327-342 | the coordinates of a combination `x` of a non-empty basis are `x`, provided a one-vector basis is longer than 1e-5 and every basis column gets a pivot |
| Projector.LineCoordinatesRecombine | src/utils/linearAlgebra.ts:327-342 | for a one-vector basis and any target with coordinates, the coordinates recombine to the projection |
| Projector.ShortLineNoCoordinates | src/utils/linearAlgebra.ts:279-290 | a one-vector basis no longer than 1e-5 gives no coordinates for any target |
| Projector.NoCoordinatesForZeroVectors | src/utils/linearAlgebra.ts:328-329 | when every vector has norm below 1e-6 there are no coordinates |

## Left out

- IEEE-754 behaviour: rounding, overflow, and the NaN that a zero cross-product length would produce at line 306. All results hold in exact arithmetic.
- `Math.sqrt`: every norm comparison is stated on the squared norm, and the normalisations of `getProjection` are written without roots. In exact arithmetic the two forms are equal.
- The text rendering of relations at lines 100-104 (`toFixed`, `parseFloat`, the "v3 = 2*v1" strings and the "0" of an empty sum). Relations are kept as structured records.
- The `try`/`catch` branches and `console.error` at lines 70, 106-110 and 116-119. `solveSystem` never throws and never returns null, so they cannot be reached.
- The final `return null` of `getProjection` at line 324. The rank is always 0 to 3, so it cannot be reached.
- The React components, the localisation context and the colour constants. They are presentation code outside the engine.
- RankEngine.Rank: it is the elimination with its 1e-9 pivot tolerance, not the exact mathematical rank. It is not monotone under appending: `RankNotMonotone` shows appending a vector lowering the rank from 2 to 1. Two properties an exact rank would give fail here: `rank(basis(V)) == rank(V)` fails on (1, 0, 0), (1, 1.5e-9, 0), (2, 1.5e-9, 0), whose basis has rank 2 and the input rank 1 (`BasisRankDiffers`); `|gramSchmidt(V)| == rank(V)` fails on two copies of (2e-6, 0, 0), which give two outputs for rank 1 (`GramSchmidtCountDiffers`).
- SpanQueries.IsInSpan: compares tolerance-based ranks, so it is not closed under scaling. `MultipleNotInSpan` shows a multiple of a vector of norm below 1e-9 outside its span.
- DependencyAnalysis.GetDependencyRelations: keeps a vector whenever appending it changes the rank, so the kept vectors need not have full rank. `KeptButDependent` shows three kept vectors of rank 1 with no relation emitted.
- LinearSolver.SolveRecoversCoefficients: requires that every variable column gets a pivot (`FullyPivoted`). Exact linear independence of the basis does not imply this: the one-vector basis (1e-10, 0, 0) is not zero, yet its column never reaches the 1e-9 pivot tolerance (`TinyBasisNotPivoted`). A single vector of norm at least 1e-6, as every extracted basis vector is, always gets its pivot (`SingleVectorPivoted`); for two or three vectors the condition is not derived from the rank.
- LinearSolver.SolveSystem: says nothing about the returned coefficients when the system is inconsistent. The code does not check for this either.
- Orthogonalizer.GramSchmidt: promises that each output is orthogonal to every earlier output whose squared norm exceeds 1e-9 (`LaterOrthogonalToGuarded`), not pairwise orthogonality (see Findings).
- Projector.GetCoordinates: the coordinates are shown to recombine to the projection for targets already in the span of the basis (`CoordinatesRecoverCoefficients`), when every basis column gets a pivot, and for any target over a one-vector basis (`LineCoordinatesRecombine`), with no further condition. For a basis of two or three vectors and a target outside its span, the recombination is not proved. A one-vector basis no longer than 1e-5, such as (2e-6, 0, 0), gives no coordinates at all (`ShortLineNoCoordinates`).

## Findings

| source | as written | input that shows it | evidently intended | confidence | as-written member | corrected member |
|---|---|---|---|---|---|---|
| src/utils/linearAlgebra.ts:249-260 | an earlier output is projected out only when its squared norm exceeds 1e-9 (norm above about 3.2e-5), yet any vector of norm above 1e-6 is accepted as an output | two copies of (2e-6, 0, 0): the first is accepted but never projected out of the second, so both are returned and they are parallel | outputs that are pairwise orthogonal, with the projection guard no stricter than the acceptance tolerance | not executed | Orthogonalizer.AsWrittenNotOrthogonal | Orthogonalizer.CorrectedGramSchmidt |
