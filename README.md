# dalia core in Dafny

dalia is a header-only C++ maths library. This project models its core and proves properties of that model. The core covers:

- fixed-size vectors (`Vector<T, N>`) and matrices (`Matrix<T, Rows, Cols>`) with their arithmetic;
- determinant, transpose, trace and the closed-form 2×2 and 3×3 inverses;
- LU decomposition with partial pivoting, Cholesky decomposition and classical Gram–Schmidt QR;
- the triangular solvers and what is built on them: `solve_lu`, `solve`, `solve_cholesky`, `least_squares` and `matrix_inverse`;
- vector and matrix norms;
- descriptive statistics: mean, median, mode, quantile, variance, range, IQR, mean absolute deviation, covariance, Pearson and Spearman correlation.

The scalar type `T` is modelled by Dafny's exact `real`. The detection threshold `numeric_limits<double>::epsilon() * 100` is the constant `Decomposition.Eps` (100 · 2⁻⁵²). It is used with the same comparison as the source:

- `max_val < Eps` declares LU singular;
- `diag <= Eps` declares Cholesky not positive definite;
- `norm_u > Eps` gives a QR column a direction.

A vector is a `seq<real>`. A matrix is a `Grid` of rows. `Flat()` / `FlatLayout` recover the row-major buffer `data_` and its index `i * Cols + j`.

The source types are values: assignment copies them. So a write `m(i, j) = v` becomes `m := m.Set(i, j, v)`, and the in-place `+=`, `-=`, `*=` and `/=` work on an `array<real>` standing for `data_`.

Each loop of the source is a method with loop invariants, proved against a specification function. Each expression-only routine is a function. Lemmas relate the specification functions: inverses, uniqueness, bounds, symmetry and reconstruction.

`std::sqrt` cannot be called from a proof. Every routine that needs it takes a `sqrt: real -> real` parameter. Where exactness matters, it requires `Decomposition.IsSqrt(sqrt)`: for all x ≥ 0, sqrt(x) ≥ 0 and sqrt(x)² = x.

`std::sort` is modelled by `Sorting.SortedCopy`, a verified insertion sort. `Sorting.SortedUnique` proves that every sorted rearrangement of the data is that same sequence, so no result depends on the algorithm chosen.

## Model

| member | source | states |
|---|---|---|
| Vectors.Abs | include/math/linalg/norm.hpp:16 | `std::abs`: the result is non-negative and equals x or -x |
| Vectors.Plus | include/math/core/vector.hpp:40-46 | elementwise sum, same length |
| Vectors.Minus | include/math/core/vector.hpp:48-54 | elementwise difference, same length |
| Vectors.Times | include/math/core/vector.hpp:56-62 | every element multiplied by the scalar |
| Vectors.Over | include/math/core/vector.hpp:64-70 | every element divided by a nonzero scalar |
| Vectors.Add | include/math/core/vector.hpp:40-46 | the loop computes `Plus` |
| Vectors.Sub | include/math/core/vector.hpp:48-54 | the loop computes `Minus` |
| Vectors.Mul | include/math/core/vector.hpp:56-62 | the loop computes `Times` |
| Vectors.Div | include/math/core/vector.hpp:64-70 | the loop computes `Over` |
| Vectors.ScalarMul | include/math/core/vector.hpp:125-128 | `scalar * v` is `v * scalar` |
| Vectors.MinusUndoesPlus | include/math/core/vector.hpp:40-54 | subtracting b undoes adding b |
| Vectors.OverUndoesTimes | include/math/core/vector.hpp:56-70 | dividing by c undoes multiplying by c (c ≠ 0) |
| Vectors.AddAssign | include/math/core/vector.hpp:72-77 | after `+=` the storage holds the elementwise sum of its old contents and the operand |
| Vectors.SubAssign | include/math/core/vector.hpp:79-84 | after `-=` the storage holds the elementwise difference |
| Vectors.MulAssign | include/math/core/vector.hpp:86-91 | after `*=` every stored element is scaled |
| Vectors.DivAssign | include/math/core/vector.hpp:93-98 | after `/=` every stored element is divided |
| Vectors.Equal | include/math/core/vector.hpp:100-105 | true exactly when the two vectors are equal (both directions) |
| Vectors.DotProduct | include/math/core/vector.hpp:107-113 | the running sum equals the dot product `Dot` |
| Vectors.DotSymmetric | include/math/core/vector.hpp:130-133 | the dot product does not depend on argument order |
| Vectors.DotLinearLeft | include/math/core/vector.hpp:107-113 | the dot product is linear in its first argument |
| Vectors.DotUnit | include/math/core/vector.hpp:107-113 | the dot product with the k-th unit vector picks element k |
| Vectors.DotExample | include/math/core/vector.hpp:107-113 | [1,2,3]·[4,5,6] = 32 |
| Vectors.SumNonNegative | include/math/core/vector.hpp:107-113 | a sum of non-negative terms is non-negative |
| Vectors.Cross | include/math/core/vector.hpp:145-152 | the 3-D cross product is orthogonal to both arguments |
| Vectors.CrossExample | include/math/core/vector.hpp:145-152 | e₀ × e₁ = e₂ |
| Matrices.Grid.Set | include/math/core/matrix.hpp:27-29 | a write through `operator()` changes entry (i, j) to v and no other entry |
| Matrices.Grid.Row | include/math/core/matrix.hpp:27-33 | row i holds the entries (i, j) |
| Matrices.Grid.Col | include/math/core/matrix.hpp:27-33 | column j holds the entries (i, j) |
| Matrices.Grid.Diagonal | include/math/core/matrix.hpp:124-130 | the diagonal holds the entries (i, i) |
| Matrices.FlatLayout | include/math/core/matrix.hpp:27-33 | entry (i, j) is stored at position i * Cols + j of the row-major buffer, and that position is in range |
| Matrices.Extensionality | include/math/core/matrix.hpp:132-139 | matrices with equal shape and equal entries are equal |
| Matrices.Zeros | include/math/core/matrix.hpp:43-45 | the default-constructed matrix is all zeros |
| Matrices.IdentityOf | include/math/core/matrix.hpp:35-41 | ones on the diagonal, zeros elsewhere |
| Matrices.ConstantOf | include/math/core/matrix.hpp:47-55 | every entry equals the constant |
| Matrices.Sum2 | include/math/core/matrix.hpp:57-65 | entrywise sum |
| Matrices.Difference | include/math/core/matrix.hpp:67-75 | entrywise difference |
| Matrices.Scaled | include/math/core/matrix.hpp:77-85 | every entry scaled |
| Matrices.Product | include/math/core/matrix.hpp:87-100 | entry (i, j) is the sum over k of a(i, k)·b(k, j), shape Rows × OtherCols |
| Matrices.Apply | include/math/core/matrix.hpp:102-112 | element i is the sum over j of m(i, j)·v[j] |
| Matrices.Transposed | include/math/core/matrix.hpp:114-122 | entry (i, j) of the result is entry (j, i), shape swapped |
| Matrices.Identity | include/math/core/matrix.hpp:35-41 | the loop builds `IdentityOf` |
| Matrices.Ones | include/math/core/matrix.hpp:47-55 | the nested loops build the all-ones matrix |
| Matrices.Add | include/math/core/matrix.hpp:57-65 | the nested loops compute `Sum2` |
| Matrices.Sub | include/math/core/matrix.hpp:67-75 | the nested loops compute `Difference` |
| Matrices.Scale | include/math/core/matrix.hpp:77-85 | the nested loops compute `Scaled` |
| Matrices.ScalarTimes | include/math/core/matrix.hpp:142-145 | `scalar * m` is `m * scalar` |
| Matrices.Multiply | include/math/core/matrix.hpp:87-100 | the triple loop computes `Product` |
| Matrices.EntrySum | include/math/core/matrix.hpp:92-96 | the inner running sum is entry (i, j) of the product |
| Matrices.MulVec | include/math/core/matrix.hpp:102-112 | the loops compute `Apply` |
| Matrices.Transpose | include/math/core/matrix.hpp:114-122 | the loops compute `Transposed` |
| Matrices.Trace | include/math/core/matrix.hpp:124-130 | the sum of the diagonal |
| Matrices.Equal | include/math/core/matrix.hpp:132-139 | true exactly when the matrices are equal (both directions) |
| Matrices.IdentityUnit | include/math/core/matrix.hpp:87-100 | the identity is a left and a right unit of the product |
| Matrices.TransposeInvolution | include/math/core/matrix.hpp:114-122 | transposing twice gives the matrix back |
| Matrices.ScaleInverse | include/math/core/matrix.hpp:77-85 | scaling by c and then by 1/c gives the matrix back |
| Matrices.DifferenceUndoesSum | include/math/core/matrix.hpp:57-75 | subtracting b undoes adding b |
| Matrices.ApplyProduct | include/math/core/matrix.hpp:87-112 | (ab)x = a(bx) |
| Matrices.ProductExample | include/math/core/matrix.hpp:87-100 | [[1,2],[3,4]]·[[5,6],[7,8]] = [[19,22],[43,50]] |
| Matrices.ApplyExample | include/math/core/matrix.hpp:102-112 | [[1,2],[3,4]]·[5,6] = [17,39] |
| Operations.Sign | include/math/linalg/operations.hpp:41 | the cofactor sign is +1 for even columns and -1 for odd ones |
| Operations.Minor | include/math/linalg/operations.hpp:32-40 | the minor drops row 0 and column j and keeps the order of the remaining columns |
| Operations.BuildMinor | include/math/linalg/operations.hpp:32-40 | the copy loop with its running column index builds `Minor` |
| Operations.Determinant | include/math/linalg/operations.hpp:19-46 | the result is the Laplace expansion along row 0 for every size |
| Operations.Det2IsLaplace | include/math/linalg/operations.hpp:23-24 | the closed 2×2 formula equals the Laplace expansion |
| Operations.Det3IsLaplace | include/math/linalg/operations.hpp:25-28 | the closed 3×3 formula equals the Laplace expansion |
| Operations.Det2Example | include/math/linalg/operations.hpp:23-24 | det [[1,2],[3,4]] = -2 |
| Operations.Det3Example | include/math/linalg/operations.hpp:25-28 | det [[1,2,3],[0,1,4],[5,6,0]] = 1 |
| Operations.Inverse2 | include/math/linalg/operations.hpp:48-57 | for a nonzero determinant, m times the result is the identity |
| Operations.Inverse2Right | include/math/linalg/operations.hpp:52-55 | the four adjugate-over-determinant entries form a right inverse |
| Operations.Inverse3 | include/math/linalg/operations.hpp:59-77 | for a nonzero determinant, m times the result is the identity |
| Operations.Inverse3Right | include/math/linalg/operations.hpp:64-74 | the nine adjugate-over-determinant entries form a right inverse |
| Operations.TransposeOf | include/math/linalg/operations.hpp:9-12 | the free function computes `Transposed` |
| Operations.TraceOf | include/math/linalg/operations.hpp:14-17 | the free function computes the diagonal sum |
| Decomposition.PivotSearch | include/math/linalg/decomposition.hpp:34-43 | the pivot row holds the largest magnitude in column k at or below row k; ties keep the first such row |
| Decomposition.SwapRows | include/math/linalg/decomposition.hpp:50-56 | rows k and p of U are exchanged, and so are their entries of L left of column k |
| Decomposition.EliminateRow | include/math/linalg/decomposition.hpp:60-67 | the factor times the pivot is U(i, k); L(i, k) becomes the factor; row i of U from column k loses factor × row k; with partial pivoting, abs(factor) ≤ 1 |
| Decomposition.PlacePivot | include/math/linalg/decomposition.hpp:33-58 | no pivot is found exactly when every candidate is below Eps, and then nothing changes; otherwise the pivot reaches the diagonal and dominates the column; P stays a permutation |
| Decomposition.EliminateColumn | include/math/linalg/decomposition.hpp:60-67 | eliminating below pivot k keeps the factorisation invariant and advances it to column k+1 |
| Decomposition.EliminateStep | include/math/linalg/decomposition.hpp:60-67 | one elimination row keeps the invariant and the pivot's dominance |
| Decomposition.LuDecompose | include/math/linalg/decomposition.hpp:20-71 | P is a bijection on [0, N) and every multiplier is at most 1 in magnitude; if singular, some column k had every candidate below Eps, with the partial factors consistent up to k; otherwise L is unit lower triangular, U is upper triangular and L·U equals A with its rows permuted by P |
| Decomposition.InvertedIsBijection | include/math/linalg/decomposition.hpp:57 | a sequence with an inverse is a permutation of [0, N) |
| Decomposition.SwapInverts | include/math/linalg/decomposition.hpp:57 | swapping two entries of P, and updating its inverse to match, keeps the two inverse to each other |
| Decomposition.StartStage | include/math/linalg/decomposition.hpp:22-29 | L = I, U = A and P = identity satisfy the invariant at column 0 |
| Decomposition.SwapStage | include/math/linalg/decomposition.hpp:50-58 | the row exchange, applied to U, L and P, keeps the invariant |
| Decomposition.SwapLower | include/math/linalg/decomposition.hpp:53-55 | exchanging the computed parts of L keeps it unit lower triangular with multipliers at most 1 |
| Decomposition.SwapUpper | include/math/linalg/decomposition.hpp:52 | exchanging rows at or below k keeps the finished columns of U triangular with their pivots |
| Decomposition.SwapFactor | include/math/linalg/decomposition.hpp:50-58 | after the exchange, the partial products L·U still equal the permuted rows of A |
| Decomposition.EnterColumn | include/math/linalg/decomposition.hpp:60 | a placed pivot opens the elimination of column k |
| Decomposition.EliminateStage | include/math/linalg/decomposition.hpp:60-67 | one eliminated row advances the invariant and leaves the pivot and later rows' column k untouched |
| Decomposition.EliminateLower | include/math/linalg/decomposition.hpp:62 | storing the factor keeps L unit lower triangular |
| Decomposition.EliminateUpper | include/math/linalg/decomposition.hpp:64-66 | the row update clears U(i, k) and keeps the pivots |
| Decomposition.EliminateFactor | include/math/linalg/decomposition.hpp:60-67 | the row update keeps L·U equal to the permuted rows of A |
| Decomposition.EliminatedRow | include/math/linalg/decomposition.hpp:61-66 | the eliminated row's product with the new factor equals the old one |
| Decomposition.MultiplierBound | include/math/linalg/decomposition.hpp:61 | with a dominant pivot the multiplier is at most 1 in magnitude |
| Decomposition.NextColumn | include/math/linalg/decomposition.hpp:60-67 | a fully eliminated column closes stage k |
| Decomposition.FinalStage | include/math/linalg/decomposition.hpp:70 | the invariant after the last column gives unit lower L, upper U and L·U = P·A |
| Decomposition.RootPositive | include/math/linalg/decomposition.hpp:149-154 | the square root of a radicand above Eps is positive |
| Decomposition.RowProduct | include/math/linalg/decomposition.hpp:144-158 | the running sum is the sum over k < j of L(i, k)·L(j, k) |
| Decomposition.OffDiagonal | include/math/linalg/decomposition.hpp:159 | the new entry times the diagonal entry is A(i, j) minus the running sum |
| Decomposition.CholeskyRow | include/math/linalg/decomposition.hpp:140-161 | a finished row extends the factorisation by one row; an aborted row leaves a radicand at or below Eps |
| Decomposition.CholeskyDecompose | include/math/linalg/decomposition.hpp:131-165 | L is zero above the diagonal; if positive definite, every entry on or below the diagonal solves its equation; otherwise some diagonal radicand was at or below Eps, with all earlier rows solved |
| Decomposition.WriteDiagonal | include/math/linalg/decomposition.hpp:154 | storing the root advances the stage |
| Decomposition.WriteOffDiagonal | include/math/linalg/decomposition.hpp:159 | storing L(i, j) advances the stage |
| Decomposition.NextRow | include/math/linalg/decomposition.hpp:139 | a finished row advances i |
| Decomposition.CholeskyFactorization | include/math/linalg/decomposition.hpp:131-165 | after success, L is lower triangular with a positive diagonal and (L·Lᵗ)(r, c) = A(r, c) for c ≤ r |
| Decomposition.CholeskySymmetric | include/math/linalg/decomposition.hpp:131-165 | for a symmetric A, success gives L·Lᵗ = A |
| Decomposition.CrossProduct | include/math/linalg/decomposition.hpp:156-158 | entry (r, c) of L·Lᵗ is the row-by-row sum over L |
| Decomposition.CrossDotSymmetric | include/math/linalg/decomposition.hpp:157 | that sum does not depend on the order of the two rows |
| Decomposition.Residual | include/math/linalg/decomposition.hpp:93-101 | the column minus its projections has the column's length |
| Decomposition.Direction | include/math/linalg/decomposition.hpp:103-113 | the direction has the residual's length |
| Decomposition.Directions | include/math/linalg/decomposition.hpp:87-114 | j directions, each of length N |
| Decomposition.QrColumn | include/math/linalg/decomposition.hpp:88-113 | column j stores its Gram–Schmidt direction and fills column j of R, keeping the earlier directions |
| Decomposition.CopyColumn | include/math/linalg/decomposition.hpp:88-91 | the copy is column j |
| Decomposition.ClearVector | include/math/linalg/decomposition.hpp:110-112 | the cleared direction is zero |
| Decomposition.Deflate | include/math/linalg/decomposition.hpp:98-100 | u becomes u minus proj·q |
| Decomposition.QrDecompose | include/math/linalg/decomposition.hpp:79-123 | Q's columns are the Gram–Schmidt directions and R holds the projections above the diagonal, the residual norms on it and zeros below it |
| Decomposition.DirectionsCharacterised | include/math/linalg/decomposition.hpp:87-114 | each direction is the normalised residual of its column against the earlier directions |
| Decomposition.QrTriangular | include/math/linalg/decomposition.hpp:95-104 | R is zero below the diagonal, and its diagonal (a norm) is non-negative |
| Decomposition.QrColumnShape | include/math/linalg/decomposition.hpp:103-120 | column j of Q is the direction of the residual, and R(j, j) is its norm |
| Decomposition.DirectionShape | include/math/linalg/decomposition.hpp:106-113 | a residual norm at or below Eps gives a zero column; otherwise direction × norm = residual, and the direction has unit length |
| Decomposition.QrReconstruction | include/math/linalg/decomposition.hpp:79-123 | when every R(j, j) exceeds Eps, Q·R = A |
| Solve.Divide | include/math/linalg/solve.hpp:21 | the quotient times the diagonal entry is the numerator |
| Solve.ForwardSubstitution | include/math/linalg/solve.hpp:12-25 | every row i satisfies the sum over j ≤ i of L(i, j)·x[j] = b[i] |
| Solve.BackwardSubstitution | include/math/linalg/solve.hpp:27-40 | every row i satisfies the sum over j ≥ i of U(i, j)·x[j] = b[i] |
| Solve.LowerUnique | include/math/linalg/solve.hpp:12-25 | with a nonzero diagonal, the forward solution is the only one |
| Solve.LowerOnly | include/math/linalg/solve.hpp:18-21 | entries above the diagonal never matter; the solutions coincide (both directions) |
| Solve.LowerApply | include/math/linalg/solve.hpp:12-25 | for a lower triangular L the forward solution satisfies L·x = b |
| Solve.UpperUnique | include/math/linalg/solve.hpp:27-40 | with a nonzero diagonal, the backward solution is the only one |
| Solve.UpperOnly | include/math/linalg/solve.hpp:33-36 | entries below the diagonal never matter; the solutions coincide (both directions) |
| Solve.UpperApply | include/math/linalg/solve.hpp:27-40 | for an upper triangular U the backward solution satisfies U·x = b |
| Solve.PermuteVector | include/math/linalg/solve.hpp:50-53 | element i is b[P[i]] |
| Solve.LuSolution | include/math/linalg/solve.hpp:42-59 | forward then backward substitution on a non-singular LU gives A·x = b |
| Solve.FactoredDiagonals | include/math/linalg/solve.hpp:55-56 | a non-singular LU has nonzero diagonals in L and U, so neither substitution divides by zero |
| Solve.SolveLu | include/math/linalg/solve.hpp:42-59 | no solution exactly when LU reports singular (some column without a pivot); otherwise A·x = b |
| Solve.SolveSystem | include/math/linalg/solve.hpp:75-78 | `solve` is `solve_lu`: the same two outcomes |
| Solve.LeastSquares | include/math/linalg/solve.hpp:80-97 | if AᵗA factors, x solves the normal equations AᵗA·x = Aᵗb; otherwise x is the zero vector of length Cols |
| Solve.PermutedUnit | include/math/linalg/solve.hpp:110-113 | e[i] is 1 where P[i] = j and 0 elsewhere |
| Solve.StoreColumn | include/math/linalg/solve.hpp:118-120 | column j becomes x and the other columns stay |
| Solve.RightInverse | include/math/linalg/solve.hpp:108-121 | a matrix whose column j solves A·x = e_j, for every j, is a right inverse of A |
| Solve.MatrixInverse | include/math/linalg/solve.hpp:99-124 | no result when LU is singular; otherwise A·inv = I |
| Solve.TransposedLower | include/math/linalg/solve.hpp:70 | the transpose of a Cholesky factor is upper triangular with a nonzero diagonal |
| Solve.SolveCholesky | include/math/linalg/solve.hpp:61-73 | no solution exactly when Cholesky fails (a radicand at or below Eps); otherwise L·Lᵗ·x = b, hence A·x = b for a symmetric A |
| Norms.L1Norm | include/math/linalg/norm.hpp:12-19 | the running sum is the sum of absolute values |
| Norms.AbsSumNonNegative | include/math/linalg/norm.hpp:12-19 | the L1 norm is non-negative |
| Norms.AbsSumBound | include/math/linalg/norm.hpp:12-19 | every absolute value is at most the L1 norm |
| Norms.L1Example | include/math/linalg/norm.hpp:12-19 | the L1 norm of [1,-2,3] is 6 |
| Norms.LinfNorm | include/math/linalg/norm.hpp:26-33 | the result is the absolute value of some element and at least every absolute value |
| Norms.MaxAbsUnique | include/math/linalg/norm.hpp:26-33 | that characterisation has one solution |
| Norms.LinfBelowL1 | include/math/linalg/norm.hpp:12-33 | the max norm is at most the L1 norm |
| Norms.LinfExample | include/math/linalg/norm.hpp:26-33 | the max norm of [1,-5,3] is 5 |
| Norms.MaxNorm | include/math/linalg/norm.hpp:56-65 | the result is the absolute value of some entry and at least every one |
| Norms.Matrix1Norm | include/math/linalg/norm.hpp:67-78 | the largest absolute column sum, or 0 when there is no column |
| Norms.MatrixInfNorm | include/math/linalg/norm.hpp:80-91 | the largest absolute row sum, or 0 when there is no row |
| Norms.InfNormIsTransposed1Norm | include/math/linalg/norm.hpp:67-91 | the ∞-norm of m is the 1-norm of its transpose (both directions) |
| Norms.MaxColumnSumUnique | include/math/linalg/norm.hpp:67-78 | the 1-norm characterisation has one solution |
| Norms.Matrix1Example | include/math/linalg/norm.hpp:67-78 | the 1-norm of [[1,3],[2,4]] is 7 |
| Sorting.Insert | include/math/stats/descriptive/central.hpp:40 | inserting into a sorted sequence keeps it sorted and adds exactly that element |
| Sorting.SortedCopy | include/math/stats/descriptive/central.hpp:40 | `std::sort`: a sorted permutation of the data |
| Sorting.SortedUnique | include/math/stats/descriptive/central.hpp:40 | two sorted permutations of the same data are equal |
| Sorting.SortIsDetermined | include/math/stats/descriptive/central.hpp:40 | any sorted permutation is `SortedCopy` |
| Sorting.SortedCopyOfPermutation | include/math/stats/descriptive/central.hpp:40 | permuting the data does not change its sorted copy |
| Sorting.MinOf | include/math/stats/descriptive/dispersion.hpp:66 | the smallest element: it occurs and bounds all of them from below |
| Sorting.MaxOf | include/math/stats/descriptive/dispersion.hpp:66 | the largest element: it occurs and bounds all of them from above |
| Sorting.SortedCopyEnds | include/math/stats/descriptive/central.hpp:98-99 | the sorted copy starts with the minimum and ends with the maximum |
| Sorting.SortedCopyBetween | include/math/stats/descriptive/central.hpp:40 | every element of the sorted copy lies between the minimum and the maximum |
| Central.Mean | include/math/stats/descriptive/central.hpp:12-23 | the loop returns the average, or 0 for empty data |
| Central.MeanOfVector | include/math/stats/descriptive/central.hpp:25-32 | the fixed-size overload returns the average |
| Central.AverageBounds | include/math/stats/descriptive/central.hpp:12-23 | data within [lo, hi] has its mean within [lo, hi] |
| Central.AverageBetween | include/math/stats/descriptive/central.hpp:12-23 | the mean lies between the minimum and the maximum |
| Central.MeanExample | include/math/stats/descriptive/central.hpp:12-23 | the mean of 1..5 is 3 |
| Central.Median | include/math/stats/descriptive/central.hpp:34-48 | 0 for empty data; otherwise between the minimum and the maximum |
| Central.MedianOfSorted | include/math/stats/descriptive/central.hpp:41-47 | on sorted data the median is the middle element, or the mean of the two middle ones |
| Central.MedianOddExample | include/math/stats/descriptive/central.hpp:46 | the median of 1,3,5,7,9 is 5 |
| Central.MedianEvenExample | include/math/stats/descriptive/central.hpp:44 | the median of 1,2,3,4 is 2.5 |
| Central.Position | include/math/stats/descriptive/central.hpp:101 | the interpolation position lies in [0, n-1] |
| Central.FloorIndex | include/math/stats/descriptive/central.hpp:102 | `floor` of a non-negative position |
| Central.CeilIndex | include/math/stats/descriptive/central.hpp:103 | `ceil`: the floor or one more, equal to the floor exactly when the position is whole |
| Central.Quantile | include/math/stats/descriptive/central.hpp:90-111 | 0 for empty data or q outside [0, 1]; the minimum at q = 0 and the maximum at q = 1 |
| Central.QuantileIsInterpolation | include/math/stats/descriptive/central.hpp:96-110 | for q in [0, 1], linear interpolation between the floor and ceiling elements of the sorted copy |
| Central.QuantileMonotone | include/math/stats/descriptive/central.hpp:90-111 | the quantile does not decrease in q |
| Central.QuantileBetween | include/math/stats/descriptive/central.hpp:90-111 | every quantile lies between the minimum and the maximum |
| Central.MedianIsHalfQuantile | include/math/stats/descriptive/central.hpp:34-111 | the median equals the 0.5 quantile |
| Central.QuantileOfSorted | include/math/stats/descriptive/central.hpp:96 | on sorted data, the sort changes nothing |
| Central.QuantileHalfExample | include/math/stats/descriptive/central.hpp:101-106 | the 0.5 quantile of 1..5 is 3 |
| Central.QuantileLowerExample | include/math/stats/descriptive/central.hpp:101-106 | the 0.25 quantile of 1..5 is 2 |
| Central.QuantileUpperExample | include/math/stats/descriptive/central.hpp:101-106 | the 0.75 quantile of 1..5 is 4 |
| Central.OrderIrrelevant | include/math/stats/descriptive/central.hpp:34-111 | median and quantile depend only on the multiset of the data |
| Central.Tallied | include/math/stats/descriptive/central.hpp:68-85 | closing a run: a longer run replaces the modes, an equal run is appended, a shorter one is dropped |
| Central.ScanRuns | include/math/stats/descriptive/central.hpp:59-78 | the scan leaves the modes of all closed runs and the count of the open last run |
| Central.Mode | include/math/stats/descriptive/central.hpp:50-88 | empty data gives no modes; the modes are strictly increasing, and v is a mode exactly when no value occurs more often (both directions) |
| Central.ModesAreMostFrequent | include/math/stats/descriptive/central.hpp:56-87 | the modes tallied over the sorted copy are the most frequent values of the data |
| Dispersion.Variance | include/math/stats/descriptive/dispersion.hpp:13-29 | the loop computes the sample or population variance; 0 for empty data and for one sample point |
| Dispersion.VarianceOfVector | include/math/stats/descriptive/dispersion.hpp:31-47 | the fixed-size overload computes the same variance |
| Dispersion.VarianceNonNegative | include/math/stats/descriptive/dispersion.hpp:13-29 | the variance is non-negative |
| Dispersion.VarianceZero | include/math/stats/descriptive/dispersion.hpp:13-29 | the variance is 0 exactly when every point equals the mean (both directions) |
| Dispersion.SampleAndPopulation | include/math/stats/descriptive/dispersion.hpp:27 | sample variance × (n-1) = population variance × n |
| Dispersion.VarianceExample | include/math/stats/descriptive/dispersion.hpp:13-29 | for 2,4,4,4,5,5,7,9: sample variance 32/7, population variance 4 |
| Dispersion.StdDev | include/math/stats/descriptive/dispersion.hpp:49-57 | non-negative, and its square is the variance |
| Dispersion.StdDevZero | include/math/stats/descriptive/dispersion.hpp:49-57 | the standard deviation is 0 exactly when the variance is, exactly when the data is constant |
| Dispersion.Range | include/math/stats/descriptive/dispersion.hpp:59-67 | 0 for empty data; otherwise a difference of two elements that bounds every difference |
| Dispersion.RangeExample | include/math/stats/descriptive/dispersion.hpp:59-67 | the range of 1,5,3,9,2 is 8 |
| Dispersion.Iqr | include/math/stats/descriptive/dispersion.hpp:69-78 | 0 below two points; never negative |
| Dispersion.IqrWithinRange | include/math/stats/descriptive/dispersion.hpp:59-78 | the IQR is at most the range |
| Dispersion.IqrOrderIrrelevant | include/math/stats/descriptive/dispersion.hpp:69-78 | the IQR depends only on the multiset of the data |
| Dispersion.IqrExample | include/math/stats/descriptive/dispersion.hpp:69-78 | the IQR of 1..5 is 2 |
| Dispersion.Mad | include/math/stats/descriptive/dispersion.hpp:80-95 | the loop computes the mean absolute deviation from the mean, 0 for empty data |
| Dispersion.MeanDeviationZero | include/math/stats/descriptive/dispersion.hpp:80-95 | the deviation is non-negative and 0 exactly when the data is constant, exactly when the variance is 0 |
| Correlation.Covariance | include/math/stats/descriptive/correlation.hpp:13-29 | the loop computes the covariance; 0 for mismatched lengths, empty data or one sample point |
| Correlation.CovarianceSymmetric | include/math/stats/descriptive/correlation.hpp:13-29 | cov(x, y) = cov(y, x) |
| Correlation.CovarianceSelf | include/math/stats/descriptive/correlation.hpp:13-29 | cov(x, x) is the variance of x |
| Correlation.CovarianceExample | include/math/stats/descriptive/correlation.hpp:13-29 | the sample covariance of 1..5 and 2,4,5,4,5 is 1.5 |
| Correlation.CorrelationOf | include/math/stats/descriptive/correlation.hpp:31-46 | 0 for mismatched lengths or fewer than two points |
| Correlation.CorrelationOfConstant | include/math/stats/descriptive/correlation.hpp:41-43 | a constant input has zero standard deviation, so the result is 0 |
| Correlation.CorrelationSymmetric | include/math/stats/descriptive/correlation.hpp:31-46 | corr(x, y) = corr(y, x) |
| Correlation.CorrelationSelf | include/math/stats/descriptive/correlation.hpp:31-46 | a non-constant x correlates with itself at exactly 1 |
| Correlation.SortByKey | include/math/stats/descriptive/correlation.hpp:64-67 | the index sort returns a permutation of the indices, ordered by key |
| Correlation.PermutationFacts | include/math/stats/descriptive/correlation.hpp:57-67 | a permutation of 0..n-1 has length n, distinct entries in range, and contains every index |
| Correlation.RankingFromPositions | include/math/stats/descriptive/correlation.hpp:69-72 | giving the k-th sorted index rank k+1 makes a ranking: ranks 1..n, each used once, agreeing with the key order |
| Correlation.FillIndices | include/math/stats/descriptive/correlation.hpp:57-62 | both index vectors become 0..n-1 |
| Correlation.AssignRanks | include/math/stats/descriptive/correlation.hpp:69-72 | the element at sorted position k gets rank k+1 |
| Correlation.RanksAsReals | include/math/stats/descriptive/correlation.hpp:74-79 | the ranks are converted to reals element by element |
| Correlation.SpearmanCorrelation | include/math/stats/descriptive/correlation.hpp:48-82 | 0 for mismatched lengths or fewer than two points; otherwise both rank vectors are rankings of their data, and the result is the Pearson correlation of the ranks |

## Left out

- The eigenvalue routines (`include/math/linalg/eigenvalue.hpp`) are not part of this model. Iteration to a floating-point tolerance, with sqrt normalisation, has no exact counterpart over `real`.
- The special functions (gamma, beta, erf) are not part of this model, for the same reason.
- Floating point: rounding, NaN and infinity are not modelled. Dividing by a zero diagonal, determinant or scalar yields NaN or infinity in C++. The model requires a nonzero divisor instead: `Vectors.Over`, `Operations.Inverse2`, `Operations.Inverse3`, `Solve.ForwardSubstitution`, `Solve.BackwardSubstitution`.
- Integer instantiations of `T` are not modelled. The `Arithmetic` concept admits them, but they truncate on division.
- Output: the stream operators `operator<<` (vector.hpp:154-163, matrix.hpp:147-162) and `io.hpp` are not modelled; printing has no proof content.
- Compile-time concepts and the array sizes `N`, `Rows` and `Cols` are not types. They become length preconditions: `|a| == |b|`, `a.cols == b.rows`.
- The fixed-size overloads with N > 0 have the `NonZero` concept as a precondition `|data| > 0`: `Central.MeanOfVector`, `Dispersion.VarianceOfVector`, `Norms.LinfNorm`, `Norms.MaxNorm`.
- Constructors, `size()`, `begin()`/`end()` and the element accessors are the sequence operations themselves.
- `norm`, `normalized`, `normalize`, `l2_norm`, `lp_norm` and `frobenius_norm` are not modelled. They are `sqrt`, `pow` or `sqrt` of a dot product, which the model does not name apart from `Decomposition.Norm`.
- `Decomposition.QrDecompose`: Q's orthogonality is not stated. Classical Gram–Schmidt gives it only when no column is dependent, and proving it would need a proof of Gram–Schmidt itself.
- `Decomposition.QrReconstruction`: Q·R = A is proved only when every R(j, j) exceeds Eps. When a residual falls below the threshold, its column of Q is zeroed and A is not recovered.
- `Decomposition.CholeskyDecompose`: success gives the equations on and below the diagonal. L·Lᵗ = A follows only for symmetric A (`Decomposition.CholeskySymmetric`), because the source never reads the upper half.
- `Solve.SolveLu`, `Solve.SolveSystem`, `Solve.MatrixInverse`, `Solve.LeastSquares`, `Solve.SolveCholesky`: each also returns the decomposition it used, as a ghost out-parameter, so that the no-solution case can be stated. The C++ returns only the optional.
- `Solve.LeastSquares`: when AᵗA is singular, the source returns the zero vector and drops the failure. The model states exactly that and does not go further.
- `Correlation.CorrelationOf`: the value is `cov / (sd_x · sd_y)` with `sqrt` as a parameter. It is not proved to lie in [-1, 1], since that needs the Cauchy–Schwarz inequality.
- `Correlation.SpearmanCorrelation`: the ranks are stated for ANY index order that sorts by key. `std::sort` leaves the order of equal keys unspecified, so tied values get distinct ranks in some order, as in the source.
- `Central.Median`, `Central.Quantile`, `Dispersion.Iqr`: the C++ sorts a copy of the data in place. The model applies `Sorting.SortedCopy` as a function, because `SortIsDetermined` makes the result independent of the sorting algorithm.
- `Central.Mode`: the loop is split into `ScanRuns` (the scan) and `Tallied` (closing one run). The final run also goes through `Tallied`, which updates the top count where the source leaves `max_count` stale; that count is never read afterwards.
- The `double` arithmetic of `quantile`, including the `size_t` casts of `floor` and `ceil`, is modelled over `real` and `nat` (`Central.FloorIndex`, `Central.CeilIndex`).
