// Linear solvers built on the decompositions: forward and backward
// substitution, the LU and Cholesky solvers, least squares through the
// normal equations, and the inverse through n LU solves.

module Solve {
  import opened Vectors
  import opened Matrices
  import opened Decomposition

  /** std::optional: nothing, or a value. */
  datatype Option<T> = None | Some(value: T)

  /** Every diagonal entry can be divided by. */
  predicate NonzeroDiagonal(m: Matrix) {
    m.rows == m.cols && forall i: nat | i < m.rows :: m.At(i, i) != 0.0
  }

  /** Zeros above the diagonal. */
  predicate LowerTriangular(m: Matrix) {
    forall r: nat, c: nat | r < c < m.cols && r < m.rows :: m.At(r, c) == 0.0
  }

  /** m(i, s) * v[s] + ... + m(i, t-1) * v[t-1]. */
  function Segment(m: Matrix, i: nat, v: Vector, s: nat, t: nat): real
    requires i < m.rows && s <= t <= m.cols && t <= |v|
    decreases t - s
  {
    if t == s then 0.0 else Segment(m, i, v, s, t - 1) + m.At(i, t - 1) * v[t - 1]
  }

  /** The system forward_substitution solves: row i of L, up to and
      including the diagonal, against x gives b[i]. */
  predicate SolvesLower(L: Matrix, x: Vector, b: Vector) {
    && L.rows == L.cols == |x| == |b|
    && forall i | 0 <= i < |b| :: RowDot(L, i, x, i + 1) == b[i]
  }

  /** The system backward_substitution solves: row i of U, from the
      diagonal on, against x gives b[i]. */
  predicate SolvesUpper(U: Matrix, x: Vector, b: Vector) {
    && U.rows == U.cols == |x| == |b|
    && forall i | 0 <= i < |b| :: Segment(U, i, x, i, |b|) == b[i]
  }

  /** The one division of each substitution step. */
  method Divide(a: real, d: real) returns (q: real)
    requires d != 0.0
    ensures q * d == a
  {
    q := a / d;
  }

  /** forward_substitution: x[i] is b[i], less the products with the
      entries already found, over L(i, i). */
  method ForwardSubstitution(L: Matrix, b: Vector) returns (x: Vector)
    requires L.rows == L.cols == |b| && NonzeroDiagonal(L)
    ensures SolvesLower(L, x, b)
  {
    var n := |b|;
    x := Zero(n);
    for i := 0 to n
      invariant |x| == n
      invariant forall p | 0 <= p < i :: RowDot(L, p, x, p + 1) == b[p]
    {
      var sum := b[i];
      for j := 0 to i
        invariant sum == b[i] - RowDot(L, i, x, j)
      {
        sum := sum - L.At(i, j) * x[j];
      }
      var xi := Divide(sum, L.At(i, i));
      ghost var x0 := x;
      x := x[i := xi];
      forall p | 0 <= p < i
        ensures RowDot(L, p, x, p + 1) == b[p]
      {
        RowDotAgree(L, p, x0, L, p, x, p + 1);
      }
      RowDotAgree(L, i, x0, L, i, x, i);
    }
  }

  /** backward_substitution: i runs from n-1 down to 0, and x[i] is b[i],
      less the products with the entries already found, over U(i, i). */
  method BackwardSubstitution(U: Matrix, b: Vector) returns (x: Vector)
    requires U.rows == U.cols == |b| && NonzeroDiagonal(U)
    ensures SolvesUpper(U, x, b)
  {
    var n := |b|;
    x := Zero(n);
    var i := n;
    while i > 0
      invariant i <= n && |x| == n
      invariant forall p: nat | i <= p < n :: Segment(U, p, x, p, n) == b[p]
    {
      i := i - 1;
      var sum := b[i];
      for j := i + 1 to n
        invariant sum == b[i] - Segment(U, i, x, i + 1, j)
      {
        sum := sum - U.At(i, j) * x[j];
      }
      var xi := Divide(sum, U.At(i, i));
      ghost var x0 := x;
      x := x[i := xi];
      forall p: nat | i < p < n
        ensures Segment(U, p, x, p, n) == b[p]
      {
        SegmentAgree(U, p, x0, x, p, n);
      }
      SegmentAgree(U, i, x0, x, i + 1, n);
      SegmentPeel(U, i, x, i, n);
    }
  }

  // Properties of the two substitutions.

  /** RowDot reads row i of m and the first t entries of v only. */
  lemma {:induction false} RowDotAgree(m: Matrix, i: nat, v: Vector, m': Matrix, i': nat, w: Vector, t: nat)
    requires i < m.rows && i' < m'.rows && t <= m.cols && t <= m'.cols && t <= |v| && t <= |w|
    requires forall j | 0 <= j < t :: m.At(i, j) == m'.At(i', j) && v[j] == w[j]
    ensures RowDot(m, i, v, t) == RowDot(m', i', w, t)
  {
    if t > 0 {
      RowDotAgree(m, i, v, m', i', w, t - 1);
    }
  }

  /** Segment reads the entries s .. t-1 of v only. */
  lemma {:induction false} SegmentAgree(m: Matrix, i: nat, v: Vector, w: Vector, s: nat, t: nat)
    requires i < m.rows && s <= t <= m.cols && t <= |v| && t <= |w|
    requires forall j | s <= j < t :: v[j] == w[j]
    ensures Segment(m, i, v, s, t) == Segment(m, i, w, s, t)
    decreases t - s
  {
    if t > s {
      SegmentAgree(m, i, v, w, s, t - 1);
    }
  }

  /** The full row sum is the sum up to s plus the segment from s. */
  lemma {:induction false} RowDotSplit(m: Matrix, i: nat, v: Vector, s: nat, t: nat)
    requires i < m.rows && s <= t <= m.cols && t <= |v|
    ensures RowDot(m, i, v, t) == RowDot(m, i, v, s) + Segment(m, i, v, s, t)
    decreases t - s
  {
    if t > s {
      RowDotSplit(m, i, v, s, t - 1);
    }
  }

  /** The first term of a non-empty segment. */
  lemma SegmentPeel(m: Matrix, i: nat, v: Vector, s: nat, t: nat)
    requires i < m.rows && s < t <= m.cols && t <= |v|
    ensures Segment(m, i, v, s, t) == m.At(i, s) * v[s] + Segment(m, i, v, s + 1, t)
  {
    RowDotSplit(m, i, v, s, t);
    RowDotSplit(m, i, v, s + 1, t);
  }

  /** A segment over zero entries of m is zero. */
  lemma {:induction false} SegmentZero(m: Matrix, i: nat, v: Vector, s: nat, t: nat)
    requires i < m.rows && s <= t <= m.cols && t <= |v|
    requires forall j | s <= j < t :: m.At(i, j) == 0.0
    ensures Segment(m, i, v, s, t) == 0.0
    decreases t - s
  {
    if t > s {
      SegmentZero(m, i, v, s, t - 1);
    }
  }

  /** c * a == c * b cancels for c != 0. */
  lemma Cancel(c: real, a: real, b: real)
    requires c != 0.0 && c * a == c * b
    ensures a == b
  {
    assert c * (a - b) == 0.0;
  }

  /** With a nonzero diagonal the lower system has one solution: the
      entries agree one index after the other. */
  lemma {:induction false} LowerPrefix(L: Matrix, x: Vector, y: Vector, b: Vector, k: nat)
    requires NonzeroDiagonal(L) && SolvesLower(L, x, b) && SolvesLower(L, y, b) && k <= |b|
    ensures forall j | 0 <= j < k :: x[j] == y[j]
  {
    if k > 0 {
      var i := k - 1;
      LowerPrefix(L, x, y, b, i);
      RowDotAgree(L, i, x, L, i, y, i);
      assert RowDot(L, i, x, i + 1) == b[i] == RowDot(L, i, y, i + 1);
      Cancel(L.At(i, i), x[i], y[i]);
    }
  }

  lemma LowerUnique(L: Matrix, x: Vector, y: Vector, b: Vector)
    requires NonzeroDiagonal(L) && SolvesLower(L, x, b) && SolvesLower(L, y, b)
    ensures x == y
  {
    LowerPrefix(L, x, y, b, |b|);
  }

  /** forward_substitution reads nothing above the diagonal: two matrices
      that agree on and below it pose the same system. */
  lemma LowerOnly(L: Matrix, L': Matrix, x: Vector, b: Vector)
    requires L.rows == L.cols == L'.rows == L'.cols
    requires forall r: nat, c: nat | c <= r < L.rows :: L.At(r, c) == L'.At(r, c)
    ensures SolvesLower(L, x, b) <==> SolvesLower(L', x, b)
  {
    if |x| == |b| == L.rows {
      forall i | 0 <= i < |b|
        ensures RowDot(L, i, x, i + 1) == b[i] <==> RowDot(L', i, x, i + 1) == b[i]
      {
        RowDotAgree(L, i, x, L', i, x, i + 1);
      }
    }
  }

  /** For a lower-triangular L, the lower system is L * x == b. */
  lemma LowerApply(L: Matrix, x: Vector, b: Vector)
    requires LowerTriangular(L) && SolvesLower(L, x, b)
    ensures Apply(L, x) == b
  {
    var n := |b|;
    forall i | 0 <= i < n
      ensures Apply(L, x)[i] == b[i]
    {
      RowDotSplit(L, i, x, i + 1, n);
      SegmentZero(L, i, x, i + 1, n);
    }
  }

  /** With a nonzero diagonal the upper system has one solution: the
      entries agree from the last index down. */
  lemma {:induction false} UpperSuffix(U: Matrix, x: Vector, y: Vector, b: Vector, k: nat)
    requires NonzeroDiagonal(U) && SolvesUpper(U, x, b) && SolvesUpper(U, y, b) && k <= |b|
    ensures forall j | k <= j < |b| :: x[j] == y[j]
    decreases |b| - k
  {
    var n := |b|;
    if k < n {
      UpperSuffix(U, x, y, b, k + 1);
      SegmentAgree(U, k, x, y, k + 1, n);
      SegmentPeel(U, k, x, k, n);
      SegmentPeel(U, k, y, k, n);
      assert Segment(U, k, x, k, n) == b[k] == Segment(U, k, y, k, n);
      Cancel(U.At(k, k), x[k], y[k]);
    }
  }

  lemma UpperUnique(U: Matrix, x: Vector, y: Vector, b: Vector)
    requires NonzeroDiagonal(U) && SolvesUpper(U, x, b) && SolvesUpper(U, y, b)
    ensures x == y
  {
    UpperSuffix(U, x, y, b, 0);
  }

  /** backward_substitution reads nothing below the diagonal. */
  lemma UpperOnly(U: Matrix, U': Matrix, x: Vector, b: Vector)
    requires U.rows == U.cols == U'.rows == U'.cols
    requires forall r: nat, c: nat | r <= c < U.rows :: U.At(r, c) == U'.At(r, c)
    ensures SolvesUpper(U, x, b) <==> SolvesUpper(U', x, b)
  {
    if |x| == |b| == U.rows {
      forall i | 0 <= i < |b|
        ensures Segment(U, i, x, i, |b|) == Segment(U', i, x, i, |b|)
      {
        SegmentRowsAgree(U, U', i, x, i, |b|);
      }
    }
  }

  lemma {:induction false} SegmentRowsAgree(m: Matrix, m': Matrix, i: nat, v: Vector, s: nat, t: nat)
    requires i < m.rows && i < m'.rows && s <= t <= m.cols && t <= m'.cols && t <= |v|
    requires forall j | s <= j < t :: m.At(i, j) == m'.At(i, j)
    ensures Segment(m, i, v, s, t) == Segment(m', i, v, s, t)
    decreases t - s
  {
    if t > s {
      SegmentRowsAgree(m, m', i, v, s, t - 1);
    }
  }

  /** For an upper-triangular U, the upper system is U * x == b. */
  lemma UpperApply(U: Matrix, x: Vector, b: Vector)
    requires Upper(U) && SolvesUpper(U, x, b)
    ensures Apply(U, x) == b
  {
    var n := |b|;
    forall i | 0 <= i < n
      ensures Apply(U, x)[i] == b[i]
    {
      RowDotSplit(U, i, x, 0, n);
      RowDotSplit(U, i, x, 0, i);
      RowDotSplit(U, i, x, i, n);
      SegmentZero(U, i, x, 0, i);
    }
  }

  // The LU solver.

  /** lu_decompose succeeded: P A = L U with L unit lower-triangular, U
      upper-triangular and every pivot of U at least Eps in magnitude. */
  predicate Factored(A: Matrix, lu: LuDecomposition) {
    && !lu.singular
    && Shape(A, lu.L, lu.U, lu.P)
    && Bijection(lu.P, A.rows)
    && UnitLower(lu.L) && Upper(lu.U)
    && Pivots(lu.U, A.rows)
    && Product(lu.L, lu.U) == PermutedRows(A, lu.P)
  }

  /** lu_decompose gave up: at some column k every candidate pivot was
      below Eps in magnitude. */
  predicate NoPivot(A: Matrix, lu: LuDecomposition) {
    && lu.singular
    && exists k: nat | k < A.rows ::
         && Stage(A, lu.L, lu.U, lu.P, k, k)
         && forall r: nat | k <= r < A.rows :: Abs(lu.U.At(r, k)) < Eps
  }

  /** The loop of solve_lu that reorders b as the pivoting reordered the
      rows of A. */
  method PermuteVector(b: Vector, P: seq<nat>) returns (bp: Vector)
    requires forall i | 0 <= i < |P| :: P[i] < |b|
    ensures |bp| == |P| && forall i | 0 <= i < |P| :: bp[i] == b[P[i]]
  {
    bp := Zero(|P|);
    for i := 0 to |P|
      invariant |bp| == |P| && forall p | 0 <= p < i :: bp[p] == b[P[p]]
    {
      bp := bp[i := b[P[i]]];
    }
  }

  /** The two triangular solves against a factorization P A = L U solve
      A x = b. */
  lemma LuSolution(A: Matrix, lu: LuDecomposition, b: Vector, bp: Vector, y: Vector, x: Vector)
    requires Factored(A, lu) && |b| == A.rows
    requires |bp| == A.rows && forall i | 0 <= i < A.rows :: bp[i] == b[lu.P[i]]
    requires SolvesLower(lu.L, y, bp) && SolvesUpper(lu.U, x, y)
    ensures Apply(A, x) == b
  {
    var n := A.rows;
    var PA := PermutedRows(A, lu.P);
    LowerApply(lu.L, y, bp);
    UpperApply(lu.U, x, y);
    ApplyProduct(lu.L, lu.U, x);
    assert Apply(PA, x) == bp;
    forall r | 0 <= r < n
      ensures Apply(A, x)[r] == b[r]
    {
      assert r in lu.P;
      var i :| 0 <= i < n && lu.P[i] == r;
      RowDotAgree(PA, i, x, A, r, x, n);
      assert Apply(PA, x)[i] == bp[i];
    }
  }

  /** The factors of a successful lu_decompose can be divided by. */
  lemma FactoredDiagonals(A: Matrix, lu: LuDecomposition)
    requires Factored(A, lu)
    ensures NonzeroDiagonal(lu.L) && NonzeroDiagonal(lu.U)
  {
    forall m: nat | m < A.rows
      ensures lu.U.At(m, m) != 0.0
    {
      assert Abs(lu.U.At(m, m)) >= Eps;
    }
  }

  /** solve_lu: nothing when lu_decompose reports the matrix singular,
      otherwise a solution of A x = b. */
  method SolveLu(A: Matrix, b: Vector) returns (x: Option<Vector>, ghost lu: LuDecomposition)
    requires A.rows == A.cols == |b|
    ensures x.None? ==> NoPivot(A, lu)
    ensures x.Some? ==> Factored(A, lu)
    ensures x.Some? ==> |x.value| == A.cols && Apply(A, x.value) == b
  {
    var d := LuDecompose(A);
    lu := d;
    if d.singular {
      return None, lu;
    }
    var bp := PermuteVector(b, d.P);
    FactoredDiagonals(A, d);
    var y := ForwardSubstitution(d.L, bp);
    var z := BackwardSubstitution(d.U, y);
    LuSolution(A, d, b, bp, y, z);
    x := Some(z);
  }

  /** solve: the LU solver. */
  method SolveSystem(A: Matrix, b: Vector) returns (x: Option<Vector>, ghost lu: LuDecomposition)
    requires A.rows == A.cols == |b|
    ensures x.None? <==> lu.singular
    ensures x.None? ==> NoPivot(A, lu)
    ensures x.Some? ==> |x.value| == A.cols && Apply(A, x.value) == b
  {
    x, lu := SolveLu(A, b);
  }

  /** least_squares: the normal equations A^T A x = A^T b, solved by LU;
      the zero vector when A^T A is singular. */
  method LeastSquares(A: Matrix, b: Vector) returns (x: Vector, ghost lu: LuDecomposition)
    requires |b| == A.rows
    ensures |x| == A.cols
    ensures !lu.singular ==> Apply(Product(Transposed(A), A), x) == Apply(Transposed(A), b)
    ensures lu.singular ==> NoPivot(Product(Transposed(A), A), lu) && x == Zero(A.cols)
  {
    var At := Transpose(A);
    var AtA := Multiply(At, A);
    var Atb := MulVec(At, b);
    var r;
    r, lu := SolveSystem(AtA, Atb);
    if r.Some? {
      return r.value, lu;
    }
    x := Zero(A.cols);
  }

  // The inverse.

  /** The loop of matrix_inverse that builds the permuted unit vector:
      entry i is 1 exactly when P[i] == j. */
  method PermutedUnit(P: seq<nat>, j: nat) returns (e: Vector)
    ensures |e| == |P| && forall i | 0 <= i < |P| :: e[i] == if P[i] == j then 1.0 else 0.0
  {
    e := Zero(|P|);
    for i := 0 to |P|
      invariant |e| == |P| && forall p | 0 <= p < i :: e[p] == if P[p] == j then 1.0 else 0.0
    {
      e := e[i := if P[i] == j then 1.0 else 0.0];
    }
  }

  /** The loop of matrix_inverse that stores x as column j. */
  method StoreColumn(m: Matrix, j: nat, x: Vector) returns (m': Matrix)
    requires j < m.cols && |x| == m.rows
    ensures m'.rows == m.rows && m'.cols == m.cols
    ensures forall r: nat, c: nat | r < m.rows && c < m.cols :: m'.At(r, c) == if c == j then x[r] else m.At(r, c)
  {
    m' := m;
    for i := 0 to m.rows
      invariant m'.rows == m.rows && m'.cols == m.cols
      invariant forall r: nat, c: nat | r < m.rows && c < m.cols ::
        m'.At(r, c) == if c == j && r < i then x[r] else m.At(r, c)
    {
      m' := m'.Set(i, j, x[i]);
    }
  }

  /** Entry (i, j) of a * b is row i of a against column j of b. */
  lemma {:induction false} EntryDotAsRowDot(a: Matrix, b: Matrix, i: nat, j: nat, t: nat)
    requires i < a.rows && j < b.cols && t <= a.cols && t <= b.rows
    ensures EntryDot(a, b, i, j, t) == RowDot(a, i, b.Col(j), t)
  {
    if t > 0 {
      EntryDotAsRowDot(a, b, i, j, t - 1);
    }
  }

  /** A matrix whose every column c solves A x = e_c is a right inverse. */
  lemma RightInverse(A: Matrix, m: Matrix)
    requires A.rows == A.cols == m.rows == m.cols
    requires forall c | 0 <= c < m.cols :: Apply(A, m.Col(c)) == Unit(A.rows, c)
    ensures Product(A, m) == IdentityOf(A.rows)
  {
    var n := A.rows;
    forall r: nat, c: nat | r < n && c < n
      ensures Product(A, m).At(r, c) == IdentityOf(n).At(r, c)
    {
      EntryDotAsRowDot(A, m, r, c, n);
      assert Apply(A, m.Col(c))[r] == Unit(n, c)[r];
    }
    Extensionality(Product(A, m), IdentityOf(n));
  }

  /** matrix_inverse: nothing when lu_decompose reports the matrix
      singular, otherwise the matrix whose column j solves A x = e_j,
      so that A times it is the identity. */
  method MatrixInverse(A: Matrix) returns (inv: Option<Matrix>, ghost lu: LuDecomposition)
    requires A.rows == A.cols
    ensures inv.None? ==> NoPivot(A, lu)
    ensures inv.Some? ==> Factored(A, lu)
    ensures inv.Some? ==>
      && inv.value.rows == A.rows && inv.value.cols == A.rows
      && Product(A, inv.value) == IdentityOf(A.rows)
  {
    var d := LuDecompose(A);
    lu := d;
    if d.singular {
      return None, lu;
    }
    var n := A.rows;
    FactoredDiagonals(A, d);
    var m := Zeros(n, n);
    for j := 0 to n
      invariant m.rows == n && m.cols == n
      invariant forall c | 0 <= c < j :: Apply(A, m.Col(c)) == Unit(n, c)
    {
      var e := PermutedUnit(d.P, j);
      var y := ForwardSubstitution(d.L, e);
      var x := BackwardSubstitution(d.U, y);
      LuSolution(A, d, Unit(n, j), e, y, x);
      ghost var m0 := m;
      m := StoreColumn(m, j, x);
      assert m.Col(j) == x;
      forall c | 0 <= c < j
        ensures Apply(A, m.Col(c)) == Unit(n, c)
      {
        assert m.Col(c) == m0.Col(c);
      }
    }
    RightInverse(A, m);
    inv := Some(m);
  }

  // The Cholesky solver.

  predicate Symmetric(A: Matrix) {
    A.rows == A.cols && forall r: nat, c: nat | r < A.rows && c < A.rows :: A.At(r, c) == A.At(c, r)
  }

  /** The transpose of a lower triangle with a positive diagonal is an
      upper triangle with the same diagonal. */
  lemma TransposedLower(L: Matrix)
    requires L.rows == L.cols && LowerTriangular(L)
    requires forall r: nat | r < L.rows :: L.At(r, r) > 0.0
    ensures Upper(Transposed(L)) && NonzeroDiagonal(Transposed(L))
  {
  }

  /** solve_cholesky: nothing when cholesky_decompose reports the matrix
      not positive definite, otherwise x with L L^T x = b, which is
      A x = b when A is symmetric. */
  method SolveCholesky(A: Matrix, b: Vector, sqrt: real -> real) returns (x: Option<Vector>, ghost ch: CholeskyDecomposition)
    requires A.rows == A.cols == |b| && IsSqrt(sqrt)
    ensures x.None? <==> !ch.positiveDefinite
    ensures x.None? ==>
      exists j: nat | j < A.rows :: CholeskyStage(A, ch.L, j, j) && A.At(j, j) - CrossDot(ch.L, j, j, j) <= Eps
    ensures x.Some? ==>
      && CholeskyStage(A, ch.L, A.rows, 0)
      && |x.value| == A.rows
      && Apply(Product(ch.L, Transposed(ch.L)), x.value) == b
    ensures x.Some? && Symmetric(A) ==> Apply(A, x.value) == b
  {
    var d := CholeskyDecompose(A, sqrt);
    ch := d;
    if !d.positiveDefinite {
      return None, ch;
    }
    CholeskyFactorization(A, d.L);
    var y := ForwardSubstitution(d.L, b);
    var Lt := Transpose(d.L);
    TransposedLower(d.L);
    var z := BackwardSubstitution(Lt, y);
    LowerApply(d.L, y, b);
    UpperApply(Lt, z, y);
    ApplyProduct(d.L, Lt, z);
    if Symmetric(A) {
      CholeskySymmetric(A, d.L);
    }
    x := Some(z);
  }
}
