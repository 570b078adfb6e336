/** The matrix decompositions of the linear-algebra layer: LU with partial
    pivoting (the main routine), Cholesky and classical Gram-Schmidt QR.
    Matrices are square N x N; the floating-point threshold
    numeric_limits<T>::epsilon() * 100 is the constant Eps. */
module Decomposition {
  import opened Vectors
  import opened Matrices

  /** 100 times the double-precision machine epsilon 2^-52. */
  const Eps: real := 100.0 / 4503599627370496.0

  // ---------------------------------------------------------------------
  // LU decomposition with partial pivoting

  /** The LUDecomposition struct: L, U, the row permutation P and the
      singular flag. */
  datatype LuDecomposition = LuDecomposition(L: Matrix, U: Matrix, P: seq<nat>, singular: bool)

  /** P maps [0, n) one-to-one onto [0, n). */
  predicate Bijection(P: seq<nat>, n: nat) {
    && |P| == n
    && (forall i | 0 <= i < n :: P[i] < n)
    && (forall i, j | 0 <= i < j < n :: P[i] != P[j])
    && (forall r: nat | r < n :: r in P)
  }

  /** Unit lower-triangular: ones on the diagonal, zeros above it. */
  predicate UnitLower(L: Matrix) {
    && L.rows == L.cols
    && forall r: nat, c: nat | r < L.rows && c < L.cols ::
         (r == c ==> L.At(r, c) == 1.0) && (r < c ==> L.At(r, c) == 0.0)
  }

  /** Upper-triangular: zeros below the diagonal. */
  predicate Upper(U: Matrix) {
    forall r: nat, c: nat | r < U.rows && c < U.cols && c < r :: U.At(r, c) == 0.0
  }

  /** Row r of the result is row P[r] of A. */
  function PermutedRows(A: Matrix, P: seq<nat>): (r: Matrix)
    requires |P| == A.rows && forall i | 0 <= i < |P| :: P[i] < A.rows
    ensures r.rows == A.rows && r.cols == A.cols
    ensures forall i: nat, j: nat | i < A.rows && j < A.cols :: r.At(i, j) == A.At(P[i], j)
  {
    Build(A.rows, A.cols, (i: nat, j: nat) => if i < |P| && P[i] < A.rows && j < A.cols then A.At(P[i], j) else 0.0)
  }

  // The state of lu_decompose while it eliminates column k and has
  // finished the rows k+1 .. i-1 of that column (i == k: the column has not
  // been started).

  /** Entry (r, c) of L holds a stored multiplier (c < r) or is a
      sub-diagonal entry of U that elimination has already cleared. */
  predicate Filled(r: nat, c: nat, k: nat, i: nat) {
    c < k || (c == k && r < i)
  }

  /** How many columns of L row r already carries. */
  function Depth(r: nat, k: nat, i: nat): (d: nat)
    ensures d <= r
  {
    if r <= k then r else if r < i then k + 1 else k
  }

  predicate Shape(A: Matrix, L: Matrix, U: Matrix, P: seq<nat>) {
    && A.rows == A.cols
    && L.rows == A.rows && L.cols == A.rows
    && U.rows == A.rows && U.cols == A.rows
    && |P| == A.rows && (forall r | 0 <= r < |P| :: P[r] < A.rows)
  }

  /** L is unit lower-triangular, zero in the columns not yet filled, and
      every entry has magnitude at most 1. */
  predicate LowerStage(L: Matrix, k: nat, i: nat) {
    forall r: nat, c: nat | r < L.rows && c < L.cols ::
      && (r == c ==> L.At(r, c) == 1.0)
      && (r < c ==> L.At(r, c) == 0.0)
      && (c < r && !Filled(r, c, k, i) ==> L.At(r, c) == 0.0)
      && Abs(L.At(r, c)) <= 1.0
  }

  /** U is zero below the diagonal in the columns already eliminated. */
  predicate UpperStage(U: Matrix, k: nat, i: nat) {
    forall r: nat, c: nat | r < U.rows && c < U.cols && c < r && Filled(r, c, k, i) :: U.At(r, c) == 0.0
  }

  /** Row r of P * A is row r of L * U: the first Depth columns of L against
      U, plus U's own row for the unit diagonal of L. */
  predicate FactorStage(A: Matrix, L: Matrix, U: Matrix, P: seq<nat>, k: nat, i: nat)
    requires Shape(A, L, U, P)
  {
    forall r: nat, c: nat | r < A.rows && c < A.rows :: RowEquation(A, L, U, P, r, c, Depth(r, k, i))
  }

  /** Entry (r, c) of P * A is the first d products of row r of L with
      column c of U, plus U(r, c). */
  predicate RowEquation(A: Matrix, L: Matrix, U: Matrix, P: seq<nat>, r: nat, c: nat, d: nat)
    requires Shape(A, L, U, P) && r < A.rows && c < A.rows && d <= r
  {
    A.At(P[r], c) == EntryDot(L, U, r, c, d) + U.At(r, c)
  }

  /** The pivots of the finished columns pass the singularity threshold. */
  predicate Pivots(U: Matrix, k: nat)
    requires U.rows == U.cols && k <= U.rows
  {
    forall m: nat | m < k :: Abs(U.At(m, m)) >= Eps
  }

  predicate Stage(A: Matrix, L: Matrix, U: Matrix, P: seq<nat>, k: nat, i: nat) {
    && Shape(A, L, U, P)
    && k <= i <= A.rows
    && LowerStage(L, k, i)
    && UpperStage(U, k, i)
    && FactorStage(A, L, U, P, k, i)
    && Pivots(U, k)
  }

  /** Q undoes P. */
  predicate Inverts(Q: seq<nat>, P: seq<nat>, n: nat) {
    && |P| == n && |Q| == n
    && (forall i | 0 <= i < n :: P[i] < n && Q[P[i]] == i)
    && (forall r | 0 <= r < n :: Q[r] < n && P[Q[r]] == r)
  }

  lemma InvertedIsBijection(Q: seq<nat>, P: seq<nat>, n: nat)
    requires Inverts(Q, P, n)
    ensures Bijection(P, n)
  {
    forall r: nat | r < n
      ensures r in P
    {
      assert P[Q[r]] == r;
    }
  }

  /** Swapping two entries of P and the matching entries of its inverse. */
  lemma SwapInverts(Q: seq<nat>, P: seq<nat>, n: nat, k: nat, p: nat)
    requires Inverts(Q, P, n) && k < n && p < n
    ensures Inverts(Q[P[p] := k][P[k] := p], P[k := P[p]][p := P[k]], n)
  {
    var P', Q' := P[k := P[p]][p := P[k]], Q[P[p] := k][P[k] := p];
    forall i | 0 <= i < n
      ensures P'[i] < n && Q'[P'[i]] == i
    {
      assert P'[i] == P[Swapped(i, k, p)];
    }
    forall r | 0 <= r < n
      ensures Q'[r] < n && P'[Q'[r]] == r
    {
      assert Q'[r] == Swapped(Q[r], k, p);
    }
  }

  /** The first row swapped for the second and back. */
  function Swapped(r: nat, k: nat, p: nat): (s: nat)
    ensures s == r || s == k || s == p
  {
    if r == k then p else if r == p then k else r
  }

  /** Rows k and p of U are exchanged. */
  predicate UpperExchanged(U: Matrix, U': Matrix, k: nat, p: nat) {
    && U'.rows == U.rows && U'.cols == U.cols && k < U.rows && p < U.rows
    && forall r: nat, c: nat | r < U.rows && c < U.cols :: U'.At(r, c) == U.At(Swapped(r, k, p), c)
  }

  /** Rows k and p of L are exchanged in the columns before k. */
  predicate LowerExchanged(L: Matrix, L': Matrix, k: nat, p: nat) {
    && L'.rows == L.rows && L'.cols == L.cols && k < L.rows && p < L.rows
    && forall r: nat, c: nat | r < L.rows && c < L.cols ::
         L'.At(r, c) == if c < k then L.At(Swapped(r, k, p), c) else L.At(r, c)
  }

  predicate RowsExchanged(L: Matrix, U: Matrix, L': Matrix, U': Matrix, k: nat, p: nat) {
    LowerExchanged(L, L', k, p) && UpperExchanged(U, U', k, p)
  }

  /** Row i of U has lost factor times row k, from column k on. */
  predicate UpperEliminated(U: Matrix, U': Matrix, factor: real, k: nat, i: nat) {
    && U'.rows == U.rows && U'.cols == U.cols && k < U.rows && k < U.cols && i < U.rows
    && forall r: nat, c: nat | r < U.rows && c < U.cols ::
         U'.At(r, c) == if r == i && k <= c then U.At(i, c) - factor * U.At(k, c) else U.At(r, c)
  }

  /** The multiplier is stored in L(i, k) and row i of U is eliminated. */
  predicate RowEliminated(L: Matrix, U: Matrix, L': Matrix, U': Matrix, factor: real, k: nat, i: nat) {
    && i < L.rows && k < L.cols
    && L' == L.Set(i, k, factor)
    && UpperEliminated(U, U', factor, k, i)
  }

  /** The pivot search of column k: the first row at or below k holding the
      largest magnitude. */
  method PivotSearch(U: Matrix, k: nat) returns (pivot: nat, maxVal: real)
    requires U.rows == U.cols && k < U.rows
    ensures k <= pivot < U.rows && maxVal == Abs(U.At(pivot, k))
    ensures forall r: nat | k <= r < U.rows :: Abs(U.At(r, k)) <= maxVal
    ensures forall r: nat | k <= r < pivot :: Abs(U.At(r, k)) < maxVal
  {
    maxVal := Abs(U.At(k, k));
    pivot := k;
    for i := k + 1 to U.rows
      invariant k <= pivot < i && maxVal == Abs(U.At(pivot, k))
      invariant forall r: nat | k <= r < i :: Abs(U.At(r, k)) <= maxVal
      invariant forall r: nat | k <= r < pivot :: Abs(U.At(r, k)) < maxVal
    {
      var val := Abs(U.At(i, k));
      if val > maxVal {
        maxVal := val;
        pivot := i;
      }
    }
  }

  /** The row exchange: rows k and p of U swap, and so do rows k and p of L
      in the columns before k. */
  method SwapRows(L: Matrix, U: Matrix, k: nat, p: nat) returns (L': Matrix, U': Matrix)
    requires L.rows == L.cols == U.rows == U.cols && k < U.rows && p < U.rows
    ensures RowsExchanged(L, U, L', U', k, p)
  {
    var n := U.rows;
    L', U' := L, U;
    for j := 0 to n
      invariant L'.rows == n && L'.cols == n && U'.rows == n && U'.cols == n
      invariant forall r: nat, c: nat | r < n && c < n ::
        U'.At(r, c) == if c < j then U.At(Swapped(r, k, p), c) else U.At(r, c)
      invariant forall r: nat, c: nat | r < n && c < n ::
        L'.At(r, c) == if c < j && c < k then L.At(Swapped(r, k, p), c) else L.At(r, c)
    {
      var t := U'.At(k, j);
      U' := U'.Set(k, j, U'.At(p, j));
      U' := U'.Set(p, j, t);
      if j < k {
        var s := L'.At(k, j);
        L' := L'.Set(k, j, L'.At(p, j));
        L' := L'.Set(p, j, s);
      }
    }
  }

  /** One row of the elimination: the multiplier goes to L(i, k), and row i
      of U loses that multiple of row k from column k on. */
  method EliminateRow(L: Matrix, U: Matrix, k: nat, i: nat) returns (L': Matrix, U': Matrix, factor: real)
    requires L.rows == L.cols == U.rows == U.cols && k < i < U.rows && U.At(k, k) != 0.0
    ensures factor * U.At(k, k) == U.At(i, k)
    ensures Abs(U.At(k, k)) >= Eps && Abs(U.At(i, k)) <= Abs(U.At(k, k)) ==> Abs(factor) <= 1.0
    ensures RowEliminated(L, U, L', U', factor, k, i)
  {
    var n := U.rows;
    factor := U.At(i, k) / U.At(k, k);
    if Abs(U.At(k, k)) >= Eps && Abs(U.At(i, k)) <= Abs(U.At(k, k)) {
      MultiplierBound(U.At(i, k), U.At(k, k), factor);
    }
    L' := L.Set(i, k, factor);
    U' := U;
    for j := k to n
      invariant U'.rows == n && U'.cols == n
      invariant forall r: nat, c: nat | r < n && c < n ::
        U'.At(r, c) == if r == i && k <= c < j then U.At(i, c) - factor * U.At(k, c) else U.At(r, c)
    {
      U' := U'.Set(i, j, U'.At(i, j) - factor * U'.At(k, j));
    }
  }

  /** lu_decompose(A). On success P * A == L * U with L unit
      lower-triangular, U upper-triangular and every multiplier at most 1 in
      magnitude; otherwise the routine stopped at the first column whose
      candidate pivots all fall below Eps, with the factorisation of the
      columns before it intact. */
  method LuDecompose(A: Matrix) returns (res: LuDecomposition)
    requires A.rows == A.cols
    ensures Shape(A, res.L, res.U, res.P)
    ensures Bijection(res.P, A.rows)
    ensures forall r: nat, c: nat | r < A.rows && c < A.rows :: Abs(res.L.At(r, c)) <= 1.0
    ensures res.singular ==>
      exists k: nat | k < A.rows ::
        && Stage(A, res.L, res.U, res.P, k, k)
        && forall r: nat | k <= r < A.rows :: Abs(res.U.At(r, k)) < Eps
    ensures !res.singular ==> Stage(A, res.L, res.U, res.P, A.rows, A.rows)
    ensures !res.singular ==>
      UnitLower(res.L) && Upper(res.U) && Product(res.L, res.U) == PermutedRows(A, res.P)
  {
    var n := A.rows;
    var L := Identity(n);
    var U := A;
    var P: seq<nat> := [];
    for i: nat := 0 to n
      invariant |P| == i && forall r | 0 <= r < i :: P[r] == r
    {
      P := P + [i];
    }
    ghost var Q: seq<nat> := P;
    StartStage(A, L, U, P);
    for k := 0 to n
      invariant Stage(A, L, U, P, k, k)
      invariant Inverts(Q, P, n)
    {
      var found;
      L, U, P, found, Q := PlacePivot(A, L, U, P, k, Q);
      if !found {
        InvertedIsBijection(Q, P, n);
        res := LuDecomposition(L, U, P, true);
        assert Stage(A, res.L, res.U, res.P, k, k);
        return;
      }
      L, U := EliminateColumn(A, L, U, P, k);
    }
    InvertedIsBijection(Q, P, n);
    FinalStage(A, L, U, P);
    res := LuDecomposition(L, U, P, false);
  }

  /** Column k's pivot search and row exchange: either every candidate
      falls below Eps (the matrix is reported singular) or the largest one
      is brought to row k, with P and its ghost inverse Q exchanged alike. */
  method PlacePivot(A: Matrix, L: Matrix, U: Matrix, P: seq<nat>, k: nat, ghost Q: seq<nat>)
    returns (L': Matrix, U': Matrix, P': seq<nat>, found: bool, ghost Q': seq<nat>)
    requires Stage(A, L, U, P, k, k) && k < A.rows && Inverts(Q, P, A.rows)
    ensures Inverts(Q', P', A.rows) && Stage(A, L', U', P', k, k)
    ensures !found <==> forall r: nat | k <= r < A.rows :: Abs(U.At(r, k)) < Eps
    ensures !found ==> L' == L && U' == U && P' == P
    ensures found ==> Abs(U'.At(k, k)) >= Eps && forall r: nat | k <= r < A.rows :: Abs(U'.At(r, k)) <= Abs(U'.At(k, k))
  {
    var n := A.rows;
    var pivot, maxVal := PivotSearch(U, k);
    L', U', P', Q' := L, U, P, Q;
    found := maxVal >= Eps;
    if found && pivot != k {
      L', U' := SwapRows(L, U, k, pivot);
      P' := P[k := P[pivot]][pivot := P[k]];
      SwapStage(A, L, U, P, L', U', P', k, pivot);
      SwapInverts(Q, P, n, k, pivot);
      Q' := Q[P[pivot] := k][P[k] := pivot];
    }
  }

  /** The elimination loop of column k below its pivot. */
  method EliminateColumn(A: Matrix, L: Matrix, U: Matrix, P: seq<nat>, k: nat) returns (L': Matrix, U': Matrix)
    requires Stage(A, L, U, P, k, k) && k < A.rows && Dominated(U, k, k)
    ensures Stage(A, L', U', P, k + 1, k + 1)
  {
    var n := A.rows;
    EnterColumn(A, L, U, P, k);
    L', U' := L, U;
    for i := k + 1 to n
      invariant Stage(A, L', U', P, k, i) && Dominated(U', k, i)
    {
      L', U' := EliminateStep(A, L', U', P, k, i);
    }
    NextColumn(A, L', U', P, k);
  }

  /** One pass of the elimination loop: row i is eliminated, the pivot and
      the rows still to come are untouched. */
  method EliminateStep(A: Matrix, L: Matrix, U: Matrix, P: seq<nat>, k: nat, i: nat) returns (L': Matrix, U': Matrix)
    requires Stage(A, L, U, P, k, i) && k < i < A.rows && Dominated(U, k, i)
    ensures Stage(A, L', U', P, k, i + 1) && Dominated(U', k, i + 1)
  {
    var factor;
    L', U', factor := EliminateRow(L, U, k, i);
    EliminateStage(A, L, U, P, L', U', factor, k, i);
  }

  /** The pivot (k, k) passes the threshold and no entry of column k from
      row i on exceeds it in magnitude. */
  predicate Dominated(U: Matrix, k: nat, i: nat)
    requires U.rows == U.cols && k < U.rows
  {
    && Abs(U.At(k, k)) >= Eps
    && forall r: nat | i <= r < U.rows :: Abs(U.At(r, k)) <= Abs(U.At(k, k))
  }

  // ---------------------------------------------------------------------
  // The stage invariant is established and carried from step to step

  lemma StartStage(A: Matrix, L: Matrix, U: Matrix, P: seq<nat>)
    requires A.rows == A.cols && L == IdentityOf(A.rows) && U == A
    requires |P| == A.rows && forall r | 0 <= r < |P| :: P[r] == r
    ensures Stage(A, L, U, P, 0, 0)
  {
  }

  /** Exchanging rows k and p (both at or below k) keeps the invariant. */
  lemma SwapStage(A: Matrix, L: Matrix, U: Matrix, P: seq<nat>, L': Matrix, U': Matrix, P': seq<nat>, k: nat, p: nat)
    requires Stage(A, L, U, P, k, k) && k <= p < A.rows
    requires RowsExchanged(L, U, L', U', k, p)
    requires P' == P[k := P[p]][p := P[k]]
    ensures Stage(A, L', U', P', k, k)
  {
    SwapLower(L, L', k, p);
    SwapUpper(U, U', k, p);
    SwapFactor(A, L, U, P, L', U', P', k, p);
  }

  lemma SwapLower(L: Matrix, L': Matrix, k: nat, p: nat)
    requires LowerStage(L, k, k) && L.rows == L.cols && k <= p < L.rows
    requires LowerExchanged(L, L', k, p)
    ensures LowerStage(L', k, k)
  {
  }

  lemma SwapUpper(U: Matrix, U': Matrix, k: nat, p: nat)
    requires U.rows == U.cols && k <= p < U.rows && UpperStage(U, k, k) && Pivots(U, k)
    requires UpperExchanged(U, U', k, p)
    ensures UpperStage(U', k, k) && Pivots(U', k)
  {
  }

  lemma SwapFactor(A: Matrix, L: Matrix, U: Matrix, P: seq<nat>, L': Matrix, U': Matrix, P': seq<nat>, k: nat, p: nat)
    requires Shape(A, L, U, P) && FactorStage(A, L, U, P, k, k) && k <= p < A.rows
    requires RowsExchanged(L, U, L', U', k, p)
    requires P' == P[k := P[p]][p := P[k]]
    ensures Shape(A, L', U', P') && FactorStage(A, L', U', P', k, k)
  {
    var n := A.rows;
    forall r: nat, c: nat | r < n && c < n
      ensures RowEquation(A, L', U', P', r, c, Depth(r, k, k))
    {
      var s := Swapped(r, k, p);
      assert P'[r] == P[s];
      assert Depth(s, k, k) == Depth(r, k, k);
      assert RowEquation(A, L, U, P, s, c, Depth(s, k, k));
      EntryDotAgree(L', U', L, U, r, s, c, c, Depth(r, k, k));
    }
  }

  /** Column k has its pivot in place: the elimination of that column
      starts. */
  lemma EnterColumn(A: Matrix, L: Matrix, U: Matrix, P: seq<nat>, k: nat)
    requires Stage(A, L, U, P, k, k) && k < A.rows
    ensures Stage(A, L, U, P, k, k + 1)
  {
    var j := k + 1;
    forall r: nat, c: nat | r < A.rows && c < A.rows
      ensures Depth(r, k, j) == Depth(r, k, k) && (c < r ==> Filled(r, c, k, j) == Filled(r, c, k, k))
      ensures RowEquation(A, L, U, P, r, c, Depth(r, k, j))
    {
      assert RowEquation(A, L, U, P, r, c, Depth(r, k, k));
    }
  }

  /** Eliminating row i of column k keeps the invariant, one more row
      done. */
  lemma EliminateStage(A: Matrix, L: Matrix, U: Matrix, P: seq<nat>, L': Matrix, U': Matrix, factor: real, k: nat, i: nat)
    requires Stage(A, L, U, P, k, i) && k < i < A.rows
    requires Abs(U.At(k, k)) >= Eps && Abs(U.At(i, k)) <= Abs(U.At(k, k))
    requires factor * U.At(k, k) == U.At(i, k) && Abs(factor) <= 1.0
    requires RowEliminated(L, U, L', U', factor, k, i)
    ensures Stage(A, L', U', P, k, i + 1) && U'.At(k, k) == U.At(k, k)
    ensures forall r: nat | i < r < A.rows :: U'.At(r, k) == U.At(r, k)
  {
    EliminateLower(L, L', factor, k, i);
    EliminateUpper(U, U', factor, k, i);
    EliminateFactor(A, L, U, P, L', U', factor, k, i);
  }

  lemma EliminateLower(L: Matrix, L': Matrix, factor: real, k: nat, i: nat)
    requires L.rows == L.cols && LowerStage(L, k, i) && k < i < L.rows && Abs(factor) <= 1.0
    requires L' == L.Set(i, k, factor)
    ensures LowerStage(L', k, i + 1)
  {
  }

  lemma EliminateUpper(U: Matrix, U': Matrix, factor: real, k: nat, i: nat)
    requires U.rows == U.cols && k < i < U.rows && UpperStage(U, k, i) && Pivots(U, k)
    requires U.At(i, k) - factor * U.At(k, k) == 0.0
    requires UpperEliminated(U, U', factor, k, i)
    ensures UpperStage(U', k, i + 1) && Pivots(U', k) && U'.At(k, k) == U.At(k, k)
    ensures forall r: nat | i < r < U.rows :: U'.At(r, k) == U.At(r, k)
  {
  }

  lemma EliminateFactor(A: Matrix, L: Matrix, U: Matrix, P: seq<nat>, L': Matrix, U': Matrix, factor: real, k: nat, i: nat)
    requires Shape(A, L, U, P) && FactorStage(A, L, U, P, k, i) && UpperStage(U, k, i) && k < i < A.rows
    requires RowEliminated(L, U, L', U', factor, k, i)
    ensures Shape(A, L', U', P) && FactorStage(A, L', U', P, k, i + 1)
  {
    var n, j := A.rows, i + 1;
    forall r: nat, c: nat | r < n && c < n
      ensures RowEquation(A, L', U', P, r, c, Depth(r, k, j))
    {
      assert c < k ==> Filled(k, c, k, i);
      assert RowEquation(A, L, U, P, r, c, Depth(r, k, i));
      EliminatedEntry(L, U, L', U', factor, k, i, r, c, A.At(P[r], c));
    }
  }

  /** Entry (r, c) of the row equation before and after the elimination of
      row i; a names the entry of P * A. */
  lemma EliminatedEntry(L: Matrix, U: Matrix, L': Matrix, U': Matrix, factor: real, k: nat, i: nat, r: nat, c: nat, a: real)
    requires L.rows == L.cols == U.rows == U.cols && k < i < U.rows && r < U.rows && c < U.rows
    requires c < k ==> U.At(k, c) == 0.0
    requires a == EntryDot(L, U, r, c, Depth(r, k, i)) + U.At(r, c)
    requires RowEliminated(L, U, L', U', factor, k, i)
    ensures a == EntryDot(L', U', r, c, Depth(r, k, i + 1)) + U'.At(r, c)
  {
    if r == i {
      EliminatedRow(L, U, L', U', factor, k, i, c, a);
    } else {
      UntouchedRow(L, U, L', U', factor, k, i, r, c);
    }
  }

  /** A row other than i keeps its entries and its products. */
  lemma UntouchedRow(L: Matrix, U: Matrix, L': Matrix, U': Matrix, factor: real, k: nat, i: nat, r: nat, c: nat)
    requires L.rows == L.cols == U.rows == U.cols && k < i < U.rows && r < U.rows && c < U.rows && r != i
    requires RowEliminated(L, U, L', U', factor, k, i)
    ensures Depth(r, k, i + 1) == Depth(r, k, i) && U'.At(r, c) == U.At(r, c)
    ensures EntryDot(L', U', r, c, Depth(r, k, i)) == EntryDot(L, U, r, c, Depth(r, k, i))
  {
    var d := Depth(r, k, i);
    assert d <= i;
    forall s: nat | s < d
      ensures L'.At(r, s) == L.At(r, s) && U'.At(s, c) == U.At(s, c)
    {
    }
    EntryDotAgree(L', U', L, U, r, r, c, c, d);
  }

  /** Row i itself after its elimination: the multiplier times row k moves
      from U into L * U. */
  lemma EliminatedRow(L: Matrix, U: Matrix, L': Matrix, U': Matrix, factor: real, k: nat, i: nat, c: nat, a: real)
    requires L.rows == L.cols == U.rows == U.cols && k < i < U.rows && c < U.rows
    requires c < k ==> U.At(k, c) == 0.0
    requires a == EntryDot(L, U, i, c, k) + U.At(i, c)
    requires RowEliminated(L, U, L', U', factor, k, i)
    ensures a == EntryDot(L', U', i, c, k + 1) + U'.At(i, c)
  {
    EntryDotAgree(L', U', L, U, i, i, c, c, k);
    assert EntryDot(L', U', i, c, k + 1) == EntryDot(L', U', i, c, k) + L'.At(i, k) * U'.At(k, c);
    MulCongruence(factor, U'.At(k, c), U.At(k, c));
    if c < k {
      MulCongruence(factor, U.At(k, c), 0.0);
    }
  }

  /** The multiplier of a dominated entry has magnitude at most 1. */
  lemma MultiplierBound(x: real, pivot: real, factor: real)
    requires Abs(pivot) >= Eps && Abs(x) <= Abs(pivot) && factor * pivot == x
    ensures Abs(factor) <= 1.0
  {
    assert Abs(factor) * Abs(pivot) == Abs(x);
    QuotientBound(Abs(factor), Abs(pivot));
  }

  lemma QuotientBound(q: real, b: real)
    requires q >= 0.0 && b > 0.0 && q * b <= b
    ensures q <= 1.0
  {
  }

  /** Column k is finished: the next column starts. */
  lemma NextColumn(A: Matrix, L: Matrix, U: Matrix, P: seq<nat>, k: nat)
    requires Stage(A, L, U, P, k, A.rows) && k < A.rows && Abs(U.At(k, k)) >= Eps
    ensures Stage(A, L, U, P, k + 1, k + 1)
  {
    var j := k + 1;
    forall r: nat, c: nat | r < A.rows && c < A.rows
      ensures Depth(r, j, j) == Depth(r, k, A.rows) && (c < r ==> Filled(r, c, j, j) == Filled(r, c, k, A.rows))
      ensures RowEquation(A, L, U, P, r, c, Depth(r, j, j))
    {
      assert RowEquation(A, L, U, P, r, c, Depth(r, k, A.rows));
    }
  }

  /** All columns finished: P * A == L * U. */
  lemma FinalStage(A: Matrix, L: Matrix, U: Matrix, P: seq<nat>)
    requires Stage(A, L, U, P, A.rows, A.rows)
    ensures UnitLower(L) && Upper(U) && Product(L, U) == PermutedRows(A, P)
  {
    var n := A.rows;
    forall r: nat, c: nat | r < n && c < n
      ensures Product(L, U).At(r, c) == PermutedRows(A, P).At(r, c)
    {
      UnitRowTail(L, U, r, c, n);
      assert Depth(r, n, n) == r;
      assert RowEquation(A, L, U, P, r, c, r);
    }
    Extensionality(Product(L, U), PermutedRows(A, P));
  }

  /** A row of a unit lower-triangular L against U: the part before the
      diagonal plus U's own row. */
  lemma {:induction false} UnitRowTail(L: Matrix, U: Matrix, r: nat, c: nat, t: nat)
    requires UnitLower(L) && L.cols == U.rows && r < t <= L.cols && c < U.cols
    ensures EntryDot(L, U, r, c, t) == EntryDot(L, U, r, c, r) + U.At(r, c)
  {
    if t == r + 1 {
      MulCongruenceLeft(L.At(r, r), 1.0, U.At(r, c));
    } else {
      UnitRowTail(L, U, r, c, t - 1);
      MulCongruenceLeft(L.At(r, t - 1), 0.0, U.At(t - 1, c));
    }
  }

  // ---------------------------------------------------------------------
  // Cholesky decomposition

  /** The CholeskyDecomposition struct: the factor L and the
      positive_definite flag. */
  datatype CholeskyDecomposition = CholeskyDecomposition(L: Matrix, positiveDefinite: bool)

  /** std::sqrt on the non-negative reals: a non-negative root whose
      square is the argument. */
  ghost predicate IsSqrt(sqrt: real -> real) {
    forall x: real :: x >= 0.0 ==> sqrt(x) >= 0.0 && sqrt(x) * sqrt(x) == x
  }

  /** The root of a positive number is positive. */
  lemma RootPositive(sqrt: real -> real, x: real)
    requires IsSqrt(sqrt) && x > 0.0
    ensures sqrt(x) > 0.0
  {
    assert sqrt(x) >= 0.0 && sqrt(x) * sqrt(x) == x;
  }

  /** The running sum of the routine: the first t products of row i and
      row j of L. */
  function CrossDot(L: Matrix, i: nat, j: nat, t: nat): real
    requires i < L.rows && j < L.rows && t <= L.cols
  {
    if t == 0 then 0.0 else CrossDot(L, i, j, t - 1) + L.At(i, t - 1) * L.At(j, t - 1)
  }

  /** Entry (r, c), on or below the diagonal, has been written once row i
      has reached column j. */
  predicate Written(r: nat, c: nat, i: nat, j: nat) {
    c <= r && (r < i || (r == i && c < j))
  }

  /** What the routine establishes for a written diagonal entry: a
      radicand above Eps and its positive root. */
  predicate DiagonalSolved(A: Matrix, L: Matrix, r: nat)
    requires A.rows == A.cols == L.rows == L.cols && r < A.rows
  {
    && A.At(r, r) - CrossDot(L, r, r, r) > Eps
    && L.At(r, r) > 0.0
    && L.At(r, r) * L.At(r, r) == A.At(r, r) - CrossDot(L, r, r, r)
  }

  /** What the routine establishes for a written entry below the diagonal:
      the row equation of L * L^T = A, solved for L(r, c). */
  predicate BelowSolved(A: Matrix, L: Matrix, r: nat, c: nat)
    requires A.rows == A.cols == L.rows == L.cols && c < r < A.rows
  {
    L.At(r, c) * L.At(c, c) == A.At(r, c) - CrossDot(L, r, c, c)
  }

  /** Every entry not yet written is still the zero it started as. */
  predicate Unwritten(L: Matrix, i: nat, j: nat) {
    forall r: nat, c: nat | r < L.rows && c < L.cols && !Written(r, c, i, j) :: L.At(r, c) == 0.0
  }

  predicate DiagonalsSolved(A: Matrix, L: Matrix, i: nat, j: nat)
    requires A.rows == A.cols == L.rows == L.cols
  {
    forall r: nat | r < A.rows && Written(r, r, i, j) :: DiagonalSolved(A, L, r)
  }

  predicate BelowsSolved(A: Matrix, L: Matrix, i: nat, j: nat)
    requires A.rows == A.cols == L.rows == L.cols
  {
    forall r: nat, c: nat | c < r < A.rows && Written(r, c, i, j) :: BelowSolved(A, L, r, c)
  }

  /** The state of the routine when row i has reached column j: every
      written entry solved, every other entry still zero. */
  predicate CholeskyStage(A: Matrix, L: Matrix, i: nat, j: nat) {
    && A.rows == A.cols == L.rows == L.cols
    && i <= A.rows && (i < A.rows ==> j <= i + 1) && (i == A.rows ==> j == 0)
    && Unwritten(L, i, j) && DiagonalsSolved(A, L, i, j) && BelowsSolved(A, L, i, j)
  }

  /** The running sum loops of the source. */
  method RowProduct(L: Matrix, i: nat, j: nat, t: nat) returns (sum: real)
    requires i < L.rows && j < L.rows && t <= L.cols
    ensures sum == CrossDot(L, i, j, t)
  {
    sum := 0.0;
    for k := 0 to t
      invariant sum == CrossDot(L, i, j, k)
    {
      sum := sum + L.At(i, k) * L.At(j, k);
    }
  }

  /** cholesky_decompose(A), with std::sqrt passed in. On success every
      entry on and below the diagonal solves its row equation and the
      diagonal is positive; otherwise the routine stopped at the first row
      whose radicand is at most Eps, with the rows before it finished.
      Either way L is zero above the diagonal. */
  method CholeskyDecompose(A: Matrix, sqrt: real -> real) returns (res: CholeskyDecomposition)
    requires A.rows == A.cols && IsSqrt(sqrt)
    ensures res.L.rows == res.L.cols == A.rows
    ensures forall r: nat, c: nat | r < c < A.rows :: res.L.At(r, c) == 0.0
    ensures res.positiveDefinite ==> CholeskyStage(A, res.L, A.rows, 0)
    ensures !res.positiveDefinite ==>
      exists j: nat | j < A.rows ::
        && CholeskyStage(A, res.L, j, j)
        && A.At(j, j) - CrossDot(res.L, j, j, j) <= Eps
  {
    var n := A.rows;
    var L := Zeros(n, n);
    for i := 0 to n
      invariant CholeskyStage(A, L, i, 0)
    {
      var ok;
      L, ok := CholeskyRow(A, L, i, sqrt);
      if !ok {
        res := CholeskyDecomposition(L, false);
        assert CholeskyStage(A, res.L, i, i);
        return;
      }
    }
    res := CholeskyDecomposition(L, true);
  }

  /** Row i of the routine: the entries left of the diagonal, then the
      diagonal, or the abort when its radicand is at most Eps. */
  method CholeskyRow(A: Matrix, L: Matrix, i: nat, sqrt: real -> real) returns (L': Matrix, ok: bool)
    requires CholeskyStage(A, L, i, 0) && i < A.rows && IsSqrt(sqrt)
    ensures ok ==> CholeskyStage(A, L', i + 1, 0)
    ensures !ok ==> CholeskyStage(A, L', i, i) && A.At(i, i) - CrossDot(L', i, i, i) <= Eps
  {
    L' := L;
    for j := 0 to i + 1
      invariant CholeskyStage(A, L', i, j)
    {
      if j == i {
        var sum := RowProduct(L', j, j, j);
        var diag := A.At(j, j) - sum;
        if diag <= Eps {
          return L', false;
        }
        var root := sqrt(diag);
        RootPositive(sqrt, diag);
        WriteDiagonal(A, L', i, root);
        L' := L'.Set(j, j, root);
      } else {
        var sum := RowProduct(L', i, j, j);
        var v := OffDiagonal(A.At(i, j), sum, L'.At(j, j));
        WriteOffDiagonal(A, L', i, j, v);
        L' := L'.Set(i, j, v);
      }
    }
    NextRow(A, L', i);
    ok := true;
  }

  /** The quotient (A(i, j) - sum) / L(j, j) of the source, by the
      property that determines it. */
  method OffDiagonal(a: real, sum: real, pivot: real) returns (v: real)
    requires pivot > 0.0
    ensures v * pivot == a - sum
  {
    v := (a - sum) / pivot;
  }

  lemma {:induction false} CrossDotAgree(L: Matrix, L': Matrix, i: nat, j: nat, t: nat)
    requires L.rows == L'.rows && L.cols == L'.cols && i < L.rows && j < L.rows && t <= L.cols
    requires forall s: nat | s < t :: L.At(i, s) == L'.At(i, s) && L.At(j, s) == L'.At(j, s)
    ensures CrossDot(L, i, j, t) == CrossDot(L', i, j, t)
  {
    if t > 0 {
      CrossDotAgree(L, L', i, j, t - 1);
      MulCongruence(L.At(i, t - 1), L.At(j, t - 1), L'.At(j, t - 1));
    }
  }

  /** Writing entry (i, i) with its root keeps the stage. */
  lemma WriteDiagonal(A: Matrix, L: Matrix, i: nat, root: real)
    requires CholeskyStage(A, L, i, i) && i < A.rows
    requires A.At(i, i) - CrossDot(L, i, i, i) > Eps
    requires root > 0.0 && root * root == A.At(i, i) - CrossDot(L, i, i, i)
    ensures CholeskyStage(A, L.Set(i, i, root), i, i + 1)
  {
    WriteDiagonals(A, L, L.Set(i, i, root), i, i, root);
    WriteBelows(A, L, L.Set(i, i, root), i, i, root);
  }

  /** Writing entry (i, j), j < i, with its quotient keeps the stage. */
  lemma WriteOffDiagonal(A: Matrix, L: Matrix, i: nat, j: nat, v: real)
    requires CholeskyStage(A, L, i, j) && j < i < A.rows
    requires v * L.At(j, j) == A.At(i, j) - CrossDot(L, i, j, j)
    ensures CholeskyStage(A, L.Set(i, j, v), i, j + 1)
  {
    WriteDiagonals(A, L, L.Set(i, j, v), i, j, v);
    WriteBelows(A, L, L.Set(i, j, v), i, j, v);
  }

  /** The diagonal part of the stage after writing v at (i, j). */
  lemma WriteDiagonals(A: Matrix, L: Matrix, L': Matrix, i: nat, j: nat, v: real)
    requires A.rows == A.cols == L.rows == L.cols && j <= i < A.rows
    requires DiagonalsSolved(A, L, i, j) && L' == L.Set(i, j, v)
    requires j == i ==> A.At(i, i) - CrossDot(L, i, i, i) > Eps && v > 0.0 && v * v == A.At(i, i) - CrossDot(L, i, i, i)
    ensures DiagonalsSolved(A, L', i, j + 1)
  {
    forall r: nat | r < A.rows && Written(r, r, i, j + 1)
      ensures DiagonalSolved(A, L', r)
    {
      CrossDotAgree(L, L', r, r, r);
      if r == i && j == i {
        DiagonalAgree(A, L, L', r, v);
      } else {
        assert Written(r, r, i, j) && DiagonalSolved(A, L, r);
        DiagonalAgree(A, L, L', r, L.At(r, r));
      }
    }
  }

  /** The below-diagonal part of the stage after writing v at (i, j). */
  lemma WriteBelows(A: Matrix, L: Matrix, L': Matrix, i: nat, j: nat, v: real)
    requires A.rows == A.cols == L.rows == L.cols && j <= i < A.rows
    requires BelowsSolved(A, L, i, j) && L' == L.Set(i, j, v)
    requires j < i ==> v * L.At(j, j) == A.At(i, j) - CrossDot(L, i, j, j)
    ensures BelowsSolved(A, L', i, j + 1)
  {
    forall r: nat, c: nat | c < r < A.rows && Written(r, c, i, j + 1)
      ensures BelowSolved(A, L', r, c)
    {
      CrossDotAgree(L, L', r, c, c);
      if r == i && c == j {
        BelowAgree(A, L, L', r, c, v, L.At(c, c));
      } else {
        assert Written(r, c, i, j) && BelowSolved(A, L, r, c);
        BelowAgree(A, L, L', r, c, L.At(r, c), L.At(c, c));
      }
    }
  }

  /** The diagonal condition moves to a matrix with the same entry and the
      same running sum; x names the entry. */
  lemma DiagonalAgree(A: Matrix, L: Matrix, L': Matrix, r: nat, x: real)
    requires A.rows == A.cols == L.rows == L.cols == L'.rows == L'.cols && r < A.rows
    requires A.At(r, r) - CrossDot(L, r, r, r) > Eps && x > 0.0 && x * x == A.At(r, r) - CrossDot(L, r, r, r)
    requires L'.At(r, r) == x && CrossDot(L', r, r, r) == CrossDot(L, r, r, r)
    ensures DiagonalSolved(A, L', r)
  {
    MulCongruence(L'.At(r, r), L'.At(r, r), x);
    MulCongruenceLeft(L'.At(r, r), x, x);
  }

  /** The same for an entry below the diagonal; x and y name L(r, c) and
      L(c, c). */
  lemma BelowAgree(A: Matrix, L: Matrix, L': Matrix, r: nat, c: nat, x: real, y: real)
    requires A.rows == A.cols == L.rows == L.cols == L'.rows == L'.cols && c < r < A.rows
    requires x * y == A.At(r, c) - CrossDot(L, r, c, c)
    requires L'.At(r, c) == x && L'.At(c, c) == y && CrossDot(L', r, c, c) == CrossDot(L, r, c, c)
    ensures BelowSolved(A, L', r, c)
  {
    ProductsAgree(L'.At(r, c), L'.At(c, c), x, y);
  }

  lemma ProductsAgree(a: real, b: real, x: real, y: real)
    requires a == x && b == y
    ensures a * b == x * y
  {
  }

  /** Row i complete: the next row starts. */
  lemma NextRow(A: Matrix, L: Matrix, i: nat)
    requires CholeskyStage(A, L, i, i + 1) && i < A.rows
    ensures CholeskyStage(A, L, i + 1, 0)
  {
  }

  /** A finished Cholesky stage is a factorisation: L lower-triangular
      with a positive diagonal, and L * L^T agrees with A on and below the
      diagonal (the only part of A the routine reads). */
  lemma CholeskyFactorization(A: Matrix, L: Matrix)
    requires CholeskyStage(A, L, A.rows, 0)
    ensures forall r: nat, c: nat | r < c < A.rows :: L.At(r, c) == 0.0
    ensures forall r: nat | r < A.rows :: L.At(r, r) > 0.0
    ensures forall r: nat, c: nat | c <= r < A.rows :: Product(L, Transposed(L)).At(r, c) == A.At(r, c)
  {
    forall r: nat, c: nat | c <= r < A.rows
      ensures Product(L, Transposed(L)).At(r, c) == A.At(r, c)
    {
      FactorEntry(A, L, r, c);
    }
    forall r: nat | r < A.rows
      ensures L.At(r, r) > 0.0
    {
      assert Written(r, r, A.rows, 0) && DiagonalSolved(A, L, r);
    }
  }

  lemma FactorEntry(A: Matrix, L: Matrix, r: nat, c: nat)
    requires CholeskyStage(A, L, A.rows, 0) && c <= r < A.rows
    ensures Product(L, Transposed(L)).At(r, c) == A.At(r, c)
  {
    assert Written(r, c, A.rows, 0);
    if c < r {
      assert BelowSolved(A, L, r, c);
      BelowEntry(A, L, r, c);
    } else {
      assert DiagonalSolved(A, L, r);
      DiagonalEntry(A, L, r);
    }
    LowerEntry(A, L, r, c);
  }

  lemma BelowEntry(A: Matrix, L: Matrix, r: nat, c: nat)
    requires A.rows == A.cols == L.rows == L.cols && c < r < A.rows
    requires BelowSolved(A, L, r, c)
    ensures CrossDot(L, r, c, c + 1) == A.At(r, c)
  {
  }

  lemma DiagonalEntry(A: Matrix, L: Matrix, r: nat)
    requires A.rows == A.cols == L.rows == L.cols && r < A.rows
    requires DiagonalSolved(A, L, r)
    ensures CrossDot(L, r, r, r + 1) == A.At(r, r)
  {
  }

  /** Entry (r, c) of L * L^T for a row c that ends at the diagonal. */
  lemma LowerEntry(A: Matrix, L: Matrix, r: nat, c: nat)
    requires A.rows == A.cols == L.rows == L.cols && c <= r < A.rows
    requires forall s: nat | c < s < L.cols :: L.At(c, s) == 0.0
    requires CrossDot(L, r, c, c + 1) == A.At(r, c)
    ensures Product(L, Transposed(L)).At(r, c) == A.At(r, c)
  {
    CrossProduct(L, r, c);
    CrossDotTail(L, r, c, A.rows);
  }

  /** For a symmetric A the factorisation is the whole of A. */
  lemma CholeskySymmetric(A: Matrix, L: Matrix)
    requires CholeskyStage(A, L, A.rows, 0)
    requires forall r: nat, c: nat | r < A.rows && c < A.rows :: A.At(r, c) == A.At(c, r)
    ensures Product(L, Transposed(L)) == A
  {
    var n := A.rows;
    CholeskyFactorization(A, L);
    forall r: nat, c: nat | r < c < n
      ensures Product(L, Transposed(L)).At(r, c) == A.At(r, c)
    {
      CrossProduct(L, r, c);
      CrossProduct(L, c, r);
      CrossDotSymmetric(L, r, c, n);
    }
    Extensionality(Product(L, Transposed(L)), A);
  }

  /** Entry (r, c) of L * L^T is the full running sum of rows r and c. */
  lemma CrossProduct(L: Matrix, r: nat, c: nat)
    requires L.rows == L.cols && r < L.rows && c < L.rows
    ensures Product(L, Transposed(L)).At(r, c) == CrossDot(L, r, c, L.cols)
  {
    CrossEntryDot(L, Transposed(L), r, c, L.cols);
  }

  lemma {:induction false} CrossEntryDot(L: Matrix, T: Matrix, r: nat, c: nat, t: nat)
    requires L.rows == L.cols && T == Transposed(L) && r < L.rows && c < L.rows && t <= L.cols
    ensures EntryDot(L, T, r, c, t) == CrossDot(L, r, c, t)
  {
    if t > 0 {
      CrossEntryDot(L, T, r, c, t - 1);
      MulCongruence(L.At(r, t - 1), T.At(t - 1, c), L.At(c, t - 1));
    }
  }

  /** Past column c, row c of a lower-triangular L contributes nothing. */
  lemma {:induction false} CrossDotTail(L: Matrix, r: nat, c: nat, t: nat)
    requires L.rows == L.cols && r < L.rows && c < t <= L.cols
    requires forall s: nat | c < s < L.cols :: L.At(c, s) == 0.0
    ensures CrossDot(L, r, c, t) == CrossDot(L, r, c, c + 1)
  {
    if t > c + 1 {
      CrossDotTail(L, r, c, t - 1);
      MulCongruence(L.At(r, t - 1), L.At(c, t - 1), 0.0);
    }
  }

  lemma {:induction false} CrossDotSymmetric(L: Matrix, r: nat, c: nat, t: nat)
    requires r < L.rows && c < L.rows && t <= L.cols
    ensures CrossDot(L, r, c, t) == CrossDot(L, c, r, t)
  {
    if t > 0 {
      CrossDotSymmetric(L, r, c, t - 1);
    }
  }

  // ---------------------------------------------------------------------
  // QR decomposition by classical Gram-Schmidt

  /** The QRDecomposition struct. */
  datatype QrDecomposition = QrDecomposition(Q: Matrix, R: Matrix)

  /** norm(v) of the vector header: the root of dot(v, v). */
  function Norm(v: Vector, sqrt: real -> real): real {
    sqrt(Dot(v, v))
  }

  /** u_j after its first t projections are removed: column a minus
      dot(a, q[i]) * q[i] for every i < t (classical Gram-Schmidt projects
      the original column, not the running residual). */
  function Residual(a: Vector, q: seq<Vector>, t: nat): (u: Vector)
    requires t <= |q| && forall i | 0 <= i < t :: |q[i]| == |a|
    ensures |u| == |a|
  {
    if t == 0 then a else Minus(Residual(a, q, t - 1), Times(q[t - 1], Dot(a, q[t - 1])))
  }

  /** q_j: the residual divided by its norm, or the zero vector when that
      norm is at most Eps. */
  function Direction(u: Vector, sqrt: real -> real): (q: Vector)
    ensures |q| == |u|
  {
    if Norm(u, sqrt) > Eps then Over(u, Norm(u, sqrt)) else Zero(|u|)
  }

  /** q_0, ..., q_{j-1} for the columns of A. */
  function Directions(A: Matrix, sqrt: real -> real, j: nat): (q: seq<Vector>)
    requires j <= A.cols
    ensures |q| == j && forall i | 0 <= i < j :: |q[i]| == A.rows
  {
    if j == 0 then []
    else
      var q := Directions(A, sqrt, j - 1);
      q + [Direction(Residual(A.Col(j - 1), q, j - 1), sqrt)]
  }

  /** Entry (r, c) of R given the directions q: the projection of column c
      on q_r above the diagonal, the norm of the residual on it, zero
      below. */
  function REntry(A: Matrix, q: seq<Vector>, sqrt: real -> real, r: nat, c: nat): real
    requires c < A.cols && c <= |q| && forall i | 0 <= i < |q| :: |q[i]| == A.rows
  {
    if r < c then Dot(A.Col(c), q[r])
    else if r == c then Norm(Residual(A.Col(c), q, c), sqrt)
    else 0.0
  }

  /** G holds the directions of the columns of A: each q_j is the
      direction of the residual of column j against q_0 .. q_{j-1}. */
  predicate GramSchmidtOf(A: Matrix, sqrt: real -> real, G: seq<Vector>) {
    && A.rows == A.cols && |G| == A.cols
    && (forall j | 0 <= j < |G| :: |G[j]| == A.rows)
    && forall j | 0 <= j < |G| :: G[j] == Direction(Residual(A.Col(j), G, j), sqrt)
  }

  /** Q and R as the routine fills them from the directions G: column j of
      Q is q_j and R(r, c) is REntry. */
  predicate QrOf(A: Matrix, sqrt: real -> real, G: seq<Vector>, Q: Matrix, R: Matrix)
    requires A.rows == A.cols && |G| == A.cols && forall j | 0 <= j < |G| :: |G[j]| == A.rows
  {
    && Q.rows == Q.cols == R.rows == R.cols == A.rows
    && (forall i: nat, j: nat | i < A.rows && j < A.rows :: Q.At(i, j) == G[j][i])
    && (forall i: nat, j: nat | i < A.rows && j < A.rows :: R.At(i, j) == REntry(A, G, sqrt, i, j))
  }

  /** qr_decompose(A), with std::sqrt passed in: the routine computes
      exactly the Q and R defined above. */
  method QrDecompose(A: Matrix, sqrt: real -> real) returns (res: QrDecomposition)
    requires A.rows == A.cols
    ensures QrOf(A, sqrt, Directions(A, sqrt, A.cols), res.Q, res.R)
  {
    var n := A.rows;
    ghost var G := Directions(A, sqrt, n);
    var R := Zeros(n, n);
    var q: seq<Vector> := seq(n, _ => Zero(n));
    for j := 0 to n
      invariant |q| == n && forall i | 0 <= i < n :: |q[i]| == n
      invariant forall i | 0 <= i < j :: q[i] == G[i]
      invariant R.rows == n && R.cols == n
      invariant forall r: nat, c: nat | r < n && c < n :: R.At(r, c) == if c < j then REntry(A, G, sqrt, r, c) else 0.0
    {
      q, R := QrColumn(A, sqrt, q, R, j, G);
    }
    var Q := Zeros(n, n);
    for j := 0 to n
      invariant Q.rows == n && Q.cols == n
      invariant forall r: nat, c: nat | r < n && c < n :: Q.At(r, c) == if c < j then q[c][r] else 0.0
    {
      for i := 0 to n
        invariant Q.rows == n && Q.cols == n
        invariant forall r: nat, c: nat | r < n && c < n :: Q.At(r, c) == if c < j || (c == j && r < i) then q[c][r] else 0.0
      {
        Q := Q.Set(i, j, q[j][i]);
      }
    }
    res := QrDecomposition(Q, R);
  }

  /** Column j of the routine: project out q_0 .. q_{j-1}, record the
      projections and the norm in R, and store q_j. */
  method QrColumn(A: Matrix, sqrt: real -> real, q: seq<Vector>, R: Matrix, j: nat, ghost G: seq<Vector>)
    returns (q': seq<Vector>, R': Matrix)
    requires A.rows == A.cols && j < A.rows && G == Directions(A, sqrt, A.cols)
    requires |q| == A.rows && forall i | 0 <= i < A.rows :: |q[i]| == A.rows
    requires forall i | 0 <= i < j :: q[i] == G[i]
    requires R.rows == A.rows && R.cols == A.rows
    requires forall r: nat, c: nat | r < A.rows && c < A.rows :: R.At(r, c) == if c < j then REntry(A, G, sqrt, r, c) else 0.0
    ensures |q'| == A.rows && forall i | 0 <= i < A.rows :: |q'[i]| == A.rows
    ensures forall i | 0 <= i < j + 1 :: q'[i] == G[i]
    ensures R'.rows == A.rows && R'.cols == A.rows
    ensures forall r: nat, c: nat | r < A.rows && c < A.rows :: R'.At(r, c) == if c < j + 1 then REntry(A, G, sqrt, r, c) else 0.0
  {
    var n := A.rows;
    var a := CopyColumn(A, j);
    var u := a;
    R' := R;
    for i := 0 to j
      invariant u == Residual(a, q, i)
      invariant R'.rows == n && R'.cols == n
      invariant forall r: nat, c: nat | r < n && c < n ::
        R'.At(r, c) == if c < j then REntry(A, G, sqrt, r, c) else if c == j && r < i then Dot(a, q[r]) else 0.0
    {
      var proj := DotProduct(a, q[i]);
      R' := R'.Set(i, j, proj);
      u := Deflate(u, q[i], proj);
    }
    ResidualAgree(a, q, G, j);
    var dd := DotProduct(u, u);
    var norm := sqrt(dd);
    R' := R'.Set(j, j, norm);
    var qj;
    if norm > Eps {
      qj := Div(u, norm);
    } else {
      qj := ClearVector(q[j]);
    }
    DirectionAt(A, sqrt, G, j);
    q' := q[j := qj];
    forall r: nat, c: nat | r < n && c < n
      ensures R'.At(r, c) == if c < j + 1 then REntry(A, G, sqrt, r, c) else 0.0
    {
    }
  }

  /** The loop a_j[i] = A(i, j). */
  method CopyColumn(A: Matrix, j: nat) returns (a: Vector)
    requires j < A.cols
    ensures a == A.Col(j)
  {
    a := Zero(A.rows);
    for i := 0 to A.rows
      invariant |a| == A.rows && forall k | 0 <= k < i :: a[k] == A.At(k, j)
    {
      a := a[i := A.At(i, j)];
    }
  }

  /** The loop q[j][i] = 0. */
  method ClearVector(v: Vector) returns (z: Vector)
    ensures z == Zero(|v|)
  {
    z := v;
    for i := 0 to |v|
      invariant |z| == |v| && forall k | 0 <= k < i :: z[k] == 0.0
    {
      z := z[i := 0.0];
    }
  }

  /** The inner loop u_j[k] -= proj * q[i][k]. */
  method Deflate(u: Vector, v: Vector, proj: real) returns (u': Vector)
    requires |u| == |v|
    ensures u' == Minus(u, Times(v, proj))
  {
    u' := u;
    for k := 0 to |u|
      invariant |u'| == |u|
      invariant forall m | 0 <= m < |u| :: u'[m] == if m < k then u[m] - proj * v[m] else u[m]
    {
      u' := u'[k := u'[k] - proj * v[k]];
    }
  }

  lemma {:induction false} ResidualAgree(a: Vector, q: seq<Vector>, q': seq<Vector>, t: nat)
    requires t <= |q| && t <= |q'| && forall i | 0 <= i < t :: |q[i]| == |a| && q[i] == q'[i]
    ensures Residual(a, q, t) == Residual(a, q', t)
  {
    if t > 0 {
      ResidualAgree(a, q, q', t - 1);
    }
  }

  /** The directions of the first j columns do not depend on the later
      ones. */
  lemma {:induction false} DirectionsPrefix(A: Matrix, sqrt: real -> real, j: nat, k: nat)
    requires j <= k <= A.cols
    ensures forall i | 0 <= i < j :: Directions(A, sqrt, j)[i] == Directions(A, sqrt, k)[i]
  {
    if j < k {
      DirectionsPrefix(A, sqrt, j, k - 1);
    }
  }

  /** q_j is the direction of the residual of column j against the
      directions before it. */
  lemma DirectionAt(A: Matrix, sqrt: real -> real, G: seq<Vector>, j: nat)
    requires A.rows == A.cols && j < A.cols && G == Directions(A, sqrt, A.cols)
    ensures G[j] == Direction(Residual(A.Col(j), G, j), sqrt)
  {
    DirectionsPrefix(A, sqrt, j + 1, A.cols);
    DirectionsPrefix(A, sqrt, j, j + 1);
    ResidualAgree(A.Col(j), Directions(A, sqrt, j), G, j);
  }

  /** The directions computed column by column are the directions of A. */
  lemma DirectionsCharacterised(A: Matrix, sqrt: real -> real)
    requires A.rows == A.cols
    ensures GramSchmidtOf(A, sqrt, Directions(A, sqrt, A.cols))
  {
    var G := Directions(A, sqrt, A.cols);
    forall j | 0 <= j < |G|
      ensures G[j] == Direction(Residual(A.Col(j), G, j), sqrt)
    {
      DirectionAt(A, sqrt, G, j);
    }
  }

  /** R is upper-triangular with a non-negative diagonal. */
  lemma QrTriangular(A: Matrix, sqrt: real -> real, G: seq<Vector>, Q: Matrix, R: Matrix)
    requires GramSchmidtOf(A, sqrt, G) && QrOf(A, sqrt, G, Q, R) && IsSqrt(sqrt)
    ensures forall r: nat, c: nat | c < r < A.rows :: R.At(r, c) == 0.0
    ensures forall j: nat | j < A.rows :: R.At(j, j) >= 0.0
  {
    forall j: nat | j < A.rows
      ensures R.At(j, j) >= 0.0
    {
      var u := Residual(A.Col(j), G, j);
      DotToSelf(u, |u|);
    }
  }

  /** Column j of Q is the direction of the residual u_j, and R(j, j) is
      the norm of u_j; DirectionShape then says that the column is zero
      when that norm is at most Eps and u_j / R(j, j), a unit vector,
      otherwise. */
  lemma QrColumnShape(A: Matrix, sqrt: real -> real, G: seq<Vector>, Q: Matrix, R: Matrix, j: nat)
    requires GramSchmidtOf(A, sqrt, G) && QrOf(A, sqrt, G, Q, R) && j < A.rows
    ensures Q.Col(j) == Direction(Residual(A.Col(j), G, j), sqrt)
    ensures R.At(j, j) == Norm(Residual(A.Col(j), G, j), sqrt)
  {
    assert Q.Col(j) == Direction(Residual(A.Col(j), G, j), sqrt);
  }

  /** The direction of u: zero when the norm of u is at most Eps, otherwise
      u divided by its norm, of length 1. */
  lemma DirectionShape(u: Vector, sqrt: real -> real, nrm: real)
    requires nrm == Norm(u, sqrt)
    ensures var d := Direction(u, sqrt);
      && (nrm <= Eps ==> forall i | 0 <= i < |u| :: d[i] == 0.0)
      && (nrm > Eps ==> forall i | 0 <= i < |u| :: d[i] * nrm == u[i])
      && (nrm > Eps && IsSqrt(sqrt) ==> Dot(d, d) == 1.0)
  {
    if nrm > Eps {
      var d := Over(u, nrm);
      forall i | 0 <= i < |u|
        ensures d[i] * nrm == u[i]
      {
        Cancel(u[i], nrm);
      }
      if IsSqrt(sqrt) {
        DotToSelf(u, |u|);
        assert nrm * nrm == Dot(u, u);
        DotToOver(u, nrm, |u|);
        UnitFromScale(Dot(d, d), nrm);
      }
    }
  }

  /** When every R(j, j) exceeds Eps, Q * R reproduces A. */
  lemma QrReconstruction(A: Matrix, sqrt: real -> real, G: seq<Vector>, Q: Matrix, R: Matrix)
    requires GramSchmidtOf(A, sqrt, G) && QrOf(A, sqrt, G, Q, R)
    requires forall j: nat | j < A.rows :: R.At(j, j) > Eps
    ensures Product(Q, R) == A
  {
    forall k: nat, j: nat | k < A.rows && j < A.rows
      ensures Product(Q, R).At(k, j) == A.At(k, j)
    {
      QrEntry(A, sqrt, G, Q, R, k, j);
    }
    Extensionality(Product(Q, R), A);
  }

  lemma QrEntry(A: Matrix, sqrt: real -> real, G: seq<Vector>, Q: Matrix, R: Matrix, k: nat, j: nat)
    requires GramSchmidtOf(A, sqrt, G) && QrOf(A, sqrt, G, Q, R)
    requires k < A.rows && j < A.rows && R.At(j, j) > Eps
    ensures EntryDot(Q, R, k, j, A.rows) == A.At(k, j)
  {
    QrDiagonalTerm(A, sqrt, G, Q, R, k, j);
    QrEarlierTerms(A, sqrt, G, Q, R, k, j);
    ReconstructEntry(Q, R, A.Col(j), G, k, j);
  }

  lemma QrDiagonalTerm(A: Matrix, sqrt: real -> real, G: seq<Vector>, Q: Matrix, R: Matrix, k: nat, j: nat)
    requires GramSchmidtOf(A, sqrt, G) && QrOf(A, sqrt, G, Q, R)
    requires k < A.rows && j < A.rows && R.At(j, j) > Eps
    ensures Q.At(k, j) * R.At(j, j) == Residual(A.Col(j), G, j)[k]
  {
    QrColumnShape(A, sqrt, G, Q, R, j);
    DirectionTerm(Q, R, Residual(A.Col(j), G, j), sqrt, k, j);
  }

  lemma DirectionTerm(Q: Matrix, R: Matrix, u: Vector, sqrt: real -> real, k: nat, j: nat)
    requires j < Q.cols && j < R.rows && j < R.cols && k < Q.rows == |u|
    requires Q.Col(j) == Direction(u, sqrt) && R.At(j, j) == Norm(u, sqrt) > Eps
    ensures Q.At(k, j) * R.At(j, j) == u[k]
  {
    DirectionShape(u, sqrt, R.At(j, j));
    MulCongruenceLeft(Q.At(k, j), Direction(u, sqrt)[k], R.At(j, j));
  }

  lemma QrEarlierTerms(A: Matrix, sqrt: real -> real, G: seq<Vector>, Q: Matrix, R: Matrix, k: nat, j: nat)
    requires GramSchmidtOf(A, sqrt, G) && QrOf(A, sqrt, G, Q, R) && k < A.rows && j < A.rows
    ensures forall i: nat | i < j :: Q.At(k, i) == G[i][k] && R.At(i, j) == Dot(A.Col(j), G[i])
    ensures forall r: nat | j < r < A.rows :: R.At(r, j) == 0.0
  {
  }

  /** Entry (k, j) of Q * R: the projections on the earlier directions,
      then R(j, j) times q_j, then nothing. */
  lemma ReconstructEntry(Q: Matrix, R: Matrix, a: Vector, G: seq<Vector>, k: nat, j: nat)
    requires Q.rows == Q.cols == R.rows == R.cols == |a| && k < |a| && j < |a|
    requires j <= |G| && forall i | 0 <= i < |G| :: |G[i]| == |a|
    requires forall i: nat | i < j :: Q.At(k, i) == G[i][k] && R.At(i, j) == Dot(a, G[i])
    requires Q.At(k, j) * R.At(j, j) == Residual(a, G, j)[k]
    requires forall r: nat | j < r < |a| :: R.At(r, j) == 0.0
    ensures EntryDot(Q, R, k, j, |a|) == a[k]
  {
    ResidualExpansion(Q, R, a, G, k, j, j);
    ProductTail(Q, R, k, j, |a|);
  }

  /** The projections removed so far plus what is left of the column give
      the column back. */
  lemma {:induction false} ResidualExpansion(Q: Matrix, R: Matrix, a: Vector, G: seq<Vector>, k: nat, j: nat, t: nat)
    requires Q.rows == Q.cols == R.rows == R.cols == |a| && k < |a| && t <= j < |a|
    requires t <= |G| && forall i | 0 <= i < |G| :: |G[i]| == |a|
    requires forall i: nat | i < t :: Q.At(k, i) == G[i][k] && R.At(i, j) == Dot(a, G[i])
    ensures EntryDot(Q, R, k, j, t) + Residual(a, G, t)[k] == a[k]
  {
    if t > 0 {
      ResidualExpansion(Q, R, a, G, k, j, t - 1);
      MulCongruenceLeft(Q.At(k, t - 1), G[t - 1][k], R.At(t - 1, j));
      MulCongruence(G[t - 1][k], R.At(t - 1, j), Dot(a, G[t - 1]));
    }
  }

  /** Rows of R below the diagonal add nothing to column j of Q * R. */
  lemma {:induction false} ProductTail(Q: Matrix, R: Matrix, k: nat, j: nat, t: nat)
    requires Q.rows == Q.cols == R.rows == R.cols && k < Q.rows && j < t <= Q.cols
    requires forall r: nat | j < r < R.rows :: R.At(r, j) == 0.0
    ensures EntryDot(Q, R, k, j, t) == EntryDot(Q, R, k, j, j) + Q.At(k, j) * R.At(j, j)
  {
    if t > j + 1 {
      ProductTail(Q, R, k, j, t - 1);
      MulCongruence(Q.At(k, t - 1), R.At(t - 1, j), 0.0);
    }
  }

  lemma Cancel(x: real, c: real)
    requires c != 0.0
    ensures (x / c) * c == x
  {
  }

  lemma UnitFromScale(d: real, c: real)
    requires c > 0.0 && d * (c * c) == c * c
    ensures d == 1.0
  {
    assert c * c > 0.0;
  }

  lemma {:induction false} DotToOver(u: Vector, c: real, t: nat)
    requires c != 0.0 && t <= |u|
    ensures DotTo(Over(u, c), Over(u, c), t) * (c * c) == DotTo(u, u, t)
  {
    if t > 0 {
      DotToOver(u, c, t - 1);
      SquareOver(u[t - 1], c);
    }
  }

  lemma SquareOver(x: real, c: real)
    requires c != 0.0
    ensures (x / c) * (x / c) * (c * c) == x * x
  {
    var y := x / c;
    assert y * c == x;
    assert y * y * (c * c) == (y * c) * (y * c);
  }
}
