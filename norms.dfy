/** The exact norms of norm.hpp: those built from abs, sums and max only.
    Each is a loop updating an accumulator, proved against a predicate
    that says what the accumulated value is. */
module Norms {
  import opened Vectors
  import opened Matrices

  /** std::max(a, b): a unless a < b. */
  function Max(a: real, b: real): (r: real)
    ensures r >= a && r >= b && (r == a || r == b)
  {
    if a < b then b else a
  }

  /** |v[0]| + ... + |v[t-1]|, accumulated from the front. */
  function AbsSum(v: Vector, t: nat): real
    requires t <= |v|
  {
    if t == 0 then 0.0 else AbsSum(v, t - 1) + Abs(v[t - 1])
  }

  lemma {:induction false} AbsSumNonNegative(v: Vector, t: nat)
    requires t <= |v|
    ensures AbsSum(v, t) >= 0.0
  {
    if t > 0 {
      AbsSumNonNegative(v, t - 1);
    }
  }

  /** Every term is at most the sum. */
  lemma {:induction false} AbsSumBound(v: Vector, t: nat, i: nat)
    requires i < t <= |v|
    ensures Abs(v[i]) <= AbsSum(v, t)
  {
    if i < t - 1 {
      AbsSumBound(v, t - 1, i);
    } else {
      AbsSumNonNegative(v, t - 1);
    }
  }

  /** l1_norm: the sum of the magnitudes. */
  method L1Norm(v: Vector) returns (sum: real)
    ensures sum == AbsSum(v, |v|)
  {
    sum := 0.0;
    for i := 0 to |v|
      invariant sum == AbsSum(v, i)
    {
      sum := sum + Abs(v[i]);
    }
  }

  lemma L1Example(v: Vector)
    requires v == [1.0, -2.0, 3.0]
    ensures AbsSum(v, |v|) == 6.0
  {
    assert AbsSum(v, 1) == 1.0;
    assert AbsSum(v, 2) == 3.0;
  }

  /** m is the largest magnitude of a component of v. */
  predicate IsMaxAbs(v: Vector, m: real) {
    && (forall i | 0 <= i < |v| :: Abs(v[i]) <= m)
    && exists i | 0 <= i < |v| :: m == Abs(v[i])
  }

  /** linf_norm: the running maximum of the magnitudes, started at the
      first component. */
  method LinfNorm(v: Vector) returns (m: real)
    requires |v| > 0
    ensures IsMaxAbs(v, m)
  {
    m := Abs(v[0]);
    for i := 1 to |v|
      invariant forall p | 0 <= p < i :: Abs(v[p]) <= m
      invariant exists p | 0 <= p < i :: m == Abs(v[p])
    {
      m := Max(m, Abs(v[i]));
    }
  }

  /** The largest magnitude is determined by v. */
  lemma MaxAbsUnique(v: Vector, m: real, m': real)
    requires IsMaxAbs(v, m) && IsMaxAbs(v, m')
    ensures m == m'
  {
    var i :| 0 <= i < |v| && m == Abs(v[i]);
    var j :| 0 <= j < |v| && m' == Abs(v[j]);
    assert m' >= Abs(v[i]) && m >= Abs(v[j]);
  }

  /** The l-infinity norm never exceeds the l1 norm. */
  lemma LinfBelowL1(v: Vector, m: real)
    requires IsMaxAbs(v, m)
    ensures m <= AbsSum(v, |v|)
  {
    var i :| 0 <= i < |v| && m == Abs(v[i]);
    AbsSumBound(v, |v|, i);
  }

  lemma LinfExample(v: Vector, m: real)
    requires v == [1.0, -5.0, 3.0] && IsMaxAbs(v, m)
    ensures m == 5.0
  {
    assert Abs(v[1]) == 5.0;
  }

  /** r is the largest magnitude of an entry of m. */
  predicate IsMaxEntry(m: Matrix, r: real) {
    && (forall i: nat, j: nat | i < m.rows && j < m.cols :: Abs(m.At(i, j)) <= r)
    && exists i: nat, j: nat | i < m.rows && j < m.cols :: r == Abs(m.At(i, j))
  }

  /** max_norm: the running maximum over every entry, started at entry
      (0, 0). */
  method MaxNorm(m: Matrix) returns (r: real)
    requires m.rows > 0 && m.cols > 0
    ensures IsMaxEntry(m, r)
  {
    r := Abs(m.At(0, 0));
    for i := 0 to m.rows
      invariant forall p: nat, q: nat | p < i && q < m.cols :: Abs(m.At(p, q)) <= r
      invariant exists p: nat, q: nat | p < m.rows && q < m.cols :: r == Abs(m.At(p, q))
    {
      for j := 0 to m.cols
        invariant forall p: nat, q: nat | p < i && q < m.cols :: Abs(m.At(p, q)) <= r
        invariant forall q: nat | q < j :: Abs(m.At(i, q)) <= r
        invariant exists p: nat, q: nat | p < m.rows && q < m.cols :: r == Abs(m.At(p, q))
      {
        r := Max(r, Abs(m.At(i, j)));
      }
    }
  }

  /** |m(0, j)| + ... + |m(t-1, j)|: the sum over part of column j. */
  function ColumnAbsSum(m: Matrix, j: nat, t: nat): real
    requires j < m.cols && t <= m.rows
  {
    if t == 0 then 0.0 else ColumnAbsSum(m, j, t - 1) + Abs(m.At(t - 1, j))
  }

  /** |m(i, 0)| + ... + |m(i, t-1)|: the sum over part of row i. */
  function RowAbsSum(m: Matrix, i: nat, t: nat): real
    requires i < m.rows && t <= m.cols
  {
    if t == 0 then 0.0 else RowAbsSum(m, i, t - 1) + Abs(m.At(i, t - 1))
  }

  lemma {:induction false} ColumnAbsSumNonNegative(m: Matrix, j: nat, t: nat)
    requires j < m.cols && t <= m.rows
    ensures ColumnAbsSum(m, j, t) >= 0.0
  {
    if t > 0 {
      ColumnAbsSumNonNegative(m, j, t - 1);
    }
  }

  lemma {:induction false} RowAbsSumNonNegative(m: Matrix, i: nat, t: nat)
    requires i < m.rows && t <= m.cols
    ensures RowAbsSum(m, i, t) >= 0.0
  {
    if t > 0 {
      RowAbsSumNonNegative(m, i, t - 1);
    }
  }

  /** r is the largest column sum of magnitudes (0 for no columns). */
  predicate IsMaxColumnSum(m: Matrix, r: real) {
    && (forall j: nat | j < m.cols :: ColumnAbsSum(m, j, m.rows) <= r)
    && (m.cols == 0 ==> r == 0.0)
    && (m.cols > 0 ==> exists j: nat | j < m.cols :: r == ColumnAbsSum(m, j, m.rows))
  }

  /** r is the largest row sum of magnitudes (0 for no rows). */
  predicate IsMaxRowSum(m: Matrix, r: real) {
    && (forall i: nat | i < m.rows :: RowAbsSum(m, i, m.cols) <= r)
    && (m.rows == 0 ==> r == 0.0)
    && (m.rows > 0 ==> exists i: nat | i < m.rows :: r == RowAbsSum(m, i, m.cols))
  }

  /** matrix_1_norm: the running maximum, started at 0, of the column
      sums of magnitudes. */
  method Matrix1Norm(m: Matrix) returns (r: real)
    ensures IsMaxColumnSum(m, r)
  {
    r := 0.0;
    for j := 0 to m.cols
      invariant forall q: nat | q < j :: ColumnAbsSum(m, q, m.rows) <= r
      invariant j == 0 ==> r == 0.0
      invariant j > 0 ==> exists q: nat | q < j :: r == ColumnAbsSum(m, q, m.rows)
    {
      var sum := 0.0;
      for i := 0 to m.rows
        invariant sum == ColumnAbsSum(m, j, i)
      {
        sum := sum + Abs(m.At(i, j));
      }
      ColumnAbsSumNonNegative(m, j, m.rows);
      r := Max(r, sum);
    }
  }

  /** matrix_inf_norm: the running maximum, started at 0, of the row sums
      of magnitudes. */
  method MatrixInfNorm(m: Matrix) returns (r: real)
    ensures IsMaxRowSum(m, r)
  {
    r := 0.0;
    for i := 0 to m.rows
      invariant forall p: nat | p < i :: RowAbsSum(m, p, m.cols) <= r
      invariant i == 0 ==> r == 0.0
      invariant i > 0 ==> exists p: nat | p < i :: r == RowAbsSum(m, p, m.cols)
    {
      var sum := 0.0;
      for j := 0 to m.cols
        invariant sum == RowAbsSum(m, i, j)
      {
        sum := sum + Abs(m.At(i, j));
      }
      RowAbsSumNonNegative(m, i, m.cols);
      r := Max(r, sum);
    }
  }

  /** A row of m is a column of its transpose. */
  lemma {:induction false} RowIsTransposedColumn(m: Matrix, i: nat, t: nat)
    requires i < m.rows && t <= m.cols
    ensures RowAbsSum(m, i, t) == ColumnAbsSum(Transposed(m), i, t)
  {
    if t > 0 {
      RowIsTransposedColumn(m, i, t - 1);
    }
  }

  /** matrix_inf_norm of m is matrix_1_norm of its transpose. */
  lemma InfNormIsTransposed1Norm(m: Matrix, r: real)
    ensures IsMaxRowSum(m, r) <==> IsMaxColumnSum(Transposed(m), r)
  {
    forall i: nat | i < m.rows
      ensures RowAbsSum(m, i, m.cols) == ColumnAbsSum(Transposed(m), i, m.cols)
    {
      RowIsTransposedColumn(m, i, m.cols);
    }
  }

  /** The column-sum norm is determined by m. */
  lemma MaxColumnSumUnique(m: Matrix, r: real, r': real)
    requires IsMaxColumnSum(m, r) && IsMaxColumnSum(m, r')
    ensures r == r'
  {
    if m.cols > 0 {
      var j: nat :| j < m.cols && r == ColumnAbsSum(m, j, m.rows);
      var j': nat :| j' < m.cols && r' == ColumnAbsSum(m, j', m.rows);
      assert r' >= ColumnAbsSum(m, j, m.rows) && r >= ColumnAbsSum(m, j', m.rows);
    }
  }

  /** [[1, 3], [2, 4]] has column sums 3 and 7. */
  lemma Matrix1Example(m: Matrix, r: real)
    requires m == Grid(2, 2, [[1.0, 3.0], [2.0, 4.0]]) && IsMaxColumnSum(m, r)
    ensures r == 7.0
  {
    assert ColumnAbsSum(m, 0, 2) == 3.0 by {
      assert ColumnAbsSum(m, 0, 1) == 1.0;
    }
    assert ColumnAbsSum(m, 1, 2) == 7.0 by {
      assert ColumnAbsSum(m, 1, 1) == 3.0;
    }
  }
}
