/** Dense Rows x Cols matrices of the library (Matrix<T, Rows, Cols> with
    T = real). The C++ class keeps its entries in one flat row-major
    buffer, entry (i, j) at position i * Cols + j; the model keeps the rows
    as a sequence of rows, and Flat() together with FlatLayout recovers the
    buffer and its index arithmetic. A matrix is a value (the C++ class is
    copied on assignment), so a write through the mutable element accessor
    is modelled as m := m.Set(i, j, v). */
module Matrices {
  import opened Vectors

  datatype Grid = Grid(rows: nat, cols: nat, cells: seq<seq<real>>)
  {
    predicate Valid() {
      |cells| == rows && forall i | 0 <= i < rows :: |cells[i]| == cols
    }

    /** The element accessor operator()(i, j). */
    function At(i: nat, j: nat): real
      requires Valid() && i < rows && j < cols
    {
      cells[i][j]
    }

    /** Writing v through operator()(i, j): entry (i, j) becomes v and no
        other entry changes. */
    function Set(i: nat, j: nat, v: real): (r: Matrix)
      requires Valid() && i < rows && j < cols
      ensures r.rows == rows && r.cols == cols
      ensures r.At(i, j) == v
      ensures forall i': nat, j': nat | i' < rows && j' < cols && (i' != i || j' != j) :: r.At(i', j') == At(i', j')
    {
      Grid(rows, cols, cells[i := cells[i][j := v]])
    }

    /** Row i as a vector. */
    function Row(i: nat): (r: Vector)
      requires Valid() && i < rows
      ensures |r| == cols && forall j | 0 <= j < cols :: r[j] == At(i, j)
    {
      cells[i]
    }

    /** Column j as a vector. */
    function Col(j: nat): (r: Vector)
      requires Valid() && j < cols
      ensures |r| == rows && forall i | 0 <= i < rows :: r[i] == At(i, j)
    {
      seq(rows, i requires 0 <= i < rows => At(i, j))
    }

    /** The main diagonal of a square matrix. */
    function Diagonal(): (r: Vector)
      requires Valid() && rows == cols
      ensures |r| == rows && forall i | 0 <= i < rows :: r[i] == At(i, i)
    {
      seq(rows, i requires 0 <= i < rows => At(i, i))
    }

    /** The row-major buffer data_ of the C++ class. */
    function Flat(): (r: seq<real>)
      requires Valid()
      ensures |r| == rows * cols
    {
      Concat(cells, cols)
    }
  }

  type Matrix = m: Grid | m.Valid() witness Grid(0, 0, [])

  /** The rows one after another. */
  function Concat(rs: seq<seq<real>>, cols: nat): (r: seq<real>)
    requires forall i | 0 <= i < |rs| :: |rs[i]| == cols
    ensures |r| == |rs| * cols
  {
    if |rs| == 0 then [] else Concat(rs[..|rs| - 1], cols) + rs[|rs| - 1]
  }

  /** Entry (i, j) of the rows sits at position i * cols + j of Concat. */
  lemma {:induction false} ConcatLayout(rs: seq<seq<real>>, cols: nat, i: nat, j: nat)
    requires forall k | 0 <= k < |rs| :: |rs[k]| == cols
    requires i < |rs| && j < cols
    ensures i * cols + j < |rs| * cols && Concat(rs, cols)[i * cols + j] == rs[i][j]
  {
    var n := |rs|;
    var before := Concat(rs[..n - 1], cols);
    assert |before| == (n - 1) * cols;
    RowStartBefore(cols, i, j, n);
    if i < n - 1 {
      ConcatLayout(rs[..n - 1], cols, i, j);
      RowStartBefore(cols, i, j, n - 1);
    } else {
      assert i * cols + j == |before| + j;
    }
  }

  lemma MulMonotone(a: nat, b: nat, c: nat)
    ensures a <= b ==> a * c <= b * c
  {
  }

  /** Position i * cols + j lies before the start of row n when i < n. */
  lemma RowStartBefore(cols: nat, i: nat, j: nat, n: nat)
    requires j < cols
    ensures i < n ==> i * cols + j < n * cols
  {
    MulMonotone(i + 1, n, cols);
    assert (i + 1) * cols == i * cols + cols;
  }

  /** operator()(i, j) reads position i * Cols + j of the row-major buffer. */
  lemma FlatLayout(m: Matrix, i: nat, j: nat)
    requires i < m.rows && j < m.cols
    ensures i * m.cols + j < m.rows * m.cols && m.Flat()[i * m.cols + j] == m.At(i, j)
  {
    ConcatLayout(m.cells, m.cols, i, j);
  }

  /** Two matrices with the same shape and the same entries are equal. */
  lemma Extensionality(a: Matrix, b: Matrix)
    requires a.rows == b.rows && a.cols == b.cols
    requires forall i: nat, j: nat | i < a.rows && j < a.cols :: a.At(i, j) == b.At(i, j)
    ensures a == b
  {
    forall i | 0 <= i < a.rows
      ensures a.cells[i] == b.cells[i]
    {
      forall j | 0 <= j < a.cols
        ensures a.cells[i][j] == b.cells[i][j]
      {
        assert a.At(i, j) == b.At(i, j);
      }
    }
  }

  /** The matrix whose entry (i, j) is f(i, j). */
  function Build(rows: nat, cols: nat, f: (nat, nat) -> real): (r: Matrix)
    ensures r.rows == rows && r.cols == cols
    ensures forall i: nat, j: nat | i < rows && j < cols :: r.At(i, j) == f(i, j)
  {
    Grid(rows, cols, seq(rows, (i: int) requires 0 <= i < rows => seq(cols, (j: int) requires 0 <= j < cols => f(i, j))))
  }

  // ---------------------------------------------------------------------
  // Reference definitions of the matrix operations

  function IdentityOf(n: nat): (r: Matrix)
    ensures r.rows == n && r.cols == n
    ensures forall i: nat, j: nat | i < n && j < n :: r.At(i, j) == if i == j then 1.0 else 0.0
  {
    Build(n, n, (i: nat, j: nat) => if i == j then 1.0 else 0.0)
  }

  function ConstantOf(rows: nat, cols: nat, c: real): (r: Matrix)
    ensures r.rows == rows && r.cols == cols
    ensures forall i: nat, j: nat | i < rows && j < cols :: r.At(i, j) == c
  {
    Build(rows, cols, (i: nat, j: nat) => c)
  }

  function Sum2(a: Matrix, b: Matrix): (r: Matrix)
    requires a.rows == b.rows && a.cols == b.cols
    ensures r.rows == a.rows && r.cols == a.cols
    ensures forall i: nat, j: nat | i < a.rows && j < a.cols :: r.At(i, j) == a.At(i, j) + b.At(i, j)
  {
    Build(a.rows, a.cols, (i: nat, j: nat) => if i < a.rows && j < a.cols then a.At(i, j) + b.At(i, j) else 0.0)
  }

  function Difference(a: Matrix, b: Matrix): (r: Matrix)
    requires a.rows == b.rows && a.cols == b.cols
    ensures r.rows == a.rows && r.cols == a.cols
    ensures forall i: nat, j: nat | i < a.rows && j < a.cols :: r.At(i, j) == a.At(i, j) - b.At(i, j)
  {
    Build(a.rows, a.cols, (i: nat, j: nat) => if i < a.rows && j < a.cols then a.At(i, j) - b.At(i, j) else 0.0)
  }

  function Scaled(a: Matrix, c: real): (r: Matrix)
    ensures r.rows == a.rows && r.cols == a.cols
    ensures forall i: nat, j: nat | i < a.rows && j < a.cols :: r.At(i, j) == a.At(i, j) * c
  {
    Build(a.rows, a.cols, (i: nat, j: nat) => if i < a.rows && j < a.cols then a.At(i, j) * c else 0.0)
  }

  /** a(i, 0) * v[0] + ... + a(i, t-1) * v[t-1]: the running sum of the
      matrix-vector loop after t steps. */
  function RowDot(m: Matrix, i: nat, v: Vector, t: nat): real
    requires i < m.rows && t <= m.cols && t <= |v|
  {
    if t == 0 then 0.0 else RowDot(m, i, v, t - 1) + m.At(i, t - 1) * v[t - 1]
  }

  /** a(i, 0) * b(0, j) + ... + a(i, t-1) * b(t-1, j): the running sum of
      the product loop after t steps. */
  function EntryDot(a: Matrix, b: Matrix, i: nat, j: nat, t: nat): real
    requires i < a.rows && j < b.cols && t <= a.cols && t <= b.rows
  {
    if t == 0 then 0.0 else EntryDot(a, b, i, j, t - 1) + a.At(i, t - 1) * b.At(t - 1, j)
  }

  /** Entry (i, j) of a * b is the sum over k of a(i, k) * b(k, j). */
  function Product(a: Matrix, b: Matrix): (r: Matrix)
    requires a.cols == b.rows
    ensures r.rows == a.rows && r.cols == b.cols
    ensures forall i: nat, j: nat | i < a.rows && j < b.cols :: r.At(i, j) == EntryDot(a, b, i, j, a.cols)
  {
    Build(a.rows, b.cols, (i: nat, j: nat) => if i < a.rows && j < b.cols then EntryDot(a, b, i, j, a.cols) else 0.0)
  }

  /** Component i of m * v is the sum over j of m(i, j) * v[j]. */
  function Apply(m: Matrix, v: Vector): (r: Vector)
    requires |v| == m.cols
    ensures |r| == m.rows && forall i | 0 <= i < m.rows :: r[i] == RowDot(m, i, v, m.cols)
  {
    seq(m.rows, i requires 0 <= i < m.rows => RowDot(m, i, v, m.cols))
  }

  function Transposed(m: Matrix): (r: Matrix)
    ensures r.rows == m.cols && r.cols == m.rows
    ensures forall i: nat, j: nat | i < m.cols && j < m.rows :: r.At(i, j) == m.At(j, i)
  {
    Build(m.cols, m.rows, (i: nat, j: nat) => if i < m.cols && j < m.rows then m.At(j, i) else 0.0)
  }

  // ---------------------------------------------------------------------
  // Operations of the container, each filling a fresh result in loops

  /** The default-constructed matrix: every entry zero. */
  function Zeros(rows: nat, cols: nat): (r: Matrix)
    ensures r.rows == rows && r.cols == cols
    ensures forall i: nat, j: nat | i < rows && j < cols :: r.At(i, j) == 0.0
  {
    ConstantOf(rows, cols, 0.0)
  }

  method Identity(n: nat) returns (r: Matrix)
    ensures r == IdentityOf(n)
  {
    r := Zeros(n, n);
    for i := 0 to n
      invariant r.rows == n && r.cols == n
      invariant forall p: nat, q: nat | p < n && q < n :: r.At(p, q) == if p == q && p < i then 1.0 else 0.0
    {
      r := r.Set(i, i, 1.0);
    }
    Extensionality(r, IdentityOf(n));
  }

  method Ones(rows: nat, cols: nat) returns (r: Matrix)
    ensures r == ConstantOf(rows, cols, 1.0)
  {
    r := Zeros(rows, cols);
    for i := 0 to rows
      invariant r.rows == rows && r.cols == cols
      invariant forall p: nat, q: nat | p < rows && q < cols :: r.At(p, q) == if p < i then 1.0 else 0.0
    {
      for j := 0 to cols
        invariant r.rows == rows && r.cols == cols
        invariant forall p: nat, q: nat | p < rows && q < cols ::
          r.At(p, q) == if p < i || (p == i && q < j) then 1.0 else 0.0
      {
        r := r.Set(i, j, 1.0);
      }
    }
    Extensionality(r, ConstantOf(rows, cols, 1.0));
  }

  method Add(a: Matrix, b: Matrix) returns (r: Matrix)
    requires a.rows == b.rows && a.cols == b.cols
    ensures r == Sum2(a, b)
  {
    r := Zeros(a.rows, a.cols);
    for i := 0 to a.rows
      invariant r.rows == a.rows && r.cols == a.cols
      invariant forall p: nat, q: nat | p < a.rows && q < a.cols ::
        r.At(p, q) == if p < i then a.At(p, q) + b.At(p, q) else 0.0
    {
      for j := 0 to a.cols
        invariant r.rows == a.rows && r.cols == a.cols
        invariant forall p: nat, q: nat | p < a.rows && q < a.cols ::
          r.At(p, q) == if p < i || (p == i && q < j) then a.At(p, q) + b.At(p, q) else 0.0
      {
        r := r.Set(i, j, a.At(i, j) + b.At(i, j));
      }
    }
    Extensionality(r, Sum2(a, b));
  }

  method Sub(a: Matrix, b: Matrix) returns (r: Matrix)
    requires a.rows == b.rows && a.cols == b.cols
    ensures r == Difference(a, b)
  {
    r := Zeros(a.rows, a.cols);
    for i := 0 to a.rows
      invariant r.rows == a.rows && r.cols == a.cols
      invariant forall p: nat, q: nat | p < a.rows && q < a.cols ::
        r.At(p, q) == if p < i then a.At(p, q) - b.At(p, q) else 0.0
    {
      for j := 0 to a.cols
        invariant r.rows == a.rows && r.cols == a.cols
        invariant forall p: nat, q: nat | p < a.rows && q < a.cols ::
          r.At(p, q) == if p < i || (p == i && q < j) then a.At(p, q) - b.At(p, q) else 0.0
      {
        r := r.Set(i, j, a.At(i, j) - b.At(i, j));
      }
    }
    Extensionality(r, Difference(a, b));
  }

  /** m * scalar. */
  method Scale(m: Matrix, c: real) returns (r: Matrix)
    ensures r == Scaled(m, c)
  {
    r := Zeros(m.rows, m.cols);
    for i := 0 to m.rows
      invariant r.rows == m.rows && r.cols == m.cols
      invariant forall p: nat, q: nat | p < m.rows && q < m.cols ::
        r.At(p, q) == if p < i then m.At(p, q) * c else 0.0
    {
      for j := 0 to m.cols
        invariant r.rows == m.rows && r.cols == m.cols
        invariant forall p: nat, q: nat | p < m.rows && q < m.cols ::
          r.At(p, q) == if p < i || (p == i && q < j) then m.At(p, q) * c else 0.0
      {
        r := r.Set(i, j, m.At(i, j) * c);
      }
    }
    Extensionality(r, Scaled(m, c));
  }

  /** scalar * m delegates to m * scalar. */
  method ScalarTimes(c: real, m: Matrix) returns (r: Matrix)
    ensures r == Scaled(m, c)
  {
    r := Scale(m, c);
  }

  /** The matrix product: a triple loop with a running sum per entry. */
  method Multiply(a: Matrix, b: Matrix) returns (r: Matrix)
    requires a.cols == b.rows
    ensures r == Product(a, b)
  {
    ghost var target := Product(a, b);
    r := Zeros(a.rows, b.cols);
    for i := 0 to a.rows
      invariant r.rows == a.rows && r.cols == b.cols
      invariant forall p: nat, q: nat | p < a.rows && q < b.cols ::
        r.At(p, q) == if p < i then target.At(p, q) else 0.0
    {
      for j := 0 to b.cols
        invariant r.rows == a.rows && r.cols == b.cols
        invariant forall p: nat, q: nat | p < a.rows && q < b.cols ::
          r.At(p, q) == if p < i || (p == i && q < j) then target.At(p, q) else 0.0
      {
        var sum := EntrySum(a, b, i, j);
        r := r.Set(i, j, sum);
      }
    }
    Extensionality(r, target);
  }

  /** The innermost loop of the product: the running sum for entry (i, j). */
  method EntrySum(a: Matrix, b: Matrix, i: nat, j: nat) returns (sum: real)
    requires a.cols == b.rows && i < a.rows && j < b.cols
    ensures sum == EntryDot(a, b, i, j, a.cols)
  {
    sum := 0.0;
    for k := 0 to a.cols
      invariant sum == EntryDot(a, b, i, j, k)
    {
      sum := sum + a.At(i, k) * b.At(k, j);
    }
  }

  /** Matrix times vector. */
  method MulVec(m: Matrix, v: Vector) returns (r: Vector)
    requires |v| == m.cols
    ensures r == Apply(m, v)
  {
    r := Zero(m.rows);
    for i := 0 to m.rows
      invariant |r| == m.rows
      invariant forall p | 0 <= p < i :: r[p] == RowDot(m, p, v, m.cols)
    {
      var sum := 0.0;
      for j := 0 to m.cols
        invariant sum == RowDot(m, i, v, j)
      {
        sum := sum + m.At(i, j) * v[j];
      }
      r := r[i := sum];
    }
  }

  method Transpose(m: Matrix) returns (r: Matrix)
    ensures r == Transposed(m)
  {
    r := Zeros(m.cols, m.rows);
    for i := 0 to m.rows
      invariant r.rows == m.cols && r.cols == m.rows
      invariant forall p: nat, q: nat | p < m.cols && q < m.rows :: r.At(p, q) == if q < i then m.At(q, p) else 0.0
    {
      for j := 0 to m.cols
        invariant r.rows == m.cols && r.cols == m.rows
        invariant forall p: nat, q: nat | p < m.cols && q < m.rows ::
          r.At(p, q) == if q < i || (q == i && p < j) then m.At(q, p) else 0.0
      {
        r := r.Set(j, i, m.At(i, j));
      }
    }
    Extensionality(r, Transposed(m));
  }

  /** The sum of the diagonal of a square matrix. */
  method Trace(m: Matrix) returns (sum: real)
    requires m.rows == m.cols
    ensures sum == Sum(m.Diagonal())
  {
    sum := 0.0;
    var d := m.Diagonal();
    for i := 0 to m.rows
      invariant sum == SumTo(d, i)
    {
      sum := sum + m.At(i, i);
    }
  }

  /** Entrywise comparison with early exit. */
  method Equal(a: Matrix, b: Matrix) returns (eq: bool)
    requires a.rows == b.rows && a.cols == b.cols
    ensures eq <==> a == b
  {
    for i := 0 to a.rows
      invariant forall p: nat, q: nat | p < i && q < a.cols :: a.At(p, q) == b.At(p, q)
    {
      for j := 0 to a.cols
        invariant forall p: nat, q: nat | (p < i || (p == i && q < j)) && q < a.cols :: a.At(p, q) == b.At(p, q)
      {
        if a.At(i, j) != b.At(i, j) {
          return false;
        }
      }
    }
    Extensionality(a, b);
    return true;
  }

  // ---------------------------------------------------------------------
  // Properties of the reference definitions

  /** Partial sums of a row of the identity times a column of a. */
  lemma {:induction false} IdentityLeftPartial(a: Matrix, i: nat, j: nat, t: nat)
    requires i < a.rows && j < a.cols && t <= a.rows
    ensures EntryDot(IdentityOf(a.rows), a, i, j, t) == if i < t then a.At(i, j) else 0.0
  {
    if t > 0 {
      IdentityLeftPartial(a, i, j, t - 1);
    }
  }

  lemma {:induction false} IdentityRightPartial(a: Matrix, i: nat, j: nat, t: nat)
    requires i < a.rows && j < a.cols && t <= a.cols
    ensures EntryDot(a, IdentityOf(a.cols), i, j, t) == if j < t then a.At(i, j) else 0.0
  {
    if t > 0 {
      IdentityRightPartial(a, i, j, t - 1);
    }
  }

  /** Partial sums over the same factors agree: row i of a against
      column j of b, and row i' of a' against column j' of b'. */
  lemma {:induction false} EntryDotAgree(a: Matrix, b: Matrix, a': Matrix, b': Matrix, i: nat, i': nat, j: nat, j': nat, t: nat)
    requires i < a.rows && j < b.cols && t <= a.cols && t <= b.rows
    requires i' < a'.rows && j' < b'.cols && t <= a'.cols && t <= b'.rows
    requires forall s: nat | s < t :: a.At(i, s) == a'.At(i', s) && b.At(s, j) == b'.At(s, j')
    ensures EntryDot(a, b, i, j, t) == EntryDot(a', b', i', j', t)
  {
    if t > 0 {
      EntryDotAgree(a, b, a', b', i, i', j, j', t - 1);
      MulCongruence(a.At(i, t - 1), b.At(t - 1, j), b'.At(t - 1, j'));
    }
  }

  /** The identity is a two-sided unit of the product. */
  lemma IdentityUnit(a: Matrix)
    ensures Product(IdentityOf(a.rows), a) == a
    ensures Product(a, IdentityOf(a.cols)) == a
  {
    var left := Product(IdentityOf(a.rows), a);
    forall i: nat, j: nat | i < a.rows && j < a.cols
      ensures left.At(i, j) == a.At(i, j)
    {
      IdentityLeftPartial(a, i, j, a.rows);
    }
    Extensionality(left, a);
    var right := Product(a, IdentityOf(a.cols));
    forall i: nat, j: nat | i < a.rows && j < a.cols
      ensures right.At(i, j) == a.At(i, j)
    {
      IdentityRightPartial(a, i, j, a.cols);
    }
    Extensionality(right, a);
  }

  lemma TransposeInvolution(m: Matrix)
    ensures Transposed(Transposed(m)) == m
  {
    Extensionality(Transposed(Transposed(m)), m);
  }

  /** Scaling by c then by 1/c gives back the matrix. */
  lemma ScaleInverse(m: Matrix, c: real)
    requires c != 0.0
    ensures Scaled(Scaled(m, c), 1.0 / c) == m
  {
    forall i: nat, j: nat | i < m.rows && j < m.cols
      ensures Scaled(Scaled(m, c), 1.0 / c).At(i, j) == m.At(i, j)
    {
      assert m.At(i, j) * c * (1.0 / c) == m.At(i, j);
    }
    Extensionality(Scaled(Scaled(m, c), 1.0 / c), m);
  }

  lemma DifferenceUndoesSum(a: Matrix, b: Matrix)
    requires a.rows == b.rows && a.cols == b.cols
    ensures Difference(Sum2(a, b), b) == a
  {
    Extensionality(Difference(Sum2(a, b), b), a);
  }

  lemma ProductExample()
    ensures Product(Grid(2, 2, [[1.0, 2.0], [3.0, 4.0]]), Grid(2, 2, [[5.0, 6.0], [7.0, 8.0]]))
         == Grid(2, 2, [[19.0, 22.0], [43.0, 50.0]])
  {
    var a: Matrix := Grid(2, 2, [[1.0, 2.0], [3.0, 4.0]]);
    var b: Matrix := Grid(2, 2, [[5.0, 6.0], [7.0, 8.0]]);
    var c: Matrix := Grid(2, 2, [[19.0, 22.0], [43.0, 50.0]]);
    var p := Product(a, b);
    EntryDot2(a, b, 0, 0);
    EntryDot2(a, b, 0, 1);
    EntryDot2(a, b, 1, 0);
    EntryDot2(a, b, 1, 1);
    assert p.At(0, 0) == 19.0 && p.At(0, 1) == 22.0 && p.At(1, 0) == 43.0 && p.At(1, 1) == 50.0;
    Extensionality(p, c);
  }

  lemma EntryDot2(a: Matrix, b: Matrix, i: nat, j: nat)
    requires a.cols == 2 && b.rows == 2 && i < a.rows && j < b.cols
    ensures EntryDot(a, b, i, j, 2) == a.At(i, 0) * b.At(0, j) + a.At(i, 1) * b.At(1, j)
  {
    assert EntryDot(a, b, i, j, 1) == a.At(i, 0) * b.At(0, j);
  }

  lemma ApplyExample()
    ensures Apply(Grid(2, 2, [[1.0, 2.0], [3.0, 4.0]]), [5.0, 6.0]) == [17.0, 39.0]
  {
    var m: Matrix := Grid(2, 2, [[1.0, 2.0], [3.0, 4.0]]);
    assert RowDot(m, 0, [5.0, 6.0], 1) == 5.0;
    assert RowDot(m, 1, [5.0, 6.0], 1) == 15.0;
  }

  /** (a * b) * x == a * (b * x): the product acts as composition. */
  lemma ApplyProduct(a: Matrix, b: Matrix, x: Vector)
    requires a.cols == b.rows && |x| == b.cols
    ensures Apply(Product(a, b), x) == Apply(a, Apply(b, x))
  {
    var p := Product(a, b);
    var y := Apply(b, x);
    forall i | 0 <= i < a.rows
      ensures RowDot(p, i, x, b.cols) == RowDot(a, i, y, a.cols)
    {
      PartialProductTimes(a, b, x, i, a.cols);
      RowDotAsDot(p, i, x, b.cols);
      DotToAgree(p.Row(i), x, PartialRow(a, b, i, a.cols), x, b.cols);
    }
  }

  /** The row of running sums of a * b after t steps of the product loop. */
  function PartialRow(a: Matrix, b: Matrix, i: nat, t: nat): (w: Vector)
    requires a.cols == b.rows && i < a.rows && t <= a.cols
    ensures |w| == b.cols && forall j | 0 <= j < b.cols :: w[j] == EntryDot(a, b, i, j, t)
  {
    seq(b.cols, j requires 0 <= j < b.cols => EntryDot(a, b, i, j, t))
  }

  /** The sum RowDot is the dot product of the row with the vector. */
  lemma {:induction false} RowDotAsDot(m: Matrix, i: nat, v: Vector, t: nat)
    requires i < m.rows && t <= m.cols && t <= |v|
    ensures RowDot(m, i, v, t) == DotTo(m.Row(i), v, t)
  {
    if t > 0 {
      RowDotAsDot(m, i, v, t - 1);
      MulCongruence(v[t - 1], m.At(i, t - 1), m.Row(i)[t - 1]);
    }
  }

  /** Exchanging the order of the double sum, t terms at a time. */
  lemma {:induction false} PartialProductTimes(a: Matrix, b: Matrix, x: Vector, i: nat, t: nat)
    requires a.cols == b.rows && |x| == b.cols && i < a.rows && t <= a.cols
    ensures DotTo(PartialRow(a, b, i, t), x, b.cols) == RowDot(a, i, Apply(b, x), t)
  {
    var y := Apply(b, x);
    if t == 0 {
      DotToZeroLeft(PartialRow(a, b, i, 0), x, b.cols);
    } else {
      PartialProductTimes(a, b, x, i, t - 1);
      PartialRowStep(a, b, x, i, t);
      RowDotAsDot(b, t - 1, x, b.cols);
      MulCongruence(a.At(i, t - 1), y[t - 1], DotTo(b.Row(t - 1), x, b.cols));
    }
  }

  /** One more step of the product loop adds a(i, t-1) times row t-1 of b. */
  lemma PartialRowStep(a: Matrix, b: Matrix, x: Vector, i: nat, t: nat)
    requires a.cols == b.rows && |x| == b.cols && i < a.rows && 0 < t <= a.cols
    ensures DotTo(PartialRow(a, b, i, t), x, b.cols)
         == DotTo(PartialRow(a, b, i, t - 1), x, b.cols) + a.At(i, t - 1) * DotTo(b.Row(t - 1), x, b.cols)
  {
    var cur, prev, row, c := PartialRow(a, b, i, t), PartialRow(a, b, i, t - 1), b.Row(t - 1), a.At(i, t - 1);
    forall j | 0 <= j < b.cols
      ensures cur[j] == prev[j] + c * row[j]
    {
      PartialRowEntry(a, b, i, t, j);
    }
    DotToCombination(cur, prev, row, c, x, b.cols);
  }

  lemma PartialRowEntry(a: Matrix, b: Matrix, i: nat, t: nat, j: nat)
    requires a.cols == b.rows && i < a.rows && 0 < t <= a.cols && j < b.cols
    ensures PartialRow(a, b, i, t)[j] == PartialRow(a, b, i, t - 1)[j] + a.At(i, t - 1) * b.Row(t - 1)[j]
  {
    MulCongruence(a.At(i, t - 1), b.Row(t - 1)[j], b.At(t - 1, j));
  }
}
