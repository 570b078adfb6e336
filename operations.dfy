/** Free functions of the linear-algebra layer on square matrices: the
    determinant (closed forms up to 3 x 3, first-row cofactor expansion
    above), the adjugate inverses of 2 x 2 and 3 x 3 matrices, and the
    transpose and trace wrappers. */
module Operations {
  import opened Vectors
  import opened Matrices

  // ---------------------------------------------------------------------
  // Reference definition: cofactor expansion along the first row

  /** The sign of cofactor j of the first row. */
  function Sign(j: nat): (s: real)
    ensures s == 1.0 || s == -1.0
    ensures (s == 1.0) <==> j % 2 == 0
  {
    if j % 2 == 0 then 1.0 else -1.0
  }

  /** The matrix m with row 0 and column j removed. */
  function Minor(m: Matrix, j: nat): (r: Matrix)
    requires m.rows == m.cols && 0 < m.rows && j < m.cols
    ensures r.rows == m.rows - 1 && r.cols == m.cols - 1
    ensures forall i: nat, k: nat | i < r.rows && k < r.cols ::
      r.At(i, k) == m.At(i + 1, if k < j then k else k + 1)
  {
    Build(m.rows - 1, m.cols - 1,
      (i: nat, k: nat) => if i + 1 < m.rows && k + 1 < m.cols then m.At(i + 1, if k < j then k else k + 1) else 0.0)
  }

  /** The determinant of a non-empty square matrix, expanded along row 0. */
  function Laplace(m: Matrix): real
    requires m.rows == m.cols && 0 < m.rows
    decreases m.rows, 2
  {
    if m.rows == 1 then m.At(0, 0) else CofactorSum(m, m.cols)
  }

  /** The first t terms of the expansion along row 0. */
  function CofactorSum(m: Matrix, t: nat): real
    requires m.rows == m.cols && 1 < m.rows && t <= m.cols
    decreases m.rows, 1, t
  {
    if t == 0 then 0.0 else CofactorSum(m, t - 1) + Cofactor(m, t - 1)
  }

  /** Term j of the expansion: (-1)^j * m(0, j) * det(minor j). */
  function Cofactor(m: Matrix, j: nat): real
    requires m.rows == m.cols && 1 < m.rows && j < m.cols
    decreases m.rows, 0
  {
    Sign(j) * m.At(0, j) * Laplace(Minor(m, j))
  }

  // ---------------------------------------------------------------------
  // The closed forms agree with the expansion

  function Det2(m: Matrix): real
    requires m.rows == 2 && m.cols == 2
  {
    m.At(0, 0) * m.At(1, 1) - m.At(0, 1) * m.At(1, 0)
  }

  function Det3(m: Matrix): real
    requires m.rows == 3 && m.cols == 3
  {
    m.At(0, 0) * (m.At(1, 1) * m.At(2, 2) - m.At(1, 2) * m.At(2, 1))
    - m.At(0, 1) * (m.At(1, 0) * m.At(2, 2) - m.At(1, 2) * m.At(2, 0))
    + m.At(0, 2) * (m.At(1, 0) * m.At(2, 1) - m.At(1, 1) * m.At(2, 0))
  }

  lemma Det2IsLaplace(m: Matrix)
    requires m.rows == 2 && m.cols == 2
    ensures Laplace(m) == Det2(m)
  {
    CofactorOfOne(m, 0, m.At(1, 1));
    CofactorOfOne(m, 1, m.At(1, 0));
    assert CofactorSum(m, 1) == Cofactor(m, 0);
    assert CofactorSum(m, 2) == CofactorSum(m, 1) + Cofactor(m, 1);
  }

  /** A cofactor with its sign resolved. */
  lemma CofactorValue(m: Matrix, j: nat, v: real)
    requires m.rows == m.cols && 1 < m.rows && j < m.cols
    requires Laplace(Minor(m, j)) == v
    ensures j % 2 == 0 ==> Cofactor(m, j) == m.At(0, j) * v
    ensures j % 2 == 1 ==> Cofactor(m, j) == -(m.At(0, j) * v)
  {
    MulCongruence(Sign(j) * m.At(0, j), Laplace(Minor(m, j)), v);
  }

  /** A cofactor of a 2 x 2 matrix: its minor is the single opposite entry. */
  lemma CofactorOfOne(m: Matrix, j: nat, v: real)
    requires m.rows == 2 && m.cols == 2 && j < 2
    requires v == m.At(1, 1 - j)
    ensures j % 2 == 0 ==> Cofactor(m, j) == m.At(0, j) * v
    ensures j % 2 == 1 ==> Cofactor(m, j) == -(m.At(0, j) * v)
  {
    assert Laplace(Minor(m, j)) == v;
    CofactorValue(m, j, v);
  }

  /** The two columns of a 3 x 3 matrix other than j, in order. */
  function Others(j: nat): (p: (nat, nat))
    requires j < 3
    ensures p.0 < p.1 < 3 && p.0 != j && p.1 != j
  {
    if j == 0 then (1, 2) else if j == 1 then (0, 2) else (0, 1)
  }

  /** A cofactor of a 3 x 3 matrix through the closed form of its minor. */
  lemma CofactorOfTwo(m: Matrix, j: nat, v: real)
    requires m.rows == 3 && m.cols == 3 && j < 3
    requires v == m.At(1, Others(j).0) * m.At(2, Others(j).1) - m.At(1, Others(j).1) * m.At(2, Others(j).0)
    ensures j % 2 == 0 ==> Cofactor(m, j) == m.At(0, j) * v
    ensures j % 2 == 1 ==> Cofactor(m, j) == -(m.At(0, j) * v)
  {
    var minor := Minor(m, j);
    assert minor.At(0, 0) == m.At(1, Others(j).0) && minor.At(1, 1) == m.At(2, Others(j).1);
    assert minor.At(0, 1) == m.At(1, Others(j).1) && minor.At(1, 0) == m.At(2, Others(j).0);
    Det2IsLaplace(minor);
    CofactorValue(m, j, v);
  }

  lemma Det3IsLaplace(m: Matrix)
    requires m.rows == 3 && m.cols == 3
    ensures Laplace(m) == Det3(m)
  {
    var d, e, f := m.At(1, 0), m.At(1, 1), m.At(1, 2);
    var g, h, k := m.At(2, 0), m.At(2, 1), m.At(2, 2);
    CofactorOfTwo(m, 0, e * k - f * h);
    CofactorOfTwo(m, 1, d * k - f * g);
    CofactorOfTwo(m, 2, d * h - e * g);
    ThreeCofactors(m);
  }

  /** The expansion of a 3 x 3 matrix has three terms. */
  lemma ThreeCofactors(m: Matrix)
    requires m.rows == 3 && m.cols == 3
    ensures Laplace(m) == Cofactor(m, 0) + Cofactor(m, 1) + Cofactor(m, 2)
  {
    assert CofactorSum(m, 1) == Cofactor(m, 0);
    assert CofactorSum(m, 2) == CofactorSum(m, 1) + Cofactor(m, 1);
  }

  lemma Det2Example(m: Matrix)
    requires m == Grid(2, 2, [[1.0, 2.0], [3.0, 4.0]])
    ensures Laplace(m) == -2.0
  {
    Det2IsLaplace(m);
  }

  lemma Det3Example(m: Matrix)
    requires m == Grid(3, 3, [[1.0, 2.0, 3.0], [0.0, 1.0, 4.0], [5.0, 6.0, 0.0]])
    ensures Laplace(m) == 1.0
  {
    Det3IsLaplace(m);
    Entries3(m, 1.0, 2.0, 3.0, 0.0, 1.0, 4.0, 5.0, 6.0, 0.0);
  }

  // ---------------------------------------------------------------------
  // The determinant routine

  /** The sub-matrix of the N > 3 branch: rows 1.. of m, skipping column j,
      written through a running column index. */
  method BuildMinor(m: Matrix, j: nat) returns (sub: Matrix)
    requires m.rows == m.cols && 0 < m.rows && j < m.cols
    ensures sub == Minor(m, j)
  {
    var n := m.rows;
    sub := Zeros(n - 1, n - 1);
    for i := 1 to n
      invariant sub.rows == n - 1 && sub.cols == n - 1
      invariant forall p: nat, q: nat | p < n - 1 && q < n - 1 ::
        sub.At(p, q) == if p < i - 1 then Minor(m, j).At(p, q) else 0.0
    {
      var colIdx := 0;
      for k := 0 to n
        invariant colIdx == if k <= j then k else k - 1
        invariant sub.rows == n - 1 && sub.cols == n - 1
        invariant forall p: nat, q: nat | p < n - 1 && q < n - 1 ::
          sub.At(p, q) == if p < i - 1 || (p == i - 1 && q < colIdx) then Minor(m, j).At(p, q) else 0.0
      {
        if k == j {
          continue;
        }
        sub := sub.Set(i - 1, colIdx, m.At(i, k));
        colIdx := colIdx + 1;
      }
    }
    Extensionality(sub, Minor(m, j));
  }

  /** determinant(m): closed forms for N = 1, 2, 3, otherwise the loop over
      the first row with a recursive call on each minor. */
  method Determinant(m: Matrix) returns (det: real)
    requires m.rows == m.cols && 0 < m.rows
    ensures det == Laplace(m)
    decreases m.rows
  {
    var n := m.rows;
    if n == 1 {
      det := m.At(0, 0);
    } else if n == 2 {
      det := m.At(0, 0) * m.At(1, 1) - m.At(0, 1) * m.At(1, 0);
      Det2IsLaplace(m);
    } else if n == 3 {
      det := m.At(0, 0) * (m.At(1, 1) * m.At(2, 2) - m.At(1, 2) * m.At(2, 1))
           - m.At(0, 1) * (m.At(1, 0) * m.At(2, 2) - m.At(1, 2) * m.At(2, 0))
           + m.At(0, 2) * (m.At(1, 0) * m.At(2, 1) - m.At(1, 1) * m.At(2, 0));
      Det3IsLaplace(m);
    } else {
      det := 0.0;
      for j := 0 to n
        invariant det == CofactorSum(m, j)
      {
        var sub := BuildMinor(m, j);
        var sign := if j % 2 == 0 then 1.0 else -1.0;
        var subDet := Determinant(sub);
        MulCongruence(sign * m.At(0, j), subDet, Laplace(Minor(m, j)));
        det := det + sign * m.At(0, j) * subDet;
      }
    }
  }

  // ---------------------------------------------------------------------
  // Closed-form inverses

  /** Entry (i, j) of a product whose inner dimension is 2, through named
      factors. */
  lemma ProductEntry2(m: Matrix, r: Matrix, i: nat, j: nat, x0: real, x1: real, y0: real, y1: real)
    requires m.cols == 2 && r.rows == 2 && i < m.rows && j < r.cols
    requires x0 == m.At(i, 0) && x1 == m.At(i, 1) && y0 == r.At(0, j) && y1 == r.At(1, j)
    ensures Product(m, r).At(i, j) == x0 * y0 + x1 * y1
  {
    EntryDot2(m, r, i, j);
  }

  /** Entry (i, j) of a product whose inner dimension is 3, through named
      factors. */
  lemma ProductEntry3(m: Matrix, r: Matrix, i: nat, j: nat, x0: real, x1: real, x2: real, y0: real, y1: real, y2: real)
    requires m.cols == 3 && r.rows == 3 && i < m.rows && j < r.cols
    requires x0 == m.At(i, 0) && x1 == m.At(i, 1) && x2 == m.At(i, 2)
    requires y0 == r.At(0, j) && y1 == r.At(1, j) && y2 == r.At(2, j)
    ensures Product(m, r).At(i, j) == x0 * y0 + x1 * y1 + x2 * y2
  {
    EntryDot3(m, r, i, j);
  }

  lemma EntryDot3(a: Matrix, b: Matrix, i: nat, j: nat)
    requires a.cols == 3 && b.rows == 3 && i < a.rows && j < b.cols
    ensures EntryDot(a, b, i, j, 3) == a.At(i, 0) * b.At(0, j) + a.At(i, 1) * b.At(1, j) + a.At(i, 2) * b.At(2, j)
  {
    assert EntryDot(a, b, i, j, 1) == a.At(i, 0) * b.At(0, j);
    assert EntryDot(a, b, i, j, 2) == EntryDot(a, b, i, j, 1) + a.At(i, 1) * b.At(1, j);
  }

  /** A row against a column scaled by 1 / det: the unscaled sum over det,
      which is 1 when that sum is det and 0 when it is 0. */
  lemma ScaledSum(x0: real, x1: real, x2: real, c0: real, c1: real, c2: real, det: real, diagonal: bool)
    requires det != 0.0
    requires x0 * c0 + x1 * c1 + x2 * c2 == if diagonal then det else 0.0
    ensures x0 * (c0 / det) + x1 * (c1 / det) + x2 * (c2 / det) == if diagonal then 1.0 else 0.0
  {
    assert x0 * (c0 / det) + x1 * (c1 / det) + x2 * (c2 / det) == (x0 * c0 + x1 * c1 + x2 * c2) / det;
  }

  /** The 2 x 2 inverse: the adjugate divided by the determinant. */
  function Inverse2(m: Matrix): (r: Matrix)
    requires m.rows == 2 && m.cols == 2 && Det2(m) != 0.0
    ensures r.rows == 2 && r.cols == 2
    ensures Product(m, r) == IdentityOf(2)
  {
    var a, b, c, d, det := m.At(0, 0), m.At(0, 1), m.At(1, 0), m.At(1, 1), Det2(m);
    var r: Matrix := Grid(2, 2, [[d / det, -b / det], [-c / det, a / det]]);
    Inverse2Right(m, r, a, b, c, d, det);
    r
  }

  lemma Inverse2Right(m: Matrix, r: Matrix, a: real, b: real, c: real, d: real, det: real)
    requires m.rows == 2 && m.cols == 2
    requires a == m.At(0, 0) && b == m.At(0, 1) && c == m.At(1, 0) && d == m.At(1, 1)
    requires det == a * d - b * c && det != 0.0
    requires r == Grid(2, 2, [[d / det, -b / det], [-c / det, a / det]])
    ensures Product(m, r) == IdentityOf(2)
  {
    var p := Product(m, r);
    ProductEntry2(m, r, 0, 0, a, b, d / det, -c / det);
    ProductEntry2(m, r, 0, 1, a, b, -b / det, a / det);
    ProductEntry2(m, r, 1, 0, c, d, d / det, -c / det);
    ProductEntry2(m, r, 1, 1, c, d, -b / det, a / det);
    Cancel2(a, b, c, d, det);
    assert p.At(0, 0) == 1.0 && p.At(0, 1) == 0.0 && p.At(1, 0) == 0.0 && p.At(1, 1) == 1.0;
    Extensionality(p, IdentityOf(2));
  }

  lemma Cancel2(a: real, b: real, c: real, d: real, det: real)
    requires det == a * d - b * c && det != 0.0
    ensures a * (d / det) + b * (-c / det) == 1.0
    ensures a * (-b / det) + b * (a / det) == 0.0
    ensures c * (d / det) + d * (-c / det) == 0.0
    ensures c * (-b / det) + d * (a / det) == 1.0
  {
    assert a * (d / det) + b * (-c / det) == (a * d - b * c) / det;
    assert a * (-b / det) + b * (a / det) == (b * a - a * b) / det;
    assert c * (d / det) + d * (-c / det) == (c * d - d * c) / det;
    assert c * (-b / det) + d * (a / det) == (a * d - b * c) / det;
  }

  /** The entries of a 3 x 3 matrix written as a display. */
  lemma Entries3(r: Matrix, x00: real, x01: real, x02: real, x10: real, x11: real, x12: real, x20: real, x21: real, x22: real)
    requires r == Grid(3, 3, [[x00, x01, x02], [x10, x11, x12], [x20, x21, x22]])
    ensures r.At(0, 0) == x00 && r.At(0, 1) == x01 && r.At(0, 2) == x02
    ensures r.At(1, 0) == x10 && r.At(1, 1) == x11 && r.At(1, 2) == x12
    ensures r.At(2, 0) == x20 && r.At(2, 1) == x21 && r.At(2, 2) == x22
  {
  }

  /** The 3 x 3 inverse: each entry a cofactor of the transpose divided by
      the determinant. */
  function Inverse3(m: Matrix): (r: Matrix)
    requires m.rows == 3 && m.cols == 3 && Det3(m) != 0.0
    ensures r.rows == 3 && r.cols == 3
    ensures Product(m, r) == IdentityOf(3)
  {
    var a, b, c := m.At(0, 0), m.At(0, 1), m.At(0, 2);
    var d, e, f := m.At(1, 0), m.At(1, 1), m.At(1, 2);
    var g, h, k := m.At(2, 0), m.At(2, 1), m.At(2, 2);
    var det := Det3(m);
    var r: Matrix := Grid(3, 3, [[(e * k - f * h) / det, (c * h - b * k) / det, (b * f - c * e) / det],
                                 [(f * g - d * k) / det, (a * k - c * g) / det, (c * d - a * f) / det],
                                 [(d * h - e * g) / det, (b * g - a * h) / det, (a * e - b * d) / det]]);
    Inverse3Right(m, r, a, b, c, d, e, f, g, h, k, det);
    r
  }

  lemma Inverse3Right(m: Matrix, r: Matrix, a: real, b: real, c: real, d: real, e: real, f: real, g: real, h: real, k: real, det: real)
    requires m.rows == 3 && m.cols == 3
    requires a == m.At(0, 0) && b == m.At(0, 1) && c == m.At(0, 2)
    requires d == m.At(1, 0) && e == m.At(1, 1) && f == m.At(1, 2)
    requires g == m.At(2, 0) && h == m.At(2, 1) && k == m.At(2, 2)
    requires det == a * (e * k - f * h) - b * (d * k - f * g) + c * (d * h - e * g) && det != 0.0
    requires r == Grid(3, 3, [[(e * k - f * h) / det, (c * h - b * k) / det, (b * f - c * e) / det],
                              [(f * g - d * k) / det, (a * k - c * g) / det, (c * d - a * f) / det],
                              [(d * h - e * g) / det, (b * g - a * h) / det, (a * e - b * d) / det]])
    ensures Product(m, r) == IdentityOf(3)
  {
    var p := Product(m, r);
    Entries3(r, (e * k - f * h) / det, (c * h - b * k) / det, (b * f - c * e) / det,
                (f * g - d * k) / det, (a * k - c * g) / det, (c * d - a * f) / det,
                (d * h - e * g) / det, (b * g - a * h) / det, (a * e - b * d) / det);
    Inverse3Column(m, r, 0, a, b, c, d, e, f, g, h, k, e * k - f * h, f * g - d * k, d * h - e * g, det);
    Inverse3Column(m, r, 1, a, b, c, d, e, f, g, h, k, c * h - b * k, a * k - c * g, b * g - a * h, det);
    Inverse3Column(m, r, 2, a, b, c, d, e, f, g, h, k, b * f - c * e, c * d - a * f, a * e - b * d, det);
    Extensionality(p, IdentityOf(3));
  }

  /** Column j of m * r, where column j of r is (c0, c1, c2) / det and row j
      of m is the only row that column is not orthogonal to. */
  lemma Inverse3Column(m: Matrix, r: Matrix, j: nat, a: real, b: real, c: real, d: real, e: real, f: real, g: real, h: real, k: real,
                       c0: real, c1: real, c2: real, det: real)
    requires m.rows == 3 && m.cols == 3 && r.rows == 3 && r.cols == 3 && j < 3 && det != 0.0
    requires a == m.At(0, 0) && b == m.At(0, 1) && c == m.At(0, 2)
    requires d == m.At(1, 0) && e == m.At(1, 1) && f == m.At(1, 2)
    requires g == m.At(2, 0) && h == m.At(2, 1) && k == m.At(2, 2)
    requires r.At(0, j) == c0 / det && r.At(1, j) == c1 / det && r.At(2, j) == c2 / det
    requires det == a * (e * k - f * h) - b * (d * k - f * g) + c * (d * h - e * g)
    requires j == 0 ==> c0 == e * k - f * h && c1 == f * g - d * k && c2 == d * h - e * g
    requires j == 1 ==> c0 == c * h - b * k && c1 == a * k - c * g && c2 == b * g - a * h
    requires j == 2 ==> c0 == b * f - c * e && c1 == c * d - a * f && c2 == a * e - b * d
    ensures Product(m, r).At(0, j) == if j == 0 then 1.0 else 0.0
    ensures Product(m, r).At(1, j) == if j == 1 then 1.0 else 0.0
    ensures Product(m, r).At(2, j) == if j == 2 then 1.0 else 0.0
  {
    AdjugateColumn(a, b, c, d, e, f, g, h, k, j, c0, c1, c2, det);
    Inverse3Entry(m, r, 0, j, a, b, c, c0, c1, c2, det, j == 0);
    Inverse3Entry(m, r, 1, j, d, e, f, c0, c1, c2, det, j == 1);
    Inverse3Entry(m, r, 2, j, g, h, k, c0, c1, c2, det, j == 2);
  }

  /** Entry (i, j) of m * r from row i of m and column j of r. */
  lemma Inverse3Entry(m: Matrix, r: Matrix, i: nat, j: nat, x0: real, x1: real, x2: real,
                      c0: real, c1: real, c2: real, det: real, diagonal: bool)
    requires m.rows == 3 && m.cols == 3 && r.rows == 3 && r.cols == 3 && i < 3 && j < 3 && det != 0.0
    requires x0 == m.At(i, 0) && x1 == m.At(i, 1) && x2 == m.At(i, 2)
    requires r.At(0, j) == c0 / det && r.At(1, j) == c1 / det && r.At(2, j) == c2 / det
    requires x0 * c0 + x1 * c1 + x2 * c2 == if diagonal then det else 0.0
    ensures Product(m, r).At(i, j) == if diagonal then 1.0 else 0.0
  {
    ProductEntry3(m, r, i, j, x0, x1, x2, c0 / det, c1 / det, c2 / det);
    ScaledSum(x0, x1, x2, c0, c1, c2, det, diagonal);
  }

  /** Rows of m against column j of the adjugate: det for row j, 0 for the
      other two. */
  lemma AdjugateColumn(a: real, b: real, c: real, d: real, e: real, f: real, g: real, h: real, k: real,
                       j: nat, c0: real, c1: real, c2: real, det: real)
    requires j < 3
    requires det == a * (e * k - f * h) - b * (d * k - f * g) + c * (d * h - e * g)
    requires j == 0 ==> c0 == e * k - f * h && c1 == f * g - d * k && c2 == d * h - e * g
    requires j == 1 ==> c0 == c * h - b * k && c1 == a * k - c * g && c2 == b * g - a * h
    requires j == 2 ==> c0 == b * f - c * e && c1 == c * d - a * f && c2 == a * e - b * d
    ensures a * c0 + b * c1 + c * c2 == if j == 0 then det else 0.0
    ensures d * c0 + e * c1 + f * c2 == if j == 1 then det else 0.0
    ensures g * c0 + h * c1 + k * c2 == if j == 2 then det else 0.0
  {
    if j == 0 {
      AdjugateColumn0(a, b, c, d, e, f, g, h, k);
    } else if j == 1 {
      AdjugateColumn1(a, b, c, d, e, f, g, h, k);
    } else {
      AdjugateColumn2(a, b, c, d, e, f, g, h, k);
    }
  }

  /** The nine polynomial identities behind m * adj(m) = det(m) * I, one
      column of the adjugate at a time. */
  lemma AdjugateColumn0(a: real, b: real, c: real, d: real, e: real, f: real, g: real, h: real, k: real)
    ensures a * (e * k - f * h) + b * (f * g - d * k) + c * (d * h - e * g) == a * (e * k - f * h) - b * (d * k - f * g) + c * (d * h - e * g)
    ensures d * (e * k - f * h) + e * (f * g - d * k) + f * (d * h - e * g) == 0.0
    ensures g * (e * k - f * h) + h * (f * g - d * k) + k * (d * h - e * g) == 0.0
  {
  }

  lemma AdjugateColumn1(a: real, b: real, c: real, d: real, e: real, f: real, g: real, h: real, k: real)
    ensures a * (c * h - b * k) + b * (a * k - c * g) + c * (b * g - a * h) == 0.0
    ensures d * (c * h - b * k) + e * (a * k - c * g) + f * (b * g - a * h) == a * (e * k - f * h) - b * (d * k - f * g) + c * (d * h - e * g)
    ensures g * (c * h - b * k) + h * (a * k - c * g) + k * (b * g - a * h) == 0.0
  {
  }

  lemma AdjugateColumn2(a: real, b: real, c: real, d: real, e: real, f: real, g: real, h: real, k: real)
    ensures a * (b * f - c * e) + b * (c * d - a * f) + c * (a * e - b * d) == 0.0
    ensures d * (b * f - c * e) + e * (c * d - a * f) + f * (a * e - b * d) == 0.0
    ensures g * (b * f - c * e) + h * (c * d - a * f) + k * (a * e - b * d) == a * (e * k - f * h) - b * (d * k - f * g) + c * (d * h - e * g)
  {
  }

  // ---------------------------------------------------------------------
  // Wrappers

  /** transpose(m) delegates to the member function. */
  method TransposeOf(m: Matrix) returns (r: Matrix)
    ensures r == Transposed(m)
  {
    r := Transpose(m);
  }

  /** trace(m) delegates to the member function. */
  method TraceOf(m: Matrix) returns (t: real)
    requires m.rows == m.cols
    ensures t == Sum(m.Diagonal())
  {
    t := Trace(m);
  }
}
