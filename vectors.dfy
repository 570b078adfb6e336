/** Fixed-length vectors of the library (Vector<T, N> with T = real).
    A Vector is a value: the C++ class is copied on assignment and never
    shared, so it is modelled by the sequence of its N components. The
    compound assignment operators, which update the component storage in
    place, are modelled on that storage as an array. */
module Vectors {

  type Vector = seq<real>

  function Abs(x: real): (r: real)
    ensures r >= 0.0 && (r == x || r == -x)
  {
    if x < 0.0 then -x else x
  }

  /** s[0] + s[1] + ... + s[n-1], accumulated from the front. */
  function SumTo(s: seq<real>, n: nat): real
    requires n <= |s|
  {
    if n == 0 then 0.0 else SumTo(s, n - 1) + s[n - 1]
  }

  function Sum(s: seq<real>): real
  {
    SumTo(s, |s|)
  }

  /** a[0]*b[0] + ... + a[n-1]*b[n-1], accumulated from the front as the
      library's loops do. */
  function DotTo(a: Vector, b: Vector, n: nat): real
    requires n <= |a| && n <= |b|
  {
    if n == 0 then 0.0 else DotTo(a, b, n - 1) + a[n - 1] * b[n - 1]
  }

  /** The dot product. */
  function Dot(a: Vector, b: Vector): real
    requires |a| == |b|
  {
    DotTo(a, b, |a|)
  }

  /** The default-constructed vector: every component zero. */
  function Zero(n: nat): (r: Vector)
    ensures |r| == n && forall i | 0 <= i < n :: r[i] == 0.0
  {
    seq(n, i => 0.0)
  }

  /** The n-vector with a 1 at index k and 0 elsewhere. */
  function Unit(n: nat, k: nat): (r: Vector)
    ensures |r| == n && forall i | 0 <= i < n :: r[i] == if i == k then 1.0 else 0.0
  {
    seq(n, i => if i == k then 1.0 else 0.0)
  }

  // Elementwise meaning of the arithmetic operators.

  function Plus(a: Vector, b: Vector): (r: Vector)
    requires |a| == |b|
    ensures |r| == |a| && forall i | 0 <= i < |a| :: r[i] == a[i] + b[i]
  {
    seq(|a|, i requires 0 <= i < |a| => a[i] + b[i])
  }

  function Minus(a: Vector, b: Vector): (r: Vector)
    requires |a| == |b|
    ensures |r| == |a| && forall i | 0 <= i < |a| :: r[i] == a[i] - b[i]
  {
    seq(|a|, i requires 0 <= i < |a| => a[i] - b[i])
  }

  function Times(a: Vector, c: real): (r: Vector)
    ensures |r| == |a| && forall i | 0 <= i < |a| :: r[i] == a[i] * c
  {
    seq(|a|, i requires 0 <= i < |a| => a[i] * c)
  }

  function Over(a: Vector, c: real): (r: Vector)
    requires c != 0.0
    ensures |r| == |a| && forall i | 0 <= i < |a| :: r[i] == a[i] / c
  {
    seq(|a|, i requires 0 <= i < |a| => a[i] / c)
  }

  // ---------------------------------------------------------------------
  // Lemmas about sums and dot products

  lemma {:induction false} SumNonNegative(s: seq<real>, n: nat)
    requires n <= |s|
    requires forall i | 0 <= i < n :: s[i] >= 0.0
    ensures SumTo(s, n) >= 0.0
  {
    if n > 0 {
      SumNonNegative(s, n - 1);
    }
  }

  /** Sums over a common prefix agree. */
  lemma {:induction false} SumToAgree(s: seq<real>, s': seq<real>, n: nat)
    requires n <= |s| && n <= |s'|
    requires forall i | 0 <= i < n :: s[i] == s'[i]
    ensures SumTo(s, n) == SumTo(s', n)
  {
    if n > 0 {
      SumToAgree(s, s', n - 1);
    }
  }

  /** Replacing a factor by an equal one; stated apart so that the solver
      need not find it among many products. */
  lemma MulCongruence(c: real, a: real, b: real)
    requires a == b
    ensures c * a == c * b
  {
  }

  lemma MulCongruenceLeft(a: real, b: real, c: real)
    requires a == b
    ensures a * c == b * c
  {
  }

  /** Dot products over a common prefix agree. */
  lemma {:induction false} DotToAgree(a: Vector, b: Vector, a': Vector, b': Vector, n: nat)
    requires n <= |a| && n <= |b| && n <= |a'| && n <= |b'|
    requires forall i | 0 <= i < n :: a[i] == a'[i] && b[i] == b'[i]
    ensures DotTo(a, b, n) == DotTo(a', b', n)
  {
    if n > 0 {
      DotToAgree(a, b, a', b', n - 1);
    }
  }

  lemma {:induction false} DotToZeroLeft(a: Vector, b: Vector, n: nat)
    requires n <= |a| && n <= |b|
    requires forall i | 0 <= i < n :: a[i] == 0.0
    ensures DotTo(a, b, n) == 0.0
  {
    if n > 0 {
      DotToZeroLeft(a, b, n - 1);
    }
  }

  /** dot(a, a) is a sum of squares. */
  lemma {:induction false} DotToSelf(a: Vector, n: nat)
    requires n <= |a|
    ensures DotTo(a, a, n) >= 0.0
  {
    if n > 0 {
      DotToSelf(a, n - 1);
    }
  }

  lemma {:induction false} DotToSymmetric(a: Vector, b: Vector, n: nat)
    requires n <= |a| && n <= |b|
    ensures DotTo(a, b, n) == DotTo(b, a, n)
  {
    if n > 0 {
      DotToSymmetric(a, b, n - 1);
    }
  }

  lemma DotSymmetric(a: Vector, b: Vector)
    requires |a| == |b|
    ensures Dot(a, b) == Dot(b, a)
  {
    DotToSymmetric(a, b, |a|);
  }

  /** A prefix of the dot product against a standard basis vector picks
      component k once the prefix covers it. */
  lemma {:induction false} DotToUnit(m: nat, k: nat, v: Vector, n: nat)
    requires n <= m && n <= |v| && k < m
    ensures DotTo(Unit(m, k), v, n) == if k < n then v[k] else 0.0
  {
    if n > 0 {
      DotToUnit(m, k, v, n - 1);
    }
  }

  lemma DotUnit(n: nat, k: nat, v: Vector)
    requires |v| == n && k < n
    ensures Dot(Unit(n, k), v) == v[k]
  {
    DotToUnit(n, k, v, n);
  }

  /** The dot product is linear in its first argument. */
  lemma {:induction false} DotToCombination(s: Vector, a: Vector, b: Vector, c: real, x: Vector, n: nat)
    requires n <= |s| && n <= |a| && n <= |b| && n <= |x|
    requires forall i | 0 <= i < n :: s[i] == a[i] + c * b[i]
    ensures DotTo(s, x, n) == DotTo(a, x, n) + c * DotTo(b, x, n)
  {
    if n > 0 {
      DotToCombination(s, a, b, c, x, n - 1);
      var db := DotTo(b, x, n - 1);
      var p, q, y := a[n - 1], b[n - 1], x[n - 1];
      assert (p + c * q) * y == p * y + c * (q * y);
      assert c * (db + q * y) == c * db + c * (q * y);
    }
  }

  lemma DotLinearLeft(a: Vector, b: Vector, c: real, x: Vector)
    requires |a| == |b| == |x|
    ensures Dot(Plus(a, Times(b, c)), x) == Dot(a, x) + c * Dot(b, x)
  {
    DotToCombination(Plus(a, Times(b, c)), a, b, c, x, |a|);
  }

  // ---------------------------------------------------------------------
  // Binary operators: each allocates a result and fills it component by component.

  method Add(a: Vector, b: Vector) returns (r: Vector)
    requires |a| == |b|
    ensures r == Plus(a, b)
  {
    r := Zero(|a|);
    for i := 0 to |a|
      invariant |r| == |a|
      invariant forall k | 0 <= k < i :: r[k] == a[k] + b[k]
    {
      r := r[i := a[i] + b[i]];
    }
  }

  method Sub(a: Vector, b: Vector) returns (r: Vector)
    requires |a| == |b|
    ensures r == Minus(a, b)
  {
    r := Zero(|a|);
    for i := 0 to |a|
      invariant |r| == |a|
      invariant forall k | 0 <= k < i :: r[k] == a[k] - b[k]
    {
      r := r[i := a[i] - b[i]];
    }
  }

  method Mul(a: Vector, c: real) returns (r: Vector)
    ensures r == Times(a, c)
  {
    r := Zero(|a|);
    for i := 0 to |a|
      invariant |r| == |a|
      invariant forall k | 0 <= k < i :: r[k] == a[k] * c
    {
      r := r[i := a[i] * c];
    }
  }

  method Div(a: Vector, c: real) returns (r: Vector)
    requires c != 0.0
    ensures r == Over(a, c)
  {
    r := Zero(|a|);
    for i := 0 to |a|
      invariant |r| == |a|
      invariant forall k | 0 <= k < i :: r[k] == a[k] / c
    {
      r := r[i := a[i] / c];
    }
  }

  /** scalar * v delegates to v * scalar. */
  method ScalarMul(c: real, v: Vector) returns (r: Vector)
    ensures r == Times(v, c)
  {
    r := Mul(v, c);
  }

  lemma MinusUndoesPlus(a: Vector, b: Vector)
    requires |a| == |b|
    ensures Minus(Plus(a, b), b) == a
  {
  }

  lemma OverUndoesTimes(a: Vector, c: real)
    requires c != 0.0
    ensures Over(Times(a, c), c) == a
  {
    forall i | 0 <= i < |a|
      ensures Over(Times(a, c), c)[i] == a[i]
    {
      assert a[i] * c / c == a[i];
    }
  }

  // ---------------------------------------------------------------------
  // Compound assignment: the components are updated in place.

  method AddAssign(data: array<real>, other: Vector)
    requires data.Length == |other|
    modifies data
    ensures data[..] == Plus(old(data[..]), other)
  {
    for i := 0 to data.Length
      invariant forall k | 0 <= k < i :: data[k] == old(data[k]) + other[k]
      invariant forall k | i <= k < data.Length :: data[k] == old(data[k])
    {
      data[i] := data[i] + other[i];
    }
  }

  method SubAssign(data: array<real>, other: Vector)
    requires data.Length == |other|
    modifies data
    ensures data[..] == Minus(old(data[..]), other)
  {
    for i := 0 to data.Length
      invariant forall k | 0 <= k < i :: data[k] == old(data[k]) - other[k]
      invariant forall k | i <= k < data.Length :: data[k] == old(data[k])
    {
      data[i] := data[i] - other[i];
    }
  }

  method MulAssign(data: array<real>, c: real)
    modifies data
    ensures data[..] == Times(old(data[..]), c)
  {
    for i := 0 to data.Length
      invariant forall k | 0 <= k < i :: data[k] == old(data[k]) * c
      invariant forall k | i <= k < data.Length :: data[k] == old(data[k])
    {
      data[i] := data[i] * c;
    }
    assert forall k | 0 <= k < data.Length :: data[..][k] == old(data[..])[k] * c;
  }

  method DivAssign(data: array<real>, c: real)
    requires c != 0.0
    modifies data
    ensures data[..] == Over(old(data[..]), c)
  {
    for i := 0 to data.Length
      invariant forall k | 0 <= k < i :: data[k] == old(data[k]) / c
      invariant forall k | i <= k < data.Length :: data[k] == old(data[k])
    {
      data[i] := data[i] / c;
    }
  }

  // ---------------------------------------------------------------------
  // Comparison, dot and cross product

  /** Component-wise comparison with early exit. */
  method Equal(a: Vector, b: Vector) returns (eq: bool)
    requires |a| == |b|
    ensures eq <==> a == b
  {
    for i := 0 to |a|
      invariant a[..i] == b[..i]
    {
      if a[i] != b[i] {
        return false;
      }
      assert a[..i + 1] == a[..i] + [a[i]];
      assert b[..i + 1] == b[..i] + [b[i]];
    }
    assert a == a[..|a|] && b == b[..|b|];
    return true;
  }

  method DotProduct(a: Vector, b: Vector) returns (sum: real)
    requires |a| == |b|
    ensures sum == Dot(a, b)
  {
    sum := 0.0;
    for i := 0 to |a|
      invariant sum == DotTo(a, b, i)
    {
      sum := sum + a[i] * b[i];
    }
  }

  lemma DotExample()
    ensures Dot([1.0, 2.0, 3.0], [4.0, 5.0, 6.0]) == 32.0
  {
    Dot3([1.0, 2.0, 3.0], [4.0, 5.0, 6.0]);
  }

  /** The 3-dimensional cross product; orthogonal to both operands. */
  function Cross(a: Vector, b: Vector): (r: Vector)
    requires |a| == 3 && |b| == 3
    ensures |r| == 3
    ensures Dot(r, a) == 0.0 && Dot(r, b) == 0.0
  {
    var r := [a[1] * b[2] - a[2] * b[1],
              a[2] * b[0] - a[0] * b[2],
              a[0] * b[1] - a[1] * b[0]];
    Dot3(r, a);
    Dot3(r, b);
    r
  }

  lemma Dot3(a: Vector, b: Vector)
    requires |a| == 3 && |b| == 3
    ensures Dot(a, b) == a[0] * b[0] + a[1] * b[1] + a[2] * b[2]
  {
    assert DotTo(a, b, 1) == a[0] * b[0];
    assert DotTo(a, b, 2) == DotTo(a, b, 1) + a[1] * b[1];
    assert DotTo(a, b, 3) == DotTo(a, b, 2) + a[2] * b[2];
  }

  lemma CrossExample()
    ensures Cross([1.0, 0.0, 0.0], [0.0, 1.0, 0.0]) == [0.0, 0.0, 1.0]
  {
  }
}
