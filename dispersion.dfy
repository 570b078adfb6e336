/** Measures of spread of dispersion.hpp: variance (of a std::vector and
    of a Vector<T, N>), standard deviation, range, interquartile range and
    mean absolute deviation. Each loop is proved against a function of
    the data; the properties of the measures are lemmas about those
    functions. */
module Dispersion {
  import opened Vectors
  import opened Sorting
  import opened Central
  import Decomposition

  /** (s[i] - mu)^2 for every element. */
  function SquaredDeviations(s: seq<real>, mu: real): (r: seq<real>)
    ensures |r| == |s| && forall i | 0 <= i < |s| :: r[i] == (s[i] - mu) * (s[i] - mu)
  {
    seq(|s|, i requires 0 <= i < |s| => (s[i] - mu) * (s[i] - mu))
  }

  /** |s[i] - mu| for every element. */
  function AbsDeviations(s: seq<real>, mu: real): (r: seq<real>)
    ensures |r| == |s| && forall i | 0 <= i < |s| :: r[i] == Abs(s[i] - mu)
  {
    seq(|s|, i requires 0 <= i < |s| => Abs(s[i] - mu))
  }

  /** The divisor: n - 1 for a sample, n for a population. */
  function Divisor(n: nat, sample: bool): nat
    requires n >= 1
  {
    if sample then n - 1 else n
  }

  /** The variance: 0 for no data or a one-element sample, otherwise the
      sum of squared deviations from the mean over the divisor. */
  function VarianceOf(s: seq<real>, sample: bool): real {
    if |s| == 0 || (sample && |s| == 1) then 0.0
    else Sum(SquaredDeviations(s, Average(s))) / (Divisor(|s|, sample) as real)
  }

  /** variance(const std::vector<T>&, bool). */
  method Variance(data: seq<real>, sample: bool) returns (v: real)
    ensures v == VarianceOf(data, sample)
  {
    if |data| == 0 || (sample && |data| == 1) {
      return 0.0;
    }
    var mu := Mean(data);
    var sumSq := 0.0;
    for i := 0 to |data|
      invariant sumSq == SumTo(SquaredDeviations(data, mu), i)
    {
      var diff := data[i] - mu;
      sumSq := sumSq + diff * diff;
    }
    var n := if sample then |data| - 1 else |data|;
    v := sumSq / (n as real);
  }

  /** variance(const Vector<T, N>&, bool): the same value as the
      overload for std::vector on the same elements. */
  method VarianceOfVector(data: Vector, sample: bool) returns (v: real)
    requires |data| > 0
    ensures v == VarianceOf(data, sample)
  {
    if sample && |data| == 1 {
      return 0.0;
    }
    var mu := MeanOfVector(data);
    var sumSq := 0.0;
    for i := 0 to |data|
      invariant sumSq == SumTo(SquaredDeviations(data, mu), i)
    {
      var diff := data[i] - mu;
      sumSq := sumSq + diff * diff;
    }
    var n := if sample then |data| - 1 else |data|;
    v := sumSq / (n as real);
  }

  /** A sum of non-negative terms is zero exactly when every term is. */
  lemma {:induction false} SumZero(t: seq<real>, n: nat)
    requires n <= |t| && forall i | 0 <= i < n :: t[i] >= 0.0
    ensures SumTo(t, n) == 0.0 <==> forall i | 0 <= i < n :: t[i] == 0.0
  {
    if n > 0 {
      SumZero(t, n - 1);
      SumNonNegative(t, n - 1);
    }
  }

  /** A product is zero only if a factor is. */
  lemma ZeroProduct(a: real, b: real)
    requires a * b == 0.0
    ensures a == 0.0 || b == 0.0
  {
  }

  /** A square is never negative. */
  lemma SquareNonNegative(a: real, b: real)
    requires a == b
    ensures a * b >= 0.0
  {
  }

  lemma QuotientZero(x: real, d: real)
    requires d > 0.0
    ensures x / d == 0.0 <==> x == 0.0
    ensures x >= 0.0 ==> x / d >= 0.0
  {
    var q := x / d;
    assert q * d == x;
    if q > 0.0 {
      assert q * d > 0.0;
    } else if q < 0.0 {
      assert (-q) * d > 0.0;
    }
  }

  /** The squared deviations are non-negative, and zero exactly where the
      element is the centre. */
  lemma SquaredDeviationsFacts(s: seq<real>, mu: real)
    ensures forall i | 0 <= i < |s| :: SquaredDeviations(s, mu)[i] >= 0.0
    ensures Sum(SquaredDeviations(s, mu)) >= 0.0
    ensures Sum(SquaredDeviations(s, mu)) == 0.0 <==> forall i | 0 <= i < |s| :: s[i] == mu
  {
    var t := SquaredDeviations(s, mu);
    forall i | 0 <= i < |s|
      ensures t[i] >= 0.0
      ensures t[i] == 0.0 <==> s[i] == mu
    {
      var d := s[i] - mu;
      SquareNonNegative(d, d);
      if t[i] == 0.0 {
        ZeroProduct(d, d);
      }
    }
    SumNonNegative(t, |s|);
    SumZero(t, |s|);
  }

  /** The one element of a singleton is its mean. */
  lemma AverageOfOne(s: seq<real>)
    requires |s| == 1
    ensures Average(s) == s[0]
  {
    assert SumTo(s, 1) == s[0];
  }

  /** The variance is never negative. */
  lemma VarianceNonNegative(s: seq<real>, sample: bool)
    ensures VarianceOf(s, sample) >= 0.0
  {
    if !(|s| == 0 || (sample && |s| == 1)) {
      SquaredDeviationsFacts(s, Average(s));
      QuotientZero(Sum(SquaredDeviations(s, Average(s))), Divisor(|s|, sample) as real);
    }
  }

  /** The variance is zero exactly when every element equals the mean. */
  lemma VarianceZero(s: seq<real>, sample: bool)
    ensures VarianceOf(s, sample) == 0.0 <==> forall i | 0 <= i < |s| :: s[i] == Average(s)
  {
    if |s| == 0 {
    } else if sample && |s| == 1 {
      AverageOfOne(s);
    } else {
      SquaredDeviationsFacts(s, Average(s));
      QuotientZero(Sum(SquaredDeviations(s, Average(s))), Divisor(|s|, sample) as real);
    }
  }

  /** The sample and the population variance of at least two values
      scale the same sum of squares by n - 1 and by n. */
  lemma SampleAndPopulation(s: seq<real>)
    requires |s| >= 2
    ensures VarianceOf(s, true) * ((|s| - 1) as real) == VarianceOf(s, false) * (|s| as real)
  {
    var ssd := Sum(SquaredDeviations(s, Average(s)));
    var a, b := ssd / ((|s| - 1) as real), ssd / (|s| as real);
    assert a * ((|s| - 1) as real) == ssd;
    assert b * (|s| as real) == ssd;
  }

  /** The sample variance of 2, 4, 4, 4, 5, 5, 7, 9 is 32/7 and the
      population variance is 4. */
  lemma VarianceExample(s: seq<real>)
    requires |s| == 8 && s[0] == 2.0 && s[1] == 4.0 && s[2] == 4.0 && s[3] == 4.0
    requires s[4] == 5.0 && s[5] == 5.0 && s[6] == 7.0 && s[7] == 9.0
    ensures VarianceOf(s, true) == 32.0 / 7.0 && VarianceOf(s, false) == 4.0
  {
    assert SumTo(s, 1) == 2.0;
    assert SumTo(s, 2) == 6.0;
    assert SumTo(s, 3) == 10.0;
    assert SumTo(s, 4) == 14.0;
    assert SumTo(s, 5) == 19.0;
    assert SumTo(s, 6) == 24.0;
    assert SumTo(s, 7) == 31.0;
    assert SumTo(s, 8) == 40.0;
    assert Average(s) == 5.0;
    var t := SquaredDeviations(s, 5.0);
    assert SumTo(t, 1) == 9.0;
    assert SumTo(t, 2) == 10.0;
    assert SumTo(t, 3) == 11.0;
    assert SumTo(t, 4) == 12.0;
    assert SumTo(t, 5) == 12.0;
    assert SumTo(t, 6) == 12.0;
    assert SumTo(t, 7) == 16.0;
    assert SumTo(t, 8) == 32.0;
  }

  /** std_dev: the square root of the variance; sqrt is std::sqrt. */
  function StdDev(data: seq<real>, sample: bool, sqrt: real -> real): (r: real)
    requires Decomposition.IsSqrt(sqrt)
    ensures r >= 0.0 && r * r == VarianceOf(data, sample)
  {
    VarianceNonNegative(data, sample);
    sqrt(VarianceOf(data, sample))
  }

  /** The standard deviation is zero exactly when the variance is, that
      is exactly when every element equals the mean. */
  lemma StdDevZero(data: seq<real>, sample: bool, sqrt: real -> real)
    requires Decomposition.IsSqrt(sqrt)
    ensures StdDev(data, sample, sqrt) == 0.0 <==> VarianceOf(data, sample) == 0.0
    ensures StdDev(data, sample, sqrt) == 0.0 <==> forall i | 0 <= i < |data| :: data[i] == Average(data)
  {
    var r := StdDev(data, sample, sqrt);
    VarianceZero(data, sample);
    if VarianceOf(data, sample) == 0.0 {
      ZeroProduct(r, r);
    }
  }

  /** range: 0 for no data, otherwise the largest difference between two
      elements, that of the maximum and the minimum. */
  function Range(data: seq<real>): (r: real)
    ensures r >= 0.0
    ensures |data| == 0 ==> r == 0.0
    ensures forall i, j | 0 <= i < |data| && 0 <= j < |data| :: data[i] - data[j] <= r
    ensures |data| > 0 ==> exists i, j | 0 <= i < |data| && 0 <= j < |data| :: r == data[i] - data[j]
  {
    if |data| == 0 then 0.0
    else
      var i :| 0 <= i < |data| && data[i] == MaxOf(data);
      var j :| 0 <= j < |data| && data[j] == MinOf(data);
      data[i] - data[j]
  }

  /** The range of 1, 5, 3, 9, 2 is 8. */
  lemma RangeExample(s: seq<real>)
    requires |s| == 5 && s[0] == 1.0 && s[1] == 5.0 && s[2] == 3.0 && s[3] == 9.0 && s[4] == 2.0
    ensures Range(s) == 8.0
  {
    assert s[3] - s[0] == 8.0;
    assert forall i | 0 <= i < 5 :: 1.0 <= s[i] <= 9.0;
  }

  /** iqr: 0 for fewer than two elements, otherwise the distance between
      the upper and the lower quartile. */
  function Iqr(data: seq<real>): (r: real)
    ensures |data| < 2 ==> r == 0.0
    ensures r >= 0.0
  {
    if |data| < 2 then 0.0
    else
      QuantileMonotone(data, 0.25, 0.75);
      Quantile(data, 0.75) - Quantile(data, 0.25)
  }

  /** The quartiles lie inside the data, so the interquartile range is at
      most the range. */
  lemma IqrWithinRange(data: seq<real>)
    ensures Iqr(data) <= Range(data)
  {
    if |data| >= 2 {
      QuantileBetween(data, 0.25);
      QuantileBetween(data, 0.75);
      var i :| 0 <= i < |data| && data[i] == MaxOf(data);
      var j :| 0 <= j < |data| && data[j] == MinOf(data);
      assert data[i] - data[j] <= Range(data);
    }
  }

  /** Rearranging the data does not change the interquartile range. */
  lemma IqrOrderIrrelevant(a: seq<real>, b: seq<real>)
    requires multiset(a) == multiset(b)
    ensures Iqr(a) == Iqr(b)
  {
    assert |a| == |multiset(a)| == |multiset(b)| == |b|;
    OrderIrrelevant(a, b, 0.25);
    OrderIrrelevant(a, b, 0.75);
  }

  /** The interquartile range of 1, 2, 3, 4, 5 is 4 - 2. */
  lemma IqrExample(s: seq<real>)
    requires |s| == 5 && s[0] == 1.0 && s[1] == 2.0 && s[2] == 3.0 && s[3] == 4.0 && s[4] == 5.0
    ensures Iqr(s) == 2.0
  {
    QuantileLowerExample(s);
    QuantileUpperExample(s);
  }

  /** The mean absolute deviation: the mean of the distances to the mean
      (0 for no data). */
  function MeanDeviation(s: seq<real>): real {
    Average(AbsDeviations(s, Average(s)))
  }

  /** mad: the distances to the mean are pushed onto a vector one by one,
      then averaged. */
  method Mad(data: seq<real>) returns (r: real)
    ensures r == MeanDeviation(data)
  {
    if |data| == 0 {
      return 0.0;
    }
    var mu := Mean(data);
    var deviations: seq<real> := [];
    for i := 0 to |data|
      invariant |deviations| == i
      invariant forall k | 0 <= k < i :: deviations[k] == Abs(data[k] - mu)
    {
      deviations := deviations + [Abs(data[i] - mu)];
    }
    assert deviations == AbsDeviations(data, mu);
    r := Mean(deviations);
  }

  /** The mean absolute deviation is never negative, and it is zero
      exactly when every element equals the mean, that is exactly when
      the variance is zero. */
  lemma MeanDeviationZero(s: seq<real>, sample: bool)
    ensures MeanDeviation(s) >= 0.0
    ensures MeanDeviation(s) == 0.0 <==> forall i | 0 <= i < |s| :: s[i] == Average(s)
    ensures MeanDeviation(s) == 0.0 <==> VarianceOf(s, sample) == 0.0
  {
    VarianceZero(s, sample);
    if |s| > 0 {
      var t := AbsDeviations(s, Average(s));
      assert forall i | 0 <= i < |s| :: t[i] >= 0.0 && (t[i] == 0.0 <==> s[i] == Average(s));
      SumNonNegative(t, |s|);
      SumZero(t, |s|);
      QuotientZero(Sum(t), |s| as real);
    }
  }
}
