/** Measures of association of correlation.hpp: covariance, the Pearson
    correlation built on it, and the Spearman rank correlation, which
    ranks each variable through an index sort and correlates the ranks. */
module Correlation {
  import opened Vectors
  import opened Central
  import opened Dispersion
  import Decomposition

  // Covariance.

  /** (x[i] - mx) * (y[i] - my) for every pair. */
  function CrossDeviations(x: seq<real>, y: seq<real>, mx: real, my: real): (r: seq<real>)
    requires |x| == |y|
    ensures |r| == |x| && forall i | 0 <= i < |x| :: r[i] == (x[i] - mx) * (y[i] - my)
  {
    seq(|x|, i requires 0 <= i < |x| => (x[i] - mx) * (y[i] - my))
  }

  /** The covariance: 0 for sequences of different sizes, for no data and
      for a one-pair sample; otherwise the sum of the products of the
      deviations over the divisor. */
  function CovarianceOf(x: seq<real>, y: seq<real>, sample: bool): real {
    if |x| != |y| || |x| == 0 || (sample && |x| == 1) then 0.0
    else Sum(CrossDeviations(x, y, Average(x), Average(y))) / (Divisor(|x|, sample) as real)
  }

  /** covariance(x, y, sample). */
  method Covariance(x: seq<real>, y: seq<real>, sample: bool) returns (c: real)
    ensures c == CovarianceOf(x, y, sample)
  {
    if |x| != |y| || |x| == 0 || (sample && |x| == 1) {
      return 0.0;
    }
    var meanX := Mean(x);
    var meanY := Mean(y);
    var sum := 0.0;
    for i := 0 to |x|
      invariant sum == SumTo(CrossDeviations(x, y, meanX, meanY), i)
    {
      CrossStep(x, y, meanX, meanY, i);
      sum := sum + (x[i] - meanX) * (y[i] - meanY);
    }
    var n := if sample then |x| - 1 else |x|;
    c := sum / (n as real);
  }

  /** One more term of the running sum. */
  lemma CrossStep(x: seq<real>, y: seq<real>, mx: real, my: real, i: nat)
    requires i < |x| == |y|
    ensures SumTo(CrossDeviations(x, y, mx, my), i + 1) == SumTo(CrossDeviations(x, y, mx, my), i) + (x[i] - mx) * (y[i] - my)
  {
  }

  /** The covariance does not depend on the order of its arguments. */
  lemma CovarianceSymmetric(x: seq<real>, y: seq<real>, sample: bool)
    ensures CovarianceOf(x, y, sample) == CovarianceOf(y, x, sample)
  {
    if |x| == |y| {
      var a, b := CrossDeviations(x, y, Average(x), Average(y)), CrossDeviations(y, x, Average(y), Average(x));
      forall i | 0 <= i < |x|
        ensures a[i] == b[i]
      {
        MulCommutes(x[i] - Average(x), y[i] - Average(y));
      }
      SumToAgree(a, b, |x|);
    }
  }

  lemma MulCommutes(a: real, b: real)
    ensures a * b == b * a
  {
  }

  /** The covariance of a variable with itself is its variance. */
  lemma CovarianceSelf(x: seq<real>, sample: bool)
    ensures CovarianceOf(x, x, sample) == VarianceOf(x, sample)
  {
    if |x| > 0 {
      assert CrossDeviations(x, x, Average(x), Average(x)) == SquaredDeviations(x, Average(x));
    }
  }

  /** The sample covariance of 1, 2, 3, 4, 5 and 2, 4, 5, 4, 5 is 1.5. */
  lemma CovarianceExample(x: seq<real>, y: seq<real>)
    requires |x| == 5 && x[0] == 1.0 && x[1] == 2.0 && x[2] == 3.0 && x[3] == 4.0 && x[4] == 5.0
    requires |y| == 5 && y[0] == 2.0 && y[1] == 4.0 && y[2] == 5.0 && y[3] == 4.0 && y[4] == 5.0
    ensures CovarianceOf(x, y, true) == 1.5
  {
    assert SumTo(x, 5) == 15.0 by {
      assert SumTo(x, 1) == 1.0;
      assert SumTo(x, 2) == 3.0;
      assert SumTo(x, 3) == 6.0;
      assert SumTo(x, 4) == 10.0;
    }
    assert SumTo(y, 5) == 20.0 by {
      assert SumTo(y, 1) == 2.0;
      assert SumTo(y, 2) == 6.0;
      assert SumTo(y, 3) == 11.0;
      assert SumTo(y, 4) == 15.0;
    }
    assert Average(x) == 3.0 && Average(y) == 4.0;
    var t := CrossDeviations(x, y, 3.0, 4.0);
    assert SumTo(t, 1) == 4.0;
    assert SumTo(t, 2) == 4.0;
    assert SumTo(t, 3) == 4.0;
    assert SumTo(t, 4) == 4.0;
    assert SumTo(t, 5) == 6.0;
  }

  // Pearson correlation.

  /** correlation: 0 for sequences of different sizes or with fewer than
      two pairs, 0 when either sample standard deviation is 0, otherwise
      the sample covariance over the product of the sample standard
      deviations; sqrt is std::sqrt. */
  function CorrelationOf(x: seq<real>, y: seq<real>, sqrt: real -> real): (r: real)
    requires Decomposition.IsSqrt(sqrt)
    ensures |x| != |y| || |x| < 2 ==> r == 0.0
  {
    if |x| != |y| || |x| < 2 then 0.0
    else
      var sx, sy := StdDev(x, true, sqrt), StdDev(y, true, sqrt);
      if sx == 0.0 || sy == 0.0 then 0.0 else CovarianceOf(x, y, true) / (sx * sy)
  }

  /** A variable that does not vary correlates with nothing. */
  lemma CorrelationOfConstant(x: seq<real>, y: seq<real>, sqrt: real -> real)
    requires Decomposition.IsSqrt(sqrt)
    requires (forall i | 0 <= i < |x| :: x[i] == Average(x)) || (forall i | 0 <= i < |y| :: y[i] == Average(y))
    ensures CorrelationOf(x, y, sqrt) == 0.0
  {
    StdDevZero(x, true, sqrt);
    StdDevZero(y, true, sqrt);
  }

  /** The correlation does not depend on the order of its arguments. */
  lemma CorrelationSymmetric(x: seq<real>, y: seq<real>, sqrt: real -> real)
    requires Decomposition.IsSqrt(sqrt)
    ensures CorrelationOf(x, y, sqrt) == CorrelationOf(y, x, sqrt)
  {
    CovarianceSymmetric(x, y, true);
    MulCommutes(StdDev(x, true, sqrt), StdDev(y, true, sqrt));
  }

  /** A variable that varies correlates perfectly with itself. */
  lemma CorrelationSelf(x: seq<real>, sqrt: real -> real)
    requires Decomposition.IsSqrt(sqrt) && |x| >= 2 && VarianceOf(x, true) != 0.0
    ensures CorrelationOf(x, x, sqrt) == 1.0
  {
    var s := StdDev(x, true, sqrt);
    StdDevZero(x, true, sqrt);
    CovarianceSelf(x, true);
    QuotientOfEqual(CovarianceOf(x, x, true), s * s);
  }

  lemma QuotientOfEqual(a: real, b: real)
    requires a == b && b != 0.0
    ensures a / b == 1.0
  {
  }

  // Spearman rank correlation.

  /** 0, 1, ..., n - 1: the index vectors before sorting. */
  function Iota(n: nat): (r: seq<nat>)
    ensures |r| == n && forall i | 0 <= i < n :: r[i] == i
  {
    seq(n, i => i)
  }

  /** idx lists indices of x in ascending order of their values: what
      std::sort with the comparator x[i] < x[j] leaves, ties in any
      order. */
  predicate ByKey(x: seq<real>, idx: seq<nat>) {
    && (forall k | 0 <= k < |idx| :: idx[k] < |x|)
    && (forall i, j | 0 <= i < j < |idx| :: x[idx[i]] <= x[idx[j]])
  }

  /** The index k placed before the first index whose value is not
      smaller. */
  function InsertByKey(x: seq<real>, k: nat, idx: seq<nat>): (r: seq<nat>)
    requires k < |x| && ByKey(x, idx)
    ensures |r| == |idx| + 1 && ByKey(x, r) && multiset(r) == multiset(idx) + multiset{k}
  {
    if |idx| == 0 then [k]
    else if x[k] <= x[idx[0]] then [k] + idx
    else
      var t := InsertByKey(x, k, idx[1..]);
      assert idx == [idx[0]] + idx[1..];
      HeadByKey(x, k, idx, t);
      [idx[0]] + t
  }

  /** The first index stays in front when k goes after it. */
  lemma HeadByKey(x: seq<real>, k: nat, idx: seq<nat>, t: seq<nat>)
    requires k < |x| && |idx| > 0 && ByKey(x, idx) && x[idx[0]] < x[k]
    requires ByKey(x, t) && multiset(t) == multiset(idx[1..]) + multiset{k}
    ensures ByKey(x, [idx[0]] + t)
  {
    forall p | 0 <= p < |t|
      ensures x[idx[0]] <= x[t[p]]
    {
      assert t[p] in multiset(idx[1..]) + multiset{k};
      if t[p] != k {
        var q :| 0 <= q < |idx[1..]| && idx[1..][q] == t[p];
        assert idx[q + 1] == t[p];
      }
    }
    var s := [idx[0]] + t;
    forall i, j | 0 <= i < j < |s|
      ensures x[s[i]] <= x[s[j]]
    {
      if i > 0 {
        assert s[i] == t[i - 1] && s[j] == t[j - 1];
      } else {
        assert s[j] == t[j - 1];
      }
    }
  }

  /** The index vector sorted by the values of x. */
  function SortByKey(x: seq<real>, idx: seq<nat>): (r: seq<nat>)
    requires forall k | 0 <= k < |idx| :: idx[k] < |x|
    ensures |r| == |idx| && ByKey(x, r) && multiset(r) == multiset(idx)
  {
    if |idx| == 0 then []
    else
      assert idx == idx[..|idx| - 1] + [idx[|idx| - 1]];
      InsertByKey(x, idx[|idx| - 1], SortByKey(x, idx[..|idx| - 1]))
  }

  /** rank gives every element of x a distinct rank in 1..n, and a
      smaller value never gets the larger rank. */
  predicate IsRanking(x: seq<real>, rank: seq<nat>) {
    && |rank| == |x|
    && (forall i | 0 <= i < |x| :: 1 <= rank[i] <= |x|)
    && (forall i, j | 0 <= i < j < |x| :: rank[i] != rank[j])
    && (forall i, j | 0 <= i < |x| && 0 <= j < |x| && x[i] < x[j] :: rank[i] < rank[j])
  }

  /** No index occurs twice in 0, 1, ..., n - 1. */
  lemma {:induction false} IotaCount(n: nat, v: nat)
    ensures multiset(Iota(n))[v] == if v < n then 1 else 0
  {
    if n > 0 {
      IotaCount(n - 1, v);
      assert Iota(n) == Iota(n - 1) + [n - 1];
    }
  }

  /** A value at two positions occurs twice. */
  lemma TwiceCounted(s: seq<nat>, a: nat, b: nat)
    requires a < b < |s| && s[a] == s[b]
    ensures multiset(s)[s[a]] >= 2
  {
    assert s == s[..b] + s[b..];
    assert s[a] == s[..b][a] && s[b] == s[b..][0];
    assert s[a] in multiset(s[..b]) && s[b] in multiset(s[b..]);
  }

  /** A rearrangement of 0, 1, ..., n - 1 holds every index below n
      exactly once. */
  lemma PermutationFacts(idx: seq<nat>, n: nat)
    requires multiset(idx) == multiset(Iota(n))
    ensures |idx| == n
    ensures forall k | 0 <= k < |idx| :: idx[k] < n
    ensures forall i, j | 0 <= i < j < |idx| :: idx[i] != idx[j]
    ensures forall v: nat | v < n :: v in idx
  {
    assert |idx| == |multiset(idx)| == |multiset(Iota(n))| == n;
    forall k | 0 <= k < |idx|
      ensures idx[k] < n
    {
      assert idx[k] in multiset(idx);
      IotaCount(n, idx[k]);
    }
    forall i, j | 0 <= i < j < |idx|
      ensures idx[i] != idx[j]
    {
      if idx[i] == idx[j] {
        TwiceCounted(idx, i, j);
        IotaCount(n, idx[i]);
      }
    }
    forall v: nat | v < n
      ensures v in idx
    {
      IotaCount(n, v);
      assert v in multiset(idx);
    }
  }

  /** Giving the index at sorted position k the rank k + 1 is a ranking. */
  lemma RankingFromPositions(x: seq<real>, idx: seq<nat>, rank: seq<nat>)
    requires multiset(idx) == multiset(Iota(|x|)) && ByKey(x, idx) && |rank| == |x|
    requires forall k | 0 <= k < |idx| :: rank[idx[k]] == k + 1
    ensures IsRanking(x, rank)
  {
    var n := |x|;
    PermutationFacts(idx, n);
    forall i | 0 <= i < n
      ensures 1 <= rank[i] <= n
    {
      assert i in idx;
      var k :| 0 <= k < n && idx[k] == i;
    }
    forall i, j | 0 <= i < j < n
      ensures rank[i] != rank[j]
    {
      assert i in idx && j in idx;
      var a :| 0 <= a < n && idx[a] == i;
      var b :| 0 <= b < n && idx[b] == j;
    }
    forall i, j | 0 <= i < n && 0 <= j < n && x[i] < x[j]
      ensures rank[i] < rank[j]
    {
      assert i in idx && j in idx;
      var a :| 0 <= a < n && idx[a] == i;
      var b :| 0 <= b < n && idx[b] == j;
    }
  }

  /** The ranks as reals, the static_cast<T> of each. */
  function AsReals(rank: seq<nat>): (r: seq<real>)
    ensures |r| == |rank| && forall i | 0 <= i < |rank| :: r[i] == rank[i] as real
  {
    seq(|rank|, i requires 0 <= i < |rank| => rank[i] as real)
  }

  /** idx holds n distinct indices below n. */
  predicate Distinct(idx: seq<nat>, n: nat) {
    && |idx| == n
    && (forall k | 0 <= k < n :: idx[k] < n)
    && (forall i, j | 0 <= i < j < n :: idx[i] != idx[j])
  }

  /** The loop filling both index vectors with 0, 1, ..., n - 1. */
  method FillIndices(n: nat) returns (indicesX: seq<nat>, indicesY: seq<nat>)
    ensures indicesX == Iota(n) && indicesY == Iota(n)
  {
    indicesX, indicesY := seq(n, _ => 0), seq(n, _ => 0);
    for i := 0 to n
      invariant |indicesX| == n && |indicesY| == n
      invariant forall k | 0 <= k < i :: indicesX[k] == k && indicesY[k] == k
    {
      indicesX := indicesX[i := i];
      indicesY := indicesY[i := i];
    }
  }

  /** The loop giving, in both rank vectors (zero-initialised), the index
      at sorted position i the rank i + 1. */
  method AssignRanks(indicesX: seq<nat>, indicesY: seq<nat>, n: nat) returns (rankX: seq<nat>, rankY: seq<nat>)
    requires Distinct(indicesX, n) && Distinct(indicesY, n)
    ensures |rankX| == n && |rankY| == n
    ensures forall k | 0 <= k < n :: rankX[indicesX[k]] == k + 1 && rankY[indicesY[k]] == k + 1
  {
    rankX, rankY := seq(n, _ => 0), seq(n, _ => 0);
    for i := 0 to n
      invariant |rankX| == n && |rankY| == n
      invariant forall k | 0 <= k < i :: rankX[indicesX[k]] == k + 1
      invariant forall k | 0 <= k < i :: rankY[indicesY[k]] == k + 1
    {
      rankX := rankX[indicesX[i] := i + 1];
      rankY := rankY[indicesY[i] := i + 1];
    }
  }

  /** The loop converting both rank vectors to T. */
  method RanksAsReals(rankX: seq<nat>, rankY: seq<nat>) returns (realX: seq<real>, realY: seq<real>)
    requires |rankX| == |rankY|
    ensures realX == AsReals(rankX) && realY == AsReals(rankY)
  {
    var n := |rankX|;
    realX, realY := seq(n, _ => 0.0), seq(n, _ => 0.0);
    for i := 0 to n
      invariant |realX| == n && |realY| == n
      invariant forall k | 0 <= k < i :: realX[k] == rankX[k] as real && realY[k] == rankY[k] as real
    {
      realX := realX[i := rankX[i] as real];
      realY := realY[i := rankY[i] as real];
    }
  }

  /** spearman_correlation: 0 for sequences of different sizes or with
      fewer than two pairs; otherwise both variables are ranked through
      an index sort and the Pearson correlation of the ranks is returned.
      The ranks computed are returned beside the result. */
  method SpearmanCorrelation(x: seq<real>, y: seq<real>, sqrt: real -> real)
    returns (r: real, ghost rankX: seq<nat>, ghost rankY: seq<nat>)
    requires Decomposition.IsSqrt(sqrt)
    ensures |x| != |y| || |x| < 2 ==> r == 0.0
    ensures |x| == |y| && |x| >= 2 ==>
      && IsRanking(x, rankX) && IsRanking(y, rankY)
      && r == CorrelationOf(AsReals(rankX), AsReals(rankY), sqrt)
  {
    if |x| != |y| || |x| < 2 {
      return 0.0, [], [];
    }
    var n := |x|;
    var indicesX, indicesY := FillIndices(n);
    indicesX := SortByKey(x, indicesX);
    indicesY := SortByKey(y, indicesY);
    PermutationFacts(indicesX, n);
    PermutationFacts(indicesY, n);
    var rx, ry := AssignRanks(indicesX, indicesY, n);
    RankingFromPositions(x, indicesX, rx);
    RankingFromPositions(y, indicesY, ry);
    var realX, realY := RanksAsReals(rx, ry);
    r := CorrelationOf(realX, realY, sqrt);
    rankX, rankY := rx, ry;
  }
}
