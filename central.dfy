/** Measures of central tendency of central.hpp: mean, median, mode and
    quantile. The data (a std::vector<T>, or a Vector<T, N> for the
    second mean) is a sequence of reals; median, mode and quantile work
    on a sorted copy, so the caller's data is never changed. */
module Central {
  import opened Vectors
  import opened Sorting

  /** The arithmetic mean, 0 for no data. */
  function Average(s: seq<real>): real {
    if |s| == 0 then 0.0 else Sum(s) / (|s| as real)
  }

  /** mean(const std::vector<T>&): 0 for no data, otherwise the running
      sum over the size. */
  method Mean(data: seq<real>) returns (m: real)
    ensures m == Average(data)
  {
    if |data| == 0 {
      return 0.0;
    }
    var sum := 0.0;
    for i := 0 to |data|
      invariant sum == SumTo(data, i)
    {
      sum := sum + data[i];
    }
    m := sum / (|data| as real);
  }

  /** mean(const Vector<T, N>&): the running sum over N, with N > 0. */
  method MeanOfVector(data: Vector) returns (m: real)
    requires |data| > 0
    ensures m == Average(data)
  {
    var sum := 0.0;
    for i := 0 to |data|
      invariant sum == SumTo(data, i)
    {
      sum := sum + data[i];
    }
    m := sum / (|data| as real);
  }

  lemma {:induction false} SumToBounds(s: seq<real>, n: nat, lo: real, hi: real)
    requires n <= |s| && forall i | 0 <= i < n :: lo <= s[i] <= hi
    ensures (n as real) * lo <= SumTo(s, n) <= (n as real) * hi
  {
    if n > 0 {
      SumToBounds(s, n - 1, lo, hi);
      assert (n as real) * lo == ((n - 1) as real) * lo + lo;
      assert (n as real) * hi == ((n - 1) as real) * hi + hi;
    }
  }

  lemma QuotientBounds(x: real, n: real, lo: real, hi: real)
    requires n > 0.0 && n * lo <= x <= n * hi
    ensures lo <= x / n <= hi
  {
    var q := x / n;
    assert q * n == x;
  }

  /** The mean of data inside [lo, hi] lies inside [lo, hi]. */
  lemma AverageBounds(s: seq<real>, lo: real, hi: real)
    requires |s| > 0 && forall i | 0 <= i < |s| :: lo <= s[i] <= hi
    ensures lo <= Average(s) <= hi
  {
    SumToBounds(s, |s|, lo, hi);
    QuotientBounds(Sum(s), |s| as real, lo, hi);
  }

  /** The mean lies between the smallest and the largest value. */
  lemma AverageBetween(s: seq<real>)
    requires |s| > 0
    ensures MinOf(s) <= Average(s) <= MaxOf(s)
  {
    AverageBounds(s, MinOf(s), MaxOf(s));
  }

  lemma MeanExample(s: seq<real>)
    requires s == [1.0, 2.0, 3.0, 4.0, 5.0]
    ensures Average(s) == 3.0
  {
    assert SumTo(s, 1) == 1.0;
    assert SumTo(s, 2) == 3.0;
    assert SumTo(s, 3) == 6.0;
    assert SumTo(s, 4) == 10.0;
    assert Sum(s) == 15.0;
  }

  /** The middle of a non-empty sequence: the middle element, or the
      mean of the two middle elements when the size is even. */
  function Middle(s: seq<real>): real
    requires |s| > 0
  {
    var n := |s|;
    if n % 2 == 0 then (s[n / 2 - 1] + s[n / 2]) / 2.0 else s[n / 2]
  }

  /** median: 0 for no data; otherwise the middle of the sorted copy. */
  function Median(data: seq<real>): (r: real)
    ensures |data| == 0 ==> r == 0.0
    ensures |data| > 0 ==> MinOf(data) <= r <= MaxOf(data)
  {
    if |data| == 0 then 0.0
    else
      MiddleBetween(data);
      Middle(SortedCopy(data))
  }

  lemma MiddleBetween(data: seq<real>)
    requires |data| > 0
    ensures MinOf(data) <= Middle(SortedCopy(data)) <= MaxOf(data)
  {
    var s, lo, hi := SortedCopy(data), MinOf(data), MaxOf(data);
    forall k | 0 <= k < |s|
      ensures lo <= s[k] <= hi
    {
      SortedCopyBetween(data, k);
    }
    MiddleWithin(s, lo, hi);
  }

  /** The middle of values inside [lo, hi] is inside [lo, hi]. */
  lemma MiddleWithin(s: seq<real>, lo: real, hi: real)
    requires |s| > 0 && forall k | 0 <= k < |s| :: lo <= s[k] <= hi
    ensures lo <= Middle(s) <= hi
  {
  }

  /** On sorted data median reads the middle directly. */
  lemma MedianOfSorted(s: seq<real>)
    requires Sorted(s) && |s| > 0
    ensures Median(s) == Middle(s)
  {
    SortIsDetermined(s, s);
  }

  lemma MedianOddExample(s: seq<real>)
    requires |s| == 5 && s[0] == 1.0 && s[1] == 3.0 && s[2] == 5.0 && s[3] == 7.0 && s[4] == 9.0
    ensures Median(s) == 5.0
  {
    assert Sorted(s);
    MedianOfSorted(s);
  }

  lemma MedianEvenExample(s: seq<real>)
    requires |s| == 4 && s[0] == 1.0 && s[1] == 2.0 && s[2] == 3.0 && s[3] == 4.0
    ensures Median(s) == 2.5
  {
    assert Sorted(s);
    MedianOfSorted(s);
  }

  // Quantiles.

  /** q * (n - 1): the fractional index of the q-quantile. */
  function Position(n: nat, q: real): (pos: real)
    requires n > 0 && 0.0 <= q <= 1.0
    ensures 0.0 <= pos <= (n - 1) as real
  {
    q * ((n - 1) as real)
  }

  /** std::floor of a non-negative position, as an index. */
  function FloorIndex(pos: real): (k: nat)
    requires pos >= 0.0
    ensures k as real <= pos < k as real + 1.0
  {
    pos.Floor
  }

  /** std::ceil of a non-negative position, as an index. */
  function CeilIndex(pos: real): (k: nat)
    requires pos >= 0.0
    ensures pos <= k as real < pos + 1.0
    ensures k == FloorIndex(pos) || k == FloorIndex(pos) + 1
    ensures k == FloorIndex(pos) <==> k as real == pos
  {
    if pos.Floor as real == pos then pos.Floor else pos.Floor + 1
  }

  /** The interpolation of quantile between the sorted values either side
      of the position q * (n - 1). */
  function Interpolate(s: seq<real>, q: real): real
    requires |s| > 0 && 0.0 <= q <= 1.0
  {
    var pos := Position(|s|, q);
    var lower := FloorIndex(pos);
    var upper := CeilIndex(pos);
    if lower == upper then s[lower]
    else
      var w := pos - lower as real;
      s[lower] * (1.0 - w) + s[upper] * w
  }

  /** quantile: 0 for no data or q outside [0, 1]; the first and the last
      sorted value for q = 0 and q = 1; otherwise the interpolation. */
  function Quantile(data: seq<real>, q: real): (r: real)
    ensures |data| == 0 || q < 0.0 || q > 1.0 ==> r == 0.0
    ensures |data| > 0 && q == 0.0 ==> r == MinOf(data)
    ensures |data| > 0 && q == 1.0 ==> r == MaxOf(data)
  {
    if |data| == 0 || q < 0.0 || q > 1.0 then 0.0
    else
      var s := SortedCopy(data);
      SortedCopyEnds(data);
      if q == 0.0 then s[0]
      else if q == 1.0 then s[|s| - 1]
      else Interpolate(s, q)
  }

  /** A weighted mean a (1 - w) + b w with 0 <= w <= 1 and a <= b lies
      in [a, b], and grows with w. */
  lemma WeightedBetween(a: real, b: real, w: real)
    requires a <= b && 0.0 <= w <= 1.0
    ensures a <= a * (1.0 - w) + b * w <= b
  {
    assert a * (1.0 - w) + b * w == a + w * (b - a);
    assert w * (b - a) <= 1.0 * (b - a);
  }

  lemma WeightedMonotone(a: real, b: real, w: real, w': real)
    requires a <= b && w <= w'
    ensures a * (1.0 - w) + b * w <= a * (1.0 - w') + b * w'
  {
    assert a * (1.0 - w') + b * w' - (a * (1.0 - w) + b * w) == (w' - w) * (b - a);
  }

  /** The interpolation lies between the sorted values at the floor and
      the ceiling of the position. */
  lemma InterpolateBetween(s: seq<real>, q: real)
    requires Sorted(s) && |s| > 0 && 0.0 <= q <= 1.0
    ensures var pos := Position(|s|, q);
      s[FloorIndex(pos)] <= Interpolate(s, q) <= s[CeilIndex(pos)]
  {
    var pos := Position(|s|, q);
    var lower, upper := FloorIndex(pos), CeilIndex(pos);
    if lower != upper {
      WeightedBetween(s[lower], s[upper], pos - lower as real);
    }
  }

  /** The end cases of quantile agree with the interpolation. */
  lemma InterpolateEnds(s: seq<real>)
    requires |s| > 0
    ensures Interpolate(s, 0.0) == s[0] && Interpolate(s, 1.0) == s[|s| - 1]
  {
    assert Position(|s|, 0.0) == 0.0;
    assert Position(|s|, 1.0) == (|s| - 1) as real;
  }

  /** On data and q in [0, 1], quantile is the interpolation over the
      sorted copy. */
  lemma QuantileIsInterpolation(data: seq<real>, q: real)
    requires |data| > 0 && 0.0 <= q <= 1.0
    ensures Quantile(data, q) == Interpolate(SortedCopy(data), q)
  {
    InterpolateEnds(SortedCopy(data));
  }

  /** The interpolation grows with q. */
  lemma InterpolateMonotone(s: seq<real>, q: real, q': real)
    requires Sorted(s) && |s| > 0 && 0.0 <= q <= q' <= 1.0
    ensures Interpolate(s, q) <= Interpolate(s, q')
  {
    var n := |s|;
    var pos, pos' := Position(n, q), Position(n, q');
    assert pos <= pos' by {
      assert q' * ((n - 1) as real) - q * ((n - 1) as real) == (q' - q) * ((n - 1) as real);
    }
    var lo, hi := FloorIndex(pos), CeilIndex(pos);
    var lo', hi' := FloorIndex(pos'), CeilIndex(pos');
    InterpolateBetween(s, q);
    InterpolateBetween(s, q');
    if hi <= lo' {
      assert s[hi] <= s[lo'];
    } else {
      // Both positions lie in the same unit interval [lo, lo + 1].
      assert lo == lo' && hi == hi' == lo + 1;
      WeightedMonotone(s[lo], s[hi], pos - lo as real, pos' - lo as real);
    }
  }

  /** quantile grows with q. */
  lemma QuantileMonotone(data: seq<real>, q: real, q': real)
    requires |data| > 0 && 0.0 <= q <= q' <= 1.0
    ensures Quantile(data, q) <= Quantile(data, q')
  {
    QuantileIsInterpolation(data, q);
    QuantileIsInterpolation(data, q');
    InterpolateMonotone(SortedCopy(data), q, q');
  }

  /** Every quantile in range lies between the smallest and the largest
      value. */
  lemma QuantileBetween(data: seq<real>, q: real)
    requires |data| > 0 && 0.0 <= q <= 1.0
    ensures MinOf(data) <= Quantile(data, q) <= MaxOf(data)
  {
    QuantileMonotone(data, 0.0, q);
    QuantileMonotone(data, q, 1.0);
  }

  /** Where the 0.5-quantile falls: on the middle index for odd sizes,
      half way between the two middle ones for even sizes. */
  lemma HalfPosition(n: nat)
    requires n > 0
    ensures n % 2 == 1 ==> Position(n, 0.5) == (n / 2) as real
    ensures n % 2 == 0 ==> Position(n, 0.5) == (n / 2) as real - 0.5
  {
    var k := n / 2;
    assert n == 2 * k + n % 2;
    if n % 2 == 1 {
      assert (n - 1) as real == 2.0 * (k as real);
    } else {
      assert (n - 1) as real == 2.0 * (k as real) - 1.0;
    }
  }

  /** Of any non-empty sequence, the middle is the interpolation at 0.5. */
  lemma MiddleIsHalfInterpolation(s: seq<real>)
    requires |s| > 0
    ensures Middle(s) == Interpolate(s, 0.5)
  {
    var n := |s|;
    var k := n / 2;
    var pos := Position(n, 0.5);
    HalfPosition(n);
    if n % 2 == 1 {
      assert FloorIndex(pos) == k;
      assert CeilIndex(pos) == k;
    } else {
      assert FloorIndex(pos) == k - 1;
      assert CeilIndex(pos) == k;
      assert pos - (k - 1) as real == 0.5;
      assert s[k - 1] * (1.0 - 0.5) + s[k] * 0.5 == (s[k - 1] + s[k]) / 2.0;
    }
  }

  /** The median is the 0.5-quantile. */
  lemma MedianIsHalfQuantile(data: seq<real>)
    requires |data| > 0
    ensures Median(data) == Quantile(data, 0.5)
  {
    QuantileIsInterpolation(data, 0.5);
    MiddleIsHalfInterpolation(SortedCopy(data));
  }

  /** On sorted data quantile interpolates the data directly. */
  lemma QuantileOfSorted(s: seq<real>, q: real)
    requires Sorted(s) && |s| > 0 && 0.0 <= q <= 1.0
    ensures Quantile(s, q) == Interpolate(s, q)
  {
    SortIsDetermined(s, s);
    QuantileIsInterpolation(s, q);
  }

  lemma QuantileHalfExample(s: seq<real>)
    requires |s| == 5 && s[0] == 1.0 && s[1] == 2.0 && s[2] == 3.0 && s[3] == 4.0 && s[4] == 5.0
    ensures Quantile(s, 0.5) == 3.0
  {
    assert Sorted(s);
    QuantileOfSorted(s, 0.5);
    InterpolateAtIndex(s, 0.5, 2);
  }

  lemma QuantileLowerExample(s: seq<real>)
    requires |s| == 5 && s[0] == 1.0 && s[1] == 2.0 && s[2] == 3.0 && s[3] == 4.0 && s[4] == 5.0
    ensures Quantile(s, 0.25) == 2.0
  {
    assert Sorted(s);
    QuantileOfSorted(s, 0.25);
    InterpolateAtIndex(s, 0.25, 1);
  }

  lemma QuantileUpperExample(s: seq<real>)
    requires |s| == 5 && s[0] == 1.0 && s[1] == 2.0 && s[2] == 3.0 && s[3] == 4.0 && s[4] == 5.0
    ensures Quantile(s, 0.75) == 4.0
  {
    assert Sorted(s);
    QuantileOfSorted(s, 0.75);
    InterpolateAtIndex(s, 0.75, 3);
  }

  /** When q * (n - 1) is a whole number k, the interpolation is s[k]. */
  lemma InterpolateAtIndex(s: seq<real>, q: real, k: nat)
    requires |s| > 0 && 0.0 <= q <= 1.0 && q * ((|s| - 1) as real) == k as real
    ensures k < |s| && Interpolate(s, q) == s[k]
  {
    assert FloorIndex(Position(|s|, q)) == k;
  }

  /** The order of the data matters to neither median nor quantile. */
  lemma OrderIrrelevant(a: seq<real>, b: seq<real>, q: real)
    requires multiset(a) == multiset(b)
    ensures Median(a) == Median(b) && Quantile(a, q) == Quantile(b, q)
  {
    SortedCopyOfPermutation(a, b);
  }

  // The mode.

  predicate StrictlyIncreasing(s: seq<real>) {
    forall i, j | 0 <= i < j < |s| :: s[i] < s[j]
  }

  /** v occurs, and no value occurs more often. */
  ghost predicate MostFrequent(data: seq<real>, v: real) {
    multiset(data)[v] > 0 && forall w :: multiset(data)[w] <= multiset(data)[v]
  }

  /** The state of the scan over the finished runs d: modes lists in
      increasing order the values occurring exactly top times in d, and
      no value occurs more often. */
  ghost predicate Tally(d: seq<real>, modes: seq<real>, top: nat) {
    && StrictlyIncreasing(modes)
    && (forall v :: v in modes <==> multiset(d)[v] == top)
    && (forall v :: multiset(d)[v] <= top)
  }

  /** A run of equal values counts its length for that value only. */
  lemma {:induction false} RunCount(run: seq<real>, c: real)
    requires forall k | 0 <= k < |run| :: run[k] == c
    ensures multiset(run) == multiset{}[c := |run|]
  {
    if |run| > 0 {
      var init := run[..|run| - 1];
      RunCount(init, c);
      assert run == init + [c];
    }
  }

  /** Closing a run of the value c, larger than everything before it,
      keeps the tally: a longer run replaces the modes, an equally long
      one joins them. */
  lemma CloseRun(d: seq<real>, run: seq<real>, c: real, modes: seq<real>, top: nat, modes': seq<real>, top': nat)
    requires Tally(d, modes, top) && top >= 1 && |run| >= 1
    requires forall k | 0 <= k < |run| :: run[k] == c
    requires forall k | 0 <= k < |d| :: d[k] < c
    requires |run| > top ==> top' == |run| && modes' == [c]
    requires |run| == top ==> top' == top && modes' == modes + [c]
    requires |run| < top ==> top' == top && modes' == modes
    ensures Tally(d + run, modes', top')
  {
    RunCount(run, c);
    assert c !in d;
    assert multiset(d)[c] == 0;
    assert forall v :: multiset(d + run)[v] == multiset(d)[v] + (if v == c then |run| else 0);
    assert forall v | v in modes :: v < c by {
      forall v | v in modes
        ensures v < c
      {
        assert v in multiset(d);
        var k :| 0 <= k < |d| && d[k] == v;
      }
    }
    if |run| == top {
      forall i, j | 0 <= i < j < |modes'|
        ensures modes'[i] < modes'[j]
      {
        assert modes'[i] == modes[i] && modes[i] in modes;
        if j < |modes| {
          assert modes'[j] == modes[j];
        }
      }
    }
  }

  /** How closing a run of count copies of current changes the modes and
      the largest count seen: a longer run replaces the modes, an equally
      long one joins them, a shorter one changes nothing. */
  predicate Closed(current: real, count: nat, modes: seq<real>, top: nat, modes': seq<real>, top': nat) {
    && (count > top ==> top' == count && modes' == [current])
    && (count == top ==> top' == top && modes' == modes + [current])
    && (count < top ==> top' == top && modes' == modes)
  }

  /** The comparison of a finished run of count copies of current with
      the largest count so far: a longer run replaces the modes, an equal
      one joins them, a shorter one is dropped. */
  method Tallied(current: real, count: nat, modes: seq<real>, top: nat) returns (modes': seq<real>, top': nat)
    ensures Closed(current, count, modes, top, modes', top')
  {
    modes', top' := modes, top;
    if count > top {
      top' := count;
      modes' := [current];
    } else if count == top {
      modes' := modes + [current];
    }
  }

  /** The state of the scan before index i of the sorted data s: the
      current run holds the last count elements read, all equal to
      current and larger than everything before them, and the runs
      before it are tallied in modes and top. */
  ghost predicate Scanning(s: seq<real>, i: nat, current: real, count: nat, modes: seq<real>, top: nat) {
    && 1 <= count <= i <= |s| && top >= 1
    && s[i - 1] == current
    && (forall k | i - count <= k < i :: s[k] == current)
    && (forall k | 0 <= k < i - count :: s[k] < current)
    && Tally(s[..i - count], modes, top)
    && (i - count == 0 ==> top == 1)
    && (i - count > 0 ==> |modes| > 0)
  }

  /** An element equal to current lengthens the run. */
  lemma ScanExtend(s: seq<real>, i: nat, current: real, count: nat, modes: seq<real>, top: nat)
    requires i < |s| && Scanning(s, i, current, count, modes, top) && s[i] == current
    ensures Scanning(s, i + 1, current, count + 1, modes, top)
  {
    assert (i + 1) - (count + 1) == i - count;
  }

  /** Closing the run tallies it, whatever comes next. */
  lemma ScanClose(s: seq<real>, i: nat, current: real, count: nat, modes: seq<real>, top: nat, modes': seq<real>, top': nat)
    requires Scanning(s, i, current, count, modes, top) && Closed(current, count, modes, top, modes', top')
    ensures Tally(s[..i], modes', top') && top' >= 1 && |modes'| > 0
  {
    var d, run := s[..i - count], s[i - count..i];
    assert forall k | 0 <= k < |run| :: run[k] == s[i - count + k];
    CloseRun(d, run, current, modes, top, modes', top');
    assert d + run == s[..i];
  }

  /** A larger element starts a new run once the old one is tallied. */
  lemma ScanRestart(s: seq<real>, i: nat, current: real, count: nat, modes: seq<real>, top: nat, modes': seq<real>, top': nat)
    requires Sorted(s) && i < |s| && Scanning(s, i, current, count, modes, top) && s[i] != current
    requires Closed(current, count, modes, top, modes', top')
    ensures Scanning(s, i + 1, s[i], 1, modes', top')
  {
    ScanClose(s, i, current, count, modes, top, modes', top');
    assert s[i - 1] <= s[i];
  }

  /** The run-length loop of mode over the sorted data: every run but the
      last is tallied, the last one is still open. */
  method ScanRuns(sorted: seq<real>) returns (current: real, count: nat, modes: seq<real>, top: nat)
    requires Sorted(sorted) && |sorted| > 0
    ensures Scanning(sorted, |sorted|, current, count, modes, top)
  {
    modes := [];
    current := sorted[0];
    count := 1;
    top := 1;
    assert sorted[..0] == [];
    for i := 1 to |sorted|
      invariant Scanning(sorted, i, current, count, modes, top)
    {
      if sorted[i] == current {
        ScanExtend(sorted, i, current, count, modes, top);
        count := count + 1;
      } else {
        ghost var modes0, top0 := modes, top;
        modes, top := Tallied(current, count, modes, top);
        ScanRestart(sorted, i, current, count, modes0, top0, modes, top);
        current := sorted[i];
        count := 1;
      }
    }
  }

  /** mode: nothing for no data; otherwise a run-length scan over the
      sorted copy yields, in increasing order, exactly the values that
      occur most often. */
  method Mode(data: seq<real>) returns (modes: seq<real>)
    ensures |data| == 0 ==> modes == []
    ensures StrictlyIncreasing(modes)
    ensures forall v :: v in modes <==> MostFrequent(data, v)
  {
    if |data| == 0 {
      return [];
    }
    var sorted := SortedCopy(data);
    var current, count, top;
    current, count, modes, top := ScanRuns(sorted);
    // The last run is tallied too; the largest count it yields is no
    // longer read.
    ghost var modes0 := modes;
    var top';
    modes, top' := Tallied(current, count, modes, top);
    ScanClose(sorted, |sorted|, current, count, modes0, top, modes, top');
    assert sorted[..|sorted|] == sorted;
    ModesAreMostFrequent(data, sorted, modes, top');
  }

  /** Once every run is closed, the tally holds the most frequent values. */
  lemma ModesAreMostFrequent(data: seq<real>, sorted: seq<real>, modes: seq<real>, top: nat)
    requires multiset(sorted) == multiset(data) && Tally(sorted, modes, top) && top >= 1 && |modes| > 0
    ensures forall v :: v in modes <==> MostFrequent(data, v)
  {
    assert modes[0] in modes;
    assert multiset(data)[modes[0]] == top;
    forall v
      ensures v in modes <==> MostFrequent(data, v)
    {
      if MostFrequent(data, v) {
        assert multiset(data)[v] >= multiset(data)[modes[0]];
      }
    }
  }
}
