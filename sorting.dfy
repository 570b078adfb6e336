/** What the statistics take from <algorithm>: std::sort, which
    rearranges a copy of the data into ascending order, and
    std::minmax_element. The library leaves the sorting algorithm open;
    the model sorts by insertion and proves that every sorted
    rearrangement of the data is the same sequence, so nothing below
    depends on that choice. */
module Sorting {

  predicate Sorted(s: seq<real>) {
    forall i, j | 0 <= i < j < |s| :: s[i] <= s[j]
  }

  /** x placed before the first element of s that is not smaller. */
  function Insert(x: real, s: seq<real>): (r: seq<real>)
    requires Sorted(s)
    ensures |r| == |s| + 1 && Sorted(r) && multiset(r) == multiset(s) + multiset{x}
  {
    if |s| == 0 then [x]
    else if x <= s[0] then [x] + s
    else
      var t := Insert(x, s[1..]);
      assert s == [s[0]] + s[1..];
      SortedCons(x, s, t);
      [s[0]] + t
  }

  /** The first element stays in front when x goes after it. */
  lemma SortedCons(x: real, s: seq<real>, t: seq<real>)
    requires |s| > 0 && Sorted(s) && s[0] < x
    requires Sorted(t) && multiset(t) == multiset(s[1..]) + multiset{x}
    ensures Sorted([s[0]] + t)
  {
    forall p | 0 <= p < |t|
      ensures s[0] <= t[p]
    {
      assert t[p] in multiset(s[1..]) + multiset{x};
      if t[p] != x {
        var q :| 0 <= q < |s[1..]| && s[1..][q] == t[p];
        assert s[q + 1] == t[p];
      }
    }
    var r := [s[0]] + t;
    forall i, j | 0 <= i < j < |r|
      ensures r[i] <= r[j]
    {
      if i > 0 {
        assert r[i] == t[i - 1] && r[j] == t[j - 1];
      } else {
        assert r[j] == t[j - 1];
      }
    }
  }

  /** The sorted copy of s. */
  function SortedCopy(s: seq<real>): (r: seq<real>)
    ensures |r| == |s| && Sorted(r) && multiset(r) == multiset(s)
  {
    if |s| == 0 then []
    else
      assert s == s[..|s| - 1] + [s[|s| - 1]];
      Insert(s[|s| - 1], SortedCopy(s[..|s| - 1]))
  }

  /** The first element of a sorted sequence is below all of it. */
  lemma SortedFirst(s: seq<real>, x: real)
    requires Sorted(s) && x in multiset(s)
    ensures s[0] <= x
  {
    var i :| 0 <= i < |s| && s[i] == x;
  }

  /** The last element of a sorted sequence is above all of it. */
  lemma SortedLast(s: seq<real>, x: real)
    requires Sorted(s) && x in multiset(s)
    ensures x <= s[|s| - 1]
  {
    var i :| 0 <= i < |s| && s[i] == x;
  }

  /** The tail of a sorted sequence is sorted. */
  lemma SortedTail(s: seq<real>)
    requires Sorted(s) && |s| > 0
    ensures Sorted(s[1..])
  {
    forall i, j | 0 <= i < j < |s| - 1
      ensures s[1..][i] <= s[1..][j]
    {
      assert s[1..][i] == s[i + 1] && s[1..][j] == s[j + 1];
    }
  }

  /** Removing the first element from the data removes it from the
      multiset. */
  lemma TailMultiset(s: seq<real>)
    requires |s| > 0
    ensures multiset(s[1..]) == multiset(s) - multiset{s[0]}
  {
    assert s == [s[0]] + s[1..];
  }

  /** Two sorted rearrangements of the same data start alike. */
  lemma SortedHeads(a: seq<real>, b: seq<real>)
    requires Sorted(a) && Sorted(b) && multiset(a) == multiset(b) && |a| > 0 && |b| > 0
    ensures a[0] == b[0]
  {
    assert a[0] in multiset(b) && b[0] in multiset(a);
    SortedFirst(a, b[0]);
    SortedFirst(b, a[0]);
  }

  /** Two sorted rearrangements of the same data are equal. */
  lemma {:induction false} SortedUnique(a: seq<real>, b: seq<real>)
    requires Sorted(a) && Sorted(b) && multiset(a) == multiset(b)
    ensures a == b
    decreases |a|
  {
    assert |a| == |multiset(a)| == |multiset(b)| == |b|;
    if |a| > 0 {
      SortedHeads(a, b);
      TailMultiset(a);
      TailMultiset(b);
      SortedTail(a);
      SortedTail(b);
      SortedUnique(a[1..], b[1..]);
      assert a == [a[0]] + a[1..] && b == [b[0]] + b[1..];
    }
  }

  /** Whatever algorithm does the sorting, its result is SortedCopy. */
  lemma SortIsDetermined(s: seq<real>, r: seq<real>)
    requires Sorted(r) && multiset(r) == multiset(s)
    ensures r == SortedCopy(s)
  {
    SortedUnique(r, SortedCopy(s));
  }

  /** Rearranging the data does not change its sorted copy. */
  lemma SortedCopyOfPermutation(s: seq<real>, t: seq<real>)
    requires multiset(s) == multiset(t)
    ensures SortedCopy(s) == SortedCopy(t)
  {
    SortedUnique(SortedCopy(s), SortedCopy(t));
  }

  /** The smallest element (the first result of std::minmax_element). */
  function MinOf(s: seq<real>): (r: real)
    requires |s| > 0
    ensures r in s && forall i | 0 <= i < |s| :: r <= s[i]
  {
    if |s| == 1 then s[0]
    else
      var m := MinOf(s[..|s| - 1]);
      assert forall i | 0 <= i < |s| - 1 :: s[..|s| - 1][i] == s[i];
      if s[|s| - 1] < m then s[|s| - 1] else m
  }

  /** The largest element (the second result of std::minmax_element). */
  function MaxOf(s: seq<real>): (r: real)
    requires |s| > 0
    ensures r in s && forall i | 0 <= i < |s| :: s[i] <= r
  {
    if |s| == 1 then s[0]
    else
      var m := MaxOf(s[..|s| - 1]);
      assert forall i | 0 <= i < |s| - 1 :: s[..|s| - 1][i] == s[i];
      if m < s[|s| - 1] then s[|s| - 1] else m
  }

  /** The ends of the sorted copy are the minimum and the maximum. */
  lemma SortedCopyEnds(s: seq<real>)
    requires |s| > 0
    ensures SortedCopy(s)[0] == MinOf(s)
    ensures SortedCopy(s)[|s| - 1] == MaxOf(s)
  {
    SortedFirstIsMin(SortedCopy(s), s);
    SortedLastIsMax(SortedCopy(s), s);
  }

  /** A sorted rearrangement of s starts with the minimum of s. */
  lemma SortedFirstIsMin(r: seq<real>, s: seq<real>)
    requires Sorted(r) && multiset(r) == multiset(s) && |s| > 0
    ensures |r| == |s| && r[0] == MinOf(s)
  {
    assert |r| == |multiset(r)| == |multiset(s)| == |s|;
    assert MinOf(s) in multiset(r);
    SortedFirst(r, MinOf(s));
    assert r[0] in multiset(s);
    var i :| 0 <= i < |s| && s[i] == r[0];
  }

  /** A sorted rearrangement of s ends with the maximum of s. */
  lemma SortedLastIsMax(r: seq<real>, s: seq<real>)
    requires Sorted(r) && multiset(r) == multiset(s) && |s| > 0
    ensures |r| == |s| && r[|r| - 1] == MaxOf(s)
  {
    assert |r| == |multiset(r)| == |multiset(s)| == |s|;
    assert MaxOf(s) in multiset(r);
    SortedLast(r, MaxOf(s));
    assert r[|r| - 1] in multiset(s);
    var i :| 0 <= i < |s| && s[i] == r[|r| - 1];
  }

  /** Every element of the sorted copy lies between the minimum and the
      maximum. */
  lemma SortedCopyBetween(s: seq<real>, k: nat)
    requires k < |s|
    ensures MinOf(s) <= SortedCopy(s)[k] <= MaxOf(s)
  {
    var r := SortedCopy(s);
    assert r[k] in multiset(s);
  }
}
