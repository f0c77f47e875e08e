/**
 * The speed-test page's latency aggregate: a symmetric 10% trimmed mean.
 * The samples are copied and sorted ascending, floor(n * 0.1) of them are
 * dropped from each end of the sorted copy, and the rest are averaged; no
 * samples, or nothing left after trimming, gives 0.
 */
module TrimmedMean {

  /** Ascending order, as produced by `sort((a, b) => a - b)`. */
  predicate IsSorted(s: seq<real>)
  {
    forall i, j :: 0 <= i < j < |s| ==> s[i] <= s[j]
  }

  function Sum(s: seq<real>): real
  {
    if s == [] then 0.0 else s[0] + Sum(s[1..])
  }

  /** The smallest sample. */
  function Min(s: seq<real>): (m: real)
    requires s != []
    ensures m in s
    ensures forall x :: x in s ==> m <= x
  {
    if |s| == 1 then s[0]
    else
      var rest := Min(s[1..]);
      assert forall x :: x in s ==> x == s[0] || x in s[1..];
      if s[0] <= rest then s[0] else rest
  }

  /** The largest sample. */
  function Max(s: seq<real>): (m: real)
    requires s != []
    ensures m in s
    ensures forall x :: x in s ==> x <= m
  {
    if |s| == 1 then s[0]
    else
      var rest := Max(s[1..]);
      assert forall x :: x in s ==> x == s[0] || x in s[1..];
      if rest <= s[0] then s[0] else rest
  }

  /** Inserts `x` into an ascending sequence, keeping it ascending. */
  function Insert(x: real, s: seq<real>): (r: seq<real>)
    requires IsSorted(s)
    ensures |r| == |s| + 1
    ensures IsSorted(r)
    ensures multiset(r) == multiset(s) + multiset{x}
    ensures r[0] == x || (s != [] && r[0] == s[0])
  {
    if s == [] || x <= s[0] then [x] + s
    else
      var tail := Insert(x, s[1..]);
      assert s == [s[0]] + s[1..];
      [s[0]] + tail
  }

  /** The sorted copy `[...times].sort((a, b) => a - b)`: ascending and a permutation of its input. */
  function Sort(s: seq<real>): (r: seq<real>)
    ensures |r| == |s|
    ensures IsSorted(r)
    ensures multiset(r) == multiset(s)
  {
    if s == [] then []
    else
      assert s == [s[0]] + s[1..];
      Insert(s[0], Sort(s[1..]))
  }

  /**
   * The number of samples dropped from EACH end: `Math.floor(n * 0.1)`,
   * which is the integer quotient n / 10 for every sample count n.
   */
  function TrimCount(n: nat): (k: nat)
    ensures k * 10 <= n < (k + 1) * 10
    ensures n < 10 ==> k == 0
    ensures 2 * k <= n
    ensures n >= 1 ==> n - 2 * k >= 1
  {
    n / 10
  }

  /** The sorted copy with TrimCount samples cut from each end. */
  function Trimmed(times: seq<real>): (t: seq<real>)
    ensures |t| == |times| - 2 * TrimCount(|times|)
    ensures IsSorted(t)
    ensures multiset(t) <= multiset(times)
  {
    var sorted := Sort(times);
    var k := TrimCount(|times|);
    TrimmedSlice(sorted, k, multiset(times));
    sorted[k..|sorted| - k]
  }

  lemma TrimmedSlice(sorted: seq<real>, k: nat, whole: multiset<real>)
    requires IsSorted(sorted) && multiset(sorted) == whole && 2 * k <= |sorted|
    ensures IsSorted(sorted[k..|sorted| - k])
    ensures multiset(sorted[k..|sorted| - k]) <= whole
  {
    SliceSorted(sorted, k, |sorted| - k);
    SliceSubMultiset(sorted, k, |sorted| - k, whole);
  }

  lemma SliceSubMultiset(s: seq<real>, lo: nat, hi: nat, whole: multiset<real>)
    requires lo <= hi <= |s| && multiset(s) == whole
    ensures multiset(s[lo..hi]) <= whole
  {
    assert s == s[..lo] + s[lo..hi] + s[hi..];
  }

  lemma SliceSorted(s: seq<real>, lo: nat, hi: nat)
    requires IsSorted(s) && lo <= hi <= |s|
    ensures IsSorted(s[lo..hi])
  {
    forall i, j | 0 <= i < j < hi - lo
      ensures s[lo..hi][i] <= s[lo..hi][j]
    {
      assert s[lo..hi][i] == s[lo + i] && s[lo..hi][j] == s[lo + j];
    }
  }

  /**
   * The trim is symmetric: the samples split into the TrimCount smallest,
   * the kept slice and the TrimCount largest, with every dropped low sample
   * at most every kept one and every dropped high sample at least every kept one.
   */
  lemma TrimDropsExtremes(times: seq<real>)
    ensures var sorted, k := Sort(times), TrimCount(|times|);
            var low, high := sorted[..k], sorted[|times| - k..];
            && |low| == k && |high| == k
            && multiset(low) + multiset(Trimmed(times)) + multiset(high) == multiset(times)
            && (forall x, y :: x in low && y in Trimmed(times) ==> x <= y)
            && (forall y, z :: y in Trimmed(times) && z in high ==> y <= z)
  {
    var sorted, k := Sort(times), TrimCount(|times|);
    var low, mid, high := sorted[..k], sorted[k..|sorted| - k], sorted[|sorted| - k..];
    assert mid == Trimmed(times);
    assert multiset(low) + multiset(mid) + multiset(high) == multiset(times) by {
      assert sorted == low + mid + high;
    }
    SortedThreeWay(sorted, k);
  }

  lemma SortedThreeWay(sorted: seq<real>, k: nat)
    requires IsSorted(sorted)
    requires 2 * k <= |sorted|
    ensures var low, mid, high := sorted[..k], sorted[k..|sorted| - k], sorted[|sorted| - k..];
            && (forall x, y :: x in low && y in mid ==> x <= y)
            && (forall y, z :: y in mid && z in high ==> y <= z)
  {
    var low, mid, high := sorted[..k], sorted[k..|sorted| - k], sorted[|sorted| - k..];
    forall x, y | x in low && y in mid ensures x <= y {
      var i :| 0 <= i < |low| && low[i] == x;
      var j :| 0 <= j < |mid| && mid[j] == y;
      assert sorted[i] <= sorted[k + j];
    }
    forall y, z | y in mid && z in high ensures y <= z {
      var j :| 0 <= j < |mid| && mid[j] == y;
      var l :| 0 <= l < |high| && high[l] == z;
      assert sorted[k + j] <= sorted[|sorted| - k + l];
    }
  }

  /**
   * `calculateFilteredAverage`: 0 for no samples; otherwise the mean of the
   * trimmed slice, which always lies between the smallest and the largest
   * sample (the slice is never empty once there is a sample).
   */
  function FilteredAverage(times: seq<real>): (avg: real)
    ensures times == [] ==> avg == 0.0
    ensures times != [] ==> Min(times) <= avg <= Max(times)
  {
    if |times| == 0 then 0.0
    else
      var trimmed := Trimmed(times);
      if |trimmed| == 0 then 0.0
      else
        WithinSamples(times);
        MeanWithin(trimmed, Min(times), Max(times));
        Sum(trimmed) / |trimmed| as real
  }

  /** For a non-empty input the aggregate is the mean of the trimmed slice. */
  lemma MeanOfTrimmed(times: seq<real>)
    requires times != []
    ensures FilteredAverage(times) == Sum(Trimmed(times)) / |Trimmed(times)| as real
  {
  }

  /** Every element of the trimmed slice is one of the samples. */
  lemma WithinSamples(times: seq<real>)
    requires times != []
    ensures forall x :: x in Trimmed(times) ==> Min(times) <= x <= Max(times)
  {
    var t := Trimmed(times);
    var lo, hi := Min(times), Max(times);
    assert multiset(t) <= multiset(times);
    forall x | x in t
      ensures lo <= x <= hi
    {
      assert x in multiset(t);
      assert x in multiset(times);
      assert x in times;
    }
  }

  lemma {:induction false} SumBounds(s: seq<real>, lo: real, hi: real)
    requires forall x :: x in s ==> lo <= x <= hi
    ensures lo * |s| as real <= Sum(s) <= hi * |s| as real
  {
    if s != [] {
      var rest := s[1..];
      assert s[0] in s;
      forall x | x in rest ensures lo <= x <= hi {
        assert x in s;
      }
      SumBounds(rest, lo, hi);
      var m := |rest| as real;
      assert Sum(s) == s[0] + Sum(rest);
      assert lo * |s| as real == lo * m + lo;
      assert hi * |s| as real == hi * m + hi;
    }
  }

  /** A mean of values between `lo` and `hi` is itself between them. */
  lemma MeanWithin(s: seq<real>, lo: real, hi: real)
    requires s != []
    requires forall x :: x in s ==> lo <= x <= hi
    ensures lo <= Sum(s) / |s| as real <= hi
  {
    SumBounds(s, lo, hi);
    var n := |s| as real;
    var q := Sum(s) / n;
    assert q * n == Sum(s);
    assert (q - lo) * n == Sum(s) - lo * n;
    assert (hi - q) * n == hi * n - Sum(s);
    NonNegativeFactor(q - lo, n);
    NonNegativeFactor(hi - q, n);
  }

  lemma NonNegativeFactor(x: real, n: real)
    requires n > 0.0 && x * n >= 0.0
    ensures x >= 0.0
  {
  }

  /** Two ascending arrangements of the same samples are the same sequence. */
  lemma {:induction false} SortedUnique(a: seq<real>, b: seq<real>)
    requires IsSorted(a) && IsSorted(b)
    requires multiset(a) == multiset(b)
    ensures a == b
  {
    assert |a| == |multiset(a)| == |multiset(b)| == |b|;
    if a != [] {
      HeadIsLeast(b, a[0]);
      HeadIsLeast(a, b[0]);
      assert a == [a[0]] + a[1..];
      assert b == [b[0]] + b[1..];
      assert a[0] == b[0];
      assert multiset(a[1..]) == multiset(a) - multiset{a[0]};
      assert multiset(b[1..]) == multiset(b) - multiset{b[0]};
      TailSorted(a);
      TailSorted(b);
      SortedUnique(a[1..], b[1..]);
    }
  }

  lemma TailSorted(s: seq<real>)
    requires s != [] && IsSorted(s)
    ensures IsSorted(s[1..])
  {
    forall i, j | 0 <= i < j < |s| - 1
      ensures s[1..][i] <= s[1..][j]
    {
      assert s[1..][i] == s[i + 1] && s[1..][j] == s[j + 1];
    }
  }

  lemma HeadIsLeast(s: seq<real>, x: real)
    requires IsSorted(s)
    requires x in multiset(s)
    ensures s[0] <= x
  {
    var i :| 0 <= i < |s| && s[i] == x;
    if i > 0 {
      assert s[0] <= s[i];
    }
  }

  /** Sorting an already ascending sequence leaves it as it is. */
  lemma SortOfSorted(s: seq<real>)
    requires IsSorted(s)
    ensures Sort(s) == s
  {
    SortedUnique(Sort(s), s);
  }

  lemma {:induction false} SumInsert(x: real, s: seq<real>)
    requires IsSorted(s)
    ensures Sum(Insert(x, s)) == x + Sum(s)
  {
    if s != [] && x > s[0] {
      SumInsert(x, s[1..]);
    }
  }

  lemma {:induction false} SumSort(s: seq<real>)
    ensures Sum(Sort(s)) == Sum(s)
  {
    if s != [] {
      SumSort(s[1..]);
      SumInsert(s[0], Sort(s[1..]));
    }
  }

  /** The sum depends only on the multiset of samples, not on their order. */
  lemma SumPermutation(a: seq<real>, b: seq<real>)
    requires multiset(a) == multiset(b)
    ensures Sum(a) == Sum(b)
  {
    SortedUnique(Sort(a), Sort(b));
    SumSort(a);
    SumSort(b);
  }

  /**
   * The aggregate depends only on the multiset of samples: any reordering
   * of the input gives the same value (only the sorted copy is trimmed).
   */
  lemma FilteredAveragePermutation(a: seq<real>, b: seq<real>)
    requires multiset(a) == multiset(b)
    ensures FilteredAverage(a) == FilteredAverage(b)
  {
    assert |a| == |multiset(a)| == |multiset(b)| == |b|;
    SortedUnique(Sort(a), Sort(b));
    assert Trimmed(a) == Trimmed(b);
  }

  /** With fewer than ten samples nothing is trimmed: the aggregate is the plain mean. */
  lemma PlainMeanBelowTen(times: seq<real>)
    requires 0 < |times| < 10
    ensures FilteredAverage(times) == Sum(times) / |times| as real
  {
    NothingTrimmed(times);
    SumSort(times);
    MeanOfTrimmed(times);
  }

  lemma NothingTrimmed(times: seq<real>)
    requires |times| < 10
    ensures Trimmed(times) == Sort(times)
  {
    var sorted := Sort(times);
    assert TrimCount(|times|) == 0;
    assert sorted[0..|sorted|] == sorted;
  }

  /** A single sample is its own aggregate. */
  lemma OneSample(x: real)
    ensures FilteredAverage([x]) == x
  {
    PlainMeanBelowTen([x]);
  }

  /** Ten samples 1, 2, ..., 10: one dropped from each end, and the mean of 2..9 is 44 / 8. */
  lemma TenSamples(s: seq<real>)
    requires |s| == 10
    requires forall i :: 0 <= i < |s| ==> s[i] == (i + 1) as real
    ensures FilteredAverage(s) == 5.5
  {
    TenSamplesTrimmed(s);
    TenSamplesSum(s);
    MeanOfTrimmed(s);
    assert |Trimmed(s)| as real == 8.0;
    assert FilteredAverage(s) == 44.0 / 8.0;
  }

  lemma TenSamplesTrimmed(s: seq<real>)
    requires |s| == 10
    requires forall i :: 0 <= i < |s| ==> s[i] == (i + 1) as real
    ensures Trimmed(s) == s[1..9]
  {
    SortOfSorted(s);
    assert TrimCount(|s|) == 1;
  }

  lemma TenSamplesSum(s: seq<real>)
    requires |s| == 10
    requires forall i :: 0 <= i < |s| ==> s[i] == (i + 1) as real
    ensures Sum(s[1..9]) == 44.0
  {
    var t := s[1..9];
    assert Sum(t[7..]) == 9.0;
    assert Sum(t[6..]) == 17.0;
    assert Sum(t[5..]) == 24.0;
    assert Sum(t[4..]) == 30.0;
    assert Sum(t[3..]) == 35.0;
    assert Sum(t[2..]) == 39.0;
    assert Sum(t[1..]) == 42.0;
  }
}
