/**
 * The integer side of the latency statistics: the `qsort` comparator, the sort of
 * the sample buffer, the percentile indices and the 64-bit sum of the samples.
 */
module LatencyStats {
  import opened Ints

  /** `CompareULONGLONG`: -1, 1 or 0 as the first value is below, above or equal to the second. */
  function Compare(a: u64, b: u64): (r: int)
    ensures r == -1 <==> a < b
    ensures r == 1 <==> a > b
    ensures r == 0 <==> a == b
  {
    if a < b then -1 else if a > b then 1 else 0
  }

  predicate Sorted(s: seq<u64>) {
    forall i, j :: 0 <= i <= j < |s| ==> s[i] <= s[j]
  }

  /**
   * The percentile index `(ULONGLONG)(n * p)` for `p = perMille / 1000`. The model
   * uses the exact integer quotient of `n * perMille` by 1000. A percentile below
   * 100% indexes inside a nonempty buffer.
   */
  function PercentileIndex(n: nat, perMille: nat): (r: nat)
    requires perMille < 1000
    ensures n > 0 ==> r < n
  {
    ScaleMonotone(perMille, 999, n);
    n * perMille / 1000
  }

  const P50: nat := 500
  const P90: nat := 900
  const P95: nat := 950
  const P99: nat := 990
  const P999: nat := 999

  /** A higher percentile never indexes lower. */
  lemma PercentileIndexMonotone(n: nat, k1: nat, k2: nat)
    requires k1 <= k2 < 1000
    ensures PercentileIndex(n, k1) <= PercentileIndex(n, k2)
  {
    assert n * k1 <= n * k2;
  }

  /** In a sorted nonempty buffer: min <= p50 <= p90 <= p95 <= p99 <= p99.9 <= max. */
  lemma PercentilesOrdered(s: seq<u64>)
    requires Sorted(s) && |s| > 0
    ensures PercentileIndex(|s|, P999) < |s|
    ensures s[0] <= s[PercentileIndex(|s|, P50)]
    ensures s[PercentileIndex(|s|, P50)] <= s[PercentileIndex(|s|, P90)]
    ensures s[PercentileIndex(|s|, P90)] <= s[PercentileIndex(|s|, P95)]
    ensures s[PercentileIndex(|s|, P95)] <= s[PercentileIndex(|s|, P99)]
    ensures s[PercentileIndex(|s|, P99)] <= s[PercentileIndex(|s|, P999)]
    ensures s[PercentileIndex(|s|, P999)] <= s[|s| - 1]
  {
    var n := |s|;
    PercentileIndexMonotone(n, P50, P90);
    PercentileIndexMonotone(n, P90, P95);
    PercentileIndexMonotone(n, P95, P99);
    PercentileIndexMonotone(n, P99, P999);
  }

  /** The order statistics `CalculateLatencyStatistics` reads off the sorted buffer. */
  datatype Percentiles = Percentiles(min: u64, max: u64, p50: u64, p90: u64, p95: u64, p99: u64, p999: u64)

  /** Minimum, maximum and percentiles of a sorted nonempty buffer. */
  function StatsOf(s: seq<u64>): Percentiles
    requires |s| > 0
  {
    Percentiles(s[0], s[|s| - 1],
                s[PercentileIndex(|s|, P50)], s[PercentileIndex(|s|, P90)], s[PercentileIndex(|s|, P95)],
                s[PercentileIndex(|s|, P99)], s[PercentileIndex(|s|, P999)])
  }

  /** Read off a sorted buffer, the statistics come in order. */
  lemma StatsOrdered(s: seq<u64>)
    requires Sorted(s) && |s| > 0
    ensures var r := StatsOf(s); r.min <= r.p50 <= r.p90 <= r.p95 <= r.p99 <= r.p999 <= r.max
  {
    PercentilesOrdered(s);
  }

  /**
   * Sorting is a permutation, so the first and last of the sorted buffer bound
   * every sample that was in the unsorted one.
   */
  lemma SortedBounds(before: seq<u64>, after: seq<u64>)
    requires Sorted(after) && |after| > 0 && multiset(before) == multiset(after)
    ensures forall x :: x in before ==> StatsOf(after).min <= x <= StatsOf(after).max
  {
    forall x | x in before
      ensures after[0] <= x <= after[|after| - 1]
    {
      assert x in multiset(after);
      var k :| 0 <= k < |after| && after[k] == x;
    }
  }

  /** The sum of a buffer in exact arithmetic. */
  function Sum(s: seq<u64>): nat {
    if |s| == 0 then 0 else Sum(s[..|s| - 1]) + s[|s| - 1]
  }

  /** Exchanging two elements keeps the multiset of a sequence. */
  lemma SwapKeepsMultiset(s: seq<u64>, i: nat, j: nat)
    requires i < |s| && j < |s|
    ensures multiset(s[i := s[j]][j := s[i]]) == multiset(s)
  {
    var t := s[i := s[j]];
    assert multiset(t) == multiset(s) - multiset{s[i]} + multiset{s[j]};
    assert multiset(t[j := s[i]]) == multiset(t) - multiset{t[j]} + multiset{s[i]};
  }

  /** Exchanging two elements below `n` leaves everything from `n` on in place. */
  lemma SwapKeepsSuffix(s: seq<u64>, j: nat, n: nat)
    requires 0 < j < n <= |s|
    ensures s[j - 1 := s[j]][j := s[j - 1]][n..] == s[n..]
  {
  }

  /** Exchanges `a[j - 1]` and `a[j]`. */
  method ExchangeLeft(a: array<u64>, j: nat)
    requires 0 < j < a.Length
    modifies a
    ensures a[..] == old(a[..])[j - 1 := old(a[j])][j := old(a[j - 1])]
  {
    a[j - 1], a[j] := a[j], a[j - 1];
  }

  /** The multiset of a whole array splits at any point. */
  lemma MultisetSplit(s: seq<u64>, n: nat)
    requires n <= |s|
    ensures multiset(s) == multiset(s[..n]) + multiset(s[n..])
  {
    assert s == s[..n] + s[n..];
  }

  /** Two sequences with the same multiset and the same suffix have prefixes with the same multiset. */
  lemma PrefixMultiset(s: seq<u64>, t: seq<u64>, n: nat)
    requires n <= |s| == |t|
    requires multiset(s) == multiset(t) && s[n..] == t[n..]
    ensures multiset(s[..n]) == multiset(t[..n])
  {
    MultisetSplit(s, n);
    MultisetSplit(t, n);
    var m := multiset(s[n..]);
    assert multiset(s[..n]) == multiset(s) - m;
    assert multiset(t[..n]) == multiset(t) - m;
  }

  /**
   * The `qsort` call with `CompareULONGLONG` on the first `n` samples: afterwards
   * they are in ascending order and are a permutation of what was there, and the
   * rest of the buffer is untouched. (The model sorts by adjacent exchanges.)
   */
  method SortSamples(a: array<u64>, n: nat)
    requires n <= a.Length
    modifies a
    ensures Sorted(a[..n])
    ensures multiset(a[..n]) == multiset(old(a[..n]))
    ensures a[n..] == old(a[n..])
  {
    var i := 0;
    while i < n
      invariant 0 <= i <= n
      invariant Sorted(a[..i])
      invariant multiset(a[..]) == multiset(old(a[..]))
      invariant a[n..] == old(a[n..])
    {
      InsertNext(a, n, i);
      i := i + 1;
    }
    PrefixMultiset(old(a[..]), a[..], n);
    assert a[..][..n] == a[..n];
    assert old(a[..])[..n] == old(a[..n]);
  }

  /** During an insertion: `s[..i + 1]` is sorted once the element at `j` is set aside. */
  predicate SortedExcept(s: seq<u64>, i: nat, j: nat)
    requires j <= i < |s|
  {
    forall p, q :: 0 <= p < q <= i && p != j && q != j ==> s[p] <= s[q]
  }

  /** During an insertion: the element at `j` is at most everything it has passed. */
  predicate BelowPassed(s: seq<u64>, i: nat, j: nat)
    requires j <= i < |s|
  {
    forall q :: j < q <= i ==> s[j] <= s[q]
  }

  /** Exchanging the element at `j` with a larger left neighbour keeps both facts. */
  lemma InsertSwap(s: seq<u64>, i: nat, j: nat)
    requires 0 < j <= i < |s|
    requires SortedExcept(s, i, j) && BelowPassed(s, i, j) && s[j - 1] > s[j]
    ensures SortedExcept(s[j - 1 := s[j]][j := s[j - 1]], i, j - 1)
    ensures BelowPassed(s[j - 1 := s[j]][j := s[j - 1]], i, j - 1)
  {
  }

  /** When the left neighbour is no larger, or there is none, the insertion is done. */
  lemma InsertDone(s: seq<u64>, i: nat, j: nat)
    requires j <= i < |s|
    requires SortedExcept(s, i, j) && BelowPassed(s, i, j)
    requires j == 0 || s[j - 1] <= s[j]
    ensures Sorted(s[..i + 1])
  {
    forall p, q | 0 <= p <= q < i + 1
      ensures s[p] <= s[q]
    {
      if p < q && q == j && p < j {
        assert s[p] <= s[j - 1];
      }
    }
  }

  /** One insertion step: moves `a[i]` left past every larger element. */
  method InsertNext(a: array<u64>, n: nat, i: nat)
    requires i < n <= a.Length
    requires Sorted(a[..i])
    modifies a
    ensures Sorted(a[..i + 1])
    ensures multiset(a[..]) == multiset(old(a[..]))
    ensures a[n..] == old(a[n..])
  {
    var j := i;
    assert SortedExcept(a[..], i, j);
    while j > 0 && Compare(a[j - 1], a[j]) > 0
      invariant 0 <= j <= i
      invariant SortedExcept(a[..], i, j) && BelowPassed(a[..], i, j)
      invariant multiset(a[..]) == multiset(old(a[..]))
      invariant a[n..] == old(a[n..])
    {
      ghost var before := a[..];
      InsertSwap(before, i, j);
      SwapKeepsMultiset(before, j - 1, j);
      SwapKeepsSuffix(before, j, n);
      ExchangeLeft(a, j);
      j := j - 1;
    }
    InsertDone(a[..], i, j);
    assert a[..][..i + 1] == a[..i + 1];
  }

  /** The accumulation loop: `sum_cycles` is the sum of the first `n` samples modulo 2^64. */
  method SumSamples(a: array<u64>, n: nat) returns (sum: u64)
    requires n <= a.Length
    ensures sum == Wrap64(Sum(a[..n]))
  {
    sum := 0;
    var i := 0;
    while i < n
      invariant 0 <= i <= n
      invariant sum == Wrap64(Sum(a[..i]))
    {
      assert a[..i + 1][..i] == a[..i];
      sum := Wrap64(sum + a[i]);
      i := i + 1;
    }
  }

  /** Reducing modulo 2^64 after each step is the same as reducing the total. */
  lemma Wrap64Add(x: int, y: int)
    ensures Wrap64(Wrap64(x) + y) == Wrap64(x + y)
  {
  }
}
