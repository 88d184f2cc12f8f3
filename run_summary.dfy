/**
 * The integer counters of one measurement run as a value, and what `AverageStats`
 * makes of several runs: every counter is summed over the runs that collected at
 * least one latency sample, in the width of its field, and integer-divided by the
 * number of such runs.
 */
module RunSummary {
  import opened Ints

  /** The integer fields of `PERFORMANCE_STATS` (the two `double` fields are not modelled). */
  datatype Summary = Summary(
    kernelCycles: u64, userCycles: u64, totalCycles: u64,
    blockLayerCycles: u64, hardwareCycles: u64,
    ioCount: u32, readCount: u32, writeCount: u32, totalBytes: u64,
    minLatency: u64, maxLatency: u64,
    p50: u64, p90: u64, p95: u64, p99: u64, p999: u64,
    sampleCount: u64)

  /** The `memset` to zero. */
  const ZeroSummary: Summary := Summary(0, 0, 0, 0, 0, 0, 0, 0, 0, 0, 0, 0, 0, 0, 0, 0, 0)

  /** The averaged counters, one per field summed by `AverageStats`. */
  datatype Field =
    | KernelCycles | UserCycles | TotalCycles | BlockLayerCycles | HardwareCycles
    | IoCount | ReadCount | WriteCount | TotalBytes
    | MinLatency | MaxLatency | P50 | P90 | P95 | P99 | P999

  function Get(s: Summary, f: Field): nat {
    match f
    case KernelCycles => s.kernelCycles
    case UserCycles => s.userCycles
    case TotalCycles => s.totalCycles
    case BlockLayerCycles => s.blockLayerCycles
    case HardwareCycles => s.hardwareCycles
    case IoCount => s.ioCount
    case ReadCount => s.readCount
    case WriteCount => s.writeCount
    case TotalBytes => s.totalBytes
    case MinLatency => s.minLatency
    case MaxLatency => s.maxLatency
    case P50 => s.p50
    case P90 => s.p90
    case P95 => s.p95
    case P99 => s.p99
    case P999 => s.p999
  }

  /** The DWORD counters wrap at 2^32, the `ULONGLONG` ones at 2^64. */
  function Modulus(f: Field): nat {
    if f == IoCount || f == ReadCount || f == WriteCount then U32_MODULUS else U64_MODULUS
  }

  lemma GetBelowModulus(s: Summary, f: Field)
    ensures Get(s, f) < Modulus(f)
  {
  }

  /** A run takes part in the average iff it collected a latency sample. */
  predicate HasSamples(s: Summary) {
    s.sampleCount > 0
  }

  /** `valid_runs`. */
  function ValidRuns(runs: seq<Summary>): nat {
    if |runs| == 0 then 0
    else ValidRuns(runs[..|runs| - 1]) + (if HasSamples(runs[|runs| - 1]) then 1 else 0)
  }

  /** One `+=` of a run into the running sums, each in the width of its field. */
  function Accumulate(acc: Summary, r: Summary): Summary {
    Summary(
      Wrap64(acc.kernelCycles + r.kernelCycles), Wrap64(acc.userCycles + r.userCycles),
      Wrap64(acc.totalCycles + r.totalCycles),
      Wrap64(acc.blockLayerCycles + r.blockLayerCycles), Wrap64(acc.hardwareCycles + r.hardwareCycles),
      Wrap32(acc.ioCount + r.ioCount), Wrap32(acc.readCount + r.readCount),
      Wrap32(acc.writeCount + r.writeCount), Wrap64(acc.totalBytes + r.totalBytes),
      Wrap64(acc.minLatency + r.minLatency), Wrap64(acc.maxLatency + r.maxLatency),
      Wrap64(acc.p50 + r.p50), Wrap64(acc.p90 + r.p90), Wrap64(acc.p95 + r.p95),
      Wrap64(acc.p99 + r.p99), Wrap64(acc.p999 + r.p999),
      acc.sampleCount)
  }

  lemma GetAccumulate(acc: Summary, r: Summary, f: Field)
    ensures Get(Accumulate(acc, r), f) == (Get(acc, f) + Get(r, f)) % Modulus(f)
  {
  }

  /** The sums after the accumulation loop: only runs with samples are added. */
  function Sums(runs: seq<Summary>): Summary {
    if |runs| == 0 then ZeroSummary
    else if HasSamples(runs[|runs| - 1]) then Accumulate(Sums(runs[..|runs| - 1]), runs[|runs| - 1])
    else Sums(runs[..|runs| - 1])
  }

  /** Each sum integer-divided by `valid_runs`. */
  function Divide(acc: Summary, v: nat): Summary
    requires v > 0
  {
    Summary(
      acc.kernelCycles / v, acc.userCycles / v, acc.totalCycles / v,
      acc.blockLayerCycles / v, acc.hardwareCycles / v,
      acc.ioCount / v, acc.readCount / v, acc.writeCount / v, acc.totalBytes / v,
      acc.minLatency / v, acc.maxLatency / v,
      acc.p50 / v, acc.p90 / v, acc.p95 / v, acc.p99 / v, acc.p999 / v,
      acc.sampleCount)
  }

  lemma GetDivide(acc: Summary, v: nat, f: Field)
    requires v > 0
    ensures Get(Divide(acc, v), f) == Get(acc, f) / v
  {
  }

  /** `avg_stats` after `AverageStats`, with `combined` the size of the combined buffer. */
  function Averaged(runs: seq<Summary>, combined: u64): Summary {
    var v := ValidRuns(runs);
    if v == 0 then ZeroSummary.(sampleCount := combined)
    else Divide(Sums(runs), v).(sampleCount := combined)
  }

  /** The runs that collected samples, in run order. */
  function WithSamples(runs: seq<Summary>): (r: seq<Summary>)
    ensures forall k :: 0 <= k < |r| ==> HasSamples(r[k])
  {
    if |runs| == 0 then []
    else if HasSamples(runs[|runs| - 1]) then WithSamples(runs[..|runs| - 1]) + [runs[|runs| - 1]]
    else WithSamples(runs[..|runs| - 1])
  }

  /** Runs without samples are left out of every averaged counter and of `valid_runs`. */
  lemma {:induction false} EmptyRunsIgnored(runs: seq<Summary>)
    ensures Sums(WithSamples(runs)) == Sums(runs)
    ensures ValidRuns(WithSamples(runs)) == ValidRuns(runs) == |WithSamples(runs)|
  {
    if |runs| > 0 {
      var before := runs[..|runs| - 1];
      EmptyRunsIgnored(before);
      if HasSamples(runs[|runs| - 1]) {
        var w := WithSamples(before) + [runs[|runs| - 1]];
        assert w[..|w| - 1] == WithSamples(before);
      }
    }
  }

  /** So the averaged counters do not depend on the runs without samples. */
  lemma AveragedIgnoresEmptyRuns(runs: seq<Summary>, combined: u64)
    ensures Averaged(WithSamples(runs), combined) == Averaged(runs, combined)
  {
    EmptyRunsIgnored(runs);
  }

  /** The exact sum of one field over the runs with samples. */
  function ExactSum(runs: seq<Summary>, f: Field): nat {
    if |runs| == 0 then 0
    else ExactSum(runs[..|runs| - 1], f) + (if HasSamples(runs[|runs| - 1]) then Get(runs[|runs| - 1], f) else 0)
  }

  /** The accumulated field is the exact sum reduced once, in the width of the field. */
  lemma {:induction false} SumsAreExactModulo(runs: seq<Summary>, f: Field)
    ensures Get(Sums(runs), f) == ExactSum(runs, f) % Modulus(f)
  {
    if |runs| > 0 {
      var before := runs[..|runs| - 1];
      var last := runs[|runs| - 1];
      SumsAreExactModulo(before, f);
      if HasSamples(last) {
        assert Sums(runs) == Accumulate(Sums(before), last);
        assert ExactSum(runs, f) == ExactSum(before, f) + Get(last, f);
        AccumulateStep(Sums(before), last, ExactSum(before, f), f);
      } else {
        assert Sums(runs) == Sums(before);
        assert ExactSum(runs, f) == ExactSum(before, f);
      }
    }
  }

  /** One accumulation step keeps a field equal to an exact total reduced in its width. */
  lemma AccumulateStep(acc: Summary, r: Summary, x: nat, f: Field)
    requires Get(acc, f) == x % Modulus(f)
    ensures Get(Accumulate(acc, r), f) == (x + Get(r, f)) % Modulus(f)
  {
    GetAccumulate(acc, r, f);
    ModAddLeft(x, Get(r, f), Modulus(f));
  }

  /** A remainder in the field's width is determined by any quotient-remainder split. */
  lemma ModUnique(n: int, k: int, d: int, m: nat)
    requires m == U32_MODULUS || m == U64_MODULUS
    requires n == k * m + d && 0 <= d < m
    ensures n % m == d
  {
    if m == U32_MODULUS {
      assert n % U32_MODULUS == d;
    } else {
      assert n % U64_MODULUS == d;
    }
  }

  lemma ModAddLeft(x: nat, y: nat, m: nat)
    requires m == U32_MODULUS || m == U64_MODULUS
    ensures (x % m + y) % m == (x + y) % m
  {
    var q, r := x / m, x % m;
    var a, b := (r + y) / m, (r + y) % m;
    assert x == q * m + r;
    assert r + y == a * m + b;
    assert x + y == (q + a) * m + b;
    ModUnique(x + y, q + a, b, m);
  }

  /** Bounds on every run with samples bound the exact sum. */
  lemma {:induction false} ExactSumBounds(runs: seq<Summary>, f: Field, lo: nat, hi: nat)
    requires forall k :: 0 <= k < |runs| && HasSamples(runs[k]) ==> lo <= Get(runs[k], f) <= hi
    ensures lo * ValidRuns(runs) <= ExactSum(runs, f) <= hi * ValidRuns(runs)
  {
    if |runs| > 0 {
      var before := runs[..|runs| - 1];
      assert forall k :: 0 <= k < |before| ==> before[k] == runs[k];
      ExactSumBounds(before, f, lo, hi);
      if HasSamples(runs[|runs| - 1]) {
        assert lo * (ValidRuns(before) + 1) == lo * ValidRuns(before) + lo;
        assert hi * (ValidRuns(before) + 1) == hi * ValidRuns(before) + hi;
      }
    }
  }

  /**
   * When a field's sum does not wrap, its average lies between the smallest and
   * the largest value that a run with samples reported.
   */
  lemma AverageWithinRange(runs: seq<Summary>, combined: u64, f: Field, lo: nat, hi: nat)
    requires ValidRuns(runs) > 0
    requires ExactSum(runs, f) < Modulus(f)
    requires forall k :: 0 <= k < |runs| && HasSamples(runs[k]) ==> lo <= Get(runs[k], f) <= hi
    ensures lo <= Get(Averaged(runs, combined), f) <= hi
  {
    var total := ExactSum(runs, f);
    var v := ValidRuns(runs);
    SumsAreExactModulo(runs, f);
    ModSmall(total, Modulus(f));
    assert Get(Sums(runs), f) == total;
    ExactSumBounds(runs, f, lo, hi);
    DivBounds(total, v, lo, hi);
    AveragedField(runs, combined, f);
  }

  lemma ModSmall(x: nat, m: nat)
    requires m == U32_MODULUS || m == U64_MODULUS
    requires x < m
    ensures x % m == x
  {
  }

  /** With runs to average, each averaged field is its sum divided by `valid_runs`. */
  lemma AveragedField(runs: seq<Summary>, combined: u64, f: Field)
    requires ValidRuns(runs) > 0
    ensures Get(Averaged(runs, combined), f) == Get(Sums(runs), f) / ValidRuns(runs)
  {
    var d := Divide(Sums(runs), ValidRuns(runs));
    assert Averaged(runs, combined) == d.(sampleCount := combined);
    GetIgnoresSampleCount(d, combined, f);
    GetDivide(Sums(runs), ValidRuns(runs), f);
  }

  /** The sample count is not one of the averaged fields. */
  lemma GetIgnoresSampleCount(s: Summary, c: u64, f: Field)
    ensures Get(s.(sampleCount := c), f) == Get(s, f)
  {
  }

  lemma DivBounds(total: nat, v: nat, lo: nat, hi: nat)
    requires v > 0 && lo * v <= total <= hi * v
    ensures lo <= total / v <= hi
  {
    var q := total / v;
    assert total == q * v + total % v;
    assert (q + 1) * v == q * v + v;
    LessCancel(lo, q + 1, v);
    LeCancel(q, hi, v);
  }

  /** `total_samples`, the 64-bit sum of the runs' sample counts. */
  function TotalSamples(runs: seq<Summary>): u64 {
    if |runs| == 0 then 0 else Wrap64(TotalSamples(runs[..|runs| - 1]) + runs[|runs| - 1].sampleCount)
  }

  /** The sum of the runs' sample counts, in exact arithmetic. */
  function SampleTotal(runs: seq<Summary>): nat {
    if |runs| == 0 then 0 else SampleTotal(runs[..|runs| - 1]) + runs[|runs| - 1].sampleCount
  }

  /** `total_samples` is the exact total reduced once modulo 2^64. */
  lemma {:induction false} TotalSamplesWraps(runs: seq<Summary>)
    ensures TotalSamples(runs) == SampleTotal(runs) % U64_MODULUS
  {
    if |runs| > 0 {
      var before := runs[..|runs| - 1];
      TotalSamplesWraps(before);
      ModAddLeft(SampleTotal(before), runs[|runs| - 1].sampleCount, U64_MODULUS);
    }
  }

  /** So it never exceeds the exact total, and equals it while that fits 64 bits. */
  lemma TotalSamplesBounds(runs: seq<Summary>)
    ensures TotalSamples(runs) <= SampleTotal(runs)
    ensures SampleTotal(runs) < U64_MODULUS ==> TotalSamples(runs) == SampleTotal(runs)
  {
    TotalSamplesWraps(runs);
  }
}
