/**
 * Time-stamp-counter arithmetic. Every latency in the harness is the difference
 * of two `ULONGLONG` readings, taken in unsigned 64-bit arithmetic.
 */
module Cycles {
  import opened Ints

  /**
   * `end - start` on two `ULONGLONG` counter readings: the unique 64-bit value that
   * takes `start` to `end`, so a counter that wrapped between the readings still
   * gives the elapsed count modulo 2^64.
   */
  function CycleDelta(start: u64, end: u64): (d: u64)
    ensures (start + d) % U64_MODULUS == end
    ensures start <= end ==> d == end - start
    ensures end < start ==> d == U64_MODULUS - start + end
  {
    Wrap64(end - start)
  }

  /** No other 64-bit value takes `start` to `end`. */
  lemma CycleDeltaUnique(start: u64, end: u64, d: u64)
    requires (start + d) % U64_MODULUS == end
    ensures d == CycleDelta(start, end)
  {
    if start + d < U64_MODULUS {
      assert start + d == end;
    } else {
      assert start + d - U64_MODULUS == end;
    }
  }

  /** The latencies of the timed runs, one per pair of readings, in issue order. */
  function Latencies(starts: seq<u64>, ends: seq<u64>): (r: seq<u64>)
    requires |starts| == |ends|
    ensures |r| == |starts|
    ensures forall k :: 0 <= k < |r| ==> (starts[k] + r[k]) % U64_MODULUS == ends[k]
  {
    seq(|starts|, k requires 0 <= k < |starts| => CycleDelta(starts[k], ends[k]))
  }
}
