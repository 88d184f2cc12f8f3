/**
 * The measurement harness with latency samples: the global command table and
 * `ReadCommandsFromFile`, one run's `PERFORMANCE_STATS` record with
 * `RunCommandsSoftware` and `CalculateLatencyStatistics`, and `AverageStats` over
 * the runs. Time-stamp readings, the outcome of each `GetProcessTimes` call and
 * the results of the floating-point conversions enter as parameters.
 */
module BenchMain {
  import opened Ints
  import opened CommandTrace
  import opened Cycles
  import opened Workload
  import opened LatencyStats
  import RunSummary

  /** Number of measurement runs whose statistics are averaged. */
  const NUM_RUNS: nat := 3

  /** Capacity of each run's sample buffer. */
  const MAX_LATENCY_SAMPLES: nat := MAX_COMMANDS * ITERATIONS

  /** `PERFORMANCE_STATS`: one run's counters, latency statistics and sample buffer. */
  class PerformanceStats {
    var kernelCycles: u64
    var userCycles: u64
    var totalCycles: u64
    var blockLayerCycles: u64
    var hardwareCycles: u64
    var ioCount: u32
    var readCount: u32
    var writeCount: u32
    var totalBytes: u64
    var minLatency: u64
    var maxLatency: u64
    var p50: u64
    var p90: u64
    var p95: u64
    var p99: u64
    var p999: u64
    var latencySamples: array<u64>
    var sampleCount: u64

    /** A zero-initialised record with a sample buffer of `capacity` entries. */
    constructor (capacity: nat)
      ensures Valid() && Counters() == RunSummary.ZeroSummary
      ensures fresh(latencySamples) && latencySamples.Length == capacity
    {
      kernelCycles, userCycles, totalCycles, blockLayerCycles, hardwareCycles := 0, 0, 0, 0, 0;
      ioCount, readCount, writeCount, totalBytes := 0, 0, 0, 0;
      minLatency, maxLatency, p50, p90, p95, p99, p999 := 0, 0, 0, 0, 0, 0, 0;
      latencySamples := new u64[capacity];
      sampleCount := 0;
    }

    /** The collected samples fit the buffer. */
    predicate Valid()
      reads this
    {
      sampleCount <= latencySamples.Length
    }

    /** The integer fields as a value. */
    function Counters(): RunSummary.Summary
      reads this
    {
      RunSummary.Summary(kernelCycles, userCycles, totalCycles, blockLayerCycles, hardwareCycles,
              ioCount, readCount, writeCount, totalBytes, minLatency, maxLatency,
              p50, p90, p95, p99, p999, sampleCount)
    }

    /** The samples collected so far. */
    function Samples(): seq<u64>
      requires Valid()
      reads this, latencySamples
    {
      latencySamples[..sampleCount]
    }

    /** The order statistics recorded in the record. */
    function Statistics(): Percentiles
      reads this
    {
      Percentiles(minLatency, maxLatency, p50, p90, p95, p99, p999)
    }

    /**
     * `CalculateLatencyStatistics`: with no samples nothing changes. Otherwise the
     * samples are sorted in place, min, max and the percentiles are read off the
     * sorted buffer, and `sumCycles` is the 64-bit sum the average is computed from.
     */
    method CalculateLatencyStatistics() returns (sumCycles: u64)
      requires Valid()
      modifies this`minLatency, this`maxLatency, this`p50, this`p90, this`p95, this`p99, this`p999
      modifies latencySamples
      ensures Valid()
      ensures sampleCount == 0 ==> Statistics() == old(Statistics()) && latencySamples[..] == old(latencySamples[..])
      ensures sampleCount > 0 ==> Sorted(Samples()) && multiset(Samples()) == multiset(old(Samples()))
      ensures sampleCount > 0 ==> Statistics() == StatsOf(Samples())
      ensures latencySamples[sampleCount..] == old(latencySamples[sampleCount..])
      ensures sumCycles == Wrap64(Sum(Samples()))
    {
      if sampleCount == 0 {
        return 0;
      }
      SortSamples(latencySamples, sampleCount);
      sumCycles := SumSamples(latencySamples, sampleCount);
      ReadStatistics();
    }

    /** Min, max and the percentiles read off the (sorted) samples. */
    method ReadStatistics()
      requires Valid() && sampleCount > 0
      modifies this`minLatency, this`maxLatency, this`p50, this`p90, this`p95, this`p99, this`p999
      ensures Statistics() == StatsOf(Samples())
    {
      var n := sampleCount;
      minLatency := latencySamples[0];
      maxLatency := latencySamples[n - 1];
      p50 := latencySamples[PercentileIndex(n, P50)];
      p90 := latencySamples[PercentileIndex(n, P90)];
      p95 := latencySamples[PercentileIndex(n, P95)];
      p99 := latencySamples[PercentileIndex(n, P99)];
      p999 := latencySamples[PercentileIndex(n, P999)];
    }

    /** The resets at the start of a run: `io_count` is set and the tallies cleared. */
    method StartRun(io: u32)
      modifies this`ioCount, this`totalBytes, this`readCount, this`writeCount, this`sampleCount
      ensures Counters() == old(Counters()).(ioCount := io, totalBytes := 0, readCount := 0,
                                              writeCount := 0, sampleCount := 0)
    {
      ioCount, totalBytes, readCount, writeCount, sampleCount := io, 0, 0, 0, 0;
    }

    /** The assignments after the second `GetProcessTimes` call. */
    method RecordTimes(kernel: u64, user: u64, total: u64, hardware: u64, blockLayer: u64)
      modifies this`kernelCycles, this`userCycles, this`totalCycles, this`hardwareCycles, this`blockLayerCycles
      ensures Counters() == old(Counters()).(kernelCycles := kernel, userCycles := user, totalCycles := total,
                                              hardwareCycles := hardware, blockLayerCycles := blockLayer)
    {
      kernelCycles, userCycles, totalCycles, hardwareCycles, blockLayerCycles := kernel, user, total, hardware, blockLayer;
    }

    /** Stores the per-run tallies. */
    method SetTallies(io: u32, readOps: u32, writeOps: u32, bytes: u64)
      modifies this`ioCount, this`readCount, this`writeCount, this`totalBytes
      ensures Counters() == old(Counters()).(ioCount := io, readCount := readOps, writeCount := writeOps, totalBytes := bytes)
    {
      ioCount, readCount, writeCount, totalBytes := io, readOps, writeOps, bytes;
    }

    /** Stores min, max and the percentiles. */
    method SetStatistics(st: Percentiles)
      modifies this`minLatency, this`maxLatency, this`p50, this`p90, this`p95, this`p99, this`p999
      ensures Counters() == old(Counters()).(minLatency := st.min, maxLatency := st.max, p50 := st.p50,
                                              p90 := st.p90, p95 := st.p95, p99 := st.p99, p999 := st.p999)
    {
      minLatency, maxLatency, p50, p90, p95, p99, p999 := st.min, st.max, st.p50, st.p90, st.p95, st.p99, st.p999;
    }

    /** Stores every counter of `s` but the sample count. */
    method Assign(s: RunSummary.Summary)
      modifies this
      ensures Counters() == s.(sampleCount := old(sampleCount))
      ensures latencySamples == old(latencySamples)
    {
      RecordTimes(s.kernelCycles, s.userCycles, s.totalCycles, s.hardwareCycles, s.blockLayerCycles);
      SetTallies(s.ioCount, s.readCount, s.writeCount, s.totalBytes);
      SetStatistics(Percentiles(s.minLatency, s.maxLatency, s.p50, s.p90, s.p95, s.p99, s.p999));
    }
  }

  /** The global `commands[]` table and `command_count`. */
  class Benchmark {
    var commands: array<IoCommand>
    var commandCount: nat

    /** The zero-initialised globals. */
    constructor ()
      ensures Valid() && fresh(commands) && commandCount == 0
      ensures forall k :: 0 <= k < commands.Length ==> commands[k] == ZeroCommand
    {
      commands := new IoCommand[MAX_COMMANDS](_ => ZeroCommand);
      commandCount := 0;
    }

    predicate Valid()
      reads this
    {
      commands.Length == MAX_COMMANDS && commandCount <= MAX_COMMANDS
    }

    /** The commands read so far. */
    function Commands(): seq<IoCommand>
      requires Valid()
      reads this, commands
    {
      commands[..commandCount]
    }

    /**
     * The body of the read loop for one line: the fields are parsed into slot
     * `command_count` token by token, and the line counts iff all four were found.
     */
    method StoreLine(line: string) returns (accepted: bool)
      requires Valid() && commandCount < MAX_COMMANDS
      modifies commands
      ensures commands[..] == old(commands[..])[commandCount := WriteLine(old(commands[commandCount]), line)]
      ensures accepted == Decode(line).Some?
    {
      var s := CString(line);
      if |s| <= 1 {
        return false;
      }
      var tokens := Tokens(s);
      if |tokens| == 0 {
        return false;
      }
      var i := commandCount;
      commands[i] := commands[i].(opcode := Atoi(tokens[0]));
      if |tokens| < 2 {
        return false;
      }
      commands[i] := commands[i].(lba := StrToI64(tokens[1], 10));
      if |tokens| < 3 {
        return false;
      }
      commands[i] := commands[i].(length := StrToUL(tokens[2]));
      if |tokens| < 4 {
        return false;
      }
      commands[i] := commands[i].(data := StrToI64(tokens[3], 16));
      return true;
    }

    /**
     * `ReadCommandsFromFile` over the lines `fgets` returns. When the file cannot be
     * opened nothing changes and the result is false. Otherwise the table ends as
     * `Load` describes: the first `MAX_COMMANDS` accepted commands in trace order,
     * no slot past the count written, and the result true iff a command was read.
     */
    method ReadCommandsFromFile(fileOpened: bool, lines: seq<string>) returns (ok: bool)
      requires Valid()
      modifies this`commandCount, commands
      ensures Valid()
      ensures !fileOpened ==> !ok && commandCount == old(commandCount) && commands[..] == old(commands[..])
      ensures fileOpened ==> Load(lines, old(commands[..])) == Table(commands[..], commandCount)
      ensures fileOpened ==> Commands() == ReadCommands(lines)
      ensures fileOpened ==> forall k :: commandCount < k < MAX_COMMANDS ==> commands[k] == old(commands[k])
      ensures fileOpened ==> (ok <==> commandCount > 0) && (ok <==> SomeLineAccepted(lines))
    {
      if !fileOpened {
        return false;
      }
      ghost var init := commands[..];
      commandCount := 0;
      var k := 0;
      while commandCount < MAX_COMMANDS && k < |lines|
        invariant 0 <= k <= |lines|
        invariant Valid()
        invariant Load(lines[..k], init) == Table(commands[..], commandCount)
      {
        ghost var t := Table(commands[..], commandCount);
        var accepted := StoreLine(lines[k]);
        if accepted {
          commandCount := commandCount + 1;
        }
        LoadNext(lines, init, k);
        assert Table(commands[..], commandCount) == Step(t, lines[k]);
        k := k + 1;
      }
      LoadStops(lines, init, k);
      LoadMeaning(lines, init);
      ReadSomethingIff(lines);
      ok := commandCount > 0;
    }

    /** The pre-calculation loop over the table: bytes, reads and writes. */
    method TallyCommands(stats: PerformanceStats)
      requires Valid()
      requires stats.totalBytes == 0 && stats.readCount == 0 && stats.writeCount == 0
      modifies stats`totalBytes, stats`readCount, stats`writeCount
      ensures stats.totalBytes == TotalBytes(Commands())
      ensures stats.readCount == ITERATIONS * ReadOps(Commands())
      ensures stats.writeCount == ITERATIONS * WriteOps(Commands())
    {
      var i := 0;
      while i < commandCount
        invariant 0 <= i <= commandCount
        invariant stats.totalBytes == TotalBytes(commands[..i])
        invariant stats.readCount == ITERATIONS * ReadOps(commands[..i])
        invariant stats.writeCount == ITERATIONS * WriteOps(commands[..i])
      {
        assert commands[..i + 1][..i] == commands[..i];
        ReadsPlusWrites(commands[..i + 1]);
        TotalBytesBound(commands[..i + 1]);
        ScaleMonotone(i + 1, MAX_COMMANDS, U32_MAX);
        stats.totalBytes := Wrap64(stats.totalBytes + BytesTerm(commands[i].length));
        if commands[i].opcode == 0 {
          stats.readCount := Wrap32(stats.readCount + ITERATIONS);
        } else {
          stats.writeCount := Wrap32(stats.writeCount + ITERATIONS);
        }
        i := i + 1;
      }
    }

    /** Loop bookkeeping of the timed iterations, kept apart from the heap reasoning. */
    lemma IterationStep(iter: nat, count: nat)
      requires iter < ITERATIONS && count <= MAX_COMMANDS
      ensures (iter + 1) * count == iter * count + count
      ensures (iter + 1) * count <= count * ITERATIONS <= MAX_LATENCY_SAMPLES
    {
      ScaleMonotone(iter + 1, ITERATIONS, count);
      ScaleMonotone(count, MAX_COMMANDS, ITERATIONS);
    }

    /**
     * One iteration of the timed loop: each command of the table is timed in turn,
     * and its latency is appended while the buffer has room.
     */
    method TimeIteration(stats: PerformanceStats, starts: seq<u64>, ends: seq<u64>, issued0: nat)
      returns (issued: nat)
      requires Valid() && stats.latencySamples.Length == MAX_LATENCY_SAMPLES
      requires |starts| == |ends| && issued0 + commandCount <= |starts| <= MAX_LATENCY_SAMPLES
      requires stats.sampleCount == issued0
      requires stats.latencySamples[..issued0] == Latencies(starts, ends)[..issued0]
      modifies stats`sampleCount, stats.latencySamples
      ensures issued == issued0 + commandCount == stats.sampleCount
      ensures stats.latencySamples[..issued] == Latencies(starts, ends)[..issued]
      ensures stats.latencySamples[issued..] == old(stats.latencySamples[issued..])
    {
      issued := issued0;
      var i := 0;
      while i < commandCount
        invariant 0 <= i <= commandCount && issued == issued0 + i && stats.sampleCount == issued
        invariant stats.latencySamples[..issued] == Latencies(starts, ends)[..issued]
        invariant stats.latencySamples[issued..] == old(stats.latencySamples[issued..])
      {
        var latency := CycleDelta(starts[issued], ends[issued]);
        if stats.sampleCount < MAX_LATENCY_SAMPLES {
          stats.latencySamples[stats.sampleCount] := latency;
          stats.sampleCount := stats.sampleCount + 1;
        }
        assert Latencies(starts, ends)[..issued + 1] == Latencies(starts, ends)[..issued] + [latency];
        issued := issued + 1;
        i := i + 1;
      }
    }

    /** The timed loop: `ITERATIONS` passes over the table, samples in issue order. */
    method TimeCommands(stats: PerformanceStats, starts: seq<u64>, ends: seq<u64>)
      requires Valid() && stats.latencySamples.Length == MAX_LATENCY_SAMPLES
      requires |starts| == |ends| == commandCount * ITERATIONS
      requires stats.sampleCount == 0
      modifies stats`sampleCount, stats.latencySamples
      ensures stats.sampleCount == commandCount * ITERATIONS <= MAX_LATENCY_SAMPLES
      ensures stats.latencySamples[..stats.sampleCount] == Latencies(starts, ends)
      ensures stats.latencySamples[stats.sampleCount..] == old(stats.latencySamples[..])[stats.sampleCount..]
    {
      ghost var lat := Latencies(starts, ends);
      ghost var before := stats.latencySamples[..];
      var issued := 0;
      var iter := 0;
      IterationStep(0, commandCount);
      while iter < ITERATIONS
        invariant 0 <= iter <= ITERATIONS
        invariant issued == iter * commandCount == stats.sampleCount
        invariant issued <= |starts| <= MAX_LATENCY_SAMPLES
        invariant stats.latencySamples[..issued] == lat[..issued]
        invariant stats.latencySamples[issued..] == before[issued..]
      {
        IterationStep(iter, commandCount);
        ghost var mid := stats.latencySamples[..];
        issued := TimeIteration(stats, starts, ends, issued);
        assert stats.latencySamples[issued..] == mid[issued..];
        iter := iter + 1;
      }
      assert lat[..issued] == lat;
    }

    /** The part of a run between the two `GetProcessTimes` calls: counters, then timed samples. */
    method CountAndTime(stats: PerformanceStats, starts: seq<u64>, ends: seq<u64>)
      requires Valid() && stats.latencySamples.Length == MAX_LATENCY_SAMPLES
      requires |starts| == |ends| == commandCount * ITERATIONS
      modifies stats`ioCount, stats`totalBytes, stats`readCount, stats`writeCount, stats`sampleCount
      modifies stats.latencySamples
      ensures stats.Valid() && stats.Samples() == Latencies(starts, ends)
      ensures stats.sampleCount == commandCount * ITERATIONS <= MAX_LATENCY_SAMPLES
      ensures stats.latencySamples[stats.sampleCount..] == old(stats.latencySamples[..])[stats.sampleCount..]
      ensures stats.ioCount == IoCount(commandCount) && stats.totalBytes == TotalBytes(Commands()) &&
              stats.readCount == ITERATIONS * ReadOps(Commands()) &&
              stats.writeCount == ITERATIONS * WriteOps(Commands())
      ensures stats.Counters() == old(stats.Counters()).(
                ioCount := stats.ioCount, totalBytes := stats.totalBytes, readCount := stats.readCount,
                writeCount := stats.writeCount, sampleCount := stats.sampleCount)
    {
      stats.StartRun(IoCount(commandCount));
      TallyCommands(stats);
      TimeCommands(stats, starts, ends);
    }

    /**
     * `RunCommandsSoftware` for one run. `runStart` and `runEnd` are the counter
     * readings around the run, `starts` and `ends` those around each timed command
     * in issue order, and the two flags say whether each `GetProcessTimes` call
     * succeeded; `kernelCycles` and `userCycles` are the results of the
     * floating-point conversions, and `readBase` and `writeBase` the converted base
     * hardware latencies of a read and of a write.
     */
    method RunCommandsSoftware(stats: PerformanceStats, timesBeforeOk: bool, timesAfterOk: bool,
                               runStart: u64, runEnd: u64, starts: seq<u64>, ends: seq<u64>,
                               kernelCycles: u64, userCycles: u64, readBase: u64, writeBase: u64)
      requires Valid() && stats.latencySamples.Length == MAX_LATENCY_SAMPLES
      requires |starts| == |ends| == commandCount * ITERATIONS
      modifies stats, stats.latencySamples
      ensures stats.latencySamples == old(stats.latencySamples)
      ensures !timesBeforeOk ==>
                stats.Counters() == old(stats.Counters()) && stats.latencySamples[..] == old(stats.latencySamples[..])
      ensures timesBeforeOk ==> stats.Valid() && stats.Samples() == Latencies(starts, ends)
      ensures timesBeforeOk ==> stats.sampleCount == commandCount * ITERATIONS <= MAX_LATENCY_SAMPLES
      ensures timesBeforeOk ==>
                stats.latencySamples[stats.sampleCount..] == old(stats.latencySamples[..])[stats.sampleCount..]
      ensures timesBeforeOk ==>
                stats.ioCount == IoCount(commandCount) && stats.totalBytes == TotalBytes(Commands()) &&
                stats.readCount == ITERATIONS * ReadOps(Commands()) &&
                stats.writeCount == ITERATIONS * WriteOps(Commands())
      ensures timesBeforeOk ==> stats.readCount + stats.writeCount == stats.ioCount
      ensures timesBeforeOk && !timesAfterOk ==>
                stats.Counters() == old(stats.Counters()).(
                  ioCount := stats.ioCount, readCount := stats.readCount, writeCount := stats.writeCount,
                  totalBytes := stats.totalBytes, sampleCount := stats.sampleCount)
      ensures timesBeforeOk && timesAfterOk ==>
                stats.kernelCycles == kernelCycles && stats.userCycles == userCycles &&
                stats.totalCycles == CycleDelta(runStart, runEnd) &&
                stats.hardwareCycles == HardwareTotal(Commands(), readBase, writeBase) &&
                stats.blockLayerCycles == BlockLayerEstimateAsWritten(IoCount(commandCount))
      ensures timesBeforeOk && timesAfterOk ==>
                stats.Statistics() == old(stats.Statistics())
    {
      if !timesBeforeOk {
        return;
      }
      CountAndTime(stats, starts, ends);
      ReadWriteCountsAddUp(Commands());
      if !timesAfterOk {
        return;
      }
      var hardware := EstimateHardware(commands, commandCount, readBase, writeBase);
      stats.RecordTimes(kernelCycles, userCycles, CycleDelta(runStart, runEnd), hardware,
                        BlockLayerEstimateAsWritten(stats.ioCount));
    }
  }

  // ---------------------------------------------------------------------------
  // AverageStats
  // ---------------------------------------------------------------------------

  /** Every run's sample count fits its buffer. */
  predicate AllValid(runs: seq<PerformanceStats>)
    reads runs
  {
    forall i :: 0 <= i < |runs| ==> runs[i].Valid()
  }

  /** The runs' integer fields, in run order: entry `i` holds the fields of run `i`. */
  function RunCounters(runs: seq<PerformanceStats>): (r: seq<RunSummary.Summary>)
    reads runs
    ensures |r| == |runs|
    ensures forall i :: 0 <= i < |runs| ==> r[i] == runs[i].Counters()
  {
    if |runs| == 0 then [] else RunCounters(runs[..|runs| - 1]) + [runs[|runs| - 1].Counters()]
  }

  /** The runs' collected samples one after another, in run order. */
  function Combined(runs: seq<PerformanceStats>): seq<u64>
    requires AllValid(runs)
    reads runs, set i | 0 <= i < |runs| :: runs[i].latencySamples
  {
    if |runs| == 0 then [] else Combined(runs[..|runs| - 1]) + runs[|runs| - 1].Samples()
  }

  /** The combined buffer holds as many samples as the runs collected together. */
  lemma {:induction false} CombinedLength(runs: seq<PerformanceStats>)
    requires AllValid(runs)
    ensures |Combined(runs)| == RunSummary.SampleTotal(RunCounters(runs))
  {
    if |runs| > 0 {
      var before := runs[..|runs| - 1];
      CombinedLength(before);
    }
  }

  /** The first loop of `AverageStats`: `total_samples`. */
  method CountSamples(runs: seq<PerformanceStats>) returns (total: u64)
    ensures total == RunSummary.TotalSamples(RunCounters(runs))
  {
    ghost var counters := RunCounters(runs);
    total := 0;
    var i := 0;
    while i < |runs|
      invariant 0 <= i <= |runs|
      invariant total == RunSummary.TotalSamples(counters[..i])
    {
      assert counters[..i + 1][..i] == counters[..i];
      total := Wrap64(total + runs[i].sampleCount);
      i := i + 1;
    }
    assert counters[..i] == counters;
  }

  function Min(x: nat, y: nat): nat {
    if x <= y then x else y
  }

  /**
   * The copying loop for one run: its samples in order, each only while fewer
   * than `total` have been copied.
   */
  method AppendRun(avg: PerformanceStats, src: array<u64>, n: nat, total: u64, ghost prefix: seq<u64>)
    requires src != avg.latencySamples && n <= src.Length && avg.latencySamples.Length == total
    requires avg.sampleCount == Min(|prefix|, total)
    requires avg.latencySamples[..avg.sampleCount] == prefix[..avg.sampleCount]
    modifies avg`sampleCount, avg.latencySamples
    ensures avg.sampleCount == Min(|prefix + src[..n]|, total)
    ensures avg.latencySamples[..avg.sampleCount] == (prefix + src[..n])[..avg.sampleCount]
  {
    var j := 0;
    while j < n
      invariant 0 <= j <= n
      invariant avg.sampleCount == Min(|prefix| + j, total)
      invariant avg.latencySamples[..avg.sampleCount] == (prefix + src[..j])[..avg.sampleCount]
    {
      ghost var count := avg.sampleCount;
      if avg.sampleCount < total {
        avg.latencySamples[avg.sampleCount] := src[j];
        avg.sampleCount := avg.sampleCount + 1;
        assert (prefix + src[..j + 1])[..count + 1] == (prefix + src[..j])[..count] + [src[j]];
      } else {
        assert (prefix + src[..j + 1])[..count] == (prefix + src[..j])[..count];
      }
      j := j + 1;
    }
    assert src[..j] == src[..n];
  }

  /** Copies the first `total` combined samples into the buffer of `avg`. */
  method AppendRuns(runs: seq<PerformanceStats>, avg: PerformanceStats, total: u64)
    requires AllValid(runs) && avg !in runs
    requires avg.latencySamples.Length == total && avg.sampleCount == 0
    requires forall i :: 0 <= i < |runs| ==> runs[i].latencySamples != avg.latencySamples
    requires total <= |Combined(runs)|
    modifies avg`sampleCount, avg.latencySamples
    ensures avg.sampleCount == total
    ensures avg.latencySamples[..total] == Combined(runs)[..total]
  {
    var i := 0;
    while i < |runs|
      invariant 0 <= i <= |runs|
      invariant avg.sampleCount == Min(|Combined(runs[..i])|, total)
      invariant avg.latencySamples[..avg.sampleCount] == Combined(runs[..i])[..avg.sampleCount]
    {
      assert runs[..i + 1][..i] == runs[..i];
      AppendRun(avg, runs[i].latencySamples, runs[i].sampleCount, total, Combined(runs[..i]));
      i := i + 1;
    }
    assert runs[..i] == runs;
  }

  /**
   * The summing loop of `AverageStats`: over the runs with samples, each counter
   * summed in the width of its field, and `valid_runs`.
   */
  method SumRuns(runs: seq<PerformanceStats>) returns (sums: RunSummary.Summary, validRuns: nat)
    ensures sums == RunSummary.Sums(RunCounters(runs))
    ensures validRuns == RunSummary.ValidRuns(RunCounters(runs))
  {
    ghost var counters := RunCounters(runs);
    sums := RunSummary.ZeroSummary;
    validRuns := 0;
    var i := 0;
    while i < |runs|
      invariant 0 <= i <= |runs|
      invariant sums == RunSummary.Sums(counters[..i])
      invariant validRuns == RunSummary.ValidRuns(counters[..i])
    {
      assert counters[..i + 1][..i] == counters[..i];
      var run := runs[i].Counters();
      assert counters[..i + 1] == counters[..i] + [run];
      if run.sampleCount > 0 {
        validRuns := validRuns + 1;
        sums := RunSummary.Accumulate(sums, run);
      }
      i := i + 1;
    }
    assert counters[..i] == counters;
  }

  /** A fresh buffer of `total` entries, filled with the first `total` combined samples. */
  method CopySamples(runs: seq<PerformanceStats>, avg: PerformanceStats, total: u64)
    requires AllValid(runs) && avg !in runs && total <= |Combined(runs)|
    modifies avg`latencySamples, avg`sampleCount
    ensures fresh(avg.latencySamples) && avg.latencySamples.Length == total == avg.sampleCount
    ensures avg.latencySamples[..] == old(Combined(runs))[..total]
  {
    avg.sampleCount := 0;
    avg.latencySamples := new u64[total];
    if total > 0 {
      AppendRuns(runs, avg, total);
    }
  }

  /**
   * The allocation and copying part of `AverageStats`: `total_samples`, then a
   * buffer of that many entries holding the first `total_samples` combined
   * samples. An empty buffer stands for the null pointer kept when there are none.
   */
  method CollectSamples(runs: seq<PerformanceStats>, avg: PerformanceStats) returns (total: u64)
    requires AllValid(runs) && avg !in runs
    modifies avg`latencySamples, avg`sampleCount
    ensures total == RunSummary.TotalSamples(old(RunCounters(runs))) <= |old(Combined(runs))|
    ensures |old(Combined(runs))| < U64_MODULUS ==> total == |old(Combined(runs))|
    ensures fresh(avg.latencySamples) && avg.latencySamples.Length == total == avg.sampleCount
    ensures avg.latencySamples[..] == old(Combined(runs))[..total]
  {
    total := CountSamples(runs);
    CombinedLength(runs);
    RunSummary.TotalSamplesBounds(RunCounters(runs));
    CopySamples(runs, avg, total);
  }

  /**
   * `AverageStats`: `avg` is cleared; its buffer receives `total_samples` of the
   * runs' samples, in run order; and every counter becomes its sum over the runs
   * with samples, taken in the width of the field, integer-divided by their number.
   */
  method AverageStats(runs: seq<PerformanceStats>, avg: PerformanceStats)
    requires AllValid(runs) && avg !in runs
    modifies avg
    ensures avg.Valid() && fresh(avg.latencySamples)
    ensures avg.Counters() == RunSummary.Averaged(old(RunCounters(runs)), RunSummary.TotalSamples(old(RunCounters(runs))))
    ensures avg.sampleCount <= |old(Combined(runs))| && avg.Samples() == old(Combined(runs))[..avg.sampleCount]
    ensures |old(Combined(runs))| < U64_MODULUS ==> avg.Samples() == old(Combined(runs))
  {
    var sums, validRuns := SumRuns(runs);
    var total := CollectSamples(runs, avg);
    if validRuns > 0 {
      avg.Assign(RunSummary.Divide(sums, validRuns));
    } else {
      avg.Assign(RunSummary.ZeroSummary);
    }
  }
}
