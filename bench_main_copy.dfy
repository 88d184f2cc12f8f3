/**
 * The single-run harness: the global command table, `ReadCommandsFromFile` with
 * its echo of every accepted record, the counter-only `RunCommandsSoftware` on the
 * global `PERFORMANCE_STATS` record, and the minimum search of
 * `MeasureSystemCallOverhead`. Counter readings, the outcome of each
 * `GetProcessTimes` call and the results of the floating-point conversions enter
 * as parameters.
 */
module BenchMainCopy {
  import opened Ints
  import opened CommandTrace
  import opened Cycles
  import opened Workload

  /** Number of probes `MeasureSystemCallOverhead` takes. */
  const OVERHEAD_PROBES: nat := 100

  /** `PERFORMANCE_STATS` of this harness: counters only, no latency samples. */
  datatype PerformanceStats = PerformanceStats(
    kernelCycles: u64, userCycles: u64, totalCycles: u64,
    blockLayerCycles: u64, hardwareCycles: u64,
    ioCount: u32, readCount: u32, writeCount: u32, totalBytes: u64)

  /** The zero-initialised global record. */
  const ZeroStats := PerformanceStats(0, 0, 0, 0, 0, 0, 0, 0, 0)

  /**
   * `MeasureSystemCallOverhead` over the counter readings around each probe: the
   * running minimum starts at `(ULONGLONG)-1` and ends as the least 64-bit
   * difference `end - start`, which is one of the observed differences.
   */
  method MeasureSystemCallOverhead(starts: seq<u64>, ends: seq<u64>) returns (minOverhead: u64)
    requires |starts| == |ends| == OVERHEAD_PROBES
    ensures forall k :: 0 <= k < OVERHEAD_PROBES ==> minOverhead <= CycleDelta(starts[k], ends[k])
    ensures exists k :: 0 <= k < OVERHEAD_PROBES && minOverhead == CycleDelta(starts[k], ends[k])
  {
    minOverhead := U64_MAX;
    var i := 0;
    while i < OVERHEAD_PROBES
      invariant 0 <= i <= OVERHEAD_PROBES
      invariant forall k :: 0 <= k < i ==> minOverhead <= CycleDelta(starts[k], ends[k])
      invariant (i == 0 && minOverhead == U64_MAX) ||
                exists k :: 0 <= k < i && minOverhead == CycleDelta(starts[k], ends[k])
    {
      var overhead := CycleDelta(starts[i], ends[i]);
      if overhead < minOverhead {
        minOverhead := overhead;
      } else {
        assert minOverhead == U64_MAX ==> minOverhead == overhead;
      }
      i := i + 1;
    }
  }

  /** The globals: `commands[]`, `command_count` and `stats`. */
  class Harness {
    var commands: array<IoCommand>
    var commandCount: nat
    var stats: PerformanceStats

    /** The zero-initialised globals. */
    constructor ()
      ensures Valid() && fresh(commands) && commandCount == 0 && stats == ZeroStats
      ensures forall k :: 0 <= k < commands.Length ==> commands[k] == ZeroCommand
    {
      commands := new IoCommand[MAX_COMMANDS](_ => ZeroCommand);
      commandCount := 0;
      stats := ZeroStats;
    }

    predicate Valid()
      reads this
    {
      commands.Length == MAX_COMMANDS && commandCount <= MAX_COMMANDS
    }

    /** The commands read so far. */
    function Commands(): seq<IoCommand>
      requires Valid()
      reads this, commands
    {
      commands[..commandCount]
    }

    /**
     * The body of the read loop for one line: the fields are parsed into slot
     * `command_count` token by token, and the line counts iff all four were found.
     */
    method StoreLine(line: string) returns (accepted: bool)
      requires Valid() && commandCount < MAX_COMMANDS
      modifies commands
      ensures commands[..] == old(commands[..])[commandCount := WriteLine(old(commands[commandCount]), line)]
      ensures accepted == Decode(line).Some?
    {
      var s := CString(line);
      if |s| <= 1 {
        return false;
      }
      var tokens := Tokens(s);
      if |tokens| == 0 {
        return false;
      }
      var i := commandCount;
      commands[i] := commands[i].(opcode := Atoi(tokens[0]));
      if |tokens| < 2 {
        return false;
      }
      commands[i] := commands[i].(lba := StrToI64(tokens[1], 10));
      if |tokens| < 3 {
        return false;
      }
      commands[i] := commands[i].(length := StrToUL(tokens[2]));
      if |tokens| < 4 {
        return false;
      }
      commands[i] := commands[i].(data := StrToI64(tokens[3], 16));
      return true;
    }

    /**
     * `ReadCommandsFromFile` over the lines `fgets` returns. The table ends exactly
     * as in the harness with latency samples (`Load` of the same lines), and
     * `echoed` lists the records printed as they are read, which are the commands
     * read, in order. When the file cannot be opened nothing changes.
     */
    method ReadCommandsFromFile(fileOpened: bool, lines: seq<string>) returns (ok: bool, echoed: seq<IoCommand>)
      requires Valid()
      modifies this`commandCount, commands
      ensures Valid()
      ensures !fileOpened ==> !ok && echoed == [] && commandCount == old(commandCount) && commands[..] == old(commands[..])
      ensures fileOpened ==> Load(lines, old(commands[..])) == Table(commands[..], commandCount)
      ensures fileOpened ==> Commands() == ReadCommands(lines) && echoed == Commands()
      ensures fileOpened ==> forall k :: commandCount < k < MAX_COMMANDS ==> commands[k] == old(commands[k])
      ensures fileOpened ==> (ok <==> commandCount > 0) && (ok <==> SomeLineAccepted(lines))
    {
      echoed := [];
      if !fileOpened {
        return false, echoed;
      }
      ghost var init := commands[..];
      commandCount := 0;
      var k := 0;
      while commandCount < MAX_COMMANDS && k < |lines|
        invariant 0 <= k <= |lines|
        invariant Valid()
        invariant Load(lines[..k], init) == Table(commands[..], commandCount)
        invariant echoed == commands[..commandCount]
      {
        ghost var t := Table(commands[..], commandCount);
        var accepted := StoreLine(lines[k]);
        assert commands[..commandCount] == echoed;
        if accepted {
          echoed := echoed + [commands[commandCount]];
          assert commands[..commandCount + 1] == echoed;
          commandCount := commandCount + 1;
        }
        LoadNext(lines, init, k);
        assert Table(commands[..], commandCount) == Step(t, lines[k]);
        k := k + 1;
      }
      LoadStops(lines, init, k);
      LoadMeaning(lines, init);
      ReadSomethingIff(lines);
      ok := commandCount > 0;
    }

    /** The pre-calculation loop over the table: bytes, reads and writes. */
    method TallyCommands()
      requires Valid()
      requires stats.totalBytes == 0 && stats.readCount == 0 && stats.writeCount == 0
      modifies this`stats
      ensures stats.totalBytes == TotalBytes(Commands())
      ensures stats.readCount == ITERATIONS * ReadOps(Commands())
      ensures stats.writeCount == ITERATIONS * WriteOps(Commands())
      ensures stats == old(stats).(totalBytes := stats.totalBytes, readCount := stats.readCount,
                                   writeCount := stats.writeCount)
    {
      var i := 0;
      while i < commandCount
        invariant 0 <= i <= commandCount
        invariant stats.totalBytes == TotalBytes(commands[..i])
        invariant stats.readCount == ITERATIONS * ReadOps(commands[..i])
        invariant stats.writeCount == ITERATIONS * WriteOps(commands[..i])
        invariant stats == old(stats).(totalBytes := stats.totalBytes, readCount := stats.readCount,
                                       writeCount := stats.writeCount)
      {
        assert commands[..i + 1][..i] == commands[..i];
        ReadsPlusWrites(commands[..i + 1]);
        TotalBytesBound(commands[..i + 1]);
        ScaleMonotone(i + 1, MAX_COMMANDS, U32_MAX);
        stats := stats.(totalBytes := Wrap64(stats.totalBytes + BytesTerm(commands[i].length)));
        if commands[i].opcode == 0 {
          stats := stats.(readCount := Wrap32(stats.readCount + ITERATIONS));
        } else {
          stats := stats.(writeCount := Wrap32(stats.writeCount + ITERATIONS));
        }
        i := i + 1;
      }
    }

    /**
     * `RunCommandsSoftware`: the counters of one run over the table. `runStart` and
     * `runEnd` are the counter readings around the run, the two flags say whether
     * each `GetProcessTimes` call succeeded, `kernelCycles` and `userCycles` are the
     * results of the floating-point conversions, and `readBase` and `writeBase` the
     * converted base hardware latencies of a read and of a write.
     */
    method RunCommandsSoftware(timesBeforeOk: bool, timesAfterOk: bool, runStart: u64, runEnd: u64,
                               kernelCycles: u64, userCycles: u64, readBase: u64, writeBase: u64)
      requires Valid()
      modifies this`stats
      ensures !timesBeforeOk ==> stats == old(stats)
      ensures timesBeforeOk ==>
                stats.ioCount == IoCount(commandCount) && stats.totalBytes == TotalBytes(Commands()) &&
                stats.readCount == ITERATIONS * ReadOps(Commands()) &&
                stats.writeCount == ITERATIONS * WriteOps(Commands())
      ensures timesBeforeOk ==> stats.readCount + stats.writeCount == stats.ioCount
      ensures timesBeforeOk && !timesAfterOk ==>
                stats == old(stats).(ioCount := stats.ioCount, totalBytes := stats.totalBytes,
                                     readCount := stats.readCount, writeCount := stats.writeCount)
      ensures timesBeforeOk && timesAfterOk ==>
                stats.kernelCycles == kernelCycles && stats.userCycles == userCycles &&
                stats.totalCycles == CycleDelta(runStart, runEnd) &&
                stats.hardwareCycles == HardwareTotal(Commands(), readBase, writeBase) &&
                stats.blockLayerCycles == BlockLayerEstimateAsWritten(IoCount(commandCount))
    {
      if !timesBeforeOk {
        return;
      }
      stats := stats.(ioCount := IoCount(commandCount), totalBytes := 0, readCount := 0, writeCount := 0);
      TallyCommands();
      ReadWriteCountsAddUp(Commands());
      if !timesAfterOk {
        return;
      }
      stats := stats.(kernelCycles := kernelCycles, userCycles := userCycles,
                      totalCycles := CycleDelta(runStart, runEnd));
      var hardware := EstimateHardware(commands, commandCount, readBase, writeBase);
      stats := stats.(hardwareCycles := hardware);
      stats := stats.(blockLayerCycles := BlockLayerEstimateAsWritten(stats.ioCount));
    }
  }
}
