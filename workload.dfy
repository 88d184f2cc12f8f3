/**
 * The counters `RunCommandsSoftware` derives from the command table before and
 * after the timed iterations, shared by both harnesses: the I/O, read and write
 * counts, the transferred bytes and the block-layer estimate. The DWORD products
 * and sums of the program are written out with their 32-bit wrap-around.
 */
module Workload {
  import opened Ints
  import opened CommandTrace

  /** Each command is issued this many times per run. */
  const ITERATIONS: nat := 1000

  /** Estimated block-layer cycles per I/O. */
  const BLOCK_LAYER_OVERHEAD_PER_CMD: nat := 25000

  /** Size of the I/O buffer every read and write goes through (`BLOCK_SIZE * 1024`). */
  const IO_BUFFER_SIZE: nat := 4096 * 1024

  /** `io_count = command_count * ITERATIONS`, stored in a DWORD. */
  function IoCount(count: nat): u32
    requires count <= MAX_COMMANDS
  {
    count * ITERATIONS
  }

  /** Number of read commands (opcode 0). */
  function ReadOps(cmds: seq<IoCommand>): nat {
    if |cmds| == 0 then 0
    else ReadOps(cmds[..|cmds| - 1]) + (if cmds[|cmds| - 1].opcode == 0 then 1 else 0)
  }

  /** Number of write commands (any other opcode). */
  function WriteOps(cmds: seq<IoCommand>): nat {
    if |cmds| == 0 then 0
    else WriteOps(cmds[..|cmds| - 1]) + (if cmds[|cmds| - 1].opcode != 0 then 1 else 0)
  }

  /** Every command is a read or a write and none is both. */
  lemma {:induction false} ReadsPlusWrites(cmds: seq<IoCommand>)
    ensures ReadOps(cmds) + WriteOps(cmds) == |cmds|
  {
    if |cmds| > 0 {
      ReadsPlusWrites(cmds[..|cmds| - 1]);
    }
  }

  /** So the read and write counters add up to the I/O counter. */
  lemma ReadWriteCountsAddUp(cmds: seq<IoCommand>)
    requires |cmds| <= MAX_COMMANDS
    ensures ITERATIONS * ReadOps(cmds) + ITERATIONS * WriteOps(cmds) == IoCount(|cmds|)
    ensures ITERATIONS * ReadOps(cmds) <= IoCount(|cmds|) < U32_MODULUS
    ensures ITERATIONS * WriteOps(cmds) <= IoCount(|cmds|)
  {
    ReadsPlusWrites(cmds);
  }

  /** `commands[i].length * ITERATIONS`: a DWORD product, so it wraps modulo 2^32. */
  function BytesTerm(length: u32): u32 {
    Wrap32(length * ITERATIONS)
  }

  /** `total_bytes`: the 64-bit sum of the per-command byte terms. */
  function TotalBytes(cmds: seq<IoCommand>): nat {
    if |cmds| == 0 then 0 else TotalBytes(cmds[..|cmds| - 1]) + BytesTerm(cmds[|cmds| - 1].length)
  }

  /** Sum of the command lengths, in exact arithmetic. */
  function TotalLength(cmds: seq<IoCommand>): nat {
    if |cmds| == 0 then 0 else TotalLength(cmds[..|cmds| - 1]) + cmds[|cmds| - 1].length
  }

  /** Each term is below 2^32, so the sum never reaches the 64-bit limit. */
  lemma {:induction false} TotalBytesBound(cmds: seq<IoCommand>)
    ensures TotalBytes(cmds) <= |cmds| * U32_MAX
  {
    if |cmds| > 0 {
      TotalBytesBound(cmds[..|cmds| - 1]);
    }
  }

  /** A length that fits the I/O buffer gives its exact byte count per run. */
  lemma BytesTermExact(length: u32)
    requires length <= IO_BUFFER_SIZE
    ensures BytesTerm(length) == length * ITERATIONS
  {
  }

  /**
   * When every length fits the I/O buffer, no 32-bit product wraps and
   * `total_bytes` is exactly `ITERATIONS` times the sum of the lengths.
   */
  lemma {:induction false} TotalBytesExact(cmds: seq<IoCommand>)
    requires forall k :: 0 <= k < |cmds| ==> cmds[k].length <= IO_BUFFER_SIZE
    ensures TotalBytes(cmds) == ITERATIONS * TotalLength(cmds)
  {
    if |cmds| > 0 {
      TotalBytesExact(cmds[..|cmds| - 1]);
      BytesTermExact(cmds[|cmds| - 1].length);
    }
  }

  /** A longer transfer wraps: a 4294968-byte command counts 704 bytes per run. */
  lemma BytesTermWrapsPastBuffer()
    ensures BytesTerm(4294968) == 704 && 4294968 * ITERATIONS != 704
  {
  }

  /**
   * `estimated_block_layer_cycles = io_count * BLOCK_LAYER_OVERHEAD_PER_CMD` as
   * written: `io_count` is a DWORD, so the product is formed in 32 bits before it
   * is widened into the 64-bit field.
   */
  function BlockLayerEstimateAsWritten(io: u32): u64 {
    Wrap32(io * BLOCK_LAYER_OVERHEAD_PER_CMD)
  }

  /** 172 commands already push the 32-bit product past 2^32, and the estimate collapses. */
  lemma BlockLayerEstimateAsWrittenWraps()
    ensures IoCount(172) == 172000
    ensures BlockLayerEstimateAsWritten(IoCount(172)) == 5032704
    ensures BlockLayerEstimateAsWritten(IoCount(172)) < BlockLayerEstimateAsWritten(IoCount(171))
    ensures BlockLayerEstimateAsWritten(IoCount(172)) != IoCount(172) * BLOCK_LAYER_OVERHEAD_PER_CMD
  {
  }

  /** The estimate the program evidently intends: the product in 64-bit arithmetic. */
  function BlockLayerEstimate(io: u32): u64 {
    Wrap64(io * BLOCK_LAYER_OVERHEAD_PER_CMD)
  }

  /** The corrected estimate is exactly 25000 cycles per I/O for every DWORD count. */
  lemma BlockLayerEstimateExact(io: u32)
    ensures BlockLayerEstimate(io) == io * BLOCK_LAYER_OVERHEAD_PER_CMD
  {
    assert io * BLOCK_LAYER_OVERHEAD_PER_CMD <= U32_MAX * BLOCK_LAYER_OVERHEAD_PER_CMD;
  }

  /** ... and it grows with the number of commands in the table. */
  lemma BlockLayerEstimateMonotone(count1: nat, count2: nat)
    requires count1 <= count2 <= MAX_COMMANDS
    ensures BlockLayerEstimate(IoCount(count1)) <= BlockLayerEstimate(IoCount(count2))
  {
    BlockLayerEstimateExact(IoCount(count1));
    BlockLayerEstimateExact(IoCount(count2));
  }

  /** Fixed PCIe protocol and controller overheads added to every hardware estimate. */
  const PCIE_PROTOCOL_OVERHEAD_CYCLES: nat := 1500
  const CONTROLLER_OVERHEAD_CYCLES: nat := 2000

  /**
   * `EstimateHardwareLatencyCycles`: the base latency of the command's direction
   * plus the fixed overheads, in 64-bit arithmetic. `readBase` and `writeBase` are
   * the results of the floating-point microseconds-to-cycles conversion.
   */
  function HardwareLatency(opcode: i32, readBase: u64, writeBase: u64): u64 {
    Wrap64((if opcode == 0 then readBase else writeBase) + PCIE_PROTOCOL_OVERHEAD_CYCLES + CONTROLLER_OVERHEAD_CYCLES)
  }

  /** `estimated_hardware_cycles`: each command's estimate times `ITERATIONS`, summed in 64 bits. */
  function HardwareTotal(cmds: seq<IoCommand>, readBase: u64, writeBase: u64): u64 {
    if |cmds| == 0 then 0
    else Wrap64(HardwareTotal(cmds[..|cmds| - 1], readBase, writeBase) +
                Wrap64(HardwareLatency(cmds[|cmds| - 1].opcode, readBase, writeBase) * ITERATIONS))
  }

  /** Reference definition: the per-command estimates summed in exact arithmetic. */
  function HardwareSum(cmds: seq<IoCommand>, readBase: u64, writeBase: u64): nat {
    if |cmds| == 0 then 0
    else HardwareSum(cmds[..|cmds| - 1], readBase, writeBase) + HardwareLatency(cmds[|cmds| - 1].opcode, readBase, writeBase)
  }

  /** The exact sum is one read estimate per read and one write estimate per write. */
  lemma {:induction false} HardwareSumByDirection(cmds: seq<IoCommand>, readBase: u64, writeBase: u64)
    ensures HardwareSum(cmds, readBase, writeBase) ==
            ReadOps(cmds) * HardwareLatency(0, readBase, writeBase) + WriteOps(cmds) * HardwareLatency(1, readBase, writeBase)
  {
    if |cmds| > 0 {
      var before := cmds[..|cmds| - 1];
      HardwareSumByDirection(before, readBase, writeBase);
      var r, w := HardwareLatency(0, readBase, writeBase), HardwareLatency(1, readBase, writeBase);
      var rs, ws := ReadOps(before), WriteOps(before);
      var last := cmds[|cmds| - 1];
      CountStep(rs, ws, r, w);
      if last.opcode == 0 {
        assert ReadOps(cmds) == rs + 1 && WriteOps(cmds) == ws;
      } else {
        assert ReadOps(cmds) == rs && WriteOps(cmds) == ws + 1;
      }
    }
  }

  /** One more read, or one more write, adds one estimate of that direction. */
  lemma CountStep(rs: nat, ws: nat, r: nat, w: nat)
    ensures (rs + 1) * r + ws * w == rs * r + ws * w + r
    ensures rs * r + (ws + 1) * w == rs * r + ws * w + w
  {
  }

  /** Without 64-bit overflow the accumulated estimate is exactly `ITERATIONS` times the exact sum. */
  lemma {:induction false} HardwareTotalExact(cmds: seq<IoCommand>, readBase: u64, writeBase: u64)
    requires ITERATIONS * HardwareSum(cmds, readBase, writeBase) < U64_MODULUS
    ensures HardwareTotal(cmds, readBase, writeBase) == ITERATIONS * HardwareSum(cmds, readBase, writeBase)
  {
    if |cmds| > 0 {
      var before := cmds[..|cmds| - 1];
      var h := HardwareLatency(cmds[|cmds| - 1].opcode, readBase, writeBase);
      var sum := HardwareSum(before, readBase, writeBase);
      assert ITERATIONS * (sum + h) == ITERATIONS * sum + ITERATIONS * h;
      HardwareTotalExact(before, readBase, writeBase);
    }
  }

  /** The hardware-estimate loop over the first `count` commands of the table. */
  method EstimateHardware(commands: array<IoCommand>, count: nat, readBase: u64, writeBase: u64)
    returns (total: u64)
    requires count <= commands.Length
    ensures total == HardwareTotal(commands[..count], readBase, writeBase)
  {
    total := 0;
    var i := 0;
    while i < count
      invariant 0 <= i <= count
      invariant total == HardwareTotal(commands[..i], readBase, writeBase)
    {
      assert commands[..i + 1][..i] == commands[..i];
      total := Wrap64(total + Wrap64(HardwareLatency(commands[i].opcode, readBase, writeBase) * ITERATIONS));
      i := i + 1;
    }
  }
}
