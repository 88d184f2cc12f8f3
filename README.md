# Dense-to-sparse conversion and I/O latency harness

The repository has two benchmark tracks, and this project models the integer, data-structure and parsing logic of both.

Track A benchmarks sparse kernels.
- Its matrix records are a dense matrix stored in one flat vector under a row-major or column-major layout, and compressed sparse row (CSR) and compressed sparse column (CSC) records.
- The model covers the dense index maps and the constructors (`Matrix`).
- It also covers the two converters, `dense_to_csr` and `dense_to_csc` (`SparseConversion`).
  - They are imperative: they append, resize and write arrays in place.
  - Each is proved against reference definitions (`Pointers`, `Indices`, `Values` of the dense rows or columns).
  - The properties proved about those definitions:
    - the pointer arrays are monotone prefix sums;
    - every compressed line is strictly increasing and in bounds;
    - the conversion is lossless;
    - each CSC slot is written exactly once;
    - CSR and CSC agree on the nonzero count.

Track B is a Windows storage-latency harness. It reads a text trace of I/O commands, replays them against a test file, and times them with the time-stamp counter.
- `CommandTrace`: the line format shared by both harness programs.
  - The `strtok` tokenizer.
  - The C runtime numeral parsers `atoi`, `_strtoi64` and `strtoul`.
  - The exact accept/reject rule for a line.
  - The partial writes a rejected line leaves in the next table slot.
  - The table after a whole trace.
- `Ints`: the fixed-width integer types of the C code.
- `Cycles`: wrap-around counter arithmetic.
- `Workload`: the counters derived from the command table.
- `LatencyStats`: the comparator, the in-place sort, the percentiles and the sample sum.
- `RunSummary`: the integer averaging over runs.
- `BenchMain` models `Track_B/main.c`.
  - The global command table is a class.
  - Each run's `PERFORMANCE_STATS` record is a class with a sample buffer.
  - It covers `ReadCommandsFromFile`, `RunCommandsSoftware`, `CalculateLatencyStatistics` and `AverageStats`.
- `BenchMainCopy` models `Track_B/main_copy.c`. That program has a single counter-only statistics record, which echoes each record it reads, and `MeasureSystemCallOverhead`.

The timing sources, `GetProcessTimes` and the floating-point conversions are parameters of the methods that use them.

Assumption: `CalculateLatencyStatistics` indexes the sorted buffer at `(ULONGLONG)(sample_count * p)`, a double product, for p = 0.50, 0.90, 0.95, 0.99 and 0.999. The model takes the index to be the integer quotient `n * k / 1000`, for k = 500, 900, 950, 990 and 999. This is assumed to agree with the double product for the sample counts the harness produces; the model does not establish it.

## Model

| member | source | states |
|---|---|---|
| Ints.Wrap32 | Track_B/main.c:40-42 | DWORD arithmetic is the value modulo 2^32. It is the identity below 2^32 and never increases a natural number. |
| Ints.Wrap64 | Track_B/main.c:35-39 | ULONGLONG arithmetic is the value modulo 2^64. It is the identity below 2^64 and never increases a natural number. |
| Matrix.OffsetInBounds | Track_A/src/matrix.h:23-28 | For `i < rows` and `j < cols`, both the row-major position `i*cols+j` and the column-major position `j*rows+i` are below `rows*cols`. Both accessors share one index map, so they compute the same position. |
| Matrix.OffsetInjective | Track_A/src/matrix.h:24-27 | Under either layout, distinct in-range index pairs map to distinct positions. |
| Matrix.OffsetOnto | Track_A/src/matrix.h:24-27 | Every position below `rows*cols` is the image of some in-range pair, so each layout is a bijection. |
| Matrix.NewDense | Track_A/src/matrix.h:18-21 | The constructor keeps rows, columns and layout, and fills `data` with `rows*cols` zeros. |
| Matrix.NewDenseReadsZero | Track_A/src/matrix.h:18-35 | A new matrix reads zero at every in-range index, and that zero fails the nonzero test. |
| Matrix.Store | Track_A/src/matrix.h:23-28 | Writing through the non-const accessor makes the const accessor read the new value at `(i, j)` and leaves every other element unchanged. |
| Matrix.StoreLeavesOthers | Track_A/src/matrix.h:23-35 | An update of the flat position of `(i, j)` changes the reading of no other index pair. |
| Matrix.CsrMatrix.constructor | Track_A/src/matrix.h:44-46 | The CSR constructor records the dimensions. `row_ptrs` holds `rows+1` zeros, and the value and column-index arrays start empty. |
| Matrix.CscMatrix.constructor | Track_A/src/matrix.h:55-57 | The CSC constructor records the dimensions. `col_ptrs` holds `cols+1` zeros, and the value and row-index arrays start empty. |
| SparseConversion.NonzeroPositionsCorrect | Track_A/src/matrix.cpp:32-38 | A compressed line lists exactly the entries that pass the nonzero test. Positions strictly increase, stay in range and carry their values, and every passing entry is listed. |
| SparseConversion.PointersShape | Track_A/src/matrix.cpp:28-41 | The pointer array has one entry per line plus one and starts at 0. Each step adds that line's count, the array never decreases, and its last entry is the length of the index and value arrays. |
| SparseConversion.LineSegment | Track_A/src/matrix.cpp:31-41 | The slice between pointers `t` and `t+1` is exactly compressed line `t`, in both the index and the value array. |
| SparseConversion.LineContents | Track_A/src/matrix.cpp:31-41 | Segment `t` holds in-range, strictly increasing positions of passing entries with their values, and contains every passing entry of line `t`. |
| SparseConversion.CsrShape | Track_A/src/matrix.cpp:28-41 | `row_ptrs` has `rows+1` entries, starts at 0 and never decreases. `row_ptrs[i+1] - row_ptrs[i]` is the number of passing entries of dense row `i`, and the last entry equals the size of `values` and of `col_indices`. |
| SparseConversion.CsrRowContents | Track_A/src/matrix.cpp:31-41 | Within row `i`, column indices are below `cols` and strictly increasing, and each value equals the dense element at that row and column and passes the test. Every passing element of the row is stored, exactly once. |
| SparseConversion.CscShape | Track_A/src/matrix.cpp:50-67 | `col_ptrs` is the prefix sum of the per-column counts. It starts at 0, never decreases, and ends at the size of `values` and of `row_indices`. |
| SparseConversion.CscColumnContents | Track_A/src/matrix.cpp:69-80 | Within column `j`, row indices are below `rows` and strictly increasing, each value equals the dense element there, and every passing element of the column is stored exactly once. |
| SparseConversion.NonzeroCountsAgree | Track_A/src/matrix.cpp:28-63 | CSR and CSC built from the same dense matrix store the same number of entries. |
| SparseConversion.DenseToCsr | Track_A/src/matrix.cpp:25-44 | `dense_to_csr` returns a fresh record with the dense dimensions. Its `row_ptrs`, `col_indices` and `values` are the reference pointer, index and value arrays of the dense rows. |
| SparseConversion.AppendRow | Track_A/src/matrix.cpp:32-39 | The inner loop appends exactly compressed row `i` to both arrays and leaves `nnz` at their length. |
| SparseConversion.CountColumns | Track_A/src/matrix.cpp:50-57 | The first pass leaves `col_counts[j]` equal to the number of passing entries of column `j`. |
| SparseConversion.PrefixSums | Track_A/src/matrix.cpp:60-63 | The pointer pass makes `col_ptrs` the reference pointer array of the columns, the running sums of `col_counts`. |
| SparseConversion.FillRow | Track_A/src/matrix.cpp:71-79 | One row of the fill pass moves the offsets from counts above row `i` to counts above row `i+1`. It extends every column's fill, with each write inside that column's segment. |
| SparseConversion.FillPlace | Track_A/src/matrix.cpp:73-77 | For a passing element, `idx = col_ptrs[j] + col_offsets[j]` lies inside the arrays and inside column `j`'s segment. Writing there extends column `j` and keeps every other column. |
| SparseConversion.FillEnd | Track_A/src/matrix.cpp:69-80 | When the sweep ends, `col_offsets[j] == col_counts[j]`, the arrays are the compressed columns, and each slot was written exactly once. |
| SparseConversion.FillColumns | Track_A/src/matrix.cpp:69-80 | The fill pass leaves `col_offsets` equal to the column counts and the arrays equal to the compressed columns. Every slot is written exactly once. |
| SparseConversion.DenseToCsc | Track_A/src/matrix.cpp:46-83 | `dense_to_csc` returns a fresh record with the dense dimensions. Its `col_ptrs`, `row_indices` and `values` are the reference pointer, index and value arrays of the dense columns. |
| CommandTrace.CString | Track_B/main.c:407-409 | `strlen` and `strtok` see the line up to its first NUL: a NUL-free prefix that is followed by a NUL when shorter than the line. |
| CommandTrace.RunLength | Track_B/main.c:409 | A token is the maximal leading run of non-delimiters, where the delimiters are space, tab and newline. |
| CommandTrace.Tokens | Track_B/main.c:409-426 | Successive `strtok(…, " \t\n")` calls yield nonempty words that contain no delimiter. |
| CommandTrace.TokensAfterWord | Track_B/main.c:409-426 | A word followed by a delimiter is the first token, and tokenizing continues after the delimiter. |
| CommandTrace.TokensOfUnwords | Track_B/main.c:409-426 | Tokenizing words separated by spaces and ended by a newline gives back exactly those words. |
| CommandTrace.TokensLengthBound | Track_B/main.c:409-426 | A string of `n` characters has at most `(n+1)/2` tokens. |
| CommandTrace.SkipSpace | Track_B/main.c:413-428 | The parsers skip leading whitespace: the result is a suffix that starts with a non-space. |
| CommandTrace.Atoi | Track_B/main.c:413 | `atoi` gives the scanned decimal value, saturated at the 32-bit `int` limits. |
| CommandTrace.StrToI64 | Track_B/main.c:418 | `_strtoi64` gives the scanned value in the given base, saturated at the signed 64-bit limits. |
| CommandTrace.UnsignedLong | Track_B/main.c:423 | `strtoul` with a 32-bit `unsigned long` gives `ULONG_MAX` for a magnitude above it. Otherwise it gives the magnitude, negated modulo 2^32 under a leading minus. |
| CommandTrace.Decode | Track_B/main.c:405-430 | A line yields a command iff it has at least four tokens; the `strlen > 1` guard never rejects such a line. The fields are then: opcode by `atoi`, address by `_strtoi64` base 10, length by `strtoul` base 10, data by `_strtoi64` base 16. |
| CommandTrace.WriteLine | Track_B/main.c:409-428 | An accepted line leaves its decoded command in the slot. A line that is empty or has no token leaves the slot untouched. |
| CommandTrace.LengthGuardRedundant | Track_B/main.c:407 | Every line that the `strlen <= 1` skip discards has fewer than four tokens, so the skip never decides acceptance on its own. |
| CommandTrace.ExtraTokensIgnored | Track_B/main.c:409-430 | Two lines whose first four tokens agree decode to the same command, whatever follows. |
| CommandTrace.AnyWordsAccepted | Track_B/main.c:409-430 | Any four or more words are accepted, whatever they say. A non-numeric token never rejects a line; only a missing one does. |
| CommandTrace.ScanSigned | Track_B/main.c:413-428 | Each numeral parser reads back the signed decimal or hexadecimal text of any integer. |
| CommandTrace.AtoiSigned | Track_B/main.c:413 | `atoi` reads back the decimal text of any 32-bit `int`. |
| CommandTrace.StrToI64Signed | Track_B/main.c:418-428 | `_strtoi64` reads back the text of any `LONGLONG` in base 10 and base 16. |
| CommandTrace.StrToULDigits | Track_B/main.c:423 | `strtoul` reads back the decimal text of any DWORD. |
| CommandTrace.DecodeFormat | Track_B/main.c:409-430 | Round trip: every command, written as a trace line, decodes back to itself. |
| CommandTrace.Step | Track_B/main.c:405-431 | One read-loop iteration keeps the table at capacity `MAX_COMMANDS` with the count at most the capacity. |
| CommandTrace.LoadMeaning | Track_B/main.c:405-431 | After the loop, the count is the number of commands `ReadCommands` names and the first `count` slots hold exactly them. No slot past the count is written. |
| CommandTrace.StepMeaning | Track_B/main.c:405-431 | Below capacity, a step appends the line's command if it has one, and writes no later slot. |
| CommandTrace.LoadSaturated | Track_B/main.c:405 | Once the table is full, no later line changes it. |
| CommandTrace.ReadCommands | Track_B/main.c:405 | The loop stops at the capacity: it never reads more than `MAX_COMMANDS` commands. |
| CommandTrace.AcceptedFromLines | Track_B/main.c:405-431 | Every command read is the decoding of some line of the trace. |
| CommandTrace.ReadSomethingIff | Track_B/main.c:435-438 | At least one command is read iff some line of the trace is accepted. |
| Cycles.CycleDelta | Track_B/main.c:538-541 | `end - start` on ULONGLONG readings is the 64-bit value that takes `start` to `end` modulo 2^64: `end - start` without a wrap, `2^64 - start + end` with one. |
| Cycles.CycleDeltaUnique | Track_B/main.c:541 | No other 64-bit value takes `start` to `end`. |
| Cycles.Latencies | Track_B/main.c:573-583 | One latency per pair of readings, in issue order, each satisfying `start + latency ≡ end (mod 2^64)`. |
| Workload.ReadsPlusWrites | Track_B/main.c:565-569 | Every command counts as exactly one of a read (opcode 0) and a write (any other opcode). |
| Workload.ReadWriteCountsAddUp | Track_B/main.c:556-570 | `read_count + write_count == io_count == command_count * ITERATIONS`, with no DWORD overflow for a table of at most `MAX_COMMANDS`. |
| Workload.TotalBytesBound | Track_B/main.c:564 | Each 32-bit term is below 2^32, so `total_bytes` is at most `count * (2^32 - 1)` and the 64-bit sum never wraps. |
| Workload.BytesTermExact | Track_B/main.c:564 | A length within the I/O buffer gives exactly `length * ITERATIONS` bytes. |
| Workload.TotalBytesExact | Track_B/main.c:563-570 | When every length fits the I/O buffer, `total_bytes` is exactly `ITERATIONS` times the sum of the lengths. |
| Workload.BytesTermWrapsPastBuffer | Track_B/main.c:564 | The product is formed in 32 bits, so a 4294968-byte command counts 704 bytes per run. |
| Workload.BlockLayerEstimateAsWrittenWraps | Track_B/main.c:612 | As written, the DWORD product `io_count * 25000` wraps once there are 172 commands: the estimate becomes 5032704, and is smaller than the one for 171 commands. |
| Workload.BlockLayerEstimateExact | Track_B/main.c:612 | The corrected estimate is exactly 25000 cycles per I/O for every DWORD count. |
| Workload.BlockLayerEstimateMonotone | Track_B/main.c:612 | The corrected estimate grows with the number of commands in the table. |
| Workload.HardwareSumByDirection | Track_B/main.c:605-610 | Summed exactly, the per-command hardware estimates are one read estimate per read plus one write estimate per write, each estimate being the base latency plus the PCIe and controller overheads. |
| Workload.HardwareTotalExact | Track_B/main.c:605-610 | Without 64-bit overflow, the accumulated `estimated_hardware_cycles` is exactly `ITERATIONS` times the exact sum of the estimates. |
| Workload.EstimateHardware | Track_B/main.c:606-610 | The hardware loop over the table yields the 64-bit accumulated total of each command's estimate times `ITERATIONS`. |
| LatencyStats.Compare | Track_B/main.c:152-159 | `CompareULONGLONG` is -1 iff `a < b`, 1 iff `a > b` and 0 iff they are equal: a total-order comparator. |
| LatencyStats.SortSamples | Track_B/main.c:245 | The `qsort` call leaves the first `n` samples in ascending order and a permutation of what was there. The rest of the buffer is untouched. |
| LatencyStats.InsertNext | Track_B/main.c:245 | One insertion step extends the sorted prefix by one element. It keeps the multiset and leaves the tail beyond `n` untouched. |
| LatencyStats.PercentileIndex | Track_B/main.c:267-279 | For a percentile below 100%, the index into a nonempty buffer of `n` samples is below `n`. |
| LatencyStats.PercentileIndexMonotone | Track_B/main.c:267-279 | A higher percentile never gives a lower index. |
| LatencyStats.PercentilesOrdered | Track_B/main.c:248-279 | In a sorted nonempty buffer, min ≤ p50 ≤ p90 ≤ p95 ≤ p99 ≤ p99.9 ≤ max, and every index is in range. |
| LatencyStats.StatsOrdered | Track_B/main.c:248-279 | The statistics read off a sorted buffer come in that same order. |
| LatencyStats.SortedBounds | Track_B/main.c:245-249 | Sorting is a permutation, so min and max of the sorted buffer bound every sample of the unsorted one. |
| LatencyStats.SumSamples | Track_B/main.c:251-254 | `sum_cycles` is the sum of the first `n` samples modulo 2^64. |
| LatencyStats.Wrap64Add | Track_B/main.c:253 | Reducing modulo 2^64 after each `+=` gives the same result as reducing the total once. |
| RunSummary.GetAccumulate | Track_B/main.c:666-683 | One `+=` of a run adds each field modulo the width of that field. |
| RunSummary.EmptyRunsIgnored | Track_B/main.c:662-687 | Runs without samples contribute to no sum and not to `valid_runs`. `valid_runs` is the number of runs with samples. |
| RunSummary.AveragedIgnoresEmptyRuns | Track_B/main.c:662-711 | The averaged counters do not depend on the runs without samples. |
| RunSummary.SumsAreExactModulo | Track_B/main.c:662-687 | Each accumulated field is its exact sum over the runs with samples, reduced once in the field's width. |
| RunSummary.AveragedField | Track_B/main.c:689-711 | With runs to average, each averaged field is its sum integer-divided by `valid_runs`. |
| RunSummary.AverageWithinRange | Track_B/main.c:662-711 | When a field's sum does not wrap, its average lies between the least and the greatest value a run with samples reported. |
| RunSummary.ExactSumBounds | Track_B/main.c:662-687 | Per-run bounds on a field bound its exact sum by `valid_runs` times those bounds. |
| RunSummary.TotalSamplesWraps | Track_B/main.c:632-635 | `total_samples` is the exact total of the sample counts modulo 2^64. |
| RunSummary.TotalSamplesBounds | Track_B/main.c:632-635 | `total_samples` never exceeds the exact total, and equals it while the total fits in 64 bits. |
| BenchMain.PerformanceStats.constructor | Track_B/main.c:359-361 | A run's record starts zeroed, with a fresh sample buffer of the given capacity. |
| BenchMain.PerformanceStats.CalculateLatencyStatistics | Track_B/main.c:239-280 | With no samples the record and buffer are unchanged. Otherwise the samples are sorted in place into a permutation of themselves, min, max and the percentiles are read off the sorted buffer, and `sum_cycles` is their 64-bit sum. |
| BenchMain.PerformanceStats.ReadStatistics | Track_B/main.c:248-279 | Min, max and percentiles are stored as read off the samples. |
| BenchMain.PerformanceStats.StartRun | Track_B/main.c:556-560 | The start of a run sets `io_count` and clears bytes, reads, writes and the sample count. Nothing else changes. |
| BenchMain.PerformanceStats.RecordTimes | Track_B/main.c:601-612 | Stores kernel, user, total, hardware and block-layer cycles. Nothing else changes. |
| BenchMain.Benchmark.constructor | Track_B/main.c:60-61 | The global table starts with zeroed slots and `command_count == 0`. |
| BenchMain.Benchmark.StoreLine | Track_B/main.c:407-430 | One loop body writes the line's fields into slot `command_count` as `WriteLine` says and changes no other slot. The line counts iff it decodes. |
| BenchMain.Benchmark.ReadCommandsFromFile | Track_B/main.c:394-439 | An unopened file changes nothing and gives false. Otherwise the table is `Load` of the lines: the first `MAX_COMMANDS` accepted commands in order, with no later slot written. The result is true iff a command was read, iff some line is accepted. |
| BenchMain.Benchmark.TallyCommands | Track_B/main.c:563-570 | The pre-calculation loop makes `total_bytes` the 64-bit sum of the 32-bit `length * ITERATIONS` terms, and `read_count` and `write_count` `ITERATIONS` times the read and write counts. |
| BenchMain.Benchmark.TimeIteration | Track_B/main.c:574-582 | One pass over the table appends one latency per command, in issue order. It leaves the rest of the buffer untouched. |
| BenchMain.Benchmark.TimeCommands | Track_B/main.c:573-583 | The timed loop fills the buffer append-only with `count * ITERATIONS` latencies in issue order, never more than `MAX_LATENCY_SAMPLES`. The tail of the buffer is untouched. |
| BenchMain.Benchmark.CountAndTime | Track_B/main.c:555-583 | Between the two `GetProcessTimes` calls the counters are set as the tallies say and the samples are the issue-order latencies. No other field changes. |
| BenchMain.Benchmark.RunCommandsSoftware | Track_B/main.c:544-612 | If the first `GetProcessTimes` fails, nothing changes. Otherwise the counters and samples are set: `io == read + write`, samples in issue order, capped. If the second call also succeeds: kernel and user cycles as converted, total cycles as the wrap-around difference, hardware cycles as `HardwareTotal`, and block-layer cycles as the DWORD product `io_count * 25000` formed in 32 bits, as written (see Findings). |
| BenchMain.RunCounters | Track_B/main.c:663-687 | The averaged view of the runs has one entry per run, and entry `i` holds run `i`'s integer fields. |
| BenchMain.CombinedLength | Track_B/main.c:632-648 | The combined buffer holds as many samples as all runs collected together. |
| BenchMain.CountSamples | Track_B/main.c:632-635 | The first loop computes `total_samples`, the 64-bit sum of the runs' sample counts. |
| BenchMain.AppendRun | Track_B/main.c:642-646 | Copies one run's samples in order, each only while fewer than `total_samples` have been copied. |
| BenchMain.AppendRuns | Track_B/main.c:641-647 | With the guarded copy over all runs, the buffer holds the first `total_samples` samples of the run-order concatenation. |
| BenchMain.SumRuns | Track_B/main.c:652-687 | The summing loop gives each counter's sum over the runs with samples, in the field's width, and `valid_runs`. |
| BenchMain.CollectSamples | Track_B/main.c:632-649 | `total_samples` is computed, and a buffer of that many entries receives the concatenated samples in run order. Without a 64-bit wrap it is the whole concatenation. |
| BenchMain.AverageStats | Track_B/main.c:627-712 | `avg_stats` holds every counter summed over the runs with samples and integer-divided by `valid_runs`. Its buffer is the concatenation of the runs' samples in run order, whole when the count fits 64 bits. |
| BenchMainCopy.MeasureSystemCallOverhead | Track_B/main_copy.c:226-243 | Starting from `(ULONGLONG)-1`, the result is at most every probe's wrap-around difference `end - start` and equal to one of them: the minimum. |
| BenchMainCopy.Harness.constructor | Track_B/main_copy.c:40-46 | The globals start with zeroed slots, `command_count == 0` and a zero statistics record. |
| BenchMainCopy.Harness.StoreLine | Track_B/main_copy.c:151-172 | One loop body writes the line's fields into slot `command_count` as `WriteLine` says. The line counts iff it decodes. |
| BenchMainCopy.Harness.ReadCommandsFromFile | Track_B/main_copy.c:138-189 | An unopened file changes nothing, echoes nothing and gives false. Otherwise the table is `Load` of the lines, exactly as `BenchMain.Benchmark.ReadCommandsFromFile` leaves it, so both parsers accept the same lines and make the same records. The echoed records are the commands read, in order, and the result is true iff one was read. |
| BenchMainCopy.Harness.TallyCommands | Track_B/main_copy.c:262-270 | `total_bytes` is the 64-bit sum of the 32-bit `length * ITERATIONS` terms, and the read and write counts are `ITERATIONS` times the read and write commands. No other field changes. |
| BenchMainCopy.Harness.RunCommandsSoftware | Track_B/main_copy.c:245-309 | A failed first `GetProcessTimes` changes nothing. Otherwise `io_count = count * ITERATIONS`, bytes, reads and writes are tallied with `read + write == io`, and a failed second call stops there with nothing else changed. After a successful second call: kernel and user cycles as converted, total cycles as the wrap-around difference, hardware cycles as `HardwareTotal`, block-layer cycles as the DWORD product `io_count * 25000` formed in 32 bits, as written (see Findings). |

## Left out

- Floating point. `MicrosecondsToCycles`, `HardwareCyclesToCPUCycles`, `CalculateIOPS` and the double parts of `EstimateHardwareLatencyCycles` are not modelled. The kernel and user cycle counts and the base read and write latencies in cycles enter as parameters.
- The `double` average and standard deviation of `CalculateLatencyStatistics` and their averaging in `AverageStats` are not modelled. The model keeps only the integer `sum_cycles` they start from.
- BenchMain.Benchmark.RunCommandsSoftware does not model the 0.6/1.5 block-layer adjustment (main.c:614-624) after the final estimate, because it is a floating-point heuristic on the kernel time.
- BenchMainCopy.Harness.RunCommandsSoftware does not model the same adjustment (main_copy.c:311-321), for the same reason.
- The file I/O is not modelled.
  - `CreateTestFile`, `RunSingleCommandBasic` (seek, `ReadFile`, `WriteFile`, `FlushFileBuffers`) and the untimed replay loop of main_copy.c:273-277 have no effect on the modelled state.
  - Neither do `VirtualAlloc`, `Sleep`, the warm-up loop and `Cleanup`.
- Every `Print*` function is omitted, as is each `printf`: output only. The record echo of main_copy.c is kept as the `echoed` result.
- The time-stamp counter (`__rdtsc`) and `GetProcessTimes` are not modelled. Their readings and success flags are method parameters.
- `fopen` and `fgets` are not modelled.
  - The trace arrives as a sequence of line strings, together with a flag for whether the file opened.
  - The 256-byte chunking of overlong lines by `fgets` is not modelled.
- The sequencing in `main` is not modelled: warm-up, the three runs, and which buffer each run gets. `AverageStats` takes the runs as a parameter.
- A `malloc` that fails is not modelled. A null sample buffer is modelled as an empty array.
- LatencyStats.SortSamples models `qsort` as an insertion sort. Only its result (sorted, permutation, tail untouched) is claimed.
- BenchMain.AverageStats sums the counters before copying the samples and writes the zeroed record in one final assignment. Neither the `memset` nor the copy reads what the other writes, so the resulting state is the same.
- BenchMain.Benchmark.RunCommandsSoftware computes the hardware estimate in a local and stores it once, instead of accumulating into the field. The stored value is the same.
- LatencyStats.PercentileIndex uses `n * k / 1000` in integers, rather than the `double` product `n * p` truncated to an integer. The two are assumed to agree for the sample counts used.
- Track A matrix elements are `float`. They are modelled as reals and seen only through the nonzero test `abs(v) > 1e-10f`, whose threshold is the exact value of the single-precision literal (14411519 / 2^57). Float rounding of the elements themselves is not modelled.
- `size_t` widths and the `static_cast<int>` of stored indices are not modelled: indices are unbounded naturals.
- `generate_random_dense` and `validate_results` are not modelled (randomness and float tolerances).
- The GEMM and SpMM kernels, the benchmark drivers, the utilities, the tracer and the analysis scripts are not part of this model.

## Findings

| source | as written | input that shows it | evidently intended | confidence | as-written member | corrected member |
|---|---|---|---|---|---|---|
| Track_B/main.c:612 (also Track_B/main_copy.c:309) | `stats->io_count * BLOCK_LAYER_OVERHEAD_PER_CMD` multiplies a DWORD by an `int` constant. The product is formed in 32 bits and wraps before it is stored in the 64-bit field. | 172 commands, so `io_count = 172000`: 172000 × 25000 = 4300000000 wraps to 5032704, which is less than the estimate for 171 commands. | 25000 cycles per I/O in 64-bit arithmetic: `(ULONGLONG)io_count * 25000`. | not executed | Workload.BlockLayerEstimateAsWrittenWraps | Workload.BlockLayerEstimateExact |

Both `RunCommandsSoftware` methods store the value as written (`Workload.BlockLayerEstimateAsWritten`), as the program does. The intended 64-bit estimate is `Workload.BlockLayerEstimate`, with its properties proved in `Workload.BlockLayerEstimateExact` and `Workload.BlockLayerEstimateMonotone`.
