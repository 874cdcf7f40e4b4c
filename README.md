# Vitis accelerator examples: host logic and README generator

This project models, in Dafny, the sequential logic of three accelerator host
programs from the Vitis accelerated examples and of the README generator that
renders an example's `description.json` as `README.rst`:

- `cpp_kernels/ddr_mmult_buf_size`: a CPU reference matrix multiply and the
  dispatch of the `mmult` kernel, swept over matrix sizes 10, 41, ..., 630. The
  buffers are sized once for 639-by-639 matrices. After each pass the host
  compares the two results, and a sticky flag decides the exit status.
- `ocl_kernels/cl_array_partition`: a 16-by-16 gold product computed on the
  host. The `matmul` and `matmul_partition` kernels run one after the other on
  the same output buffer, and each result is checked against the gold product.
- `rtl_kernels/rtl_streaming_k2k`: a vector streams through two RTL adder
  kernels connected kernel to kernel. The host checks that each element came
  back increased by two.
- `common/utility/md2rst/md2rst.py`: the README generator, covering the title,
  the performance table, the key-concept and keyword lists, the excluded
  platforms, the file listing, the command line and the `match_readme` gate.

The OpenCL runtime is opaque. Each host program records the runtime calls it
makes in an append-only log of abstract events (`Runtime.CallLog`). Two small
state machines over that log (`Ordering`) fix the required order of calls:
the buffer path and the stream path. Whether programming a device succeeds,
what a kernel computes and what `rand` returns are all parameters.

The generator writes through a file object that only appends. That object is
the class `Md2Rst.Target`. Each section writer is a method proved to append
exactly the text given by a specification function. The properties of the
text are lemmas about those functions. The Python string operations the
generator uses (`str.replace`, `str.split`, `str.join`, `*`) are defined once,
in `Text`.

Modules, one per file: `Wrappers` (Option), `Runtime`, `Ordering`, `Selection`
(first-success device selection), `Compare` (first-mismatch scan), `RowMajor`
(row-major products), `HostVectors`, `DdrMmultBufSize`, `ClArrayPartition`,
`RtlStreamingK2k`, `Text` and `Md2Rst`.

## Model

| member | source | states |
|---|---|---|
| HostVectors.Generate | cpp_kernels/ddr_mmult_buf_size/src/host.cpp:176-178 | std::generate fills the whole vector front to back with the generator's successive values |
| RowMajor.CellInBounds | cpp_kernels/ddr_mmult_buf_size/src/host.cpp:56 | cell (r, c) of an n-by-n row-major matrix, index r*n+c, lies below n*n |
| RowMajor.Cell | cpp_kernels/ddr_mmult_buf_size/src/host.cpp:56 | the flat index of an in-range cell is inside the n*n cells |
| RowMajor.CellOfIndex | cpp_kernels/ddr_mmult_buf_size/src/host.cpp:244 | every flat index below n*n is the cell of exactly one (row, column) pair, so the flat compare covers every matrix entry |
| RowMajor.AccumulateCell | cpp_kernels/ddr_mmult_buf_size/src/host.cpp:55-57 | the k loop adds the dot product of row i of a and column j of b to out[i*n+j] and changes no other cell |
| RowMajor.AccumulateRow | cpp_kernels/ddr_mmult_buf_size/src/host.cpp:54-58 | for one row i, every cell i*n+c with c < n gains its dot product; cells outside row i are unchanged |
| RowMajor.RowDone | cpp_kernels/ddr_mmult_buf_size/src/host.cpp:53-59 | one step of the outer row loop: once row i has accumulated its product entries and no cell outside it changed, rows 0..i hold their start values plus their entries and every later cell still holds its start value |
| RowMajor.DotPrefix | cpp_kernels/ddr_mmult_buf_size/src/host.cpp:53-57 | a product entry reads only the first n*n cells of each operand |
| RowMajor.DotBounds | ocl_kernels/cl_array_partition/src/host.cpp:38-43 | with every operand cell in [0, hi], every product entry lies in [0, n*hi*hi] |
| RowMajor.AgreesWithProduct | cpp_kernels/ddr_mmult_buf_size/src/host.cpp:244-252 | if the reference holds the product, a cell-by-cell match with it over n*n cells holds exactly when the compared vector holds the product too (both directions) |
| RowMajor.ProductOfPrefix | cpp_kernels/ddr_mmult_buf_size/src/host.cpp:237 | whether c is the product depends only on the first n*n cells of the inputs |
| RowMajor.ProductOfSameCells | cpp_kernels/ddr_mmult_buf_size/src/host.cpp:244 | whether c holds the product depends only on its own first n*n cells |
| Compare.FirstMismatch | cpp_kernels/ddr_mmult_buf_size/src/host.cpp:244-252 | the result is the least index below n where the two sides differ, with equality at every earlier index; None exactly when they agree on all n cells |
| Compare.FirstMismatchPrefix | rtl_kernels/rtl_streaming_k2k/src/host.cpp:51 | the scan depends only on the first n cells of each side |
| Compare.FirstMismatchIsLeast | rtl_kernels/rtl_streaming_k2k/src/host.cpp:51-56 | a difference at i, with equality before i, is the first mismatch |
| Selection.FirstSuccess | cpp_kernels/ddr_mmult_buf_size/src/host.cpp:198-219 | the bound candidate is the least index that programs and every earlier one failed; None exactly when no candidate programs |
| Selection.SelectionOnlyTriesAndResolves | cpp_kernels/ddr_mmult_buf_size/src/host.cpp:199-215 | selection only tries candidates and resolves kernels: it neither moves data nor dispatches |
| Selection.SelectDevice | cpp_kernels/ddr_mmult_buf_size/src/host.cpp:198-215 | the loop binds FirstSuccess. It logs one attempt per candidate up to and including the bound one, none after it, then the kernels resolved on that device |
| Selection.ResolveKernels | cpp_kernels/ddr_mmult_buf_size/src/host.cpp:211 | on the bound device, one kernel is resolved per kernel name, in order, and nothing else is logged |
| Selection.FirstSuccessIsLeast | cpp_kernels/ddr_mmult_buf_size/src/host.cpp:207-213 | a candidate that programs, with all earlier ones failing, is the one bound |
| Selection.OnlyThirdPrograms | rtl_kernels/rtl_streaming_k2k/src/host.cpp:103-127 | if only the third candidate programs, it is bound, the fourth is never tried, and the kernels are resolved only on it |
| Selection.NoneProgram | cpp_kernels/ddr_mmult_buf_size/src/host.cpp:216-219 | if no candidate programs, all are tried and no kernel is resolved |
| Runtime.CallLog.Record | cpp_kernels/ddr_mmult_buf_size/src/host.cpp:143-151 | a runtime call is appended to the log; nothing logged earlier changes |
| Ordering.DrainBeforeVerify | cpp_kernels/ddr_mmult_buf_size/src/host.cpp:150-151 | in an accepted log, a drain follows an output migration before every inspection of results |
| Ordering.VerifyAfterDrain | cpp_kernels/ddr_mmult_buf_size/src/host.cpp:143-151 | in an accepted log, every inspection of results is preceded, in order, by an input migration, a task, an output migration and a finish |
| Ordering.OutputAfterDispatch | cpp_kernels/ddr_mmult_buf_size/src/host.cpp:143-150 | every output migration follows an input migration and then a task |
| Ordering.TaskAfterInput | cpp_kernels/ddr_mmult_buf_size/src/host.cpp:143-148 | every task follows an input migration |
| Ordering.StreamVerifyAfterJoins | rtl_kernels/rtl_streaming_k2k/src/host.cpp:195-201 | in an accepted stream log, results are inspected only after a finish that itself follows the join of every transfer thread started before it |
| Ordering.StreamInitFirst | rtl_kernels/rtl_streaming_k2k/src/host.cpp:137-169 | streaming is initialised exactly once, before any stream is created: some init precedes the create, no two inits occur, and none follows the create |
| DdrMmultBufSize.MmultCpu | cpp_kernels/ddr_mmult_buf_size/src/host.cpp:47-60 | each out[i*dim+j] becomes its old value plus the sum over k of in1[i*dim+k]*in2[k*dim+j]; cells from dim*dim on are unchanged |
| DdrMmultBufSize.ZeroResults | cpp_kernels/ddr_mmult_buf_size/src/host.cpp:231-234 | both result vectors are 0 on the first 639*639 cells and unchanged after them |
| DdrMmultBufSize.MatrixSizeBytes | cpp_kernels/ddr_mmult_buf_size/src/host.cpp:113 | the byte size is a multiple of sizeof(int) and covers exactly size*size ints |
| DdrMmultBufSize.MmultFpga | cpp_kernels/ddr_mmult_buf_size/src/host.cpp:99-154 | arguments 0..5 are in1, in2, out, size, size, size; then input migration, task, output migration, finish. The first size*size cells receive the device result and the rest are unchanged |
| DdrMmultBufSize.CompareResults | cpp_kernels/ddr_mmult_buf_size/src/host.cpp:244-252 | the inline loop stops at the first index below n where the device and CPU results differ |
| DdrMmultBufSize.SweepSizesFacts | cpp_kernels/ddr_mmult_buf_size/src/host.cpp:227 | the sweep runs exactly k = 10 + 31t for t < 21, increasing, ending at 630. The next k, 661, exceeds 639, which ends the loop, and every k*k fits in the buffers |
| DdrMmultBufSize.DispatchCycleAccepted | cpp_kernels/ddr_mmult_buf_size/src/host.cpp:134-151 | one dispatch followed by the compare keeps the buffer-path order from any state |
| DdrMmultBufSize.SweepEventsSnoc | cpp_kernels/ddr_mmult_buf_size/src/host.cpp:227-255 | the calls of t passes are those of t-1 passes followed by one dispatch and compare at the size of pass t-1 |
| DdrMmultBufSize.SweepEventsAccepted | cpp_kernels/ddr_mmult_buf_size/src/host.cpp:227-255 | any number of passes keeps the buffer-path order |
| DdrMmultBufSize.SweepPass | cpp_kernels/ddr_mmult_buf_size/src/host.cpp:228-252 | zero, reference multiply, dispatch, compare: no mismatch is found exactly when the device result is the k-by-k product of the first k*k input cells. Afterwards the CPU vector holds that product, the first k*k FPGA cells hold the device result, both vectors are 0 from k*k to 639*639, and cells from 639*639 on are unchanged |
| DdrMmultBufSize.SweepIteration | cpp_kernels/ddr_mmult_buf_size/src/host.cpp:228-254 | after one more pass the flag is true exactly when every pass so far matched (the flag never recovers); the result vectors hold that pass's results |
| DdrMmultBufSize.Sweep | cpp_kernels/ddr_mmult_buf_size/src/host.cpp:223-255 | every size is visited in order and every pass runs. After pass t the reported flag holds exactly when passes 0..t all matched, the final flag exactly when all 21 matched, and the inputs are unchanged. The result vectors end holding the results of the last pass (k = 630), with cells from 639*639 on unchanged |
| DdrMmultBufSize.SweepOutcome | cpp_kernels/ddr_mmult_buf_size/src/host.cpp:249-254 | the reported verdicts are the running conjunction of the per-pass matches |
| DdrMmultBufSize.VerdictsAt | cpp_kernels/ddr_mmult_buf_size/src/host.cpp:254 | the verdict reported after pass u is whether passes 0..u all matched |
| DdrMmultBufSize.AllMatchBelowStep | cpp_kernels/ddr_mmult_buf_size/src/host.cpp:249 | the flag after a pass is the flag before it and that pass's match |
| DdrMmultBufSize.PassVerdict | cpp_kernels/ddr_mmult_buf_size/src/host.cpp:244-252 | when the CPU vector holds the product, the compare finds no mismatch exactly when the device result is the product |
| DdrMmultBufSize.DdrMmultMain | cpp_kernels/ddr_mmult_buf_size/src/host.cpp:156-259 | a wrong argument count fails before any runtime call, and a failed selection fails before any sweep work. Otherwise every pass runs, and the status is success exactly when every pass matched. Every call log is accepted |
| DdrMmultBufSize.SweepOnHostVectors | cpp_kernels/ddr_mmult_buf_size/src/host.cpp:167-178 | vectors of 4*639*639 cells are filled from rand, then swept; the per-pass reports and the final flag are the running conjunction of matches |
| DdrMmultBufSize.MainCallsAccepted | cpp_kernels/ddr_mmult_buf_size/src/host.cpp:198-255 | selection alone, or selection followed by any number of passes, keeps the buffer-path order |
| ClArrayPartition.MatMul | ocl_kernels/cl_array_partition/src/host.cpp:28-36 | each C[k*M+j] becomes its old value plus the sum over i of A[k*M+i]*B[i*M+j]; cells from M*M on are unchanged |
| ClArrayPartition.GoldWithinRange | ocl_kernels/cl_array_partition/src/host.cpp:38-43 | with inputs from gen_random in [0, 10], every gold entry lies in [0, 1600], so no int overflows |
| ClArrayPartition.Print | ocl_kernels/cl_array_partition/src/host.cpp:45-57 | exactly data[r*columns+c] for r, c < 10 is shown, row by row; in bounds whenever cell 9*columns+9 exists |
| ClArrayPartition.VerifyOutput | ocl_kernels/cl_array_partition/src/host.cpp:59-68 | the scan over output.size() stops at the least index where the output differs from gold, and passes exactly when all match |
| ClArrayPartition.ArraySizeBytes | ocl_kernels/cl_array_partition/src/host.cpp:133-141 | the byte size is a multiple of sizeof(int) and covers exactly columns*rows ints. ComputeGold shows that this is 4 times the length of A, B and gold, and RunKernel requires C and the device result to have exactly that many cells |
| ClArrayPartition.ComputeGold | ocl_kernels/cl_array_partition/src/host.cpp:87-98 | the zero-initialised gold vector accumulates exactly the 16-by-16 row-major product of A and B; A, B and gold each hold array_size_bytes / 4 cells |
| ClArrayPartition.BindKernel | ocl_kernels/cl_array_partition/src/host.cpp:148-155 | the kernel is created and bound to buffer_a, buffer_b, buffer_c and columns, in that order; the inputs migrate only when asked |
| ClArrayPartition.RunKernel | ocl_kernels/cl_array_partition/src/host.cpp:148-163 | the kernel is bound to a, b, c, columns. Inputs migrate only when asked; then task, output migration, finish. The migration of buffer_c's array_size_bytes gives all of C the device result |
| ClArrayPartition.RunKernels | ocl_kernels/cl_array_partition/src/host.cpp:148-193 | both kernels pass exactly when both results equal gold. The second kernel runs only after the first passed, on the same buffer_c, with no re-zeroing of C and no input migration |
| ClArrayPartition.ArrayPartitionMain | ocl_kernels/cl_array_partition/src/host.cpp:72-205 | a wrong argument count or a failed selection fails before any buffer is used. Otherwise the status is success exactly when both kernels computed the product, and every call log is accepted |
| ClArrayPartition.GoldComparison | ocl_kernels/cl_array_partition/src/host.cpp:59-68 | a device result equals gold exactly when it is the product of A and B |
| ClArrayPartition.KernelRunAccepted | ocl_kernels/cl_array_partition/src/host.cpp:148-171 | a kernel run keeps the buffer-path order, even without migrating inputs, once the inputs are on the device |
| ClArrayPartition.SelectionAccepted | ocl_kernels/cl_array_partition/src/host.cpp:108-130 | selection leaves the buffer-path state untouched |
| ClArrayPartition.MainCallsAccepted | ocl_kernels/cl_array_partition/src/host.cpp:108-193 | selection and one or both kernel runs keep the buffer-path order |
| ClArrayPartition.InputsMigrateOnce | ocl_kernels/cl_array_partition/src/host.cpp:154-155 | the inputs migrate exactly once, just before the first task; the second kernel reuses them |
| RtlStreamingK2k.TestSize | rtl_kernels/rtl_streaming_k2k/src/host.cpp:63-69 | 4096 elements under hardware emulation, 2M under software emulation, 256M otherwise |
| RtlStreamingK2k.VectorSizeBytesExact | rtl_kernels/rtl_streaming_k2k/src/host.cpp:146 | for every size main can pick, size*sizeof(int) is at most 2^30, so the unsigned int does not wrap |
| RtlStreamingK2k.Reset | rtl_kernels/rtl_streaming_k2k/src/host.cpp:39-47 | a[i] is the generator value, hw_results[i] is 0 and sw_results[i] is a[i]+2 for i < size. Nothing from size on changes, and the result is 0 |
| RtlStreamingK2k.VerifyResults | rtl_kernels/rtl_streaming_k2k/src/host.cpp:49-60 | true exactly when all first size cells agree (size 0 gives true). Otherwise the two printed values are those at the first mismatch |
| RtlStreamingK2k.RunStreams | rtl_kernels/rtl_streaming_k2k/src/host.cpp:137-201 | the check passes exactly when every element came back increased by two; the main-thread calls are logged in source order |
| RtlStreamingK2k.StartStreams | rtl_kernels/rtl_streaming_k2k/src/host.cpp:151-195 | the write stream goes to myadder1 with flags 1 and the read stream to myadder2 with flags 0. Then come the write thread, both tasks, the read thread and the join of the write thread |
| RtlStreamingK2k.JoinStreams | rtl_kernels/rtl_streaming_k2k/src/host.cpp:196-201 | the read thread is joined, the queue drains, then results are inspected |
| RtlStreamingK2k.StreamingMain | rtl_kernels/rtl_streaming_k2k/src/host.cpp:62-203 | the vectors are allocated before the argument check. A failed selection exits with failure. Otherwise the status is 0 whatever the check says, and every call log keeps the stream discipline |
| RtlStreamingK2k.SetupNeutral | rtl_kernels/rtl_streaming_k2k/src/host.cpp:72-132 | allocation and selection touch no stream |
| RtlStreamingK2k.MainCallsAccepted | rtl_kernels/rtl_streaming_k2k/src/host.cpp:72-201 | every call log main can produce keeps the stream-path discipline |
| RtlStreamingK2k.StreamEventsAccepted | rtl_kernels/rtl_streaming_k2k/src/host.cpp:137-201 | the main-thread calls after selection keep the stream-path discipline |
| RtlStreamingK2k.StreamPrefixState | rtl_kernels/rtl_streaming_k2k/src/host.cpp:137-201 | each prefix of the main-thread calls leads to the expected stream state |
| Text.Split | common/utility/md2rst/md2rst.py:142 | str.split with a separator never yields an empty list |
| Text.Repeat | common/utility/md2rst/md2rst.py:21 | s * n has n times the length of s |
| Text.JoinSplit | common/utility/md2rst/md2rst.py:142 | joining the pieces of a split with the same separator gives the original text back |
| Text.SplitJoin | common/utility/md2rst/md2rst.py:33-47 | splitting a join of parts free of the separator's first character gives the parts back |
| Text.ReplaceIsSplitJoin | common/utility/md2rst/md2rst.py:15-18 | str.replace is splitting on the pattern and joining with the replacement |
| Text.ReplaceAbsent | common/utility/md2rst/md2rst.py:15-18 | text without the pattern's first character is left unchanged |
| Text.DeleteShortens | common/utility/md2rst/md2rst.py:15-18 | deleting a pattern never lengthens the text |
| Text.SplitPiecesFree | common/utility/md2rst/md2rst.py:142 | pieces of a split on one character never contain it |
| Text.SplitPiecesWithin | common/utility/md2rst/md2rst.py:142 | pieces of a split only hold characters of the split text |
| Text.JoinAsTerminated | common/utility/md2rst/md2rst.py:33-36 | writing a separator after every part but the last, then the last part, is the join |
| Text.TerminatedIsJoin | common/utility/md2rst/md2rst.py:122-125 | a separator after every part is the join with one empty part appended |
| Text.PrefixedIsJoin | common/utility/md2rst/md2rst.py:143-148 | a separator before every part is the separator followed by the join |
| Text.JoinEmpties | common/utility/md2rst/md2rst.py:62-63 | empty parts joined leave n-1 separators |
| Text.ConcatAppend | common/utility/md2rst/md2rst.py:85-87 | what two runs of writes append is what their concatenation appends |
| Md2Rst.Target.Write | common/utility/md2rst/md2rst.py:19 | target.write appends to the file's text; nothing written earlier changes |
| Md2Rst.TitleNoLonger | common/utility/md2rst/md2rst.py:14-18 | the cleaned title is never longer than the name |
| Md2Rst.TitleKeepsUntagged | common/utility/md2rst/md2rst.py:14-18 | a name without "(" is its own title |
| Md2Rst.WriteTitle | common/utility/md2rst/md2rst.py:14-22 | appends the cleaned title, a newline, "=" repeated exactly len(title) times, and a blank line |
| Md2Rst.RuleIsJoin | common/utility/md2rst/md2rst.py:38-40 | the rule line is ctr dashes joined by the bar character |
| Md2Rst.PerfColumns | common/utility/md2rst/md2rst.py:28-47 | read back on the bar character, the header gives perf_fields and the rule gives ctr columns. Each row gives its first ctr cells, and extra cells are ignored |
| Md2Rst.WriteCells | common/utility/md2rst/md2rst.py:33-36 | cells 0..ctr-1 are written with the bar character after all but the last |
| Md2Rst.WriteRule | common/utility/md2rst/md2rst.py:38-40 | "-----" and a bar ctr-1 times, then "-----" and a newline |
| Md2Rst.WriteRows | common/utility/md2rst/md2rst.py:41-47 | every performance row, as its first ctr cells, then a newline |
| Md2Rst.WritePerf | common/utility/md2rst/md2rst.py:28-47 | the heading, underline, header, rule and rows, as the table block |
| Md2Rst.MissingSectionKeepsSeparators | common/utility/md2rst/md2rst.py:48-64 | without the section in the reference data, every item renders empty, so joining n items leaves only the n-1 separators (", " in the list block) |
| Md2Rst.ItemsReadBack | common/utility/md2rst/md2rst.py:48-64 | read back on ", ", the list gives one piece per item, and none after the last |
| Md2Rst.WriteItem | common/utility/md2rst/md2rst.py:53-61 | an item in the reference map is written as a link, another item as plain text; with the section absent, nothing is written |
| Md2Rst.WriteItems | common/utility/md2rst/md2rst.py:48-81 | the loop with the decrementing counter writes the heading, then the rendered items joined by ", " with no trailing separator, then a blank line |
| Md2Rst.DetailsDropFirstTwo | common/utility/md2rst/md2rst.py:83-87 | exactly the first two lines of details.rst are skipped; what is written completes them to the whole file |
| Md2Rst.WriteDetails | common/utility/md2rst/md2rst.py:83-87 | lines with index >= 2 are copied verbatim and in order |
| Md2Rst.OverviewShape | common/utility/md2rst/md2rst.py:13-89 | the overview opens with the title line, underlined by "=" of the same length, and ends with a newline |
| Md2Rst.WriteParagraph | common/utility/md2rst/md2rst.py:23-27 | the lines joined by newlines, then a blank line |
| Md2Rst.WriteOverviewHead | common/utility/md2rst/md2rst.py:13-47 | title, description, optional more_info, optional performance table |
| Md2Rst.WriteOverviewTail | common/utility/md2rst/md2rst.py:48-88 | optional key concepts, optional keywords, details.rst from its third line, final newline |
| Md2Rst.WriteOverview | common/utility/md2rst/md2rst.py:13-89 | overview appends exactly the overview text |
| Md2Rst.BlacklistOneLineEach | common/utility/md2rst/md2rst.py:91-106 | read back line by line, the blacklist gives one " - " line per excluded platform and nothing else |
| Md2Rst.WriteBlacklist | common/utility/md2rst/md2rst.py:96-104 | each platform, mapped through the platform reference, on its own " - " line; nothing when the reference lacks the section |
| Md2Rst.WriteRequirements | common/utility/md2rst/md2rst.py:91-106 | the excluded-platforms block when platform_blacklist is given, nothing otherwise |
| Md2Rst.ListingOneLineEach | common/utility/md2rst/md2rst.py:122-125 | the file listing comes back line by line, each line indented by three spaces |
| Md2Rst.RefPathBelowRoot | common/utility/md2rst/md2rst.py:126 | below the directory holding LICENSE.txt, the link path is the rest of the starting directory |
| Md2Rst.WriteListing | common/utility/md2rst/md2rst.py:122-125 | each listed file, indented, on its own line |
| Md2Rst.WriteHierarchy | common/utility/md2rst/md2rst.py:108-128 | the design-files heading and text, the listing, then the repository link |
| Md2Rst.RewriteKeepsPlain | common/utility/md2rst/md2rst.py:145-147 | an argument without "B", "P" or "." is shown unchanged |
| Md2Rst.ArgsVerbatim | common/utility/md2rst/md2rst.py:142-148 | arguments needing no rewriting appear exactly as cmd_args holds them, after one space |
| Md2Rst.CommandLineStart | common/utility/md2rst/md2rst.py:136-150 | the command line starts "   ./" + host_exe, whether or not launch or cmd_args is given |
| Md2Rst.WriteArgs | common/utility/md2rst/md2rst.py:142-148 | each space-split argument after one space, rewritten BUILD/ to "<", then PROJECT to ".", then .xclbin to " XCLBIN>" |
| Md2Rst.WriteCommandArgs | common/utility/md2rst/md2rst.py:130-152 | the command-line section: heading, "./" + host_exe, the arguments, a blank line |
| Md2Rst.WriteSections | common/utility/md2rst/md2rst.py:197-201 | into a fresh README.rst, the overview, requirements, hierarchy and command-line sections are appended in that order |
| Md2Rst.GenerateAsWritten | common/utility/md2rst/md2rst.py:191-203 | the script as written: AssertionError without OpenCL, NameError with match_readme "false", otherwise the overview and then TypeError |
| Md2Rst.Generate | common/utility/md2rst/md2rst.py:191-201 | the evidently intended script: overview, requirements, hierarchy and command line, in that order, when the gate is open |
| Md2Rst.AsWrittenAlwaysRaises | common/utility/md2rst/md2rst.py:199 | as written, every run ends in an exception, and TypeError whenever the README is generated |
| Md2Rst.IntendedRaisesOnlyWithoutOpenCL | common/utility/md2rst/md2rst.py:191 | as intended, a run fails exactly when the runtime lacks OpenCL |
| Md2Rst.EditedReadmeUntouched | common/utility/md2rst/md2rst.py:193-194 | with match_readme "false", no README is generated, as written or as intended |
| Md2Rst.AsWrittenStopsAfterOverview | common/utility/md2rst/md2rst.py:198-199 | what the script as written leaves in README.rst is a proper prefix of the intended README |

## Left out

- OpenCL runtime calls (contexts, queues, programs, buffers, kernels, migrations, tasks, profiling) appear only as abstract events in the call log. What the device computes is a parameter of each host model.
- Threads and stream transfers in rtl_streaming_k2k: only the main thread's order of calls is modelled. The data the read thread receives is a parameter.
- Timing (EventTimer, profiling info), the CSV file of ddr_mmult_buf_size, and every console print are left out. `ClArrayPartition.Print` returns the values it would print. `RtlStreamingK2k.VerifyResults` returns the two values printed at a mismatch.
- std::rand and default_random_engine: the values they produce are parameters. For gen_random they are ints in [0, 10], a precondition of `ClArrayPartition.GoldWithinRange`.
- xcl::is_emulation and xcl::is_hw_emulation are environment probes, taken as boolean parameters.
- init_fpga in ddr_mmult_buf_size (host.cpp:63-97) is never called, so it is not modelled.
- DdrMmultBufSize.MmultCpu: ints are mathematical. The C++ signed overflow that large rand values can cause at host.cpp:56 is not modelled.
- RtlStreamingK2k.Reset: a[i] + 2 is mathematical. Signed overflow for a[i] near INT_MAX is not modelled.
- DdrMmultBufSize.DdrMmultMain: it allocates and fills the host vectors after device selection, where the source does so before. Neither step makes a runtime call, so the call log does not change.
- ClArrayPartition.ArrayPartitionMain: the host-side gold computation and the prints of A, B and gold come before selection, as in the source. They make no runtime calls and are not in the log.
- Device selection: building a context and a queue for each candidate, and the OCL_CHECK aborts on other runtime errors, are left out. Only whether programming succeeds is an input.
- md2rst.py I/O is left out: argv unpacking, json.load, opening files, the os.listdir walk up to LICENSE.txt and the git ls-files subprocess. The description, the reference data, details.rst, the file listing and both directories are parameters. When LICENSE.txt is not found the script keeps "", on which every `in` test is false; that is the empty map.
- Md2Rst.Generate and Md2Rst.GenerateAsWritten require a well-formed performance table (Md2Rst.Indexable): at least one perf_field and at least ctr cells per row. The source raises IndexError otherwise, and that error path is not modelled.
- Md2Rst.WritePerf requires the same well-formed table, for the same reason.
- A description with perf_fields but no performance (KeyError), a missing host key (KeyError), or an empty launch list (IndexError) is not modelled. launch is modelled by its first entry.
- description, more_info and the lists are sequences of strings. A JSON string given where the script expects a list, which str.join would split into characters, is not modelled.
- match_readme is a string when present. A non-string value never equals "false" and leaves the gate open, which is the same as any other string.
- Consecutive writes of fixed text are modelled as one write of their concatenation. This appends the same text.
- The file object's buffering and closing are not modelled. README.rst holds what was written, including when the run ends in an exception.

## Findings

| source | as written | input that shows it | evidently intended | confidence | as-written member | corrected member |
|---|---|---|---|---|---|---|
| common/utility/md2rst/md2rst.py:199 | `requirements` is called with two arguments, but it takes three (target, data, plt_ref_data). The call raises TypeError once the overview is written, so the excluded platforms, design files and command-line sections are never generated | any description whose runtime contains "OpenCL" and whose match_readme is not "false" (Md2Rst.AsWrittenStopsAfterOverview: the README is a proper prefix of the intended one; Md2Rst.AsWrittenAlwaysRaises) | pass platform_ref_data as the third argument, so that all four sections are written and the run ends normally (Md2Rst.IntendedRaisesOnlyWithoutOpenCL) | high, not executed | Md2Rst.GenerateAsWritten | Md2Rst.Generate |
| common/utility/md2rst/md2rst.py:203 | `target.close` names the method without calling it, and it sits after the if/else. When the gate skips generation, `target` was never bound | a description with "OpenCL" in runtime and match_readme "false": the run ends in NameError (Md2Rst.AsWrittenAlwaysRaises) | close the file inside the branch that opened it, so that an edited README ends the run normally with no file written (Md2Rst.EditedReadmeUntouched, Md2Rst.IntendedRaisesOnlyWithoutOpenCL) | high, not executed | Md2Rst.GenerateAsWritten | Md2Rst.Generate |
