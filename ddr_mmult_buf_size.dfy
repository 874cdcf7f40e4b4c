/**
 * The host program of the DDR matrix-multiply buffer-size sweep: a CPU
 * reference multiply, the dispatch of one device multiply, the comparison
 * of the two results, and the sweep over matrix sizes 10, 41, ..., 630 in
 * buffers allocated once for 639-by-639 matrices.
 */
module DdrMmultBufSize {
  import opened Wrappers
  import opened RowMajor
  import opened Runtime
  import opened Compare
  import opened Selection
  import opened Ordering
  import opened HostVectors

  /** DATA_SIZE: the largest matrix dimension the buffers are sized for. */
  const DataSize: nat := 639

  /**
   * Element count of each host vector: the source sizes them with
   * sizeof(int) * 639 * 639, a byte count used as an element count, so
   * each vector holds four times the cells a 639-by-639 matrix needs.
   */
  const BufferLen: nat := 4 * DataSize * DataSize

  /** The kernel name and the host vectors bound to its buffers. */
  const Kernel: string := "mmult"
  const In1: string := "source_in1"
  const In2: string := "source_in2"
  const FpgaResults: string := "source_fpga_results"

  const ExitSuccess: int := 0
  const ExitFailure: int := 1

  /**
   * mmult_cpu: accumulates the dim-by-dim row-major product of in1 and in2
   * into out, cell by cell, adding one term at a time.
   */
  method MmultCpu(in1: array<int>, in2: array<int>, out: array<int>, dim: nat)
    requires dim * dim <= in1.Length && dim * dim <= in2.Length && dim * dim <= out.Length
    requires out != in1 && out != in2
    modifies out
    ensures forall i, j :: 0 <= i < dim && 0 <= j < dim ==>
              out[Cell(i, j, dim)] == old(out[Cell(i, j, dim)]) + Dot(in1[..], in2[..], dim, i, j, dim)
    ensures forall x :: dim * dim <= x < out.Length ==> out[x] == old(out[x])
  {
    ghost var a, b, orig := in1[..], in2[..], out[..];
    var i := 0;
    while i < dim
      invariant 0 <= i <= dim
      invariant in1[..] == a && in2[..] == b
      invariant RowsAccumulated(out[..], orig, a, b, dim, i)
    {
      ghost var before := out[..];
      AccumulateRow(out, in1, in2, dim, i);
      RowDone(before, out[..], orig, a, b, dim, i);
      i := i + 1;
    }
  }

  /** Each result vector is zeroed over the DATA_SIZE * DATA_SIZE cells of a full matrix. */
  method ZeroResults(cpu: array<int>, fpga: array<int>)
    requires DataSize * DataSize <= cpu.Length && DataSize * DataSize <= fpga.Length && cpu != fpga
    modifies cpu, fpga
    ensures forall x :: 0 <= x < DataSize * DataSize ==> cpu[x] == 0 && fpga[x] == 0
    ensures forall x :: DataSize * DataSize <= x < cpu.Length ==> cpu[x] == old(cpu[x])
    ensures forall x :: DataSize * DataSize <= x < fpga.Length ==> fpga[x] == old(fpga[x])
  {
    var i := 0;
    while i < DataSize * DataSize
      invariant 0 <= i <= DataSize * DataSize
      invariant forall x :: 0 <= x < i ==> cpu[x] == 0 && fpga[x] == 0
      invariant forall x :: DataSize * DataSize <= x < cpu.Length ==> cpu[x] == old(cpu[x])
      invariant forall x :: DataSize * DataSize <= x < fpga.Length ==> fpga[x] == old(fpga[x])
    {
      cpu[i] := 0;
      fpga[i] := 0;
      i := i + 1;
    }
  }

  /** matrix_size_bytes: the byte size of a size-by-size matrix of 4-byte ints. */
  function MatrixSizeBytes(size: nat): (bytes: nat)
    ensures bytes % 4 == 0 && bytes / 4 == size * size
  {
    var cells := size * size;
    4 * cells
  }

  /** The runtime calls of one mmult_fpga dispatch of a size-by-size multiply. */
  function DispatchEvents(size: nat): seq<Event>
  {
    [ SetArg(Kernel, 0, Buffer(In1)),
      SetArg(Kernel, 1, Buffer(In2)),
      SetArg(Kernel, 2, Buffer(FpgaResults)),
      SetArg(Kernel, 3, Scalar(size)),
      SetArg(Kernel, 4, Scalar(size)),
      SetArg(Kernel, 5, Scalar(size)),
      Migrate([In1, In2], ToDevice),
      Task(Kernel),
      Migrate([FpgaResults], ToHost),
      Finish ]
  }

  /**
   * mmult_fpga: binds the kernel arguments (in1, in2, out, then the three
   * dimensions), migrates the inputs, enqueues the kernel task, migrates the
   * output back and drains the queue.  What the device computes is the
   * parameter deviceOut; the output migration moves matrix_size_bytes,
   * that is size * size cells, of it into the front of fpga.
   */
  method MmultFpga(fpga: array<int>, size: nat, deviceOut: seq<int>, log: CallLog)
    requires |deviceOut| == MatrixSizeBytes(size) / 4 <= fpga.Length
    modifies fpga, log
    ensures fpga[..size * size] == deviceOut
    ensures forall x :: size * size <= x < fpga.Length ==> fpga[x] == old(fpga[x])
    ensures log.events == old(log.events) + DispatchEvents(size)
  {
    var matrixSizeBytes := MatrixSizeBytes(size);
    log.Record(SetArg(Kernel, 0, Buffer(In1)));
    log.Record(SetArg(Kernel, 1, Buffer(In2)));
    log.Record(SetArg(Kernel, 2, Buffer(FpgaResults)));
    log.Record(SetArg(Kernel, 3, Scalar(size)));
    log.Record(SetArg(Kernel, 4, Scalar(size)));
    log.Record(SetArg(Kernel, 5, Scalar(size)));
    log.Record(Migrate([In1, In2], ToDevice));
    log.Record(Task(Kernel));
    log.Record(Migrate([FpgaResults], ToHost));
    forall x | 0 <= x < matrixSizeBytes / 4 {
      fpga[x] := deviceOut[x];
    }
    log.Record(Finish);
  }

  /**
   * The inline comparison of the sweep: scans the first n cells in index
   * order and stops at the first cell where the device and CPU results
   * differ.
   */
  method CompareResults(fpga: array<int>, cpu: array<int>, n: nat) returns (mismatch: Option<nat>)
    requires n <= fpga.Length && n <= cpu.Length
    ensures mismatch == FirstMismatch(fpga[..], cpu[..], n)
  {
    var i := 0;
    while i < n
      invariant 0 <= i <= n
      invariant forall x :: 0 <= x < i ==> fpga[x] == cpu[x]
    {
      if fpga[i] != cpu[i] {
        FirstMismatchIsLeast(fpga[..], cpu[..], n, i);
        return Some(i);
      }
      i := i + 1;
    }
    return None;
  }

  /** Number of sweep iterations: k runs 10, 41, ..., 630. */
  const SweepCount: nat := 21

  /** The matrix dimension of sweep iteration t. */
  function SweepSize(t: nat): nat
  {
    10 + 31 * t
  }

  /** The sizes the sweep visits, in order. */
  function SweepSizes(): seq<nat>
  {
    seq(SweepCount, t requires 0 <= t => SweepSize(t))
  }

  /**
   * The sweep loop runs exactly the sizes 10 + 31 * t for t < 21, in
   * increasing order; the last is 630 and the next size, 661, exceeds
   * DATA_SIZE, which ends the loop; every size is within DATA_SIZE, so
   * every cell the iteration touches is inside the buffers.
   */
  lemma SweepSizesFacts()
    ensures |SweepSizes()| == SweepCount && SweepSizes()[0] == 10 && SweepSizes()[SweepCount - 1] == 630
    ensures forall t :: 0 <= t < SweepCount ==> SweepSizes()[t] <= DataSize
    ensures forall t :: 0 <= t < SweepCount - 1 ==> SweepSizes()[t] < SweepSizes()[t + 1]
    ensures SweepSize(SweepCount) > DataSize
    ensures forall t :: 0 <= t < SweepCount ==> SweepSize(t) * SweepSize(t) <= DataSize * DataSize <= BufferLen
  {
    forall t | 0 <= t < SweepCount
      ensures SweepSize(t) * SweepSize(t) <= DataSize * DataSize
    {
      SquareMono(SweepSize(t), DataSize);
    }
  }

  lemma SweepSizesSnoc(t: nat)
    requires t <= SweepCount
    ensures t < SweepCount ==> SweepSizes()[..t + 1] == SweepSizes()[..t] + [SweepSize(t)]
    ensures t == SweepCount ==> SweepSizes()[..t] == SweepSizes()
  {
  }

  lemma SquareMono(x: nat, y: nat)
    requires x <= y
    ensures x * x <= y * y
  {
    MulLeft(x, y, x);
    MulLeft(x, y, y);
  }

  /** The runtime calls of one sweep pass: the dispatch, then the inspection of the device result. */
  function PassEvents(size: nat): seq<Event>
  {
    DispatchEvents(size) + [Verify(FpgaResults)]
  }

  /** Every pass makes the same number of runtime calls. */
  const PassLength: nat := 11

  /**
   * The runtime calls of sweep iterations 0 .. t - 1, a dispatch and then the
   * inspection of its results each: pass u fills the PassLength calls from
   * u * PassLength on.
   */
  function SweepEvents(t: nat): seq<Event>
  {
    seq(t * PassLength, x requires 0 <= x < t * PassLength =>
      PassEvents(SweepSize(x / PassLength))[x % PassLength])
  }

  /** One more sweep iteration appends the runtime calls of its pass. */
  lemma SweepEventsSnoc(t: nat)
    requires t > 0
    ensures SweepEvents(t) == SweepEvents(t - 1) + PassEvents(SweepSize(t - 1))
  {
    var longer, shorter := SweepEvents(t), SweepEvents(t - 1) + PassEvents(SweepSize(t - 1));
    assert |longer| == |shorter|;
    forall x | (t - 1) * PassLength <= x < |longer|
      ensures longer[x] == shorter[x]
    {
      assert x / PassLength == t - 1;
    }
  }

  /** One device result per pass, each covering the k * k cells of its size. */
  predicate DeviceResults(device: seq<seq<int>>)
  {
    |device| == SweepCount && forall t :: 0 <= t < SweepCount ==> |device[t]| == SweepSize(t) * SweepSize(t)
  }

  /** Whether the device result of iteration t is the product of the first k * k input cells. */
  ghost predicate IterationMatches(device: seq<seq<int>>, in1: seq<int>, in2: seq<int>, t: nat)
    requires t < |device|
  {
    IsProduct(device[t], in1, in2, SweepSize(t))
  }

  /** A dispatch followed by the inspection of its results keeps the buffer-path ordering, from any state. */
  lemma DispatchCycleAccepted(s: CycleState, size: nat)
    ensures Run(s, PassEvents(size)) == Some(CycleState(true, true, true, true))
  {
    var t := PassEvents(size);
    var args := t[..6];
    NeutralRun(s, args);
    assert t == args + [t[6]] + [t[7]] + [t[8]] + [t[9]] + [t[10]];
    RunSnoc(s, args, t[6]);
    RunSnoc(s, args + [t[6]], t[7]);
    RunSnoc(s, args + [t[6]] + [t[7]], t[8]);
    RunSnoc(s, args + [t[6]] + [t[7]] + [t[8]], t[9]);
    RunSnoc(s, args + [t[6]] + [t[7]] + [t[8]] + [t[9]], t[10]);
  }

  /** The runtime calls of any number of sweep iterations keep the buffer-path ordering, from any state. */
  lemma {:induction false} SweepEventsAccepted(s: CycleState, t: nat)
    ensures Run(s, SweepEvents(t)).Some?
  {
    if t > 0 {
      SweepEventsAccepted(s, t - 1);
      SweepEventsSnoc(t);
      RunConcat(s, SweepEvents(t - 1), PassEvents(SweepSize(t - 1)));
      DispatchCycleAccepted(Run(s, SweepEvents(t - 1)).value, SweepSize(t - 1));
    }
  }

  /**
   * The result vectors after the pass of size k: cpu holds the k-by-k
   * product of the inputs, the front k * k cells of fpga hold the device
   * result, and both are zero from k * k up to DATA_SIZE * DATA_SIZE.
   */
  ghost predicate PassResults(cpu: seq<int>, fpga: seq<int>, in1: seq<int>, in2: seq<int>, k: nat, deviceOut: seq<int>)
  {
    && IsProduct(cpu, in1, in2, k)
    && k * k <= DataSize * DataSize <= |cpu| && DataSize * DataSize <= |fpga|
    && fpga[..k * k] == deviceOut
    && forall x :: k * k <= x < DataSize * DataSize ==> cpu[x] == 0 && fpga[x] == 0
  }

  /**
   * One pass of the sweep for size k: zero both result vectors, compute the
   * CPU reference for the k-by-k matrices at the front of the inputs,
   * dispatch the device multiply (whose result is deviceOut), inspect the
   * results and compare the first k * k cells.
   */
  method SweepPass(in1: array<int>, in2: array<int>, cpu: array<int>, fpga: array<int>,
                   k: nat, deviceOut: seq<int>, log: CallLog)
    returns (mismatch: Option<nat>)
    requires in1.Length == BufferLen && in2.Length == BufferLen
    requires cpu.Length == BufferLen && fpga.Length == BufferLen
    requires cpu != in1 && cpu != in2 && fpga != in1 && fpga != in2 && cpu != fpga
    requires k <= DataSize && |deviceOut| == k * k
    modifies cpu, fpga, log
    ensures mismatch.None? <==> IsProduct(deviceOut, in1[..], in2[..], k)
    ensures PassResults(cpu[..], fpga[..], in1[..], in2[..], k, deviceOut)
    ensures forall x :: DataSize * DataSize <= x < BufferLen ==> cpu[x] == old(cpu[x]) && fpga[x] == old(fpga[x])
    ensures log.events == old(log.events) + PassEvents(k)
  {
    SquareMono(k, DataSize);
    ZeroResults(cpu, fpga);
    ghost var zeroed := cpu[..];
    MmultCpu(in1, in2, cpu, k);
    forall i, j | 0 <= i < k && 0 <= j < k
      ensures cpu[..][Cell(i, j, k)] == Dot(in1[..], in2[..], k, i, j, k)
    {
      assert zeroed[Cell(i, j, k)] == 0;
    }
    assert IsProduct(cpu[..], in1[..], in2[..], k);
    MmultFpga(fpga, k, deviceOut, log);
    log.Record(Verify(FpgaResults));
    mismatch := CompareResults(fpga, cpu, k * k);
    PassVerdict(fpga[..], cpu[..], deviceOut, in1[..], in2[..], k);
  }

  /**
   * The sweep of main: one pass per size k = 10, 41, ..., 630, the device
   * result of pass t being device[t].  The match flag is sticky: a
   * mismatch clears it for good, yet every remaining size still runs.
   * verdicts[t] is the flag as reported after pass t.
   */
  method Sweep(in1: array<int>, in2: array<int>, cpu: array<int>, fpga: array<int>,
               device: seq<seq<int>>, log: CallLog)
    returns (matched: bool, visited: seq<nat>, verdicts: seq<bool>)
    requires in1.Length == BufferLen && in2.Length == BufferLen
    requires cpu.Length == BufferLen && fpga.Length == BufferLen
    requires cpu != in1 && cpu != in2 && fpga != in1 && fpga != in2 && cpu != fpga
    requires DeviceResults(device)
    modifies cpu, fpga, log
    ensures visited == SweepSizes()
    ensures |verdicts| == SweepCount
    ensures forall t :: 0 <= t < SweepCount ==>
              (verdicts[t] <==> forall u :: 0 <= u <= t ==> IterationMatches(device, in1[..], in2[..], u))
    ensures matched <==> forall t :: 0 <= t < SweepCount ==> IterationMatches(device, in1[..], in2[..], t)
    ensures log.events == old(log.events) + SweepEvents(|verdicts|)
    ensures in1[..] == old(in1[..]) && in2[..] == old(in2[..])
    ensures PassResults(cpu[..], fpga[..], in1[..], in2[..], SweepSize(SweepCount - 1), device[SweepCount - 1])
    ensures forall x :: DataSize * DataSize <= x < BufferLen ==> cpu[x] == old(cpu[x]) && fpga[x] == old(fpga[x])
  {
    ghost var a, b := in1[..], in2[..];
    matched := true;
    visited := [];
    verdicts := [];
    var k := 10;
    var t: nat := 0;  // pass number, indexing the device results
    while k <= DataSize
      invariant t <= SweepCount && k == SweepSize(t)
      invariant in1[..] == a && in2[..] == b
      invariant visited == SweepSizes()[..t]
      invariant |verdicts| == t
      invariant verdicts == Verdicts(device, a, b, t)
      invariant matched == AllMatchBelow(device, a, b, t)
      invariant log.events == old(log.events) + SweepEvents(t)
      invariant 0 < t ==> PassResults(cpu[..], fpga[..], a, b, SweepSize(t - 1), device[t - 1])
      invariant forall x :: DataSize * DataSize <= x < BufferLen ==> cpu[x] == old(cpu[x]) && fpga[x] == old(fpga[x])
    {
      visited := visited + [k];
      matched := SweepIteration(in1, in2, cpu, fpga, device, t, matched, log, old(log.events));
      verdicts := verdicts + [matched];
      SweepSizesSnoc(t);
      k := k + 31;
      t := t + 1;
    }
    assert t == SweepCount;
    SweepSizesSnoc(t);
    SweepOutcome(device, a, b, t);
  }

  /**
   * Pass t of the sweep, carrying the sticky match flag from the passes
   * before it to the passes up to and including it.
   */
  method SweepIteration(in1: array<int>, in2: array<int>, cpu: array<int>, fpga: array<int>,
                        device: seq<seq<int>>, t: nat, matched: bool, log: CallLog, ghost base: seq<Event>)
    returns (next: bool)
    requires in1.Length == BufferLen && in2.Length == BufferLen
    requires cpu.Length == BufferLen && fpga.Length == BufferLen
    requires cpu != in1 && cpu != in2 && fpga != in1 && fpga != in2 && cpu != fpga
    requires DeviceResults(device) && t < SweepCount
    requires matched == AllMatchBelow(device, in1[..], in2[..], t)
    requires log.events == base + SweepEvents(t)
    modifies cpu, fpga, log
    ensures next == AllMatchBelow(device, in1[..], in2[..], t + 1)
    ensures PassResults(cpu[..], fpga[..], in1[..], in2[..], SweepSize(t), device[t])
    ensures forall x :: DataSize * DataSize <= x < BufferLen ==> cpu[x] == old(cpu[x]) && fpga[x] == old(fpga[x])
    ensures log.events == base + SweepEvents(t + 1)
  {
    SweepSizesFacts();
    var mismatch := SweepPass(in1, in2, cpu, fpga, SweepSize(t), device[t], log);
    AllMatchBelowStep(device, in1[..], in2[..], t);
    next := matched && mismatch.None?;
    SweepEventsStep(base, t);
  }

  /** What the flags after pass t - 1 say about the device results. */
  lemma SweepOutcome(device: seq<seq<int>>, in1: seq<int>, in2: seq<int>, t: nat)
    requires t <= |device|
    ensures |Verdicts(device, in1, in2, t)| == t
    ensures forall u :: 0 <= u < t ==>
              (Verdicts(device, in1, in2, t)[u] <==> forall w :: 0 <= w <= u ==> IterationMatches(device, in1, in2, w))
    ensures AllMatchBelow(device, in1, in2, t) <==> forall u :: 0 <= u < t ==> IterationMatches(device, in1, in2, u)
  {
    VerdictsLength(device, in1, in2, t);
    forall u | 0 <= u < t
      ensures Verdicts(device, in1, in2, t)[u] <==> forall w :: 0 <= w <= u ==> IterationMatches(device, in1, in2, w)
    {
      VerdictsAt(device, in1, in2, t, u);
    }
  }

  /** Every pass before pass t matched. */
  ghost predicate AllMatchBelow(device: seq<seq<int>>, in1: seq<int>, in2: seq<int>, t: nat)
    requires t <= |device|
  {
    forall u :: 0 <= u < t ==> IterationMatches(device, in1, in2, u)
  }

  /** The flags reported after passes 0 .. t - 1. */
  ghost function Verdicts(device: seq<seq<int>>, in1: seq<int>, in2: seq<int>, t: nat): seq<bool>
    requires t <= |device|
  {
    if t == 0 then [] else Verdicts(device, in1, in2, t - 1) + [AllMatchBelow(device, in1, in2, t)]
  }

  lemma {:induction false} VerdictsAt(device: seq<seq<int>>, in1: seq<int>, in2: seq<int>, t: nat, u: nat)
    requires u < t <= |device|
    ensures |Verdicts(device, in1, in2, t)| == t
    ensures Verdicts(device, in1, in2, t)[u] == AllMatchBelow(device, in1, in2, u + 1)
  {
    if u < t - 1 {
      VerdictsAt(device, in1, in2, t - 1, u);
    } else {
      VerdictsLength(device, in1, in2, t - 1);
    }
  }

  lemma {:induction false} VerdictsLength(device: seq<seq<int>>, in1: seq<int>, in2: seq<int>, t: nat)
    requires t <= |device|
    ensures |Verdicts(device, in1, in2, t)| == t
  {
    if t > 0 {
      VerdictsLength(device, in1, in2, t - 1);
    }
  }

  lemma AllMatchBelowStep(device: seq<seq<int>>, in1: seq<int>, in2: seq<int>, t: nat)
    requires t < |device|
    ensures AllMatchBelow(device, in1, in2, t + 1) == (AllMatchBelow(device, in1, in2, t) && IterationMatches(device, in1, in2, t))
  {
  }

  lemma SweepEventsStep(prefix: seq<Event>, t: nat)
    ensures prefix + SweepEvents(t + 1) ==
            (prefix + SweepEvents(t)) + PassEvents(SweepSize(t))
  {
    SweepEventsSnoc(t + 1);
  }

  /**
   * The comparison of a pass finds no mismatch exactly when the device
   * result is the product, given that the CPU vector holds the product and
   * the front of the FPGA vector holds the device result.
   */
  lemma PassVerdict(fpga: seq<int>, cpu: seq<int>, deviceOut: seq<int>, in1: seq<int>, in2: seq<int>, k: nat)
    requires |deviceOut| == k * k <= |fpga|
    requires fpga[..k * k] == deviceOut
    requires IsProduct(cpu, in1, in2, k)
    ensures FirstMismatch(fpga, cpu, k * k).None? <==> IsProduct(deviceOut, in1, in2, k)
  {
    AgreesWithProduct(fpga, cpu, in1, in2, k);
    assert deviceOut[..k * k] == deviceOut;
    ProductOfSameCells(fpga, deviceOut, in1, in2, k);
  }

  /**
   * main: the usage check, the first-success selection of a device that
   * resolves the "mmult" kernel, then the sweep.  The input vectors are
   * filled with in1Data and in2Data (the values of rand); device[t] is what
   * the device computes in pass t.  calls is the runtime call log and
   * reports the PASSED/FAILED flag printed after each pass.
   */
  method DdrMmultMain(argCount: int, programmed: seq<bool>, in1Data: seq<int>, in2Data: seq<int>,
                      device: seq<seq<int>>)
    returns (status: int, calls: seq<Event>, reports: seq<bool>)
    requires |in1Data| == BufferLen && |in2Data| == BufferLen
    requires DeviceResults(device)
    ensures status == ExitSuccess || status == ExitFailure
    ensures argCount != 2 ==> status == ExitFailure && calls == [] && reports == []
    ensures argCount == 2 && FirstSuccess(programmed).None? ==>
              status == ExitFailure && calls == SelectionEvents(programmed, [Kernel]) && reports == []
    ensures argCount == 2 && FirstSuccess(programmed).Some? ==>
              calls == SelectionEvents(programmed, [Kernel]) + SweepEvents(|reports|)
    ensures argCount == 2 && FirstSuccess(programmed).Some? ==>
              |reports| == SweepCount &&
              forall t :: 0 <= t < SweepCount ==>
                (reports[t] <==> forall u :: 0 <= u <= t ==> IterationMatches(device, in1Data, in2Data, u))
    ensures argCount == 2 && FirstSuccess(programmed).Some? ==>
              (status == ExitSuccess <==> forall t :: 0 <= t < SweepCount ==> IterationMatches(device, in1Data, in2Data, t))
    ensures Accepted(calls)
  {
    if argCount != 2 {
      return ExitFailure, [], [];
    }
    var log := new CallLog();
    var chosen := SelectDevice(programmed, [Kernel], log);
    assert log.events == SelectionEvents(programmed, [Kernel]);
    if chosen.None? {
      MainCallsAccepted(programmed, 0);
      return ExitFailure, log.events, [];
    }
    var matched;
    matched, reports := SweepOnHostVectors(in1Data, in2Data, device, log);
    MainCallsAccepted(programmed, |reports|);
    status := if matched then ExitSuccess else ExitFailure;
    calls := log.events;
  }

  /**
   * The part of main after selection: the four host vectors of BufferLen
   * cells, the inputs filled with the rand values, then the sweep.  The
   * source allocates and fills the vectors before selecting a device;
   * neither step makes a runtime call, so the order does not show in the
   * call log.
   */
  method SweepOnHostVectors(in1Data: seq<int>, in2Data: seq<int>, device: seq<seq<int>>, log: CallLog)
    returns (matched: bool, reports: seq<bool>)
    requires |in1Data| == BufferLen && |in2Data| == BufferLen
    requires DeviceResults(device)
    modifies log
    ensures log.events == old(log.events) + SweepEvents(|reports|)
    ensures |reports| == SweepCount
    ensures forall t :: 0 <= t < SweepCount ==>
              (reports[t] <==> forall u :: 0 <= u <= t ==> IterationMatches(device, in1Data, in2Data, u))
    ensures matched <==> forall t :: 0 <= t < SweepCount ==> IterationMatches(device, in1Data, in2Data, t)
  {
    var in1 := new int[BufferLen];
    var in2 := new int[BufferLen];
    var fpga := new int[BufferLen];
    var cpu := new int[BufferLen];
    Generate(in1, in1Data);
    Generate(in2, in2Data);
    var visited;
    matched, visited, reports := Sweep(in1, in2, cpu, fpga, device, log);
  }

  /** Selection followed by the sweep, or selection alone, keeps the buffer-path ordering. */
  lemma MainCallsAccepted(programmed: seq<bool>, passes: nat)
    ensures Accepted(SelectionEvents(programmed, [Kernel]))
    ensures Accepted(SelectionEvents(programmed, [Kernel]) + SweepEvents(passes))
  {
    var selection := SelectionEvents(programmed, [Kernel]);
    SelectionOnlyTriesAndResolves(programmed, [Kernel]);
    NeutralRun(Idle, selection);
    RunConcat(Idle, selection, SweepEvents(passes));
    SweepEventsAccepted(Idle, passes);
  }
}
