/**
 * The host program of the OpenCL array-partition example: a 16-by-16
 * integer matrix multiply computed once on the host as the gold result and
 * twice on the device, by the "matmul" and the "matmul_partition" kernels,
 * each device result being checked against the gold one.
 */
module ClArrayPartition {
  import opened Wrappers
  import opened RowMajor
  import opened Runtime
  import opened Compare
  import opened Selection
  import opened Ordering
  import opened HostVectors

  const Columns: nat := 16
  const Rows: nat := 16

  /** Cells of every host vector. */
  const Cells: nat := Columns * Rows

  /** Bounds of gen_random: a uniform distribution over 0 ..= 10. */
  const RandomLow: int := 0
  const RandomHigh: int := 10

  const ExitSuccess: int := 0
  const ExitFailure: int := 1

  /**
   * matmul: for every row k and column j of the M-by-M row-major matrices,
   * adds the sum over i of A[k][i] * B[i][j] to C[k][j], one term at a time.
   */
  method MatMul(c: array<int>, a: array<int>, b: array<int>, m: nat)
    requires m * m <= a.Length && m * m <= b.Length && m * m <= c.Length
    requires c != a && c != b
    modifies c
    ensures forall k, j :: 0 <= k < m && 0 <= j < m ==>
              c[Cell(k, j, m)] == old(c[Cell(k, j, m)]) + Dot(a[..], b[..], m, k, j, m)
    ensures forall x :: m * m <= x < c.Length ==> c[x] == old(c[x])
  {
    ghost var left, right, orig := a[..], b[..], c[..];
    var k := 0;
    while k < m
      invariant 0 <= k <= m
      invariant a[..] == left && b[..] == right
      invariant RowsAccumulated(c[..], orig, left, right, m, k)
    {
      ghost var before := c[..];
      AccumulateRow(c, a, b, m, k);
      RowDone(before, c[..], orig, left, right, m, k);
      k := k + 1;
    }
  }

  /**
   * With the inputs drawn from gen_random, every gold entry lies in
   * 0 ..= 16 * 10 * 10 = 1600, far inside the range of a 32-bit int.
   */
  lemma GoldWithinRange(gold: seq<int>, a: seq<int>, b: seq<int>)
    requires |a| == Cells && |b| == Cells
    requires forall x :: 0 <= x < Cells ==> RandomLow <= a[x] <= RandomHigh && RandomLow <= b[x] <= RandomHigh
    requires IsProduct(gold, a, b, Columns)
    ensures forall x :: 0 <= x < Cells ==> 0 <= gold[x] <= 1600 < 0x8000_0000
  {
    forall x | 0 <= x < Cells
      ensures 0 <= gold[x] <= 1600
    {
      CellOfIndex(x, Columns);
      var i, j := x / Columns, x % Columns;
      assert Cell(i, j, Columns) == x;
      DotBounds(a, b, Columns, i, j, Columns, 10);
    }
  }

  /**
   * print: the 10-by-10 corner of a row-major matrix with the given number
   * of columns, row by row.  Only data[r * columns + c] for r, c < 10 is
   * read, so the call is in bounds when the cell 9 * columns + 9 exists.
   */
  method Print(data: array<int>, columns: nat, rows: nat) returns (shown: seq<seq<int>>)
    requires 9 * columns + 9 < data.Length
    ensures |shown| == 10
    ensures forall r :: 0 <= r < 10 ==> |shown[r]| == 10
    ensures forall r, c :: 0 <= r < 10 && 0 <= c < 10 ==> shown[r][c] == data[r * columns + c]
  {
    shown := [];
    var r := 0;
    while r < 10
      invariant 0 <= r <= 10
      invariant |shown| == r
      invariant forall r' :: 0 <= r' < r ==> |shown[r']| == 10
      invariant forall r', c :: 0 <= r' < r && 0 <= c < 10 ==> shown[r'][c] == data[r' * columns + c]
    {
      MulLeft(r, 9, columns);
      var line := [];
      var c := 0;
      while c < 10
        invariant 0 <= c <= 10
        invariant |line| == c
        invariant forall c' :: 0 <= c' < c ==> line[c'] == data[r * columns + c']
      {
        line := line + [data[r * columns + c]];
        c := c + 1;
      }
      shown := shown + [line];
      r := r + 1;
    }
  }

  /**
   * verify: scans the device output in index order and reports the first
   * index where it differs from gold (the source prints it and exits).
   */
  method VerifyOutput(gold: seq<int>, output: seq<int>) returns (mismatch: Option<nat>)
    requires |output| <= |gold|
    ensures mismatch == FirstMismatch(output, gold, |output|)
  {
    var i := 0;
    while i < |output|
      invariant 0 <= i <= |output|
      invariant forall x :: 0 <= x < i ==> output[x] == gold[x]
    {
      if output[i] != gold[i] {
        FirstMismatchIsLeast(output, gold, |output|, i);
        return Some(i);
      }
      i := i + 1;
    }
    return None;
  }

  /** array_size_bytes: the byte size of a columns-by-rows matrix of 4-byte ints. */
  function ArraySizeBytes(columns: nat, rows: nat): (bytes: nat)
    ensures bytes % 4 == 0 && bytes / 4 == columns * rows
  {
    var cells := columns * rows;
    cells * 4
  }

  /**
   * The host-side part of main before the device is touched: A and B are
   * filled by gen_random (the values aData and bData), gold starts at zero
   * and matmul accumulates the product into it.  Each of these vectors
   * holds exactly the array_size_bytes its device buffer is created with.
   */
  method ComputeGold(aData: seq<int>, bData: seq<int>) returns (gold: seq<int>)
    requires |aData| == Cells && |bData| == Cells
    ensures |gold| == Cells
    ensures ArraySizeBytes(Columns, Rows) == 4 * |aData| == 4 * |bData| == 4 * |gold|
    ensures IsProduct(gold, aData, bData, Columns)
  {
    var a := new int[Cells];
    var b := new int[Cells];
    var g := new int[Cells](_ => 0);
    Generate(a, aData);
    Generate(b, bData);
    var shownA := Print(a, Columns, Rows);
    var shownB := Print(b, Columns, Rows);
    MatMul(g, a, b, Columns);
    var shownGold := Print(g, Columns, Rows);
    gold := g[..];
    forall i, j | 0 <= i < Columns && 0 <= j < Columns
      ensures gold[Cell(i, j, Columns)] == Dot(aData, bData, Columns, i, j, Columns)
    {
    }
  }

  /**
   * The runtime calls that prepare one kernel run on the selected device:
   * the kernel is created and bound to (buffer_a, buffer_b, buffer_c,
   * columns), and the inputs migrate only when asked.
   */
  function KernelBindEvents(device: nat, kernel: string, migrateInputs: bool): seq<Event>
  {
    [ CreateKernel(device, kernel),
      SetArg(kernel, 0, Buffer("buffer_a")),
      SetArg(kernel, 1, Buffer("buffer_b")),
      SetArg(kernel, 2, Buffer("buffer_c")),
      SetArg(kernel, 3, Scalar(Columns)) ] +
    (if migrateInputs then [Migrate(["buffer_a", "buffer_b"], ToDevice)] else [])
  }

  /**
   * The runtime calls of one kernel run: the binding, then the kernel task
   * is enqueued, buffer_c migrates back, the queue is drained and the host
   * inspects C.
   */
  function KernelRunEvents(device: nat, kernel: string, migrateInputs: bool): seq<Event>
  {
    KernelBindEvents(device, kernel, migrateInputs) +
    [ Task(kernel),
      Migrate(["buffer_c"], ToHost),
      Finish,
      Verify("C") ]
  }

  /** The runtime calls after selection: "matmul" with the input migration, then "matmul_partition" without. */
  function DeviceEvents(device: nat): seq<Event>
  {
    KernelRunEvents(device, "matmul", true) + KernelRunEvents(device, "matmul_partition", false)
  }

  /** The kernel creation, its four setArg calls and, when asked, the migration of buffer_a and buffer_b. */
  method BindKernel(device: nat, kernel: string, migrateInputs: bool, log: CallLog)
    modifies log
    ensures log.events == old(log.events) + KernelBindEvents(device, kernel, migrateInputs)
  {
    log.Record(CreateKernel(device, kernel));
    log.Record(SetArg(kernel, 0, Buffer("buffer_a")));
    log.Record(SetArg(kernel, 1, Buffer("buffer_b")));
    log.Record(SetArg(kernel, 2, Buffer("buffer_c")));
    log.Record(SetArg(kernel, 3, Scalar(Columns)));
    if migrateInputs {
      log.Record(Migrate(["buffer_a", "buffer_b"], ToDevice));
    }
  }

  /**
   * One kernel run: its runtime calls up to the drain, the device result
   * deviceOut landing in C through the output migration of buffer_c, which
   * moves array_size_bytes, that is columns * rows cells: all of C.
   */
  method RunKernel(device: nat, kernel: string, migrateInputs: bool, c: array<int>, deviceOut: seq<int>, log: CallLog)
    requires |deviceOut| == ArraySizeBytes(Columns, Rows) / 4 == c.Length
    modifies c, log
    ensures c[..] == deviceOut
    ensures log.events + [Verify("C")] == old(log.events) + KernelRunEvents(device, kernel, migrateInputs)
  {
    ghost var start := log.events;
    BindKernel(device, kernel, migrateInputs, log);
    log.Record(Task(kernel));
    log.Record(Migrate(["buffer_c"], ToHost));
    var arraySizeBytes := ArraySizeBytes(Columns, Rows);
    forall x | 0 <= x < arraySizeBytes / 4 {
      c[x] := deviceOut[x];
    }
    log.Record(Finish);
    ghost var tail := [Task(kernel), Migrate(["buffer_c"], ToHost), Finish, Verify("C")];
    assert log.events + [Verify("C")] == start + KernelBindEvents(device, kernel, migrateInputs) + tail;
    LogAssoc(start, KernelBindEvents(device, kernel, migrateInputs), tail);
  }

  /**
   * The device part of main: both kernels run on the selected device
   * against the same buffer_c, C is checked after each, and the first
   * mismatch ends the program.
   */
  method RunKernels(device: nat, gold: seq<int>, first: seq<int>, second: seq<int>, log: CallLog)
    returns (passed: bool)
    requires |gold| == Cells && |first| == Cells && |second| == Cells
    modifies log
    ensures passed <==> first == gold && second == gold
    ensures log.events == old(log.events) + KernelRunEvents(device, "matmul", true) +
                          (if first == gold then KernelRunEvents(device, "matmul_partition", false) else [])
  {
    var c := new int[Cells](_ => 0);
    RunKernel(device, "matmul", true, c, first, log);
    log.Record(Verify("C"));
    var mismatch := VerifyOutput(gold, c[..]);
    if mismatch.Some? {
      var shown := Print(c, Columns, Rows);
      return false;
    }
    assert first == gold;
    RunKernel(device, "matmul_partition", false, c, second, log);
    log.Record(Verify("C"));
    mismatch := VerifyOutput(gold, c[..]);
    if mismatch.Some? {
      var shown := Print(c, Columns, Rows);
    }
    return mismatch.None?;
  }

  /**
   * main: the usage check, the gold product, the first-success selection
   * (no kernel is resolved inside the loop here), then both kernel runs.
   * first and second are what "matmul" and "matmul_partition" compute.
   */
  method ArrayPartitionMain(argCount: int, aData: seq<int>, bData: seq<int>, programmed: seq<bool>,
                            first: seq<int>, second: seq<int>)
    returns (status: int, calls: seq<Event>)
    requires |aData| == Cells && |bData| == Cells && |first| == Cells && |second| == Cells
    ensures status == ExitSuccess || status == ExitFailure
    ensures argCount != 2 ==> status == ExitFailure && calls == []
    ensures argCount == 2 && FirstSuccess(programmed).None? ==>
              status == ExitFailure && calls == SelectionEvents(programmed, [])
    ensures argCount == 2 && FirstSuccess(programmed).Some? ==>
              (status == ExitSuccess <==> IsProduct(first, aData, bData, Columns) && IsProduct(second, aData, bData, Columns))
    ensures argCount == 2 && FirstSuccess(programmed).Some? ==>
              calls == SelectionEvents(programmed, []) + KernelRunEvents(FirstSuccess(programmed).value, "matmul", true) +
                       (if IsProduct(first, aData, bData, Columns)
                        then KernelRunEvents(FirstSuccess(programmed).value, "matmul_partition", false) else [])
    ensures Accepted(calls)
  {
    if argCount != 2 {
      return ExitFailure, [];
    }
    var gold := ComputeGold(aData, bData);
    var log := new CallLog();
    var chosen := SelectDevice(programmed, [], log);
    assert log.events == SelectionEvents(programmed, []);
    SelectionAccepted(programmed);
    if chosen.None? {
      return ExitFailure, log.events;
    }
    var device := chosen.value;
    var passed := RunKernels(device, gold, first, second, log);
    GoldComparison(first, gold, aData, bData);
    GoldComparison(second, gold, aData, bData);
    MainCallsAccepted(programmed, device);
    if passed {
      assert log.events == SelectionEvents(programmed, []) + KernelRunEvents(device, "matmul", true) +
                           KernelRunEvents(device, "matmul_partition", false);
    } else if first != gold {
      assert log.events == SelectionEvents(programmed, []) + KernelRunEvents(device, "matmul", true);
    }
    status := if passed then ExitSuccess else ExitFailure;
    calls := log.events;
  }

  /** A device result equals gold exactly when it is the product. */
  lemma GoldComparison(result: seq<int>, gold: seq<int>, a: seq<int>, b: seq<int>)
    requires |result| == Cells && |gold| == Cells && IsProduct(gold, a, b, Columns)
    ensures result == gold <==> IsProduct(result, a, b, Columns)
  {
    AgreesWithProduct(result, gold, a, b, Columns);
  }

  /** A kernel run keeps the buffer-path ordering, provided its inputs are on the device by the time its kernel task runs. */
  lemma KernelRunAccepted(s: CycleState, device: nat, kernel: string, migrateInputs: bool)
    requires migrateInputs || s.inputsMigrated
    ensures Run(s, KernelRunEvents(device, kernel, migrateInputs)) == Some(CycleState(true, true, true, true))
  {
    var t := KernelRunEvents(device, kernel, migrateInputs);
    var setup := t[..5];
    NeutralRun(s, setup);
    var s1 := if migrateInputs then s.(inputsMigrated := true) else s;
    var head := t[..|t| - 4];
    if migrateInputs {
      assert head == setup + [t[5]];
      RunSnoc(s, setup, t[5]);
    } else {
      assert head == setup;
    }
    var tail := t[|t| - 4..];
    assert t == head + tail;
    RunConcat(s, head, tail);
    DrainedCycleAccepted(s1, kernel);
  }

  /** From inputs on the device, the task, the output migration, the drain and the check keep the ordering. */
  lemma DrainedCycleAccepted(s: CycleState, kernel: string)
    requires s.inputsMigrated
    ensures Run(s, [Task(kernel), Migrate(["buffer_c"], ToHost), Finish, Verify("C")]) == Some(CycleState(true, true, true, true))
  {
    var tail := [Task(kernel), Migrate(["buffer_c"], ToHost), Finish, Verify("C")];
    assert tail == [] + [tail[0]] + [tail[1]] + [tail[2]] + [tail[3]];
    RunSnoc(s, [], tail[0]);
    RunSnoc(s, [tail[0]], tail[1]);
    RunSnoc(s, [tail[0]] + [tail[1]], tail[2]);
    RunSnoc(s, [tail[0]] + [tail[1]] + [tail[2]], tail[3]);
  }


  /** The selection loop alone keeps the buffer-path ordering. */
  lemma SelectionAccepted(programmed: seq<bool>)
    ensures Run(Idle, SelectionEvents(programmed, [])) == Some(Idle)
  {
    SelectionOnlyTriesAndResolves(programmed, []);
    NeutralRun(Idle, SelectionEvents(programmed, []));
  }

  /** The whole call log of a run that reaches the device, with or without the second kernel, keeps the ordering. */
  lemma MainCallsAccepted(programmed: seq<bool>, device: nat)
    ensures Accepted(SelectionEvents(programmed, []) + KernelRunEvents(device, "matmul", true))
    ensures Accepted(SelectionEvents(programmed, []) + KernelRunEvents(device, "matmul", true) +
                     KernelRunEvents(device, "matmul_partition", false))
  {
    var selection := SelectionEvents(programmed, []);
    var run1 := KernelRunEvents(device, "matmul", true);
    SelectionAccepted(programmed);
    RunConcat(Idle, selection, run1);
    KernelRunAccepted(Idle, device, "matmul", true);
    RunConcat(Idle, selection + run1, KernelRunEvents(device, "matmul_partition", false));
    KernelRunAccepted(CycleState(true, true, true, true), device, "matmul_partition", false);
  }

  /**
   * The input matrices migrate to the device exactly once, before the
   * first task: the second kernel reuses the inputs already on the device.
   */
  lemma InputsMigrateOnce(device: nat)
    ensures forall k :: 0 <= k < |DeviceEvents(device)| ==>
              (IsInputMigration(DeviceEvents(device)[k]) <==> k == 5)
    ensures DeviceEvents(device)[6] == Task("matmul")
  {
    var t := DeviceEvents(device);
    assert |t| == 19;
    forall k | 0 <= k < |t|
      ensures IsInputMigration(t[k]) <==> k == 5
    {
      if k < 10 {
        assert t[k] == KernelRunEvents(device, "matmul", true)[k];
      } else {
        assert t[k] == KernelRunEvents(device, "matmul_partition", false)[k - 10];
      }
    }
  }
}
