/**
 * The host program of the RTL kernel-to-kernel streaming example: the host
 * streams a vector into the first adder kernel, the adders pass it on
 * kernel to kernel, and the host streams the result back from the second
 * adder and checks that every element came back increased by two.
 */
module RtlStreamingK2k {
  import opened Wrappers
  import opened Runtime
  import opened Compare
  import opened Selection
  import opened Ordering

  /** c_test_size: 256 M elements outside emulation. */
  const HardwareSize: nat := 256 * 1024 * 1024
  const HwEmulationSize: nat := 4096
  const SwEmulationSize: nat := 2 * 1024 * 1024

  /** sizeof(int) and the range of the unsigned int that holds the byte count. */
  const IntBytes: nat := 4
  const UintRange: nat := 0x1_0000_0000

  const ExitFailure: int := 1

  const Adder1: string := "myadder1:{myadder1_1}"
  const Adder2: string := "myadder2:{myadder2_1}"

  /** The element count main picks, from the two emulation probes. */
  function TestSize(hwEmulation: bool, emulation: bool): (size: nat)
    ensures hwEmulation ==> size == HwEmulationSize
    ensures !hwEmulation && emulation ==> size == SwEmulationSize
    ensures !hwEmulation && !emulation ==> size == HardwareSize
  {
    if hwEmulation then HwEmulationSize
    else if emulation then SwEmulationSize
    else HardwareSize
  }

  /** vector_size_bytes: size * sizeof(int), stored in a 32-bit unsigned int. */
  function VectorSizeBytes(size: nat): nat
  {
    (size * IntBytes) % UintRange
  }

  /** For every size main can pick, the byte count is at most 2^30 and does not wrap. */
  lemma VectorSizeBytesExact(hwEmulation: bool, emulation: bool)
    ensures VectorSizeBytes(TestSize(hwEmulation, emulation)) == TestSize(hwEmulation, emulation) * IntBytes
    ensures TestSize(hwEmulation, emulation) * IntBytes <= 0x4000_0000
  {
    var size := TestSize(hwEmulation, emulation);
    assert size * IntBytes <= 0x4000_0000 < UintRange;
  }

  /**
   * reset: fills the first size cells of a with the generator's values,
   * clears the device results and sets the expected results to a + 2;
   * nothing from index size on is touched.  It always returns 0.
   */
  method Reset(a: array<int>, swResults: array<int>, hwResults: array<int>, size: nat, values: seq<int>)
    returns (r: int)
    requires size <= a.Length && size <= swResults.Length && size <= hwResults.Length && |values| == size
    requires a != swResults && a != hwResults && swResults != hwResults
    modifies a, swResults, hwResults
    ensures r == 0
    ensures a[..size] == values
    ensures forall i :: 0 <= i < size ==> hwResults[i] == 0 && swResults[i] == values[i] + 2
    ensures forall i :: size <= i < a.Length ==> a[i] == old(a[i])
    ensures forall i :: size <= i < swResults.Length ==> swResults[i] == old(swResults[i])
    ensures forall i :: size <= i < hwResults.Length ==> hwResults[i] == old(hwResults[i])
  {
    var g := 0;
    while g < size
      invariant 0 <= g <= size
      invariant a[..g] == values[..g]
      invariant forall i :: size <= i < a.Length ==> a[i] == old(a[i])
      invariant swResults[..] == old(swResults[..]) && hwResults[..] == old(hwResults[..])
    {
      a[g] := values[g];
      assert a[..g + 1] == a[..g] + [values[g]];
      g := g + 1;
    }
    var i := 0;
    while i < size
      invariant 0 <= i <= size
      invariant a[..size] == values
      invariant forall j :: 0 <= j < i ==> hwResults[j] == 0 && swResults[j] == values[j] + 2
      invariant forall j :: size <= j < a.Length ==> a[j] == old(a[j])
      invariant forall j :: size <= j < swResults.Length ==> swResults[j] == old(swResults[j])
      invariant forall j :: size <= j < hwResults.Length ==> hwResults[j] == old(hwResults[j])
    {
      hwResults[i] := 0;
      swResults[i] := a[i] + 2;
      i := i + 1;
    }
    return 0;
  }

  /**
   * verify: compares the expected and device results in index order up to
   * size and stops at the first difference, whose two values it prints.
   * It returns whether all of them matched.
   */
  method VerifyResults(swResults: seq<int>, hwResults: seq<int>, size: nat) returns (matched: bool, shown: Option<(int, int)>)
    requires size <= |swResults| && size <= |hwResults|
    ensures matched <==> forall i :: 0 <= i < size ==> swResults[i] == hwResults[i]
    ensures matched <==> shown.None?
    ensures shown.Some? ==> exists i :: FirstMismatch(swResults, hwResults, size) == Some(i) &&
                                        shown.value == (swResults[i], hwResults[i])
  {
    var i := 0;
    while i < size
      invariant 0 <= i <= size
      invariant forall j :: 0 <= j < i ==> swResults[j] == hwResults[j]
    {
      if swResults[i] != hwResults[i] {
        FirstMismatchIsLeast(swResults, hwResults, size, i);
        return false, Some((swResults[i], hwResults[i]));
      }
      i := i + 1;
    }
    return true, None;
  }

  /** The host vector allocations, which come before the argument check. */
  function AllocEvents(size: nat): seq<Event>
  {
    [AllocHost("h_a", size), AllocHost("hw_results", size), AllocHost("sw_results", size)]
  }

  /**
   * The main-thread calls after selection: streaming is initialised, the
   * stream the first adder reads (flags 1) and the stream the second adder
   * writes (flags 0) are created, the write thread starts, both tasks are
   * enqueued, the read thread starts, both threads are joined, the queue
   * drains and the host inspects the results.
   */
  function StreamEvents(): seq<Event>
  {
    [ StreamInit,
      CreateStream(Adder1, KernelReads, 1),
      CreateStream(Adder2, KernelWrites, 0),
      StartTransfer(KernelReads),
      Task(Adder1),
      Task(Adder2),
      StartTransfer(KernelWrites),
      Join(KernelReads),
      Join(KernelWrites),
      Finish,
      Verify("hw_results") ]
  }

  /**
   * The streaming part of main on the selected device.  hwOut is what the
   * read thread receives from the second adder; it lands in hw_results
   * when that thread is joined.
   */
  method RunStreams(size: nat, values: seq<int>, hwOut: seq<int>, log: CallLog) returns (passed: bool)
    requires |values| == size && |hwOut| == size
    modifies log
    ensures passed <==> forall i :: 0 <= i < size ==> hwOut[i] == values[i] + 2
    ensures log.events == old(log.events) + StreamEvents()
  {
    var a := new int[size];
    var hw := new int[size];
    var sw := new int[size];
    log.Record(StreamInit);
    var _ := Reset(a, sw, hw, size, values);
    StartStreams(log);
    forall i | 0 <= i < size {
      hw[i] := hwOut[i];
    }
    JoinStreams(log);
    assert log.events == old(log.events) + StreamEvents();
    assert forall i :: 0 <= i < size ==> sw[..][i] == values[i] + 2 && hw[..][i] == hwOut[i];
    var shown;
    passed, shown := VerifyResults(sw[..], hw[..], size);
  }

  /** The calls from the stream creation up to the join of the write thread. */
  method StartStreams(log: CallLog)
    modifies log
    ensures log.events == old(log.events) + StreamEvents()[1..8]
  {
    log.Record(CreateStream(Adder1, KernelReads, 1));
    log.Record(CreateStream(Adder2, KernelWrites, 0));
    log.Record(StartTransfer(KernelReads));
    log.Record(Task(Adder1));
    log.Record(Task(Adder2));
    log.Record(StartTransfer(KernelWrites));
    log.Record(Join(KernelReads));
  }

  /** The join of the read thread, the drain and the inspection of the results. */
  method JoinStreams(log: CallLog)
    modifies log
    ensures log.events == old(log.events) + StreamEvents()[8..]
  {
    log.Record(Join(KernelWrites));
    log.Record(Finish);
    log.Record(Verify("hw_results"));
  }

  /**
   * main: picks the size, allocates the three vectors, checks the argument
   * count, selects the first device that programs (resolving both adders
   * there), then streams.  It returns 0 once streaming ran, whatever the
   * check of the results said; passed is that verdict.
   */
  method StreamingMain(argCount: int, hwEmulation: bool, emulation: bool, programmed: seq<bool>,
                       values: seq<int>, hwOut: seq<int>)
    returns (status: int, calls: seq<Event>, passed: bool)
    requires |values| == TestSize(hwEmulation, emulation) && |hwOut| == TestSize(hwEmulation, emulation)
    ensures argCount != 2 ==> status == ExitFailure && calls == AllocEvents(TestSize(hwEmulation, emulation)) && !passed
    ensures argCount == 2 && FirstSuccess(programmed).None? ==>
              status == ExitFailure && !passed &&
              calls == AllocEvents(TestSize(hwEmulation, emulation)) + SelectionEvents(programmed, [Adder1, Adder2])
    ensures argCount == 2 && FirstSuccess(programmed).Some? ==>
              status == 0 &&
              calls == AllocEvents(TestSize(hwEmulation, emulation)) + SelectionEvents(programmed, [Adder1, Adder2]) +
                       StreamEvents() &&
              (passed <==> forall i :: 0 <= i < |values| ==> hwOut[i] == values[i] + 2)
    ensures StreamAccepted(calls)
  {
    var size := TestSize(hwEmulation, emulation);
    var log := new CallLog();
    log.Record(AllocHost("h_a", size));
    log.Record(AllocHost("hw_results", size));
    log.Record(AllocHost("sw_results", size));
    ghost var allocs := log.events;
    assert allocs == AllocEvents(size);
    MainCallsAccepted(size, programmed);
    if argCount != 2 {
      return ExitFailure, log.events, false;
    }
    var chosen := SelectDevice(programmed, [Adder1, Adder2], log);
    if chosen.None? {
      return ExitFailure, log.events, false;
    }
    passed := RunStreams(size, values, hwOut, log);
    return 0, log.events, passed;
  }

  /** Allocation and selection neither initialise nor touch a stream. */
  lemma SetupNeutral(size: nat, programmed: seq<bool>)
    ensures StreamRun(StreamIdle, AllocEvents(size) + SelectionEvents(programmed, [Adder1, Adder2])) == Some(StreamIdle)
    ensures StreamRun(StreamIdle, AllocEvents(size)) == Some(StreamIdle)
  {
    var selection := SelectionEvents(programmed, [Adder1, Adder2]);
    SelectionOnlyTriesAndResolves(programmed, [Adder1, Adder2]);
    StreamNeutralRun(StreamIdle, AllocEvents(size) + selection);
    StreamNeutralRun(StreamIdle, AllocEvents(size));
  }

  /** Every call log main can produce keeps the stream-path discipline. */
  lemma MainCallsAccepted(size: nat, programmed: seq<bool>)
    ensures StreamAccepted(AllocEvents(size))
    ensures StreamAccepted(AllocEvents(size) + SelectionEvents(programmed, [Adder1, Adder2]))
    ensures StreamAccepted(AllocEvents(size) + SelectionEvents(programmed, [Adder1, Adder2]) + StreamEvents())
  {
    SetupNeutral(size, programmed);
    StreamRunConcat(StreamIdle, AllocEvents(size) + SelectionEvents(programmed, [Adder1, Adder2]), StreamEvents());
    StreamEventsAccepted();
  }

  /** The main-thread calls after selection keep the stream-path discipline from the initial state. */
  lemma StreamEventsAccepted()
    ensures StreamRun(StreamIdle, StreamEvents()).Some?
  {
    StreamPrefixState(|StreamEvents()|);
    assert StreamEvents()[..|StreamEvents()|] == StreamEvents();
  }

  /** The first k main-thread calls after selection lead from the initial state to StreamAfter(k). */
  lemma {:induction false} StreamPrefixState(k: nat)
    requires k <= |StreamEvents()|
    ensures StreamRun(StreamIdle, StreamEvents()[..k]) == Some(StreamAfter(k))
  {
    if k > 0 {
      var t := StreamEvents();
      StreamPrefixState(k - 1);
      assert t[..k] == t[..k - 1] + [t[k - 1]];
      StreamRunSnoc(StreamIdle, t[..k - 1], t[k - 1]);
      StreamAfterStep(k - 1);
    }
  }

  /** Each main-thread call after selection moves the stream state one step along StreamAfter. */
  lemma StreamAfterStep(k: nat)
    requires k < |StreamEvents()|
    ensures StreamStep(StreamAfter(k), StreamEvents()[k]) == Some(StreamAfter(k + 1))
  {
    if k == 1 {
      assert {} + {KernelReads} == {KernelReads};
    } else if k == 2 {
      assert {KernelReads} + {KernelWrites} == {KernelReads, KernelWrites};
    } else if k == 3 {
      assert {} + {KernelReads} == {KernelReads};
    } else if k == 6 {
      assert {KernelReads} + {KernelWrites} == {KernelReads, KernelWrites};
    } else if k == 7 {
      assert {KernelReads, KernelWrites} - {KernelReads} == {KernelWrites};
    } else if k == 8 {
      assert {KernelWrites} - {KernelWrites} == {};
    }
  }

  /** The stream state after the first k main-thread calls after selection. */
  function StreamAfter(k: nat): StreamState
  {
    var both: set<StreamDir> := {KernelReads, KernelWrites};
    if k == 0 then StreamIdle
    else if k == 1 then StreamState(true, {}, {}, false)
    else if k == 2 then StreamState(true, {KernelReads}, {}, false)
    else if k <= 3 then StreamState(true, both, {}, false)
    else if k <= 6 then StreamState(true, both, {KernelReads}, false)
    else if k == 7 then StreamState(true, both, both, false)
    else if k == 8 then StreamState(true, both, {KernelWrites}, false)
    else if k == 9 then StreamState(true, both, {}, false)
    else StreamState(true, both, {}, true)
  }
}
