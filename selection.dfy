/**
 * First-success device selection, the loop every host program repeats:
 * candidates are tried in order, the first one that the program image
 * programs is bound, and the run fails if none does.  Whether programming
 * a candidate succeeds is an input (the runtime is opaque).
 */
module Selection {
  import opened Wrappers
  import opened Runtime

  /** The least candidate index whose programming succeeds, if any. */
  function FirstSuccess(programmed: seq<bool>): (r: Option<nat>)
    ensures r.Some? ==> r.value < |programmed| && programmed[r.value]
    ensures r.Some? ==> forall i :: 0 <= i < r.value ==> !programmed[i]
    ensures r.None? <==> forall i :: 0 <= i < |programmed| ==> !programmed[i]
  {
    if |programmed| == 0 then None
    else match FirstSuccess(programmed[..|programmed| - 1])
      case Some(i) => Some(i)
      case None => if programmed[|programmed| - 1] then Some(|programmed| - 1) else None
  }

  /** The number of candidates the selection loop tries: up to and including the bound one. */
  function Tried(programmed: seq<bool>): (n: nat)
    ensures n <= |programmed|
  {
    match FirstSuccess(programmed)
    case Some(d) => d + 1
    case None => |programmed|
  }

  function TryEvents(n: nat): (r: seq<Event>)
    ensures |r| == n && forall i :: 0 <= i < n ==> r[i] == TryProgram(i)
  {
    if n == 0 then [] else TryEvents(n - 1) + [TryProgram(n - 1)]
  }

  function KernelEvents(device: nat, kernels: seq<string>): (r: seq<Event>)
    ensures |r| == |kernels| && forall i :: 0 <= i < |kernels| ==> r[i] == CreateKernel(device, kernels[i])
  {
    if kernels == [] then [] else KernelEvents(device, kernels[..|kernels| - 1]) + [CreateKernel(device, kernels[|kernels| - 1])]
  }

  /** The runtime calls of one selection: the attempts, then the kernels resolved on the bound device. */
  function SelectionEvents(programmed: seq<bool>, kernels: seq<string>): seq<Event>
  {
    TryEvents(Tried(programmed)) +
    match FirstSuccess(programmed)
    case Some(d) => KernelEvents(d, kernels)
    case None => []
  }

  /** Selection only tries candidates and resolves kernels: it moves no data and dispatches nothing. */
  lemma SelectionOnlyTriesAndResolves(programmed: seq<bool>, kernels: seq<string>)
    ensures forall k :: 0 <= k < |SelectionEvents(programmed, kernels)| ==>
              SelectionEvents(programmed, kernels)[k].TryProgram? || SelectionEvents(programmed, kernels)[k].CreateKernel?
  {
    var tries := TryEvents(Tried(programmed));
    var rest := SelectionEvents(programmed, kernels)[|tries|..];
    assert SelectionEvents(programmed, kernels) == tries + rest;
  }

  /**
   * The selection loop.  Programming failure on a candidate is not fatal;
   * the first success resolves the named kernels on that device and stops
   * the loop.
   */
  method SelectDevice(programmed: seq<bool>, kernels: seq<string>, log: CallLog) returns (chosen: Option<nat>)
    modifies log
    ensures chosen == FirstSuccess(programmed)
    ensures log.events == old(log.events) + SelectionEvents(programmed, kernels)
  {
    ghost var start := log.events;
    var i := 0;
    while i < |programmed|
      invariant 0 <= i <= |programmed|
      invariant forall j :: 0 <= j < i ==> !programmed[j]
      invariant log.events == start + TryEvents(i)
    {
      log.Record(TryProgram(i));
      LogAssoc(start, TryEvents(i), [TryProgram(i)]);
      if programmed[i] {
        break;
      }
      i := i + 1;
    }
    if i < |programmed| {
      FirstSuccessIsLeast(programmed, i);
      BoundSelectionEvents(programmed, kernels, i);
      ResolveKernels(i, kernels, log);
      LogAssoc(start, TryEvents(i + 1), KernelEvents(i, kernels));
      chosen := Some(i);
    } else {
      NoneProgram(programmed, kernels);
      chosen := None;
    }
  }

  /** The kernels named by the host program, created in order on the bound device. */
  method ResolveKernels(device: nat, kernels: seq<string>, log: CallLog)
    modifies log
    ensures log.events == old(log.events) + KernelEvents(device, kernels)
  {
    var k := 0;
    while k < |kernels|
      invariant 0 <= k <= |kernels|
      invariant log.events == old(log.events) + KernelEvents(device, kernels[..k])
    {
      log.Record(CreateKernel(device, kernels[k]));
      assert kernels[..k + 1][..k] == kernels[..k];
      k := k + 1;
    }
    assert kernels[..k] == kernels;
  }

  /** When candidate d is bound, selection tries candidates 0 .. d and then resolves the kernels on d. */
  lemma BoundSelectionEvents(programmed: seq<bool>, kernels: seq<string>, d: nat)
    requires FirstSuccess(programmed) == Some(d)
    ensures SelectionEvents(programmed, kernels) == TryEvents(d + 1) + KernelEvents(d, kernels)
  {
  }


  /** A candidate that programs, with every earlier one failing, is the one bound. */
  lemma FirstSuccessIsLeast(programmed: seq<bool>, d: nat)
    requires d < |programmed| && programmed[d]
    requires forall i :: 0 <= i < d ==> !programmed[i]
    ensures FirstSuccess(programmed) == Some(d)
  {
  }

  /**
   * With only the third candidate able to program, it is the one bound and
   * no fourth candidate is tried.
   */
  lemma OnlyThirdPrograms(programmed: seq<bool>, kernels: seq<string>)
    requires |programmed| >= 4
    requires forall i :: 0 <= i < |programmed| ==> (programmed[i] <==> i == 2)
    ensures FirstSuccess(programmed) == Some(2)
    ensures SelectionEvents(programmed, kernels) ==
            [TryProgram(0), TryProgram(1), TryProgram(2)] + KernelEvents(2, kernels)
  {
    FirstSuccessIsLeast(programmed, 2);
    assert TryEvents(3) == [TryProgram(0), TryProgram(1), TryProgram(2)];
  }

  /** With no candidate able to program, every candidate is tried and no kernel is resolved. */
  lemma NoneProgram(programmed: seq<bool>, kernels: seq<string>)
    requires forall i :: 0 <= i < |programmed| ==> !programmed[i]
    ensures FirstSuccess(programmed) == None
    ensures SelectionEvents(programmed, kernels) == TryEvents(|programmed|)
    ensures forall e :: e in SelectionEvents(programmed, kernels) ==> e.TryProgram?
  {
  }
}
