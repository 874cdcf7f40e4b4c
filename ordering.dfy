/**
 * The ordering discipline of a dispatch cycle, as two small state machines
 * over the runtime call log, with the ordering facts every log they accept
 * enjoys.
 *
 * Buffer path: inputs migrate to the device before a task is enqueued, a
 * task is enqueued before outputs migrate back, and the queue is drained
 * after the output migration before the host inspects results.
 *
 * Stream path: streaming is initialised exactly once before any stream is
 * created, a transfer runs only on a stream that was created, and the host
 * inspects results only after it joined every transfer thread it started
 * and then drained the queue.
 */
module Ordering {
  import opened Wrappers
  import opened Runtime

  // ---------------------------------------------------------------------
  // Buffer path
  // ---------------------------------------------------------------------

  datatype CycleState = CycleState(inputsMigrated: bool, dispatched: bool, outputsMigrated: bool, drained: bool)

  const Idle := CycleState(false, false, false, false)

  /** One runtime call of the buffer path; None when the call breaks the ordering. */
  function Step(s: CycleState, e: Event): Option<CycleState>
  {
    match e
    case Migrate(_, ToDevice) => Some(s.(inputsMigrated := true))
    case Task(_) =>
      if s.inputsMigrated then Some(s.(dispatched := true, outputsMigrated := false, drained := false)) else None
    case Migrate(_, ToHost) =>
      if s.dispatched then Some(s.(outputsMigrated := true, drained := false)) else None
    case Finish => Some(s.(drained := true))
    case Verify(_) => if s.outputsMigrated && s.drained then Some(s) else None
    case StreamInit => None
    case CreateStream(_, _, _) => None
    case StartTransfer(_) => None
    case Join(_) => None
    case _ => Some(s)
  }

  /** The state reached from s by the calls of t, if every call keeps the ordering. */
  function Run(s: CycleState, t: seq<Event>): Option<CycleState>
  {
    if t == [] then Some(s)
    else match Run(s, t[..|t| - 1])
      case None => None
      case Some(s') => Step(s', t[|t| - 1])
  }

  predicate Accepted(t: seq<Event>)
  {
    Run(Idle, t).Some?
  }

  /** Running two logs one after the other is running their concatenation. */
  lemma {:induction false} RunConcat(s: CycleState, t1: seq<Event>, t2: seq<Event>)
    ensures Run(s, t1 + t2) == match Run(s, t1) case None => None case Some(s1) => Run(s1, t2)
  {
    if t2 == [] {
      assert t1 + t2 == t1;
    } else {
      assert (t1 + t2)[..|t1 + t2| - 1] == t1 + t2[..|t2| - 1];
      RunConcat(s, t1, t2[..|t2| - 1]);
    }
  }

  lemma RunSingle(s: CycleState, e: Event)
    ensures Run(s, [e]) == Step(s, e)
  {
    assert [e][..0] == [];
  }

  lemma RunSnoc(s: CycleState, t: seq<Event>, e: Event)
    ensures Run(s, t + [e]) == match Run(s, t) case None => None case Some(s') => Step(s', e)
  {
    assert (t + [e])[..|t|] == t;
  }

  /** Calls that neither move data nor dispatch: selection, kernel creation, argument binding, allocation. */
  predicate Neutral(e: Event)
  {
    e.TryProgram? || e.CreateKernel? || e.SetArg? || e.AllocHost?
  }

  /** Neutral calls leave the cycle state as it is. */
  lemma {:induction false} NeutralRun(s: CycleState, t: seq<Event>)
    requires forall k :: 0 <= k < |t| ==> Neutral(t[k])
    ensures Run(s, t) == Some(s)
  {
    if t != [] {
      NeutralRun(s, t[..|t| - 1]);
    }
  }

  /** Every prefix of an accepted log is accepted. */
  lemma {:induction false} RunPrefix(s: CycleState, t: seq<Event>, k: nat)
    requires k <= |t| && Run(s, t).Some?
    ensures Run(s, t[..k]).Some?
  {
    if k < |t| {
      assert t[..|t| - 1][..k] == t[..k];
      RunPrefix(s, t[..|t| - 1], k);
    } else {
      assert t[..k] == t;
    }
  }

  /** Some input migration occurs in t before index k. */
  ghost predicate InputBefore(t: seq<Event>, k: nat)
    requires k <= |t|
  {
    exists i :: 0 <= i < k && IsInputMigration(t[i])
  }

  /** Some task occurs in t before index k, itself after an input migration. */
  ghost predicate TaskBefore(t: seq<Event>, k: nat)
    requires k <= |t|
  {
    exists j :: 0 <= j < k && t[j].Task? && InputBefore(t, j)
  }

  /** Some output migration occurs in t before index k, itself after such a task. */
  ghost predicate OutputBefore(t: seq<Event>, k: nat)
    requires k <= |t|
  {
    exists o :: 0 <= o < k && IsOutputMigration(t[o]) && TaskBefore(t, o)
  }

  /** Some drain occurs in t before index k, itself after such an output migration. */
  ghost predicate DrainBefore(t: seq<Event>, k: nat)
    requires k <= |t|
  {
    exists f :: 0 <= f < k && t[f].Finish? && OutputBefore(t, f)
  }

  ghost predicate Agree(t: seq<Event>, u: seq<Event>, k: nat)
  {
    k <= |t| && k <= |u| && forall x :: 0 <= x < k ==> t[x] == u[x]
  }

  lemma InputBeforeAgree(t: seq<Event>, u: seq<Event>, k: nat)
    requires Agree(t, u, k) && InputBefore(t, k)
    ensures InputBefore(u, k)
  {
    var i :| 0 <= i < k && IsInputMigration(t[i]);
    assert IsInputMigration(u[i]);
  }

  lemma TaskBeforeAgree(t: seq<Event>, u: seq<Event>, k: nat)
    requires Agree(t, u, k) && TaskBefore(t, k)
    ensures TaskBefore(u, k)
  {
    var j :| 0 <= j < k && t[j].Task? && InputBefore(t, j);
    InputBeforeAgree(t, u, j);
    assert u[j].Task?;
  }

  lemma OutputBeforeAgree(t: seq<Event>, u: seq<Event>, k: nat)
    requires Agree(t, u, k) && OutputBefore(t, k)
    ensures OutputBefore(u, k)
  {
    var o :| 0 <= o < k && IsOutputMigration(t[o]) && TaskBefore(t, o);
    TaskBeforeAgree(t, u, o);
    assert IsOutputMigration(u[o]);
  }

  lemma DrainBeforeAgree(t: seq<Event>, u: seq<Event>, k: nat)
    requires Agree(t, u, k) && DrainBefore(t, k)
    ensures DrainBefore(u, k)
  {
    var f :| 0 <= f < k && t[f].Finish? && OutputBefore(t, f);
    OutputBeforeAgree(t, u, f);
    assert u[f].Finish?;
  }

  /** What a reached state says has happened in the log so far. */
  ghost predicate Witnessed(t: seq<Event>, s: CycleState)
  {
    && (s.inputsMigrated ==> InputBefore(t, |t|))
    && (s.dispatched ==> TaskBefore(t, |t|))
    && (s.outputsMigrated ==> OutputBefore(t, |t|))
    && (s.outputsMigrated && s.drained ==> DrainBefore(t, |t|))
  }

  /** Every state reached from Idle is witnessed by the log that reached it. */
  lemma {:induction false} Reached(t: seq<Event>, s: CycleState)
    requires Run(Idle, t) == Some(s)
    ensures Witnessed(t, s)
  {
    if t != [] {
      var n := |t| - 1;
      var p, e := t[..n], t[n];
      var s' := Run(Idle, p).value;
      Reached(p, s');
      assert Agree(p, t, n);
      if s'.inputsMigrated { InputBeforeAgree(p, t, n); }
      if s'.dispatched { TaskBeforeAgree(p, t, n); }
      if s'.outputsMigrated { OutputBeforeAgree(p, t, n); }
      if s'.outputsMigrated && s'.drained { DrainBeforeAgree(p, t, n); }
      if s.inputsMigrated {
        if !s'.inputsMigrated {
          assert IsInputMigration(t[n]);
        }
      }
      if s.dispatched {
        if e.Task? {
          assert InputBefore(t, n);
        }
      }
      if s.outputsMigrated {
        if IsOutputMigration(e) {
          assert TaskBefore(t, n);
        }
      }
      if s.outputsMigrated && s.drained {
        if e.Finish? {
          assert OutputBefore(t, n);
        }
      }
    }
  }

  /** The state reached just before index k of an accepted log. */
  lemma StateBefore(t: seq<Event>, k: nat) returns (s: CycleState)
    requires Accepted(t) && k < |t|
    ensures Witnessed(t[..k], s) && Step(s, t[k]).Some?
  {
    RunPrefix(Idle, t, k + 1);
    var q := t[..k + 1];
    assert q[..k] == t[..k];
    s := Run(Idle, t[..k]).value;
    Reached(t[..k], s);
  }

  lemma DrainBeforeVerify(t: seq<Event>, v: nat)
    requires Accepted(t) && v < |t| && t[v].Verify?
    ensures DrainBefore(t, v)
  {
    var s := StateBefore(t, v);
    assert Agree(t[..v], t, v);
    DrainBeforeAgree(t[..v], t, v);
  }

  /**
   * In an accepted log, every inspection of results is preceded by an
   * input migration, then a task, then an output migration, then a drain.
   */
  lemma VerifyAfterDrain(t: seq<Event>, v: nat) returns (i: nat, j: nat, o: nat, f: nat)
    requires Accepted(t) && v < |t| && t[v].Verify?
    ensures i < j < o < f < v
    ensures IsInputMigration(t[i]) && t[j].Task? && IsOutputMigration(t[o]) && t[f].Finish?
  {
    DrainBeforeVerify(t, v);
    f :| 0 <= f < v && t[f].Finish? && OutputBefore(t, f);
    o :| 0 <= o < f && IsOutputMigration(t[o]) && TaskBefore(t, o);
    j :| 0 <= j < o && t[j].Task? && InputBefore(t, j);
    i :| 0 <= i < j && IsInputMigration(t[i]);
  }

  /** In an accepted log, every output migration follows an input migration and then a task. */
  lemma OutputAfterDispatch(t: seq<Event>, o: nat) returns (i: nat, j: nat)
    requires Accepted(t) && o < |t| && IsOutputMigration(t[o])
    ensures i < j < o && IsInputMigration(t[i]) && t[j].Task?
  {
    var s := StateBefore(t, o);
    assert Agree(t[..o], t, o);
    TaskBeforeAgree(t[..o], t, o);
    j :| 0 <= j < o && t[j].Task? && InputBefore(t, j);
    i :| 0 <= i < j && IsInputMigration(t[i]);
  }

  /** In an accepted log, every task follows an input migration. */
  lemma TaskAfterInput(t: seq<Event>, j: nat) returns (i: nat)
    requires Accepted(t) && j < |t| && t[j].Task?
    ensures i < j && IsInputMigration(t[i])
  {
    var s := StateBefore(t, j);
    assert Agree(t[..j], t, j);
    InputBeforeAgree(t[..j], t, j);
    i :| 0 <= i < j && IsInputMigration(t[i]);
  }

  // ---------------------------------------------------------------------
  // Stream path
  // ---------------------------------------------------------------------

  datatype StreamState = StreamState(initialised: bool, created: set<StreamDir>, running: set<StreamDir>, drained: bool)

  const StreamIdle := StreamState(false, {}, {}, false)

  /** One runtime call of the stream path; None when the call breaks the discipline. */
  function StreamStep(s: StreamState, e: Event): Option<StreamState>
  {
    match e
    case StreamInit => if s.initialised then None else Some(s.(initialised := true))
    case CreateStream(_, d, _) => if s.initialised then Some(s.(created := s.created + {d})) else None
    case StartTransfer(d) =>
      if d in s.created && d !in s.running then Some(s.(running := s.running + {d}, drained := false)) else None
    case Join(d) => if d in s.running then Some(s.(running := s.running - {d})) else None
    case Task(_) => Some(s.(drained := false))
    case Finish => Some(s.(drained := s.running == {}))
    case Verify(_) => if s.drained then Some(s) else None
    case Migrate(_, _) => None
    case _ => Some(s)
  }

  function StreamRun(s: StreamState, t: seq<Event>): Option<StreamState>
  {
    if t == [] then Some(s)
    else match StreamRun(s, t[..|t| - 1])
      case None => None
      case Some(s') => StreamStep(s', t[|t| - 1])
  }

  predicate StreamAccepted(t: seq<Event>)
  {
    StreamRun(StreamIdle, t).Some?
  }

  /** Running two logs one after the other on the stream path is running their concatenation. */
  lemma {:induction false} StreamRunConcat(s: StreamState, t1: seq<Event>, t2: seq<Event>)
    ensures StreamRun(s, t1 + t2) == match StreamRun(s, t1) case None => None case Some(s1) => StreamRun(s1, t2)
  {
    if t2 == [] {
      assert t1 + t2 == t1;
    } else {
      assert (t1 + t2)[..|t1 + t2| - 1] == t1 + t2[..|t2| - 1];
      StreamRunConcat(s, t1, t2[..|t2| - 1]);
    }
  }

  lemma StreamRunSnoc(s: StreamState, t: seq<Event>, e: Event)
    ensures StreamRun(s, t + [e]) == match StreamRun(s, t) case None => None case Some(s') => StreamStep(s', e)
  {
    assert (t + [e])[..|t|] == t;
  }

  /** Neutral calls leave the stream state as it is too. */
  lemma {:induction false} StreamNeutralRun(s: StreamState, t: seq<Event>)
    requires forall k :: 0 <= k < |t| ==> Neutral(t[k])
    ensures StreamRun(s, t) == Some(s)
  {
    if t != [] {
      StreamNeutralRun(s, t[..|t| - 1]);
    }
  }

  lemma {:induction false} StreamRunPrefix(s: StreamState, t: seq<Event>, k: nat)
    requires k <= |t| && StreamRun(s, t).Some?
    ensures StreamRun(s, t[..k]).Some?
  {
    if k < |t| {
      assert t[..|t| - 1][..k] == t[..k];
      StreamRunPrefix(s, t[..|t| - 1], k);
    } else {
      assert t[..k] == t;
    }
  }

  /** Every transfer of direction d started in t before index f is joined before f. */
  ghost predicate JoinedBefore(t: seq<Event>, f: nat, d: StreamDir)
    requires f <= |t|
  {
    forall b :: 0 <= b < f && t[b] == StartTransfer(d) ==> exists k :: b < k < f && t[k] == Join(d)
  }

  /** What a reached stream state says has happened in the log so far. */
  ghost predicate StreamWitnessed(t: seq<Event>, s: StreamState)
  {
    && (forall d :: d !in s.running ==> JoinedBefore(t, |t|, d))
    && (s.drained ==> exists f :: 0 <= f < |t| && t[f] == Finish && forall d :: JoinedBefore(t, f, d))
    && (!s.initialised ==> forall k :: 0 <= k < |t| ==> t[k] != StreamInit)
    && (s.initialised ==> exists k :: 0 <= k < |t| && t[k] == StreamInit)
  }

  lemma StreamWitnessedStep(t: seq<Event>, s: StreamState, e: Event, s': StreamState)
    requires StreamWitnessed(t, s) && StreamStep(s, e) == Some(s')
    ensures StreamWitnessed(t + [e], s')
  {
    var u := t + [e];
    var n := |t|;
    assert forall k :: 0 <= k < n ==> u[k] == t[k];
    forall d | d !in s'.running
      ensures JoinedBefore(u, |u|, d)
    {
      forall b | 0 <= b < |u| && u[b] == StartTransfer(d)
        ensures exists k :: b < k < |u| && u[k] == Join(d)
      {
        if e == Join(d) {
          assert u[n] == Join(d);
        } else {
          assert d !in s.running;
          assert b < n;
          assert t[b] == StartTransfer(d);
          var k :| b < k < n && t[k] == Join(d);
          assert u[k] == Join(d);
        }
      }
    }
    if s'.drained {
      if e == Finish {
        assert u[n] == Finish;
        forall d ensures JoinedBefore(u, n, d) {
          assert JoinedBefore(t, n, d);
        }
      } else {
        var f :| 0 <= f < n && t[f] == Finish && forall d :: JoinedBefore(t, f, d);
        assert u[f] == Finish;
        forall d ensures JoinedBefore(u, f, d) {
          assert JoinedBefore(t, f, d);
        }
      }
    }
    if s'.initialised {
      if s.initialised {
        var k :| 0 <= k < n && t[k] == StreamInit;
        assert u[k] == StreamInit;
      } else {
        assert u[n] == StreamInit;
      }
    }
  }

  lemma {:induction false} StreamReached(t: seq<Event>, s: StreamState)
    requires StreamRun(StreamIdle, t) == Some(s)
    ensures StreamWitnessed(t, s)
  {
    if t != [] {
      var p, e := t[..|t| - 1], t[|t| - 1];
      assert t == p + [e];
      var s' := StreamRun(StreamIdle, p).value;
      StreamReached(p, s');
      StreamWitnessedStep(p, s', e, s);
    }
  }

  /**
   * In an accepted stream log, the host inspects results only after a
   * drain of the queue that itself follows the join of every transfer
   * thread started before it.
   */
  lemma StreamVerifyAfterJoins(t: seq<Event>, v: nat)
    requires StreamAccepted(t) && v < |t| && t[v].Verify?
    ensures exists f :: 0 <= f < v && t[f] == Finish &&
              forall d, b :: 0 <= b < f && t[b] == StartTransfer(d) ==> exists k :: b < k < f && t[k] == Join(d)
  {
    StreamRunPrefix(StreamIdle, t, v + 1);
    var p := t[..v];
    assert t[..v + 1] == p + [t[v]];
    assert t[..v + 1][..v] == p;
    var s := StreamRun(StreamIdle, p).value;
    StreamReached(p, s);
    var f :| 0 <= f < v && p[f] == Finish && forall d :: JoinedBefore(p, f, d);
    assert t[f] == Finish;
    forall d, b | 0 <= b < f && t[b] == StartTransfer(d)
      ensures exists k :: b < k < f && t[k] == Join(d)
    {
      JoinedBeforeExtends(t, v, f, d);
    }
  }

  /** Whether every transfer started before f was joined before f depends only on the log up to f. */
  lemma JoinedBeforeExtends(t: seq<Event>, v: nat, f: nat, d: StreamDir)
    requires f <= v <= |t| && JoinedBefore(t[..v], f, d)
    ensures JoinedBefore(t, f, d)
  {
    var p := t[..v];
    forall b | 0 <= b < f && t[b] == StartTransfer(d)
      ensures exists k :: b < k < f && t[k] == Join(d)
    {
      assert p[b] == StartTransfer(d);
      var k :| b < k < f && p[k] == Join(d);
      assert t[k] == Join(d);
    }
  }

  /**
   * In an accepted stream log, streaming is initialised exactly once, before
   * any stream is created: some init precedes the create, no two inits
   * occur, and so none follows the create.
   */
  lemma StreamInitFirst(t: seq<Event>, c: nat)
    requires StreamAccepted(t) && c < |t| && t[c].CreateStream?
    ensures exists k :: 0 <= k < c && t[k] == StreamInit
    ensures forall i, k :: 0 <= i < k < |t| && t[i] == StreamInit ==> t[k] != StreamInit
    ensures forall k :: c < k < |t| ==> t[k] != StreamInit
  {
    InitBeforeCreate(t, c);
    forall i, k | 0 <= i < k < |t| && t[i] == StreamInit
      ensures t[k] != StreamInit
    {
      NoSecondInit(t, i, k);
    }
  }

  lemma InitBeforeCreate(t: seq<Event>, c: nat)
    requires StreamAccepted(t) && c < |t| && t[c].CreateStream?
    ensures exists k :: 0 <= k < c && t[k] == StreamInit
  {
    StreamRunPrefix(StreamIdle, t, c + 1);
    var p := t[..c];
    assert t[..c + 1] == p + [t[c]];
    assert t[..c + 1][..c] == p;
    var s := StreamRun(StreamIdle, p).value;
    StreamReached(p, s);
    var k :| 0 <= k < c && p[k] == StreamInit;
    assert t[k] == StreamInit;
  }

  /** Once streaming is initialised, an accepted log never initialises it again. */
  lemma NoSecondInit(t: seq<Event>, i: nat, k: nat)
    requires StreamAccepted(t) && i < k < |t| && t[i] == StreamInit
    ensures t[k] != StreamInit
  {
    if t[k] == StreamInit {
      StreamRunPrefix(StreamIdle, t, k + 1);
      var q := t[..k];
      assert q[i] == StreamInit;
      assert t[..k + 1] == q + [t[k]];
      assert t[..k + 1][..k] == q;
      var sq := StreamRun(StreamIdle, q).value;
      StreamReached(q, sq);
      assert false;
    }
  }

}
