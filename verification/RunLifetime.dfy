/**
  The life of one run: the goroutine that executes it (runner.start in
  internal/api/runner.go), the store writes of runs.Execute on each way out
  (internal/runs/runs.go), requests to cancel it (handleCancelRun in
  internal/api/runs.go), and subscribers that read the outcome once their
  channel has closed (handleRunEvents in internal/api/events.go).

  StartRun and StopRun succeed; FinishRun may fail and then changes nothing.
*/
module RunLifetime {
  datatype Status = Pending | Running | Succeeded | Failed | Canceled

  /** Status.Terminal */
  predicate Terminal(s: Status) { s == Succeeded || s == Failed || s == Canceled }

  // ---- Execute, alone ---------------------------------------------------------------

  /** What the outside decides about one execution. */
  datatype Fate = Fate(
    auditFails: bool, canceledInAudit: bool, canceledBeforeRecording: bool,
    encodes: bool, finishes: bool, hasProposals: bool, hasTrace: bool)

  datatype Write = SetStatus(status: Status) | CloseEngine | SaveProposals | SaveTrace

  /** The status an execution ends with. */
  function Outcome(f: Fate): Status {
    if f.auditFails then (if f.canceledInAudit then Canceled else Failed)
    else if f.canceledBeforeRecording then Canceled
    else if !f.encodes || !f.finishes then Failed
    else Succeeded
  }

  class Store {
    var status: Status
    var writes: seq<Write>

    constructor ()
      ensures status == Pending && writes == []
    {
      status, writes := Pending, [];
    }

    method Set(s: Status)
      modifies this
      ensures status == s && writes == old(writes) + [SetStatus(s)]
    {
      status := s;
      writes := writes + [SetStatus(s)];
    }

    method FinishRun(ok: bool) returns (done: bool)
      modifies this
      ensures done == ok
      ensures if ok then status == Succeeded && writes == old(writes) + [SetStatus(Succeeded)]
              else status == old(status) && writes == old(writes)
    {
      if ok {
        Set(Succeeded);
      }
      return ok;
    }

    method Execute(f: Fate) returns (err: bool)
      modifies this
      ensures status == Outcome(f)
      ensures err <==> status != Succeeded
      ensures writes == old(writes) + Trail(f)
    {
      ghost var before := writes;
      Set(Running);
      if f.auditFails {
        Set(if f.canceledInAudit then Canceled else Failed);
        return true;
      }
      writes := writes + [CloseEngine];
      if f.canceledBeforeRecording {
        Set(Canceled);
        return true;
      }
      if !f.encodes {
        Set(Failed);
        return true;
      }
      var done := FinishRun(f.finishes);
      if !done {
        Set(Failed);
        return true;
      }
      if f.hasProposals {
        writes := writes + [SaveProposals];
      }
      if f.hasTrace {
        writes := writes + [SaveTrace];
      }
      return false;
    }
  }

  /** The writes of one execution, in order. */
  function Trail(f: Fate): seq<Write> {
    [SetStatus(Running)] +
    (if f.auditFails then [] else [CloseEngine]) +
    [SetStatus(Outcome(f))] +
    (if Outcome(f) == Succeeded && f.hasProposals then [SaveProposals] else []) +
    (if Outcome(f) == Succeeded && f.hasTrace then [SaveTrace] else [])
  }

  /** On every way out the run is given exactly one status after it starts, a
      terminal one, and success is recorded only after the engine was closed. */
  lemma TrailEndsOnce(f: Fate)
    ensures Trail(f)[0] == SetStatus(Running) && Terminal(Outcome(f))
    ensures exists k :: EndsAt(f, k)
    ensures forall k :: EndsAt(f, k) && Outcome(f) == Succeeded ==> CloseEngine in Trail(f)[..k]
    ensures forall k, j :: EndsAt(f, k) && 0 < j < |Trail(f)| && Trail(f)[j].SetStatus? ==> j == k
  {
    var k := if f.auditFails then 1 else 2;
    assert EndsAt(f, k);
    if Outcome(f) == Succeeded {
      assert Trail(f)[..k][1] == CloseEngine;
    }
  }

  /** The status it ends with, way out by way out. */
  lemma OutcomeMeans(f: Fate)
    ensures Outcome(f) == Succeeded <==> !f.auditFails && !f.canceledBeforeRecording && f.encodes && f.finishes
    ensures Outcome(f) == Canceled <==> if f.auditFails then f.canceledInAudit else f.canceledBeforeRecording
    ensures Outcome(f) in {Succeeded, Canceled, Failed}
  {
  }

  /** What else is written, exactly when, and where: the engine is closed once the audit
      returned, canceled or not, before the status; proposals and then the trace follow
      the status of a run that succeeded, each if there is one. */
  lemma TrailHolds(f: Fate, k: nat, j: nat)
    requires EndsAt(f, k) && j < |Trail(f)|
    ensures CloseEngine in Trail(f) <==> !f.auditFails
    ensures SaveProposals in Trail(f) <==> Outcome(f) == Succeeded && f.hasProposals
    ensures SaveTrace in Trail(f) <==> Outcome(f) == Succeeded && f.hasTrace
    ensures Trail(f)[j] == CloseEngine ==> 0 < j < k
    ensures Trail(f)[j] == SaveProposals ==> j == k + 1
    ensures Trail(f)[j] == SaveTrace ==> j == |Trail(f)| - 1 && k < j
  {
    TrailEndsOnce(f);
    assert k == if f.auditFails then 1 else 2;
    assert !f.auditFails ==> Trail(f)[1] == CloseEngine;
    if Outcome(f) == Succeeded {
      assert f.hasProposals ==> Trail(f)[3] == SaveProposals;
      assert f.hasTrace ==> Trail(f)[|Trail(f)| - 1] == SaveTrace;
    }
  }

  ghost predicate EndsAt(f: Fate, k: int) {
    0 < k < |Trail(f)| && Trail(f)[k] == SetStatus(Outcome(f))
  }

  // ---- every interleaving ----------------------------------------------------------------

  /** Where the run's own goroutine is. */
  datatype Worker =
    | Created                      // in the store, not yet registered
    | Registered                   // in the active map
    | Auditing                     // StartRun written
    | Stopping(status: Status)     // about to write a terminal status
    | Building                     // the pipeline returned, the engine is closed
    | Finishing                    // about to write success
    | Recorded                     // Execute returned
    | Deregistered                 // out of the active map
    | StreamClosed

  /** A cancel request, between its steps. */
  datatype Canceller = Looking | AboutToStop | Answered

  datatype State = State(
    worker: Worker, status: Status, active: bool, streamOpen: bool, contextCanceled: bool,
    cancellers: seq<Canceller>, seen: seq<Status>)

  const START := State(Created, Pending, false, true, false, [], [])

  datatype Step =
    | Register | Begin | AuditErrs | AuditReturns | Stop | GiveUp | Unencodable | ReadyToFinish
    | Finish | FinishErrs | Deregister | CloseStream
    | CancelArrives | CancelLooks(i: nat) | CancelStops(i: nat)
    | Interrupted
    | SubscriberReads

  /** Which steps the run's own goroutine takes. */
  predicate OwnStep(s: Step) {
    s in {Register, Begin, AuditErrs, AuditReturns, Stop, GiveUp, Unencodable, ReadyToFinish, Finish, FinishErrs,
          Deregister, CloseStream}
  }

  predicate Enabled(st: State, s: Step) {
    match s
    case Register => st.worker == Created
    case Begin => st.worker == Registered
    case AuditErrs => st.worker == Auditing
    case AuditReturns => st.worker == Auditing
    case Stop => st.worker.Stopping?
    case GiveUp => st.worker == Building && st.contextCanceled
    case Unencodable => st.worker == Building && !st.contextCanceled
    case ReadyToFinish => st.worker == Building && !st.contextCanceled
    case Finish => st.worker == Finishing
    case FinishErrs => st.worker == Finishing
    case Deregister => st.worker == Recorded
    case CloseStream => st.worker == Deregistered
    case CancelArrives => true
    case CancelLooks(i) => i < |st.cancellers| && st.cancellers[i] == Looking
    case CancelStops(i) => i < |st.cancellers| && st.cancellers[i] == AboutToStop
    // another process starting on the same data directory: MarkInterrupted
    case Interrupted => !Terminal(st.status)
    // a receive that reports the channel closed, then store.Run
    case SubscriberReads => !st.streamOpen
  }

  function Do(st: State, s: Step): State
    requires Enabled(st, s)
  {
    match s
    case Register => st.(worker := Registered, active := true)
    case Begin => st.(worker := Auditing, status := Running)
    case AuditErrs => st.(worker := Stopping(if st.contextCanceled then Canceled else Failed))
    case AuditReturns => st.(worker := Building)
    case Stop => st.(worker := Recorded, status := st.worker.status)
    case GiveUp => st.(worker := Stopping(Canceled))
    case Unencodable => st.(worker := Stopping(Failed))
    case ReadyToFinish => st.(worker := Finishing)
    case Finish => st.(worker := Recorded, status := Succeeded)
    case FinishErrs => st.(worker := Stopping(Failed))
    case Deregister => st.(worker := Deregistered, active := false)
    case CloseStream => st.(worker := StreamClosed, streamOpen := false)
    case CancelArrives =>
      // a finished run is answered with a conflict
      st.(cancellers := st.cancellers + [if Terminal(st.status) then Answered else Looking])
    case CancelLooks(i) =>
      if st.active then st.(contextCanceled := true, cancellers := st.cancellers[i := Answered])
      else st.(cancellers := st.cancellers[i := AboutToStop])
    case CancelStops(i) => st.(status := Failed, cancellers := st.cancellers[i := Answered])
    case Interrupted => st.(status := Failed)
    case SubscriberReads => st.(seen := st.seen + [st.status])
  }

  predicate Recorded?(w: Worker) { w.Recorded? || w.Deregistered? || w.StreamClosed? }

  ghost predicate Sound(st: State) {
    && (st.active <==> !(st.worker.Created? || st.worker.Deregistered? || st.worker.StreamClosed?))
    && (!st.streamOpen <==> st.worker == StreamClosed)
    && (st.worker.Stopping? ==> Terminal(st.worker.status))
    && (Recorded?(st.worker) ==> Terminal(st.status))
    && (forall i :: 0 <= i < |st.seen| ==> Terminal(st.seen[i]))
  }

  ghost predicate Possible(st: State, steps: seq<Step>)
    decreases |steps|
  {
    steps == [] || (Enabled(st, steps[0]) && Possible(Do(st, steps[0]), steps[1..]))
  }

  ghost function After(st: State, steps: seq<Step>): State
    requires Possible(st, steps)
    decreases |steps|
  {
    if steps == [] then st else After(Do(st, steps[0]), steps[1..])
  }

  lemma {:induction false} AlwaysSound(st: State, steps: seq<Step>)
    requires Sound(st) && Possible(st, steps)
    ensures Sound(After(st, steps))
    decreases |steps|
  {
    if steps != [] {
      AlwaysSound(Do(st, steps[0]), steps[1..]);
    }
  }

  /** Whenever a subscriber's channel has been closed by the run, the run is out of
      the active map and its stored status is terminal, and every outcome any
      subscriber has read so far was terminal. */
  lemma ClosedMeansOver(steps: seq<Step>)
    requires Possible(START, steps)
    ensures var st := After(START, steps);
      (!st.streamOpen ==> !st.active && Terminal(st.status)) &&
      forall i :: 0 <= i < |st.seen| ==> Terminal(st.seen[i])
  {
    AlwaysSound(START, steps);
  }

  /** Once the outcome is recorded the status is never non-terminal again, whatever
      late cancellations and other processes write. */
  lemma {:induction false} TerminalForGood(st: State, steps: seq<Step>)
    requires Sound(st) && Recorded?(st.worker) && Possible(st, steps)
    ensures Recorded?(After(st, steps).worker) && Terminal(After(st, steps).status)
    decreases |steps|
  {
    if steps != [] {
      TerminalForGood(Do(st, steps[0]), steps[1..]);
    }
  }

  /** A racing cancellation can still replace one terminal status by another: a
      request that looked before the run finished finds it gone from the active map
      and writes "failed" over "succeeded". */
  lemma LateCancelOverwrites() returns (steps: seq<Step>, late: seq<Step>)
    ensures Possible(START, steps) && Possible(After(START, steps), late)
    ensures After(START, steps).status == Succeeded && After(START, steps).worker == Deregistered
    ensures After(After(START, steps), late).status == Failed
  {
    steps := FinishUnderCancellation();
    late := [CancelLooks(0), CancelStops(0)];
    assert late == [CancelLooks(0), CancelStops(0)] + [];
    Prefixed(After(START, steps), CancelLooks(0), CancelStops(0), []);
  }

  ghost predicate AllAnswered(st: State) { forall i :: 0 <= i < |st.cancellers| ==> st.cancellers[i] == Answered }

  ghost predicate OutcomeStands(st: State) {
    forall steps :: Possible(st, steps) ==> After(st, steps).status == st.status
  }

  /** Exact: a recorded outcome is never replaced by another if and only if it is
      "failed" already, or no cancel request is between its first look at the run and
      its answer. */
  lemma OutcomeStandsExactly(st: State)
    requires Sound(st) && Recorded?(st.worker)
    ensures OutcomeStands(st) <==> st.status == Failed || AllAnswered(st)
  {
    if st.status == Failed || AllAnswered(st) {
      forall steps | Possible(st, steps) ensures After(st, steps).status == st.status {
        SettledStays(st, steps);
      }
    } else {
      var i :| 0 <= i < |st.cancellers| && st.cancellers[i] != Answered;
      var steps := Overwriting(st, i);
      assert Possible(st, steps) && After(st, steps).status != st.status;
    }
  }

  lemma {:induction false} SettledStays(st: State, steps: seq<Step>)
    requires Sound(st) && Recorded?(st.worker) && Possible(st, steps) && (st.status == Failed || AllAnswered(st))
    ensures After(st, steps).status == st.status
    decreases |steps|
  {
    if steps != [] {
      SettledStays(Do(st, steps[0]), steps[1..]);
    }
  }

  /** The steps by which an unanswered cancel request writes "failed". */
  lemma Overwriting(st: State, i: nat) returns (steps: seq<Step>)
    requires Sound(st) && Recorded?(st.worker) && i < |st.cancellers| && st.cancellers[i] != Answered
    ensures Possible(st, steps) && After(st, steps).status == Failed
  {
    if st.cancellers[i] == AboutToStop {
      steps := [CancelStops(i)];
      LastStep(st, CancelStops(i));
    } else if st.active {
      var gone := Do(st, Deregister);
      LastStep(Do(gone, CancelLooks(i)), CancelStops(i));
      steps := Before(st, Deregister, CancelLooks(i), [CancelStops(i)]);
    } else {
      LastStep(st, CancelLooks(i));
      assert [CancelLooks(i), CancelStops(i)] == [CancelLooks(i), CancelStops(i)] + [];
      steps := Before(st, CancelLooks(i), CancelStops(i), []);
    }
  }

  lemma FinishUnderCancellation() returns (steps: seq<Step>)
    ensures Possible(START, steps)
    ensures After(START, steps) == START.(worker := Deregistered, status := Succeeded, cancellers := [Looking])
  {
    var rest := FinishWhileLooking();
    assert START.cancellers + [Looking] == [Looking];
    steps := Before(START, CancelArrives, Register, rest);
  }

  lemma FinishWhileLooking() returns (steps: seq<Step>)
    ensures var st := START.(worker := Registered, active := true, cancellers := [Looking]);
      Possible(st, steps) &&
      After(st, steps) == START.(worker := Deregistered, status := Succeeded, cancellers := [Looking])
  {
    var built := START.(worker := Building, status := Running, active := true, cancellers := [Looking]);
    var last := built.(worker := Recorded, status := Succeeded);
    steps := [Deregister];
    assert Possible(last, steps) && After(last, steps) == Do(last, Deregister) by {
      assert steps[1..] == [];
    }
    steps := Before(built, ReadyToFinish, Finish, steps);
    steps := Before(START.(worker := Registered, active := true, cancellers := [Looking]), Begin, AuditReturns, steps);
  }

  lemma Before(st: State, a: Step, b: Step, rest: seq<Step>) returns (steps: seq<Step>)
    requires Enabled(st, a) && Enabled(Do(st, a), b) && Possible(Do(Do(st, a), b), rest)
    ensures Possible(st, steps) && After(st, steps) == After(Do(Do(st, a), b), rest)
  {
    steps := [a, b] + rest;
    Prefixed(st, a, b, rest);
  }

  lemma Prefixed(st: State, a: Step, b: Step, rest: seq<Step>)
    requires Enabled(st, a) && Enabled(Do(st, a), b)
    ensures Possible(st, [a, b] + rest) <==> Possible(Do(Do(st, a), b), rest)
    ensures Possible(st, [a, b] + rest) ==> After(st, [a, b] + rest) == After(Do(Do(st, a), b), rest)
  {
    var steps := [a, b] + rest;
    assert steps[1..][0] == b && steps[1..][1..] == rest;
  }

  // ---- Execute is a path through these steps ------------------------------------------------

  /** A cancellation that arrives while the pipeline is at work. */
  function Cancelling(f: Fate): seq<Step> {
    if (if f.auditFails then f.canceledInAudit else f.canceledBeforeRecording) then [CancelArrives, CancelLooks(0)] else []
  }

  function Ending(f: Fate): seq<Step> {
    if f.auditFails then [AuditErrs, Stop]
    else if f.canceledBeforeRecording then [AuditReturns, GiveUp] + [Stop]
    else if !f.encodes then [AuditReturns, Unencodable] + [Stop]
    else if !f.finishes then [AuditReturns, ReadyToFinish] + [FinishErrs, Stop]
    else [AuditReturns, ReadyToFinish] + [Finish]
  }

  lemma EndingEnds(st: State, f: Fate)
    requires st.worker == Auditing && st.contextCanceled == (Cancelling(f) != [])
    ensures Possible(st, Ending(f))
    ensures After(st, Ending(f)).worker == Recorded && After(st, Ending(f)).status == Outcome(f)
  {
    if f.auditFails {
      assert [AuditErrs, Stop] == [AuditErrs, Stop] + [];
      Prefixed(st, AuditErrs, Stop, []);
    } else if f.canceledBeforeRecording {
      Prefixed(st, AuditReturns, GiveUp, [Stop]);
      LastStep(Do(Do(st, AuditReturns), GiveUp), Stop);
    } else if !f.encodes {
      Prefixed(st, AuditReturns, Unencodable, [Stop]);
      LastStep(Do(Do(st, AuditReturns), Unencodable), Stop);
    } else {
      var ready := Do(Do(st, AuditReturns), ReadyToFinish);
      if f.finishes {
        Prefixed(st, AuditReturns, ReadyToFinish, [Finish]);
        LastStep(ready, Finish);
      } else {
        assert [FinishErrs, Stop] == [FinishErrs, Stop] + [];
        Prefixed(st, AuditReturns, ReadyToFinish, [FinishErrs, Stop]);
        Prefixed(ready, FinishErrs, Stop, []);
      }
    }
  }

  lemma LastStep(st: State, s: Step)
    requires Enabled(st, s)
    ensures Possible(st, [s]) && After(st, [s]) == Do(st, s)
  {
    assert [s][1..] == [];
  }

  /** Every execution, with the status it ends with, is a run of the steps above. */
  lemma ExecuteIsAPath(f: Fate)
    ensures var steps := [Register, Begin] + (Cancelling(f) + Ending(f));
      Possible(START, steps) && After(START, steps).worker == Recorded && After(START, steps).status == Outcome(f)
  {
    var begun := Do(Do(START, Register), Begin);
    Prefixed(START, Register, Begin, Cancelling(f) + Ending(f));
    if Cancelling(f) == [] {
      assert Cancelling(f) + Ending(f) == Ending(f);
      EndingEnds(begun, f);
    } else {
      Prefixed(begun, CancelArrives, CancelLooks(0), Ending(f));
      EndingEnds(Do(Do(begun, CancelArrives), CancelLooks(0)), f);
    }
  }

  // ---- every way out ends ------------------------------------------------------------------

  /** How many steps the run's own goroutine can still take. */
  function StepsLeft(w: Worker): nat {
    match w
    case Created => 8
    case Registered => 7
    case Auditing => 6
    case Building => 5
    case Finishing => 4
    case Stopping(_) => 3
    case Recorded => 2
    case Deregistered => 1
    case StreamClosed => 0
  }

  /** On every path of Execute the goroutine can go on until the stream is closed,
      and each of its steps brings that nearer; nobody else can set it back. */
  lemma EveryPathCloses(st: State, s: Step)
    requires Enabled(st, s)
    ensures OwnStep(s) ==> StepsLeft(Do(st, s).worker) < StepsLeft(st.worker)
    ensures !OwnStep(s) ==> Do(st, s).worker == st.worker
    ensures st.worker != StreamClosed ==> exists own :: OwnStep(own) && Enabled(st, own)
  {
    if st.worker != StreamClosed {
      var own :=
        match st.worker
        case Created => Register
        case Registered => Begin
        case Auditing => AuditReturns
        case Building => if st.contextCanceled then GiveUp else ReadyToFinish
        case Finishing => Finish
        case Stopping(_) => Stop
        case Recorded => Deregister
        case Deregistered => CloseStream
        case StreamClosed => CloseStream;
      assert OwnStep(own) && Enabled(st, own);
    }
  }
}
