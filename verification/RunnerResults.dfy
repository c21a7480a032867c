/** What a task's outcomes come to, told by the outcomes alone: statuses, verdict, calls, leftovers,
    and the fields of a run's summary. */
module RunnerResults {
  import opened Common
  import opened Runner

  /** Sandbox, preparation and bridge all worked. */
  predicate Ready(o: Outcomes) { o.sandbox == Started && o.prepared && o.bridgeStarted }

  /** What a component's answer says: canceled or failed by its error, otherwise its own status, and
      success if it gave none. */
  predicate Tells(err: Option<bool>, own: Status, status: Status) {
    && (err == Some(true) ==> status == Canceled)
    && (err == Some(false) ==> status == Failed)
    && (err == None && own == Unset ==> status == Succeeded)
    && (err == None && own != Unset ==> status == own)
  }

  /** The statuses of a finished task. */
  lemma StatusesTell(o: Outcomes, r: TaskResult, log: seq<Event>, left: seq<nat>, failed: bool)
    requires Followed(o, r, log, left, failed)
    ensures !Ready(o) ==> r.harness == NotStarted && r.isolation == NotStarted && r.evaluation == NotRun && !r.harnessStopped && !r.bridgeRevoked
    ensures Ready(o) && o.harnessStartErr.Some? ==> Tells(o.harnessStartErr, Unset, r.harness)
    ensures Ready(o) && o.harnessStartErr.None? ==> Tells(o.harnessRunErr, o.harnessStatus, r.harness)
    ensures Ready(o) ==> r.harnessStopped == o.isolateHarness && r.bridgeRevoked == o.isolateBridge
    ensures Ready(o) && o.isolateHarness && o.isolateBridge ==> r.isolation == Confirmed && Tells(o.evalErr, o.evalStatus, r.evaluation)
    ensures Ready(o) && !(o.isolateHarness && o.isolateBridge) ==> r.isolation == BlockedIsolation && r.evaluation == BlockedIsolation
  {
  }

  lemma {:induction false} NothingLeftExactly(started: seq<nat>, ok: nat -> bool)
    ensures FailedStops(started, ok) == [] <==> forall i :: 0 <= i < |started| ==> ok(started[i])
  {
    if started != [] {
      NothingLeftExactly(started[1..], ok);
      forall i | 1 <= i < |started| && (forall j :: 0 <= j < |started[1..]| ==> ok(started[1..][j])) ensures ok(started[i]) {
        assert started[i] == started[1..][i - 1];
      }
    }
  }

  /** A task succeeds exactly when every step of it did: the start of everything, the run, both
      isolation stops, the evaluation, and the stop of every sandbox, all within its context. */
  lemma SuccessIsExact(o: Outcomes, r: TaskResult, log: seq<Event>, left: seq<nat>, failed: bool)
    requires Followed(o, r, log, left, failed)
    ensures !failed <==> Ready(o) && o.harnessStartErr.None? && o.harnessRunErr.None? && o.isolateHarness && o.isolateBridge && o.evalErr.None?
                         && o.stopSandbox && (forall i :: 0 <= i < |o.evalStarted| ==> o.evalStopOk(o.evalStarted[i])) && !o.contextEnded
  {
    NothingLeftExactly(o.evalStarted, o.evalStopOk);
  }

  /** The cleanup status: not needed exactly without a sandbox; failed exactly when some stop that was
      still owed at the end did not work. */
  lemma CleanupIsExact(o: Outcomes, r: TaskResult, log: seq<Event>, left: seq<nat>, failed: bool)
    requires Followed(o, r, log, left, failed)
    ensures r.cleanup in {NotNeeded, Succeeded, Failed} && (r.cleanup == NotNeeded <==> o.sandbox != Started)
    ensures r.cleanup == Failed <==>
              o.sandbox == Started
              && (!o.stopSandbox
               || (Ready(o) && !o.isolateHarness && !o.stopHarness)
               || (o.prepared && !(o.bridgeStarted && o.isolateBridge) && !o.stopBridge)
               || (Ready(o) && o.isolateHarness && o.isolateBridge && exists i :: 0 <= i < |o.evalStarted| && !o.evalStopOk(o.evalStarted[i])))
  {
    NothingLeftExactly(o.evalStarted, o.evalStopOk);
  }

  /** The sandboxes kept are those whose stop failed, in the order they were started. */
  lemma {:induction false} LeftAreTheFailed(a: seq<nat>, b: seq<nat>, ok: nat -> bool)
    ensures FailedStops(a + b, ok) == FailedStops(a, ok) + FailedStops(b, ok)
    ensures |a| == 1 ==> FailedStops(a, ok) == if ok(a[0]) then [] else a
  {
    if a == [] {
      assert a + b == b;
    } else {
      assert (a + b)[1..] == a[1..] + b;
      LeftAreTheFailed(a[1..], b, ok);
    }
  }

  lemma LeftIsKept(o: Outcomes, r: TaskResult, log: seq<Event>, left: seq<nat>, failed: bool)
    requires Followed(o, r, log, left, failed)
    ensures left == if Ready(o) && o.isolateHarness && o.isolateBridge then FailedStops(o.evalStarted, o.evalStopOk) else []
  {
  }

  // ----- which calls are made -----

  lemma {:induction false} EvalCalls(ks: seq<nat>, ok: nat -> bool, e: Event)
    ensures e in EvalStartCalls(ks) <==> e.EvalStarted? && e.k in ks
    ensures e in EvalStopCalls(ks, ok) <==> e.EvalStop? && e.k in ks && e.ok == ok(e.k)
    ensures |EvalStartCalls(ks)| == |EvalStopCalls(ks, ok)| == |ks|
  {
    if ks != [] {
      var n := |ks| - 1;
      assert ks == ks[..n] + [ks[n]];
      EvalCalls(ks[..n], ok, e);
    }
  }

  /** What a task owes at its end, and what it calls. */
  predicate Called(o: Outcomes, e: Event) {
    var reached := Ready(o);
    var isolated := reached && o.isolateHarness && o.isolateBridge;
    match e
    case SandboxStarted => o.sandbox == Started
    case BridgeStart => o.sandbox == Started && o.prepared
    case HarnessStart => reached
    case HarnessRun => reached && o.harnessStartErr == None
    case Evaluate => isolated
    case EvalStarted(k) => isolated && k in o.evalStarted
    case EvalStop(k, ok) => isolated && k in o.evalStarted && ok == o.evalStopOk(k)
    case HarnessStop(ok) => reached && (ok == o.isolateHarness || (!o.isolateHarness && ok == o.stopHarness))
    case BridgeStop(ok) =>
      if reached then ok == o.isolateBridge || (!o.isolateBridge && ok == o.stopBridge) else o.sandbox == Started && o.prepared && ok == o.stopBridge
    case SandboxStop(ok) => o.sandbox == Started && ok == o.stopSandbox
  }

  lemma StartAndWork(o: Outcomes, e: Event)
    ensures e in StartCalls(o) + WorkCalls(o) <==>
              match e
              case SandboxStarted => o.sandbox == Started
              case BridgeStart => o.sandbox == Started && o.prepared
              case HarnessStart => Ready(o)
              case HarnessRun => Ready(o) && o.harnessStartErr == None
              case HarnessStop(ok) => Ready(o) && ok == o.isolateHarness
              case BridgeStop(ok) => Ready(o) && ok == o.isolateBridge
              case Evaluate => Ready(o) && o.isolateHarness && o.isolateBridge
              case EvalStarted(k) => Ready(o) && o.isolateHarness && o.isolateBridge && k in o.evalStarted
              case _ => false
  {
    EvalCalls(o.evalStarted, o.evalStopOk, e);
  }

  lemma AtTheEnd(o: Outcomes, e: Event)
    ensures e in EndCalls(o) <==>
              match e
              case HarnessStop(ok) => Ready(o) && !o.isolateHarness && ok == o.stopHarness
              case BridgeStop(ok) => o.sandbox == Started && o.prepared && !(o.bridgeStarted && o.isolateBridge) && ok == o.stopBridge
              case SandboxStop(ok) => o.sandbox == Started && ok == o.stopSandbox
              case EvalStop(k, ok) => Ready(o) && o.isolateHarness && o.isolateBridge && k in o.evalStarted && ok == o.evalStopOk(k)
              case _ => false
  {
    EvalCalls(EvalOwed(o), o.evalStopOk, e);
  }

  function One(b: bool): nat { if b then 1 else 0 }

  /** Every call of a task is one its outcomes call for, with the answer they gave, and all of those are
      made; the length says that none is made twice. In which order, the rules of the monitor say. */
  lemma CallsAreExact(o: Outcomes, r: TaskResult, log: seq<Event>, left: seq<nat>, failed: bool, e: Event)
    requires Followed(o, r, log, left, failed)
    ensures e in log <==> Called(o, e)
    ensures |log| == 2 * One(o.sandbox == Started) + One(o.sandbox == Started && o.prepared)
                     + (if !Ready(o) then One(o.sandbox == Started && o.prepared)
                        else 3 + One(o.harnessStartErr.None?) + One(!o.isolateHarness) + One(!o.isolateBridge)
                             + if o.isolateHarness && o.isolateBridge then 1 + 2 * |o.evalStarted| else 0)
  {
    StartAndWork(o, e);
    AtTheEnd(o, e);
    EvalCalls(o.evalStarted, o.evalStopOk, e);
  }

  // ----- the summary -----

  function Where(tasks: seq<TaskResult>, p: TaskResult -> bool): set<int> {
    set i | 0 <= i < |tasks| && p(tasks[i])
  }

  lemma {:induction false} CountIsHowMany(tasks: seq<TaskResult>, p: TaskResult -> bool)
    ensures Count(tasks, p) == |Where(tasks, p)|
  {
    if tasks == [] {
      assert Where(tasks, p) == {};
    } else {
      var n := |tasks| - 1;
      CountIsHowMany(tasks[..n], p);
      assert Where(tasks, p) == Where(tasks[..n], p) + if p(tasks[n]) then {n} else {};
      assert n !in Where(tasks[..n], p);
    }
  }

  /** The fields of a summary are the numbers of tasks with these very statuses. */
  lemma SummaryIsHowMany(tasks: seq<TaskResult>)
    ensures var s := SummaryOf(tasks);
            && s.tasks == |tasks|
            && s.harnessSucceeded == |set i | 0 <= i < |tasks| && tasks[i].harness == Succeeded|
            && s.harnessFailed == |set i | 0 <= i < |tasks| && (tasks[i].harness == Failed || tasks[i].harness == Canceled)|
            && s.evaluationsSucceeded == |set i | 0 <= i < |tasks| && tasks[i].evaluation == Succeeded|
            && s.evaluationsFailed == |set i | 0 <= i < |tasks| && (tasks[i].evaluation == Failed || tasks[i].evaluation == Canceled)|
            && s.evaluationsBlocked == |set i | 0 <= i < |tasks| && tasks[i].evaluation == BlockedIsolation|
            && s.evaluationsRun == s.evaluationsSucceeded + s.evaluationsFailed
            && s.cleanupFailed == |set i | 0 <= i < |tasks| && tasks[i].cleanup == Failed|
  {
    HarnessFields(tasks);
    EvaluationFields(tasks);
    RunIsBoth(tasks);
  }

  lemma HarnessFields(tasks: seq<TaskResult>)
    ensures Count(tasks, HarnessOk) == |set i | 0 <= i < |tasks| && tasks[i].harness == Succeeded|
    ensures Count(tasks, HarnessBroke) == |set i | 0 <= i < |tasks| && (tasks[i].harness == Failed || tasks[i].harness == Canceled)|
    ensures Count(tasks, CleanupBroke) == |set i | 0 <= i < |tasks| && tasks[i].cleanup == Failed|
  {
    CountIsHowMany(tasks, HarnessOk);
    CountIsHowMany(tasks, HarnessBroke);
    CountIsHowMany(tasks, CleanupBroke);
    assert Where(tasks, HarnessOk) == set i | 0 <= i < |tasks| && tasks[i].harness == Succeeded;
    assert Where(tasks, HarnessBroke) == set i | 0 <= i < |tasks| && (tasks[i].harness == Failed || tasks[i].harness == Canceled);
    assert Where(tasks, CleanupBroke) == set i | 0 <= i < |tasks| && tasks[i].cleanup == Failed;
  }

  lemma EvaluationFields(tasks: seq<TaskResult>)
    ensures Count(tasks, EvaluationOk) == |set i | 0 <= i < |tasks| && tasks[i].evaluation == Succeeded|
    ensures Count(tasks, EvaluationBroke) == |set i | 0 <= i < |tasks| && (tasks[i].evaluation == Failed || tasks[i].evaluation == Canceled)|
    ensures Count(tasks, EvaluationBlocked) == |set i | 0 <= i < |tasks| && tasks[i].evaluation == BlockedIsolation|
  {
    CountIsHowMany(tasks, EvaluationOk);
    CountIsHowMany(tasks, EvaluationBroke);
    CountIsHowMany(tasks, EvaluationBlocked);
    assert Where(tasks, EvaluationOk) == set i | 0 <= i < |tasks| && tasks[i].evaluation == Succeeded;
    assert Where(tasks, EvaluationBroke) == set i | 0 <= i < |tasks| && (tasks[i].evaluation == Failed || tasks[i].evaluation == Canceled);
    assert Where(tasks, EvaluationBlocked) == set i | 0 <= i < |tasks| && tasks[i].evaluation == BlockedIsolation;
  }

  lemma {:induction false} RunIsBoth(tasks: seq<TaskResult>)
    ensures Count(tasks, Evaluated) == Count(tasks, EvaluationOk) + Count(tasks, EvaluationBroke)
  {
    if tasks != [] { RunIsBoth(tasks[..|tasks| - 1]); }
  }
}
