/** The managed model process (internal/modelruntime/sglang/process.go): the sections that run
    under the runtime mutex, as functions and as updates of the `Runtime` object. */
module Process {
  import opened Common

  datatype Signal = Term | Kill
  datatype SignalResult = Delivered | NoGroup | SignalFailed

  /** How the stop protocol itself can fail, and everything a stop can report. */
  datatype ProtocolFault = TermFailed | KillFailed | NotExited | ProbeFailed | NotAbsent
  datatype Fault = InProtocol(p: ProtocolFault) | ResidualKillFailed | CloseFailed | ExitedUnexpectedly

  datatype StopResult = Clean | Faulty(faults: set<Fault>, cleanupFailed: bool) | DeadlineExceeded

  datatype Why = WaitError | ObserveError | PlainExit

  /** The fields guarded by the mutex. `attempt` names the running stop attempt, `done` the closed channel. */
  datatype View = View(started: bool, stopping: bool, exitObserved: bool, killIssued: bool, residualFailed: bool,
                       closeFailed: bool, unexpected: Option<Why>, done: bool,
                       attempt: Option<nat>, confirmed: bool, confirmedResult: StopResult)

  const Idle := View(false, false, false, false, false, false, None, false, None, false, Clean)

  /** joinStopErrors: nil exactly when nothing went wrong; cleanup failed unless the only
      fault is the unexpected exit. */
  function JoinStopErrors(fault: Option<ProtocolFault>, residual: bool, close: bool, unexpected: bool): (r: StopResult)
    ensures r == Clean <==> fault.None? && !residual && !close && !unexpected
    ensures r != Clean ==> r.Faulty? && (r.cleanupFailed <==> r.faults != {ExitedUnexpectedly})
                           && (ExitedUnexpectedly in r.faults <==> unexpected)
                           && (ResidualKillFailed in r.faults <==> residual) && (CloseFailed in r.faults <==> close)
                           && (forall p :: InProtocol(p) in r.faults <==> fault == Some(p))
  {
    var faults := (if fault.Some? then {InProtocol(fault.value)} else {}) + (if residual then {ResidualKillFailed} else {})
                + (if close then {CloseFailed} else {}) + (if unexpected then {ExitedUnexpectedly} else {});
    assert fault.Some? ==> InProtocol(fault.value) in faults;
    assert residual ==> ResidualKillFailed in faults;
    assert close ==> CloseFailed in faults;
    if fault.None? && !residual && !close && !unexpected then Clean
    else Faulty(faults, fault.Some? || residual || close)
  }

  /** The waiter's first section, after the exit was observed but before the child is reaped:
      the rest of the group is killed unless a stop already did. */
  function ObserveExit(v: View, r: SignalResult): (View, bool) {
    var v1 := v.(exitObserved := true);
    if v.killIssued then (v1, v.stopping)
    else if r == SignalFailed then (v1.(residualFailed := true), v.stopping)
    else (v1.(killIssued := true), v.stopping)
  }

  /** The waiter's last section, after the child was reaped. */
  function FinishWait(v: View, intentional: bool, observeFailed: bool, waitFailed: bool, closeFailed: bool): View {
    var v1 := v.(closeFailed := closeFailed || observeFailed, done := true);
    if intentional then v1
    else v1.(unexpected := Some(if waitFailed then WaitError else if observeFailed then ObserveError else PlainExit))
  }

  /** signalOwned: nothing is sent once the exit was observed. The results say whether the
      signal was sent and whether sending failed. */
  function SignalOwned(v: View, signal: Signal, r: SignalResult): (View, bool, bool) {
    if v.exitObserved || v.done then (v, false, false)
    else
      var v1 := v.(stopping := true, killIssued := v.killIssued || (signal == Kill && r != SignalFailed));
      (v1, true, r == SignalFailed)
  }

  datatype StopEntry = AlreadyConfirmed(result: StopResult) | Join(attempt: nat) | Run | NothingStarted

  /** The first section of Stop for the call numbered t. */
  function BeginStop(v: View, t: nat): (View, StopEntry) {
    if v.confirmed then (v, AlreadyConfirmed(v.confirmedResult))
    else if v.attempt.Some? then (v, Join(v.attempt.value))
    else if !v.started then (v.(confirmed := true, confirmedResult := Clean, attempt := None), NothingStarted)
    else (v.(attempt := Some(t)), Run)
  }

  /** The last section of a stop attempt. */
  function ConcludeStop(v: View, fault: Option<ProtocolFault>): (View, StopResult) {
    var r := JoinStopErrors(fault, v.residualFailed, v.closeFailed, v.unexpected.Some?);
    var v1 := if fault.None? then v.(confirmed := true, confirmedResult := r) else v;
    (v1.(attempt := None), r)
  }

  class Runtime {
    var started: bool
    var stopping: bool
    var exitObserved: bool
    var killIssued: bool
    var residualFailed: bool
    var closeFailed: bool
    var unexpected: Option<Why>
    var done: bool
    var attempt: Option<nat>
    var confirmed: bool
    var confirmedResult: StopResult

    ghost function Fields(): View reads this {
      View(started, stopping, exitObserved, killIssued, residualFailed, closeFailed, unexpected, done, attempt, confirmed, confirmedResult)
    }

    constructor ()
      ensures Fields() == Idle
    {
      started, stopping, exitObserved, killIssued, residualFailed, closeFailed := false, false, false, false, false, false;
      unexpected, done, attempt, confirmed, confirmedResult := None, false, None, false, Clean;
    }

    method Observe(r: SignalResult) returns (intentional: bool)
      modifies this
      ensures (Fields(), intentional) == ObserveExit(old(Fields()), r)
    {
      intentional, exitObserved := stopping, true;
      if !killIssued {
        if r != SignalFailed { killIssued := true; } else { residualFailed := true; }
      }
    }

    method Finish(intentional: bool, observeFailed: bool, waitFailed: bool, closeErr: bool)
      modifies this
      ensures Fields() == FinishWait(old(Fields()), intentional, observeFailed, waitFailed, closeErr)
    {
      closeFailed := closeErr || observeFailed;
      if !intentional {
        unexpected := Some(if waitFailed then WaitError else if observeFailed then ObserveError else PlainExit);
      }
      done := true;
    }

    method Send(signal: Signal, r: SignalResult) returns (sent: bool, failed: bool)
      modifies this
      ensures (Fields(), sent, failed) == SignalOwned(old(Fields()), signal, r)
    {
      if exitObserved || done { return false, false; }
      stopping := true;
      if signal == Kill && r != SignalFailed { killIssued := true; }
      return true, r == SignalFailed;
    }

    method EnterStop(t: nat) returns (entry: StopEntry)
      modifies this
      ensures (Fields(), entry) == BeginStop(old(Fields()), t)
    {
      if confirmed { return AlreadyConfirmed(confirmedResult); }
      if attempt.Some? { return Join(attempt.value); }
      if !started {
        confirmed, confirmedResult, attempt := true, Clean, None;
        return NothingStarted;
      }
      attempt := Some(t);
      return Run;
    }

    method LeaveStop(fault: Option<ProtocolFault>) returns (r: StopResult)
      modifies this
      ensures (Fields(), r) == ConcludeStop(old(Fields()), fault)
    {
      r := JoinStopErrors(fault, residualFailed, closeFailed, unexpected.Some?);
      if fault.None? { confirmed, confirmedResult := true, r; }
      attempt := None;
    }
  }
}
