/** What every Stop of the managed process returns, and what each step of one does, over all
    interleavings. */
module ProcessResults {
  import opened Common
  import opened Process
  import opened ProcessRuns

  // ----- results over whole runs -----

  /** A result is the confirmed one, or it reports that the stop protocol failed, or only that the
      caller's deadline came first. */
  predicate ResultOk(confirmed: bool, result: StopResult, r: StopResult) {
    || (confirmed && r == result)
    || (r.Faulty? && r.cleanupFailed && exists f :: InProtocol(f) in r.faults)
    || r.DeadlineExceeded?
  }

  predicate NoProtocolFault(r: StopResult) { r.Faulty? ==> forall f :: InProtocol(f) !in r.faults }

  ghost predicate AllOk(confirmed: bool, result: StopResult, finished: map<nat, StopResult>, events: seq<Event>) {
    && (forall t :: t in finished ==> ResultOk(confirmed, result, finished[t]))
    && (forall k :: 0 <= k < |events| && events[k].StopReturned? ==> ResultOk(confirmed, result, events[k].result))
    && (confirmed ==> NoProtocolFault(result) && !result.DeadlineExceeded?)
  }

  ghost predicate Results(s: Sys) { AllOk(s.v.confirmed, s.v.confirmedResult, s.finished, s.events) }

  /** Nothing was confirmed before that is not confirmed still; new events bring good results. */
  lemma ResultsStay(s: Sys, u: Sys, more: seq<Event>)
    requires Results(s) && u.events == s.events + more
    requires s.v.confirmed ==> u.v.confirmed && u.v.confirmedResult == s.v.confirmedResult
    requires u.v.confirmed ==> NoProtocolFault(u.v.confirmedResult) && !u.v.confirmedResult.DeadlineExceeded?
    requires forall t :: t in u.finished ==> (t in s.finished && u.finished[t] == s.finished[t]) || ResultOk(u.v.confirmed, u.v.confirmedResult, u.finished[t])
    requires forall k :: 0 <= k < |more| && more[k].StopReturned? ==> ResultOk(u.v.confirmed, u.v.confirmedResult, more[k].result)
    ensures Results(u)
  {
    forall k | 0 <= k < |u.events| && u.events[k].StopReturned? ensures ResultOk(u.v.confirmed, u.v.confirmedResult, u.events[k].result) {
      if k < |s.events| { assert ResultOk(s.v.confirmed, s.v.confirmedResult, s.events[k].result); }
    }
  }

  lemma ObserveResults(s: Sys, observeFailed: bool, r: SignalResult)
    requires Results(s) && s.waiter == Observing
    ensures Results(ObserveStep(s, observeFailed, r))
  {
    assert s.events + [Observed] + [ResidualKill] == s.events + [Observed, ResidualKill];
    ResultsStay(s, ObserveStep(s, observeFailed, r), if s.v.killIssued then [Observed] else [Observed, ResidualKill]);
  }

  lemma StartResults(s: Sys)
    requires Results(s)
    ensures Results(Apply(s, Start))
  {
    ResultsStay(s, Apply(s, Start), if s.v.started then [] else [Started]);
  }

  lemma ReapResults(s: Sys, waitFailed: bool, closeErr: bool)
    requires Results(s)
    ensures Results(Apply(s, WaiterReap(waitFailed, closeErr)))
  {
    ResultsStay(s, Apply(s, WaiterReap(waitFailed, closeErr)), if s.waiter.Reaping? then [Reaped] else []);
  }

  lemma FinishResults(s: Sys)
    requires Results(s)
    ensures Results(Apply(s, WaiterFinish))
  {
    assert Apply(s, WaiterFinish).events == s.events;
  }

  lemma CallResults(s: Sys, t: nat)
    requires Results(s) && Inv(s)
    ensures Results(CallStep(s, t))
  {
    var u := CallStep(s, t);
    if t in s.stoppers || t in s.finished { return; }
    match BeginStop(s.v, t).1
    case AlreadyConfirmed(r) =>
      assert s.events + [StopCalled(t)] + [StopReturned(t, r)] == s.events + [StopCalled(t), StopReturned(t, r)];
      ResultsStay(s, u, [StopCalled(t), StopReturned(t, r)]);
    case NothingStarted =>
      assert s.events + [StopCalled(t)] + [StopReturned(t, Clean)] == s.events + [StopCalled(t), StopReturned(t, Clean)];
      ResultsStay(s, u, [StopCalled(t), StopReturned(t, Clean)]);
    case _ => ResultsStay(s, u, [StopCalled(t)]);
  }

  lemma ConcludeResults(s: Sys, t: nat)
    requires Results(s) && Inv(s) && t in s.stoppers && s.stoppers[t].Concluding?
    ensures Results(ConcludeStep(s, t))
  {
    var u, fault := ConcludeStep(s, t), s.stoppers[t].fault;
    assert StopperOk(s.v, s.stoppers, s.finished, s.facts.probed, t, s.stoppers[t]);
    var r := JoinStopErrors(fault, s.v.residualFailed, s.v.closeFailed, s.v.unexpected.Some?);
    if fault.Some? { assert InProtocol(fault.value) in r.faults; }
    assert ResultOk(u.v.confirmed, u.v.confirmedResult, r);
    ResultsStay(s, u, [StopReturned(t, r)]);
  }

  lemma WaitResults(s: Sys, a: Action)
    requires Results(s) && (a.SendSignal? || a.Wake? || a.Deadline? || a.Probe?)
    ensures Results(Apply(s, a))
  {
    var u := Apply(s, a);
    ResultsStay(s, u, if |u.events| > |s.events| then [u.events[|s.events|]] else []);
  }

  lemma StepResults(s: Sys, a: Action)
    requires Results(s) && Inv(s)
    ensures Results(Apply(s, a))
  {
    match a
    case CallStop(t) => CallResults(s, t);
    case Conclude(t) => if t in s.stoppers && s.stoppers[t].Concluding? { ConcludeResults(s, t); }
    case Start => StartResults(s);
    case WaiterObserve(observeFailed, r) => if s.waiter == Observing { ObserveResults(s, observeFailed, r); }
    case WaiterReap(waitFailed, closeErr) => ReapResults(s, waitFailed, closeErr);
    case WaiterFinish => FinishResults(s);
    case _ => WaitResults(s, a);
  }

  lemma {:induction false} RunResults(s: Sys, run: seq<Action>)
    requires Results(s) && Inv(s) && s.facts == FactsOf(s.events)
    ensures Results(Exec(s, run))
    decreases |run|
  {
    if run != [] {
      ApplyKeeps(s, run[0]);
      StepResults(s, run[0]);
      RunResults(Apply(s, run[0]), run[1..]);
    }
  }

  /** In every run, a Stop that returned nil means that the stop is confirmed with a clean result:
      hence the exit is over, was not unexpected, and the group was probed absent after the reap, unless some
      Stop came before Start. */
  lemma CleanMeansConfirmed(run: seq<Action>, t: nat)
    requires StopReturned(t, Clean) in Exec(Init, run).events
    ensures var s := Exec(Init, run);
            && s.v.confirmed && s.v.confirmedResult == Clean
            && (ProbedAfterReap(s.events) <==> !StoppedUnstarted(s.events))
            && (!StoppedUnstarted(s.events) ==> s.v.done && StopSignalled(s.events) && !s.v.residualFailed && !s.v.closeFailed)
  {
    RunResults(Init, run);
    ConfirmedMeansProbed(run);
  }

  /** And every other result that was not cut off by a deadline is either the confirmed one, with all
      its faults from around the protocol, or names a protocol fault and says that cleanup failed. */
  lemma ResultsAreTold(run: seq<Action>, t: nat, r: StopResult)
    requires StopReturned(t, r) in Exec(Init, run).events && !r.DeadlineExceeded?
    ensures var s := Exec(Init, run);
            && (NoProtocolFault(r) ==> s.v.confirmed && s.v.confirmedResult == r)
            && (!NoProtocolFault(r) ==> r.Faulty? && r.cleanupFailed && !(s.v.confirmed && s.v.confirmedResult == r))
  {
    RunResults(Init, run);
  }

  // ----- single steps, by the fields -----

  /** These events, and nothing else of the history, are new. */
  predicate Adds(s: Sys, u: Sys, more: seq<Event>) { u.events == s.events + more }

  /** The end of an attempt. A protocol fault is what it returns, as a failed cleanup, and nothing is
      confirmed; without one the result is confirmed, and clean exactly if the residual kill and
      the closing worked and the exit was wanted. The attempt is over and whoever joined it gets the same. */
  lemma AttemptEnds(s: Sys, t: nat)
    requires t in s.stoppers && s.stoppers[t].Concluding?
    ensures var u := Apply(s, Conclude(t)); var fault := s.stoppers[t].fault;
            && t in u.finished
            && var r := u.finished[t];
               && Adds(s, u, [StopReturned(t, r)]) && u.stoppers == s.stoppers - {t} && u.finished == s.finished[t := r] && u.waiter == s.waiter
               && u.v == s.v.(attempt := None, confirmed := u.v.confirmed, confirmedResult := u.v.confirmedResult)
               && (fault.Some? ==>
                     && r.Faulty? && r.cleanupFailed && InProtocol(fault.value) in r.faults
                     && u.v.confirmed == s.v.confirmed && u.v.confirmedResult == s.v.confirmedResult)
               && (fault.None? ==> u.v.confirmed && u.v.confirmedResult == r && NoProtocolFault(r) && !r.DeadlineExceeded?)
               && (r == Clean <==> fault.None? && !s.v.residualFailed && !s.v.closeFailed && s.v.unexpected.None?)
               && (r.Faulty? ==>
                     && (forall f :: InProtocol(f) in r.faults <==> fault == Some(f))
                     && (ResidualKillFailed in r.faults <==> s.v.residualFailed) && (CloseFailed in r.faults <==> s.v.closeFailed)
                     && (ExitedUnexpectedly in r.faults <==> s.v.unexpected.Some?)
                     && (r.cleanupFailed <==> fault.Some? || s.v.residualFailed || s.v.closeFailed))
  {
  }

  /** A Stop that comes in: the confirmed result at once, the running attempt, nothing to stop, or an
      attempt of its own. */
  lemma StopComesIn(s: Sys, t: nat)
    requires t !in s.stoppers && t !in s.finished
    ensures var u := Apply(s, CallStop(t));
            && u.waiter == s.waiter
            && if s.v.confirmed then
                 Adds(s, u, [StopCalled(t), StopReturned(t, s.v.confirmedResult)]) && u.v == s.v && u.stoppers == s.stoppers && u.finished == s.finished
               else if s.v.attempt.Some? then
                 Adds(s, u, [StopCalled(t)]) && u.v == s.v && u.stoppers == s.stoppers[t := Joined(s.v.attempt.value)] && u.finished == s.finished
               else if s.v.started then
                 Adds(s, u, [StopCalled(t)]) && u.v == s.v.(attempt := Some(t)) && u.stoppers == s.stoppers[t := Terminating] && u.finished == s.finished
               else
                 Adds(s, u, [StopCalled(t), StopReturned(t, Clean)]) && u.v == s.v.(confirmed := true, confirmedResult := Clean)
                 && u.stoppers == s.stoppers && u.finished == s.finished[t := Clean]
  {
  }

  /** A stop signal: TERM first, KILL after the deadline. It is withheld once the exit was observed; a
      failed one ends the protocol with its own fault; a KILL that did not fail is noted. */
  lemma SignalIsSent(s: Sys, t: nat, r: SignalResult)
    requires t in s.stoppers && (s.stoppers[t] == Terminating || s.stoppers[t] == Killing)
    ensures var u := Apply(s, SendSignal(t, r)); var term := s.stoppers[t] == Terminating; var over := s.v.exitObserved || s.v.done;
            && u.waiter == s.waiter && u.finished == s.finished
            && Adds(s, u, if over then [] else [StopSignal(if term then Term else Kill)])
            && u.v == (if over then s.v else s.v.(stopping := true, killIssued := s.v.killIssued || (!term && r != SignalFailed)))
            && u.stoppers == s.stoppers[t := if !over && r == SignalFailed then Concluding(Some(if term then TermFailed else KillFailed))
                                             else if term then Awaiting(!over) else AwaitingForced]
  {
  }

  /** What a waiting call does when the exit is over, or its attempt ended. */
  lemma WaitEnds(s: Sys, t: nat)
    requires t in s.stoppers
    ensures var u := Apply(s, Wake(t)); var p := s.stoppers[t];
            && u.waiter == s.waiter && u.finished == s.finished && u.v == s.v
            && (p.Joined? && p.a in s.finished ==> Adds(s, u, [StopReturned(t, s.finished[p.a])]) && u.stoppers == s.stoppers - {t})
            && ((p.Awaiting? || p.AwaitingForced?) && s.v.done ==> Adds(s, u, []) && u.stoppers == s.stoppers[t := Probing])
            && (!(p.Joined? && p.a in s.finished) && !((p.Awaiting? || p.AwaitingForced?) && s.v.done) ==> u == s)
  {
  }

  /** What the caller's deadline does: a joined call gives up alone, a waiting one goes on to KILL, and
      behind that the protocol ends with the fault that tells where it was. */
  lemma DeadlineComes(s: Sys, t: nat)
    requires t in s.stoppers
    ensures var u := Apply(s, Deadline(t)); var p := s.stoppers[t];
            && u.waiter == s.waiter && u.finished == s.finished && u.v == s.v
            && (p.Joined? && p.a !in s.finished ==> Adds(s, u, [StopReturned(t, DeadlineExceeded)]) && u.stoppers == s.stoppers - {t})
            && (p.Awaiting? && (p.signaled || !s.v.done) ==> Adds(s, u, []) && u.stoppers == s.stoppers[t := Killing])
            && (p.AwaitingForced? && !s.v.done ==> Adds(s, u, []) && u.stoppers == s.stoppers[t := Concluding(Some(NotExited))])
            && (p.Probing? ==> Adds(s, u, []) && u.stoppers == s.stoppers[t := Concluding(Some(NotAbsent))])
            && (p.Terminating? || p.Killing? || p.Concluding? ==> u == s)
            && (p.Joined? && p.a in s.finished ==> u == s)
            && (!p.Joined? && s.v.done && (p.AwaitingForced? || (p.Awaiting? && !p.signaled)) ==> u == s)
  {
  }

  /** A probe of the group ends the attempt without a fault exactly when the group is absent. */
  lemma ProbeAnswers(s: Sys, t: nat, p: ProbeResult)
    requires t in s.stoppers && s.stoppers[t] == Probing
    ensures var u := Apply(s, Probe(t, p));
            && u.waiter == s.waiter && u.finished == s.finished && u.v == s.v
            && (p == Absent ==> Adds(s, u, [ProbedAbsent]) && u.stoppers == s.stoppers[t := Concluding(None)])
            && (p == Unknown ==> Adds(s, u, []) && u.stoppers == s.stoppers[t := Concluding(Some(ProbeFailed))])
            && (p == Present ==> u == s)
  {
  }

  /** The waiter's look at the exit: intentional exactly if a Stop had signalled, and the rest of the group
      is killed unless a Stop already did; a failed residual kill is remembered. */
  lemma ExitIsObserved(s: Sys, observeFailed: bool, r: SignalResult)
    requires s.waiter == Observing
    ensures var u := Apply(s, WaiterObserve(observeFailed, r));
            && u.stoppers == s.stoppers && u.finished == s.finished
            && u.waiter == Reaping(s.v.stopping, observeFailed)
            && Adds(s, u, if s.v.killIssued then [Observed] else [Observed, ResidualKill])
            && u.v == s.v.(exitObserved := true, killIssued := s.v.killIssued || r != SignalFailed,
                           residualFailed := s.v.residualFailed || (!s.v.killIssued && r == SignalFailed))
  {
  }

  /** The end of the waiter: the channel is closed, with what failed and, if no Stop had signalled,
      why the exit is unexpected. */
  lemma WaiterEnds(s: Sys, waitFailed: bool, closeErr: bool)
    requires s.waiter.Reaping?
    ensures var u := Apply(s, WaiterReap(waitFailed, closeErr)); var w := Apply(u, WaiterFinish);
            && Adds(s, u, [Reaped]) && u.v == s.v && Adds(u, w, [])
            && u.waiter == Closing(s.waiter.intentional, s.waiter.observeFailed, waitFailed, closeErr) && w.waiter == Finished
            && w.stoppers == u.stoppers == s.stoppers && w.finished == u.finished == s.finished
            && w.v == s.v.(done := true, closeFailed := closeErr || s.waiter.observeFailed,
                           unexpected := if s.waiter.intentional then s.v.unexpected
                                         else if waitFailed then Some(WaitError) else if s.waiter.observeFailed then Some(ObserveError) else Some(PlainExit))
  {
  }
}
