/** What the calls of a bridge run tell their callers, read off the service, the sessions and what
    was given up. */
module BridgeResults {
  import opened Common
  import opened Control
  import C = ControlRuns
  import opened Session
  import opened Service
  import opened BridgeRuns

  // ----- service start and shutdown -----

  /** Everything the service holds has been given up: the runtime if there was one, the
      connection, and the deployment runtime itself. */
  predicate AllGivenUp(s: Sys) {
    (s.service.hasRuntime ==> Removed in s.given) && !s.service.connected && RuntimeClosed in s.given
  }

  /** A service starts once, and runs exactly with a confirmed runtime and a connection; what it was
      given it owns, whether it runs or not. */
  lemma StartsExactly(v: ServiceView, o: StartOutcome)
    ensures var (w, ok) := Start(v, o);
            && (ok <==> v.state == New && o.hasRuntime && !o.allocationFailed && o.connected)
            && (v.state != New ==> w == v)
            && (v.state == New ==> w == v.(state := if ok then Running else Starting, hasRuntime := o.hasRuntime,
                                           allocationFailed := o.allocationFailed, connected := v.connected || ok))
  {
  }

  /** What the last section of a shutdown does to what is held: removal first, the connection only
      behind it, the runtime only behind both, and each is tried only if it is still to be done. */
  lemma AttemptExactly(v: ServiceView, failed: set<Service.Failure>, removeOk: bool, closeOk: bool, runtimeOk: bool)
    ensures var (w, given, r) := StopEnd(v, failed, removeOk, closeOk, runtimeOk);
            && (w.removed <==> v.removed || (v.hasRuntime && removeOk))
            && (!w.connected <==> !v.connected || ((v.hasRuntime ==> w.removed) && closeOk))
            && (w.runtimeClosed <==> v.runtimeClosed || ((v.hasRuntime ==> w.removed) && !w.connected && runtimeOk))
            && w.shutdownErr == v.shutdownErr + failed
            && (w.state == if (v.hasRuntime ==> w.removed) && !w.connected && w.runtimeClosed then Closed else v.state)
            && w == v.(state := w.state, removed := w.removed, connected := w.connected, runtimeClosed := w.runtimeClosed, shutdownErr := w.shutdownErr)
            && given == (if w.removed && !v.removed then [Removed] else []) + (if v.connected && !w.connected then [ConnectionClosed] else [])
                        + (if w.runtimeClosed && !v.runtimeClosed then [RuntimeClosed] else [])
            && r.failures == w.shutdownErr && r.allocation == v.allocationFailed
            && (r.step <==> !((v.hasRuntime ==> w.removed) && !w.connected && w.runtimeClosed))
  {
  }

  /** What a shutdown was told by the sessions: one failure for each Stop that did not succeed. */
  predicate ToldFailures(s: Sys, t: nat, failures: set<Service.Failure>)
    requires t in s.shutdowns
  {
    && (forall i :: i in s.shutdowns[t].results && !s.shutdowns[t].results[i] ==> Service.Failure.Failure(i, t) in failures)
    && (forall f :: f in failures ==>
          f in s.service.shutdownErr || (f.shutdown == t && f.session in s.shutdowns[t].results && !s.shutdowns[t].results[f.session]))
    && s.service.shutdownErr <= failures
  }

  /** In every run, the result of a shutdown that ends is success exactly when the service is then closed
      with everything given up, no session failure is recorded and the allocation did not fail; and
      the failures it reports are those recorded before and those of the Stops it asked for. */
  lemma ShutdownResultExactly(c: Config, run: seq<Action>, t: nat, removeOk: bool, closeOk: bool, runtimeOk: bool)
    requires AllStopped(Exec(c, Init, run), t)
    ensures var s := Exec(c, Init, run); var u := Apply(c, s, ShutdownEnd(t, removeOk, closeOk, runtimeOk));
            && |u.results| == |s.results| + 1
            && var r := u.results[|s.results|];
               && (r == StopResult({}, false, false) <==>
                     u.service.state == Closed && AllGivenUp(u) && u.service.shutdownErr == {} && !u.service.allocationFailed)
               && (r.step <==> u.service.state != Closed)
               && (u.service.state == Closed <==> AllGivenUp(u))
               && ToldFailures(s, t, r.failures) && r.failures == u.service.shutdownErr
               && r.allocation == s.service.allocationFailed == u.service.allocationFailed
  {
    ReachableInv(c, run);
    var s := Exec(c, Init, run);
    AttemptExactly(s.service, ShutdownFailures(s, t), removeOk, closeOk, runtimeOk);
    ApplyKeeps(c, s, ShutdownEnd(t, removeOk, closeOk, runtimeOk));
    EndCloses(c, s, t, removeOk, closeOk, runtimeOk);
    EndTold(c, s, t, removeOk, closeOk, runtimeOk);
  }

  lemma EndTold(c: Config, s: Sys, t: nat, removeOk: bool, closeOk: bool, runtimeOk: bool)
    requires AllStopped(s, t)
    ensures ToldFailures(s, t, Apply(c, s, ShutdownEnd(t, removeOk, closeOk, runtimeOk)).service.shutdownErr)
  {
    AttemptExactly(s.service, ShutdownFailures(s, t), removeOk, closeOk, runtimeOk);
  }

  lemma EndCloses(c: Config, s: Sys, t: nat, removeOk: bool, closeOk: bool, runtimeOk: bool)
    requires Inv(s) && AllStopped(s, t)
    ensures var u := Apply(c, s, ShutdownEnd(t, removeOk, closeOk, runtimeOk)); u.service.state == Closed <==> AllGivenUp(u)
  {
    var u := Apply(c, s, ShutdownEnd(t, removeOk, closeOk, runtimeOk));
    AttemptGivesUpHeld(s.service, s.given, ShutdownFailures(s, t), removeOk, closeOk, runtimeOk);
    AttemptExactly(s.service, ShutdownFailures(s, t), removeOk, closeOk, runtimeOk);
    assert InvEvents(u.service, u.given);
  }

  /** A shutdown of a closed service is answered at once, with the same exact meaning; any other only
      closes admission and is answered at its end. */
  lemma ShutdownBeginExactly(c: Config, run: seq<Action>, t: nat)
    requires t !in Exec(c, Init, run).shutdowns
    ensures var s := Exec(c, Init, run); var u := Apply(c, s, ShutdownBegin(t));
            if s.service.state == Closed
            then u == s.(results := s.results + [StopResult(s.service.shutdownErr, s.service.allocationFailed, false)]) && AllGivenUp(s)
            else u == s.(service := s.service.(state := ServiceState.Closing), shutdowns := s.shutdowns[t := Shutdown(map[])])
  {
    ReachableInv(c, run);
  }

  /** A result that reports no failed step was given by a closed service, and a closed service stays closed. */
  predicate ResultTrue(service: ServiceView, r: StopResult) {
    && (!r.step ==> service.state == Closed)
    && r.allocation == service.allocationFailed && r.failures <= service.shutdownErr
  }

  predicate ResultsTrue(s: Sys) {
    && (forall k :: 0 <= k < |s.results| ==> ResultTrue(s.service, s.results[k]))
    && (s.results != [] ==> s.service.state in {ServiceState.Closing, Closed})
  }

  lemma ShutdownTrue(s: Sys, a: Action)
    requires Inv(s) && ResultsTrue(s) && (a.ShutdownBegin? || a.ShutdownEnd?)
    ensures var u := if a.ShutdownBegin? then ShutdownBeginStep(s, a.t) else ShutdownEndStep(s, a.t, a.removeOk, a.closeOk, a.runtimeOk);
            ResultsTrue(u)
  {
    if a.ShutdownEnd? && AllStopped(s, a.t) {
      AttemptExactly(s.service, ShutdownFailures(s, a.t), a.removeOk, a.closeOk, a.runtimeOk);
    }
  }

  predicate TouchesService(a: Action) { a.StartServiceAction? || a.NewSessionAction? || a.ShutdownBegin? || a.ShutdownEnd? }

  lemma OthersLeaveService(c: Config, s: Sys, a: Action)
    requires !TouchesService(a)
    ensures Apply(c, s, a).service == s.service && Apply(c, s, a).results == s.results && Apply(c, s, a).given == s.given
  {
    if OfClient(a) && a.i < |s.clients| {
      if a.StopBeginAction? || a.StopAnswer? || a.StopEndAction? { StopLeavesService(c, s, a); } else { StartLeavesService(c, s, a); }
    }
  }

  lemma StartLeavesService(c: Config, s: Sys, a: Action)
    requires (a.StartBegin? || a.StartSend? || a.StartAnswer? || a.StartDeadline? || a.StartEnd?) && a.i < |s.clients|
    ensures Apply(c, s, a).service == s.service && Apply(c, s, a).results == s.results && Apply(c, s, a).given == s.given
  {
  }

  lemma StopLeavesService(c: Config, s: Sys, a: Action)
    requires (a.StopBeginAction? || a.StopAnswer? || a.StopEndAction?) && a.i < |s.clients|
    ensures Apply(c, s, a).service == s.service && Apply(c, s, a).results == s.results && Apply(c, s, a).given == s.given
  {
  }

  lemma StepTrue(c: Config, s: Sys, a: Action)
    requires Inv(s) && ResultsTrue(s)
    ensures ResultsTrue(Apply(c, s, a))
  {
    if a.ShutdownBegin? || a.ShutdownEnd? { ShutdownTrue(s, a); }
    else if TouchesService(a) { }
    else { OthersLeaveService(c, s, a); }
  }

  lemma {:induction false} RunTrue(c: Config, s: Sys, run: seq<Action>)
    requires Inv(s) && ResultsTrue(s)
    ensures ResultsTrue(Exec(c, s, run))
    decreases |run|
  {
    if run != [] {
      ApplyKeeps(c, s, run[0]);
      StepTrue(c, s, run[0]);
      RunTrue(c, Apply(c, s, run[0]), run[1..]);
    }
  }

  /** Whoever was once told of a successful shutdown: at that and every later moment of every run the
      service is closed, everything is given up and the allocation did not fail. */
  lemma SuccessMeansGivenUp(c: Config, run: seq<Action>, k: nat, later: seq<Action>)
    requires k < |Exec(c, Init, run).results| && Succeeded(Exec(c, Init, run).results[k])
    ensures var t := Exec(c, Exec(c, Init, run), later);
            t.service.state == Closed && AllGivenUp(t) && !t.service.allocationFailed
  {
    var s := Exec(c, Init, run);
    ReachableInv(c, run);
    RunKeeps(c, s, later);
    RunTrue(c, Init, run);
    RunTrue(c, s, later);
    assert Exec(c, s, later).results[k] == s.results[k];
  }
}
