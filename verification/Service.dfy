/** The run-level bridge service (pkg/bridge/service.go): admission of sessions and the
    retryable shutdown of the shared runtime. Sessions are numbered in the order of
    NewSession; what every interleaving guarantees is proved in `BridgeRuns`. */
module Service {

  datatype ServiceState = New | Starting | Running | Closing | Closed

  /** Session `session` failed a Stop that service shutdown `shutdown` had asked for. */
  datatype Failure = Failure(session: nat, shutdown: nat)

  datatype ServiceView = ServiceView(state: ServiceState, sessions: nat, hasRuntime: bool, removed: bool,
                                     connected: bool, runtimeClosed: bool, allocationFailed: bool, shutdownErr: set<Failure>)

  const NewService := ServiceView(New, 0, false, false, false, false, false, {})

  /** What a Stop call returns: the failures it reports; `step` is a failed removal or close. */
  datatype StopResult = StopResult(failures: set<Failure>, allocation: bool, step: bool)

  predicate Succeeded(r: StopResult) { r == StopResult({}, false, false) }

  /** A shared resource that was given up successfully. */
  datatype Event = Removed | ConnectionClosed | RuntimeClosed

  /** How far service start got. */
  datatype StartOutcome = StartOutcome(hasRuntime: bool, allocationFailed: bool, connected: bool)

  function Start(v: ServiceView, o: StartOutcome): (ServiceView, bool) {
    if v.state != New then (v, false)
    else
      var v1 := v.(state := Starting, hasRuntime := o.hasRuntime, allocationFailed := o.allocationFailed);
      if o.hasRuntime && !o.allocationFailed && o.connected then (v1.(state := Running, connected := true), true)
      else (v1, false)
  }

  function AddSession(v: ServiceView): (ServiceView, bool) {
    if v.state != Running then (v, false) else (v.(sessions := v.sessions + 1), true)
  }

  /** First section of Stop: either the final answer, or admission closes. */
  function StopBegin(v: ServiceView): (ServiceView, bool) {
    if v.state == Closed then (v, true) else (v.(state := Closing), false)
  }

  function ClosedResult(v: ServiceView): StopResult { StopResult(v.shutdownErr, v.allocationFailed, false) }

  /** Last section of Stop, after every session's Stop returned; `failed` are their failures. */
  function StopEnd(v: ServiceView, failed: set<Failure>, removeOk: bool, closeOk: bool, runtimeOk: bool): (ServiceView, seq<Event>, StopResult) {
    var v1 := v.(shutdownErr := v.shutdownErr + failed);
    var stuck := StopResult(v1.shutdownErr, v1.allocationFailed, true);
    var removing := v1.hasRuntime && !v1.removed;
    if removing && !removeOk then (v1, [], stuck)
    else
      var (v2, e2) := if removing then (v1.(removed := true), [Removed]) else (v1, []);
      if v2.connected && !closeOk then (v2, e2, stuck)
      else
        var (v3, e3) := if v2.connected then (v2.(connected := false), e2 + [ConnectionClosed]) else (v2, e2);
        if !v3.runtimeClosed && !runtimeOk then (v3, e3, stuck)
        else
          var e4 := if v3.runtimeClosed then e3 else e3 + [RuntimeClosed];
          (v3.(runtimeClosed := true, state := Closed), e4, ClosedResult(v3))
  }

  class BridgeService {
    var state: ServiceState
    var sessions: nat
    var hasRuntime: bool
    var removed: bool
    var connected: bool
    var runtimeClosed: bool
    var allocationFailed: bool
    var shutdownErr: set<Failure>

    ghost function View(): ServiceView reads this {
      ServiceView(state, sessions, hasRuntime, removed, connected, runtimeClosed, allocationFailed, shutdownErr)
    }

    constructor ()
      ensures View() == NewService
    {
      state, sessions := New, 0;
      hasRuntime, removed, connected, runtimeClosed, allocationFailed := false, false, false, false, false;
      shutdownErr := {};
    }

    method StartService(o: StartOutcome) returns (ok: bool)
      modifies this
      ensures (View(), ok) == Start(old(View()), o)
    {
      if state != New { return false; }
      state, hasRuntime, allocationFailed := Starting, o.hasRuntime, o.allocationFailed;
      if !o.hasRuntime || o.allocationFailed || !o.connected { return false; }
      connected, state := true, Running;
      return true;
    }

    method NewSession() returns (ok: bool)
      modifies this`sessions
      ensures (View(), ok) == AddSession(old(View()))
    {
      if state != Running { return false; }
      sessions := sessions + 1;
      return true;
    }

    method BeginStop() returns (done: bool)
      modifies this`state
      ensures (View(), done) == StopBegin(old(View()))
    {
      if state == Closed { return true; }
      state := Closing;
      return false;
    }

    method EndStop(failed: set<Failure>, removeOk: bool, closeOk: bool, runtimeOk: bool) returns (given: seq<Event>, result: StopResult)
      modifies this
      ensures (View(), given, result) == StopEnd(old(View()), failed, removeOk, closeOk, runtimeOk)
    {
      given := [];
      shutdownErr := shutdownErr + failed;
      result := StopResult(shutdownErr, allocationFailed, true);
      if hasRuntime && !removed {
        if !removeOk { return; }
        removed, given := true, [Removed];
      }
      if connected {
        if !closeOk { return; }
        connected, given := false, given + [ConnectionClosed];
      }
      if !runtimeClosed {
        if !runtimeOk { return; }
        runtimeClosed, given := true, given + [RuntimeClosed];
      }
      state := Closed;
      result := result.(step := false);
    }
  }
}
