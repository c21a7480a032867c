/** Native SSH revocation (pkg/bridge/ssh/bridge.go, server.go): the sections that run under
    the session mutex and the manager mutex. A WaitGroup is its counter. */
module Ssh {

  /** The bridge session's guarded fields: admitted connections, the WaitGroup counter, and
      the closing state. `waiting` says that the one waiter goroutine was started. */
  datatype SessionView = SessionView(connections: set<nat>, pending: nat, revoked: bool, waiting: bool)

  const Fresh := SessionView({}, 0, false, false)

  /** Accept: a new connection is refused after revocation, else counted before its handler starts. */
  function AdmitConnection(v: SessionView, canceled: bool, c: nat): (SessionView, bool) {
    if v.revoked || canceled then (v, false)
    else (v.(connections := v.connections + {c}, pending := v.pending + 1), true)
  }

  /** A session channel, admitted the same way. */
  function AdmitChannel(v: SessionView, canceled: bool): (SessionView, bool) {
    if v.revoked || canceled then (v, false) else (v.(pending := v.pending + 1), true)
  }

  /** revoke runs once; the result is the connections it has to close. */
  function Revoke(v: SessionView): (SessionView, set<nat>) {
    if v.revoked then (v, {}) else (v.(revoked := true, waiting := true), v.connections)
  }

  class BridgeSession {
    var connections: set<nat>
    var pending: nat
    var revoked: bool
    var waiting: bool

    ghost function View(): SessionView reads this { SessionView(connections, pending, revoked, waiting) }

    constructor ()
      ensures View() == Fresh
    {
      connections, pending, revoked, waiting := {}, 0, false, false;
    }

    method AcceptConnection(canceled: bool, c: nat) returns (admitted: bool)
      modifies this
      ensures (View(), admitted) == AdmitConnection(old(View()), canceled, c)
    {
      if revoked || canceled { return false; }
      connections, pending := connections + {c}, pending + 1;
      return true;
    }

    method OpenChannel(canceled: bool) returns (admitted: bool)
      modifies this`pending
      ensures (View(), admitted) == AdmitChannel(old(View()), canceled)
    {
      if revoked || canceled { return false; }
      pending := pending + 1;
      return true;
    }

    method RevokeOnce() returns (toClose: set<nat>)
      modifies this
      ensures (View(), toClose) == Revoke(old(View()))
    {
      if revoked { return {}; }
      toClose, revoked, waiting := connections, true, true;
    }
  }

  /** The manager's guarded fields; `lastErr` is stopErr, and Stop calls share one attempt. */
  datatype ManagerView = ManagerView(used: bool, active: bool, stopping: bool, attempt: nat, lastErr: bool)

  const NewManager := ManagerView(false, false, false, 0, false)

  datatype StopEntry = Inactive(err: bool) | JoinStop(attempt: nat) | RunStop

  function StopBegin(m: ManagerView): (ManagerView, StopEntry) {
    if !m.active && !m.stopping then (m.(used := true), Inactive(m.lastErr))
    else if m.stopping then (m, JoinStop(m.attempt))
    else (m.(stopping := true, attempt := m.attempt + 1), RunStop)
  }

  function StopEnd(m: ManagerView, failed: bool): ManagerView {
    m.(lastErr := failed, stopping := false, active := m.active && failed)
  }

  /** How StartTarget ends: refused without a session, served, or failed before serving; a
      failed start keeps the session only when its cleanup failed too. */
  datatype StartOutcome = Invalid | Served | Failed(retained: bool)

  function StartTarget(m: ManagerView, o: StartOutcome): (ManagerView, bool) {
    if m.used || m.active || m.stopping || o.Invalid? then (m, false)
    else if o.Served? then (m.(used := true, active := true, lastErr := false), true)
    else (m.(used := true, active := o.retained), false)
  }

  class Manager {
    var used: bool
    var active: bool
    var stopping: bool
    var attempt: nat
    var lastErr: bool

    ghost function View(): ManagerView reads this { ManagerView(used, active, stopping, attempt, lastErr) }

    constructor ()
      ensures View() == NewManager
    {
      used, active, stopping, attempt, lastErr := false, false, false, 0, false;
    }

    method Start(o: StartOutcome) returns (ok: bool)
      modifies this
      ensures (View(), ok) == StartTarget(old(View()), o)
    {
      if used || active || stopping || o.Invalid? { return false; }
      used := true;
      match o
      case Served => active, lastErr := true, false; return true;
      case Failed(retained) => active := retained; return false;
    }

    method BeginStop() returns (entry: StopEntry)
      modifies this
      ensures (View(), entry) == StopBegin(old(View()))
    {
      if !active && !stopping {
        used := true;
        return Inactive(lastErr);
      }
      if stopping { return JoinStop(attempt); }
      stopping, attempt := true, attempt + 1;
      return RunStop;
    }

    method EndStop(failed: bool)
      modifies this
      ensures View() == StopEnd(old(View()), failed)
    {
      lastErr, stopping := failed, false;
      if !failed { active := false; }
    }
  }
}
