/** The whole bridge over every run: the shared service, its sessions, and the control server
    behind a network that may deliver any message at any time, repeat it, answer late, answer
    never, or hand an answer to the wrong caller; the bridge process may die at any moment. */
module BridgeRuns {
  import opened Common
  import opened Control
  import C = ControlRuns
  import opened Session
  import opened Service

  /** Where the call that holds a session's mutex stands. */
  datatype Phase =
    | Idle
    | Preparing                            // Start saw the service running and has sent nothing yet
    | AwaitingRegister(polled: bool)       // Start awaits an answer; `polled` when it asked Get
    | Resolving(outcome: Option<Access>)   // Start holds the loop's outcome
    | AwaitingRelease(caller: Option<nat>) // Stop awaits the release answer
    | Collecting(caller: Option<nat>)      // Stop collects evidence

  datatype Client = Client(v: SessionView, phase: Phase, stopReturned: bool, stopSucceeded: bool)

  /** A registration message that left a session. */
  datatype Sent = Sent(session: nat, request: Request)

  datatype Process = NotStarted | Up | Down

  /** One Service.Stop call between its two sections: results of the session Stops it asked for. */
  datatype Shutdown = Shutdown(results: map<nat, bool>)

  datatype Sys = Sys(srv: C.Srv, process: Process, service: ServiceView, clients: seq<Client>,
                     shutdowns: map<nat, Shutdown>, sent: seq<Sent>, given: seq<Event>, results: seq<StopResult>)

  const Init := Sys(C.Init, NotStarted, NewService, [], map[], [], [], [])

  datatype Action =
    | ServerAction(a: C.Action)
    | Crash
    | StartServiceAction(o: StartOutcome)
    | NewSessionAction
    | StartBegin(i: nat)
    | StartSend(i: nat, p: Preparation)
    | StartAnswer(i: nat, r: RpcResult)
    | StartDeadline(i: nat)
    | StartEnd(i: nat, addressResolved: bool, helperStaged: bool)
    | StopBeginAction(i: nat, caller: Option<nat>)
    | StopAnswer(i: nat, release: ReleaseResult)
    | StopEndAction(i: nat, downloads: nat -> Download, helperRemoved: bool)
    | ShutdownBegin(t: nat)
    | ShutdownEnd(t: nat, removeOk: bool, closeOk: bool, runtimeOk: bool)

  /** An answer is one the server really gave to someone; any error may come from anywhere. */
  predicate PossibleRpc(s: Sys, r: RpcResult) {
    r.Answer? && r.access.Some? ==> Ok(r.access.value) in s.srv.replies
  }

  /** The runtime reports "not running" only of a process that is gone. */
  predicate PossibleRelease(s: Sys, r: ReleaseResult) {
    match r
    case RpcFailed(running, runErr) => running || runErr || s.process == Down
    case RpcAnswered(access) => access.Some? ==> Ok(access.value) in s.srv.replies
  }

  function SetClient(s: Sys, i: nat, c: Client): Sys
    requires i < |s.clients|
  {
    s.(clients := s.clients[i := c])
  }

  /** Session i's Stop returns `ok` to its caller. */
  function ReturnStop(s: Sys, i: nat, v: SessionView, caller: Option<nat>, ok: bool): Sys
    requires i < |s.clients|
  {
    var c := s.clients[i];
    var s1 := SetClient(s, i, Client(v, Idle, true, c.stopSucceeded || ok));
    if caller.Some? && caller.value in s.shutdowns
    then s1.(shutdowns := s.shutdowns[caller.value := Shutdown(s.shutdowns[caller.value].results[i := ok])])
    else s1
  }

  function SendRegister(s: Sys, i: nat, v: SessionView): Sys
    requires i < |s.clients| && v.binding.Some?
  {
    SetClient(s, i, s.clients[i].(v := v, phase := AwaitingRegister(false))).(sent := s.sent + [Sent(i, v.binding.value)])
  }

  function StartStep(s: Sys, i: nat): Sys
    requires i < |s.clients|
  {
    if s.clients[i].phase != Idle then s else
    var (v, running) := StartCheck(s.clients[i].v, s.service.state == Running);
    SetClient(s, i, s.clients[i].(v := v, phase := if running then Preparing else Idle))
  }

  /** The service may have begun to close since Start looked. */
  function SendStep(s: Sys, i: nat, p: Preparation): Sys
    requires i < |s.clients|
  {
    if s.clients[i].phase != Preparing then s else
    var (v, send) := StartPrepare(s.clients[i].v, p);
    if send then SendRegister(s, i, v) else SetClient(s, i, s.clients[i].(v := v, phase := Idle))
  }

  function AnswerStep(s: Sys, i: nat, r: RpcResult): Sys
    requires i < |s.clients|
  {
    var c := s.clients[i];
    if !c.phase.AwaitingRegister? || c.v.binding.None? || !PossibleRpc(s, r) then s
    else if c.phase.polled && r == RpcResult.Failure(NotFound) then SendRegister(s, i, c.v)
    else
      match Decide(c.v.binding.value.sandboxId, r)
      case Return(access) => SetClient(s, i, c.(phase := Resolving(Some(access))))
      case GiveUp => SetClient(s, i, c.(phase := Idle))
      case Poll => SetClient(s, i, c.(phase := AwaitingRegister(true)))
  }

  function StopStep(s: Sys, i: nat, caller: Option<nat>): Sys
    requires i < |s.clients|
  {
    var c := s.clients[i];
    if c.phase != Idle then s else
    var v := c.v.(stopped := true);
    if v.evidenceLost then ReturnStop(s, i, v, caller, false)
    else if v.registered && !v.released then SetClient(s, i, c.(v := v, phase := AwaitingRelease(caller)))
    else SetClient(s, i, c.(v := v, phase := Collecting(caller)))
  }

  function ReleaseStep(s: Sys, i: nat, r: ReleaseResult): Sys
    requires i < |s.clients|
  {
    var c := s.clients[i];
    if !c.phase.AwaitingRelease? || !PossibleRelease(s, r) then s else
    var (v, goOn) := StopRelease(c.v, r);
    if goOn then SetClient(s, i, c.(v := v, phase := Collecting(c.phase.caller)))
    else ReturnStop(s, i, v, c.phase.caller, false)
  }

  function CollectStep(s: Sys, c: Config, i: nat, downloads: nat -> Download, helperRemoved: bool): Sys
    requires i < |s.clients|
  {
    if !s.clients[i].phase.Collecting? then s else
    var (v, ok) := StopCollect(s.clients[i].v, c, downloads);
    ReturnStop(s, i, v, s.clients[i].phase.caller, ok && helperRemoved)
  }

  function ShutdownBeginStep(s: Sys, t: nat): Sys {
    if t in s.shutdowns then s else
    var (service, done) := StopBegin(s.service);
    if done then s.(results := s.results + [ClosedResult(s.service)])
    else s.(service := service, shutdowns := s.shutdowns[t := Shutdown(map[])])
  }

  predicate AllStopped(s: Sys, t: nat) {
    t in s.shutdowns && forall i :: 0 <= i < |s.clients| ==> i in s.shutdowns[t].results
  }

  function ShutdownFailures(s: Sys, t: nat): set<Service.Failure>
    requires t in s.shutdowns
  {
    set i | i in s.shutdowns[t].results && !s.shutdowns[t].results[i] :: Service.Failure.Failure(i, t)
  }

  function ShutdownEndStep(s: Sys, t: nat, removeOk: bool, closeOk: bool, runtimeOk: bool): Sys {
    if !AllStopped(s, t) then s else
    var (service, given, result) := StopEnd(s.service, ShutdownFailures(s, t), removeOk, closeOk, runtimeOk);
    s.(service := service, given := s.given + given, results := s.results + [result], process := if service.removed then Down else s.process,
       shutdowns := s.shutdowns - {t})
  }

  function Apply(c: Config, s: Sys, a: Action): Sys {
    match a
    case ServerAction(b) => if s.process == Up then s.(srv := C.Apply(s.srv, b)) else s
    case Crash => if s.process == Up then s.(process := Down) else s
    case StartServiceAction(o) =>
      var (service, ok) := Start(s.service, o);
      s.(service := service, process := if s.service.state == New && o.hasRuntime && s.process == NotStarted then Up else s.process)
    case NewSessionAction =>
      var (service, ok) := AddSession(s.service);
      if ok then s.(service := service, clients := s.clients + [Client(NewSession, Idle, false, false)]) else s
    case StartBegin(i) => if i < |s.clients| then StartStep(s, i) else s
    case StartSend(i, p) => if i < |s.clients| then SendStep(s, i, p) else s
    case StartAnswer(i, r) => if i < |s.clients| then AnswerStep(s, i, r) else s
    case StartDeadline(i) =>
      if i < |s.clients| && s.clients[i].phase.AwaitingRegister? then SetClient(s, i, s.clients[i].(phase := Idle)) else s
    case StartEnd(i, resolved, staged) =>
      if i < |s.clients| && s.clients[i].phase.Resolving?
      then SetClient(s, i, s.clients[i].(v := StartFinish(s.clients[i].v, c, s.clients[i].phase.outcome, resolved, staged).0, phase := Idle))
      else s
    case StopBeginAction(i, caller) => if i < |s.clients| then StopStep(s, i, caller) else s
    case StopAnswer(i, r) => if i < |s.clients| then ReleaseStep(s, i, r) else s
    case StopEndAction(i, downloads, removed) => if i < |s.clients| then CollectStep(s, c, i, downloads, removed) else s
    case ShutdownBegin(t) => ShutdownBeginStep(s, t)
    case ShutdownEnd(t, removeOk, closeOk, runtimeOk) => ShutdownEndStep(s, t, removeOk, closeOk, runtimeOk)
  }

  function Exec(c: Config, s: Sys, run: seq<Action>): Sys
    decreases |run|
  {
    if run == [] then s else Exec(c, Apply(c, s, run[0]), run[1..])
  }

  // ----- invariant -----

  /** No bridge process serves this ID any more, and none ever will. */
  ghost predicate Fenced(srv: C.Srv, process: Process, id: string) {
    process == Down || (id in srv.entries && srv.entries[id].access.state == Released && srv.entries[id].access.endpoint == None)
  }

  ghost predicate ClientOk(srv: C.Srv, process: Process, c: Client) {
    && (c.v.registered ==> c.v.binding.Some? && c.v.started)
    && (c.v.released ==> c.v.registered && Fenced(srv, process, c.v.binding.value.sandboxId))
    && (c.phase.Preparing? ==> c.v.started && !c.v.stopped && !c.v.registered)
    && (c.phase.AwaitingRegister? || c.phase.Resolving? ==> c.v.started && !c.v.stopped && c.v.registered)
    && (c.phase.AwaitingRelease? ==> c.v.stopped && c.v.registered && !c.v.evidenceLost)
    && (c.phase.Collecting? ==> c.v.stopped && (c.v.registered ==> c.v.released))
    && (c.stopReturned ==> c.v.stopped)
    && (c.stopSucceeded ==> c.stopReturned && (c.v.registered ==> c.v.released))
  }

  ghost predicate InvClients(srv: C.Srv, process: Process, clients: seq<Client>) {
    forall i :: 0 <= i < |clients| ==> ClientOk(srv, process, clients[i])
  }

  ghost predicate AllReturned(clients: seq<Client>, results: map<nat, bool>) {
    forall i :: i in results ==> i < |clients| && clients[i].stopReturned
  }

  /** A shutdown's results are Stops that returned; while any shutdown is open, and after
      removal, admission is closed. */
  ghost predicate InvService(service: ServiceView, process: Process, clients: seq<Client>, shutdowns: map<nat, Shutdown>) {
    && (shutdowns != map[] ==> service.state in {ServiceState.Closing, Closed})
    && (forall t :: t in shutdowns ==> AllReturned(clients, shutdowns[t].results))
    && (service.removed ==> service.state in {ServiceState.Closing, Closed} && process == Down)
    && (service.removed ==> forall i :: 0 <= i < |clients| ==> clients[i].stopReturned)
    && (service.state == Closed ==> service.runtimeClosed && !service.connected && (service.hasRuntime ==> service.removed))
    && (service.state in {New, Starting} ==> !service.connected)
    && (service.state in {New, Starting, Running} ==> !service.removed)
  }

  predicate NoRepeats(given: seq<Event>) {
    forall j, k :: 0 <= j < k < |given| ==> given[j] != given[k]
  }

  /** The service's flags say exactly what was given up, and nothing was given up twice. */
  ghost predicate InvEvents(service: ServiceView, given: seq<Event>) {
    && NoRepeats(given)
    && (Removed in given <==> service.removed)
    && (RuntimeClosed in given <==> service.runtimeClosed)
    && (ConnectionClosed in given ==> !service.connected && service.state !in {New, Starting})
  }

  ghost predicate Inv(s: Sys) {
    && C.Inv(s.srv)
    && InvClients(s.srv, s.process, s.clients)
    && InvService(s.service, s.process, s.clients, s.shutdowns)
    && InvEvents(s.service, s.given)
  }

  // ----- what later steps may change -----

  ghost predicate ClientForward(c: Client, d: Client) {
    && (c.v.stopped ==> d.v.stopped && d.v.exposed == c.v.exposed && d.v.registered == c.v.registered && d.v.binding == c.v.binding)
    && (c.stopReturned ==> d.stopReturned) && (c.stopSucceeded ==> d.stopSucceeded)
  }

  ghost predicate NewSender(s: Sys, t: Sys, i: nat) {
    i < |t.clients| && (i < |s.clients| ==> !s.clients[i].v.stopped)
  }

  /** Everything sent later was sent by a session that was not stopped before. */
  ghost predicate Later(s: Sys, t: Sys) {
    && C.Forward(s.srv, t.srv)
    && (s.process == Down ==> t.process == Down && t.srv == s.srv)
    && |s.clients| <= |t.clients| && (s.service.state in {ServiceState.Closing, Closed} ==> t.service.state in {ServiceState.Closing, Closed} && |t.clients| == |s.clients|)
    && (forall i :: 0 <= i < |s.clients| ==> ClientForward(s.clients[i], t.clients[i]))
    && s.sent <= t.sent
    && (forall k :: |s.sent| <= k < |t.sent| ==> NewSender(s, t, t.sent[k].session))
    && s.service.shutdownErr <= t.service.shutdownErr
    && s.results <= t.results
    && (forall k :: |s.results| <= k < |t.results| ==> s.service.shutdownErr <= t.results[k].failures)
  }

  // ----- one step -----

  /** Fences hold against everything the server and the environment may do. */
  lemma FencesSurvive(srv: C.Srv, process: Process, srv': C.Srv, process': Process, clients: seq<Client>)
    requires InvClients(srv, process, clients) && C.Forward(srv, srv') && (process == Down ==> process' == Down)
    ensures InvClients(srv', process', clients)
  {
    forall i | 0 <= i < |clients| ensures ClientOk(srv', process', clients[i]) {
      assert ClientOk(srv, process, clients[i]);
    }
  }

  lemma ServerKeeps(c: Config, s: Sys, a: C.Action)
    requires Inv(s)
    ensures var t := Apply(c, s, ServerAction(a)); Inv(t) && Later(s, t)
  {
    if s.process == Up {
      C.ApplyKeeps(s.srv, a);
      FencesSurvive(s.srv, s.process, C.Apply(s.srv, a), s.process, s.clients);
    } else {
      C.ForwardReflexive(s.srv);
    }
  }

  /** A step of one session: the server is untouched, only that client and the
      results it causes may change. */
  lemma ClientKeeps(s: Sys, t: Sys, i: nat)
    requires Inv(s) && i < |s.clients| && |t.clients| == |s.clients|
    requires t == s.(clients := s.clients[i := t.clients[i]], shutdowns := t.shutdowns)
    requires ClientOk(s.srv, s.process, t.clients[i]) && ClientForward(s.clients[i], t.clients[i])
    requires t.shutdowns.Keys == s.shutdowns.Keys
    requires forall u :: u in t.shutdowns ==>
               t.shutdowns[u] == s.shutdowns[u] || (t.clients[i].stopReturned && t.shutdowns[u].results.Keys == s.shutdowns[u].results.Keys + {i})
    ensures Inv(t) && Later(s, t)
  {
    C.ForwardReflexive(s.srv);
    assert s.shutdowns == map[] ==> t.shutdowns.Keys == {};
    forall u | u in t.shutdowns ensures AllReturned(t.clients, t.shutdowns[u].results) {
      assert u in s.shutdowns && AllReturned(s.clients, s.shutdowns[u].results);
    }
  }

  /** Handing back a Stop's result to the shutdown that asked for it. */
  lemma ReturnKeeps(s: Sys, i: nat, v: SessionView, caller: Option<nat>, ok: bool)
    requires Inv(s) && i < |s.clients| && v.stopped
    requires var d := Client(v, Idle, true, s.clients[i].stopSucceeded || ok);
             ClientOk(s.srv, s.process, d) && ClientForward(s.clients[i], d)
    ensures Inv(ReturnStop(s, i, v, caller, ok)) && Later(s, ReturnStop(s, i, v, caller, ok))
  {
    var t := ReturnStop(s, i, v, caller, ok);
    ClientKeeps(s, t, i);
  }

  lemma SendKeeps(s: Sys, i: nat, v: SessionView)
    requires Inv(s) && i < |s.clients| && !s.clients[i].v.stopped && v.binding.Some?
    requires ClientOk(s.srv, s.process, s.clients[i].(v := v, phase := AwaitingRegister(false)))
    ensures Inv(SendRegister(s, i, v)) && Later(s, SendRegister(s, i, v))
  {
    var t := SetClient(s, i, s.clients[i].(v := v, phase := AwaitingRegister(false)));
    ClientKeeps(s, t, i);
  }

  lemma StartKeeps(s: Sys, i: nat)
    requires Inv(s) && i < |s.clients|
    ensures Inv(StartStep(s, i)) && Later(s, StartStep(s, i))
  {
    assert ClientOk(s.srv, s.process, s.clients[i]);
    if s.clients[i].phase != Idle { LaterReflexive(s); return; }
    var (v, running) := StartCheck(s.clients[i].v, s.service.state == Running);
    var d := s.clients[i].(v := v, phase := if running then Preparing else Idle);
    CheckLocal(s.srv, s.process, s.clients[i], s.service.state == Running);
    SetClientKeeps(s, i, d);
  }

  lemma CheckLocal(srv: C.Srv, process: Process, c: Client, serviceRunning: bool)
    requires ClientOk(srv, process, c) && c.phase == Idle
    ensures var (v, running) := StartCheck(c.v, serviceRunning);
            GoodMove(srv, process, c, c.(v := v, phase := if running then Preparing else Idle))
  {
  }

  lemma PrepareLocal(srv: C.Srv, process: Process, c: Client, p: Preparation)
    requires ClientOk(srv, process, c) && c.phase == Preparing
    ensures var (v, send) := StartPrepare(c.v, p);
            && GoodMove(srv, process, c, c.(v := v, phase := if send then AwaitingRegister(false) else Idle))
            && (send ==> v.binding.Some?) && !c.v.stopped
  {
  }

  lemma SendStepKeeps(s: Sys, i: nat, p: Preparation)
    requires Inv(s) && i < |s.clients|
    ensures Inv(SendStep(s, i, p)) && Later(s, SendStep(s, i, p))
  {
    assert ClientOk(s.srv, s.process, s.clients[i]);
    if s.clients[i].phase != Preparing { LaterReflexive(s); return; }
    PrepareLocal(s.srv, s.process, s.clients[i], p);
    var (v, send) := StartPrepare(s.clients[i].v, p);
    if send { SendKeeps(s, i, v); } else { SetClientKeeps(s, i, s.clients[i].(v := v, phase := Idle)); }
  }

  lemma AnswerKeeps(s: Sys, i: nat, r: RpcResult)
    requires Inv(s) && i < |s.clients|
    ensures Inv(AnswerStep(s, i, r)) && Later(s, AnswerStep(s, i, r))
  {
    var c := s.clients[i];
    assert ClientOk(s.srv, s.process, c);
    if c.phase.AwaitingRegister? && c.phase.polled && r == RpcResult.Failure(NotFound) {
      SendKeeps(s, i, c.v);
    } else {
      ClientKeeps(s, AnswerStep(s, i, r), i);
    }
  }

  lemma StopKeeps(s: Sys, i: nat, caller: Option<nat>)
    requires Inv(s) && i < |s.clients|
    ensures Inv(StopStep(s, i, caller)) && Later(s, StopStep(s, i, caller))
  {
    assert ClientOk(s.srv, s.process, s.clients[i]);
    var c := s.clients[i];
    if c.phase != Idle { LaterReflexive(s); return; }
    var v := c.v.(stopped := true);
    StopLocal(s.srv, s.process, c, caller);
    if v.evidenceLost { ReturnKeeps(s, i, v, caller, false); }
    else if v.registered && !v.released { SetClientKeeps(s, i, c.(v := v, phase := AwaitingRelease(caller))); }
    else { SetClientKeeps(s, i, c.(v := v, phase := Collecting(caller))); }
  }

  ghost predicate GoodMove(srv: C.Srv, process: Process, c: Client, d: Client) { ClientOk(srv, process, d) && ClientForward(c, d) }

  lemma StopLocal(srv: C.Srv, process: Process, c: Client, caller: Option<nat>)
    requires ClientOk(srv, process, c) && c.phase == Idle
    ensures var v := c.v.(stopped := true);
            if v.evidenceLost then GoodMove(srv, process, c, Client(v, Idle, true, c.stopSucceeded || false))
            else if v.registered && !v.released then GoodMove(srv, process, c, c.(v := v, phase := AwaitingRelease(caller)))
            else GoodMove(srv, process, c, c.(v := v, phase := Collecting(caller)))
  {
  }

  lemma LaterReflexive(s: Sys)
    ensures Later(s, s)
  {
    C.ForwardReflexive(s.srv);
  }

  lemma SetClientKeeps(s: Sys, i: nat, d: Client)
    requires Inv(s) && i < |s.clients| && ClientOk(s.srv, s.process, d) && ClientForward(s.clients[i], d)
    ensures Inv(SetClient(s, i, d)) && Later(s, SetClient(s, i, d))
  {
    ClientKeeps(s, SetClient(s, i, d), i);
  }

  /** A release is only believed when the ID is fenced: the server said RELEASED of this very
      ID, or the process is gone. */
  lemma BelievedReleaseIsFenced(s: Sys, i: nat, r: ReleaseResult)
    requires Inv(s) && i < |s.clients| && s.clients[i].phase.AwaitingRelease? && PossibleRelease(s, r)
    requires !s.clients[i].v.released && StopRelease(s.clients[i].v, r).0.released
    ensures s.clients[i].v.binding.Some? && Fenced(s.srv, s.process, s.clients[i].v.binding.value.sandboxId)
  {
    var v := s.clients[i].v;
    assert ClientOk(s.srv, s.process, s.clients[i]);
    if r.RpcAnswered? {
      assert Ok(r.access.value) in s.srv.replies;
      assert C.AccessSound(s.srv.entries, r.access.value);
    }
  }

  lemma ReleaseLocal(s: Sys, i: nat, r: ReleaseResult)
    requires Inv(s) && i < |s.clients| && s.clients[i].phase.AwaitingRelease? && PossibleRelease(s, r)
    ensures var c := s.clients[i]; var (v, goOn) := StopRelease(c.v, r);
            var d := if goOn then c.(v := v, phase := Collecting(c.phase.caller)) else Client(v, Idle, true, c.stopSucceeded);
            v.stopped && ClientOk(s.srv, s.process, d) && ClientForward(c, d)
  {
    var c := s.clients[i];
    assert ClientOk(s.srv, s.process, c);
    if !c.v.released && StopRelease(c.v, r).0.released { BelievedReleaseIsFenced(s, i, r); }
  }

  lemma ReleaseKeeps(s: Sys, i: nat, r: ReleaseResult)
    requires Inv(s) && i < |s.clients| && s.clients[i].phase.AwaitingRelease? && PossibleRelease(s, r)
    ensures Inv(ReleaseStep(s, i, r)) && Later(s, ReleaseStep(s, i, r))
  {
    ReleaseLocal(s, i, r);
    var (v, goOn) := StopRelease(s.clients[i].v, r);
    if goOn {
      ClientKeeps(s, ReleaseStep(s, i, r), i);
    } else {
      ReturnKeeps(s, i, v, s.clients[i].phase.caller, false);
    }
  }

  lemma CollectKeeps(c: Config, s: Sys, i: nat, downloads: nat -> Download, helperRemoved: bool)
    requires Inv(s) && i < |s.clients|
    ensures Inv(CollectStep(s, c, i, downloads, helperRemoved)) && Later(s, CollectStep(s, c, i, downloads, helperRemoved))
  {
    assert ClientOk(s.srv, s.process, s.clients[i]);
    ClientKeeps(s, CollectStep(s, c, i, downloads, helperRemoved), i);
  }

  /** One shutdown attempt gives up only what was still held, and forgets no failure. */
  lemma AttemptGivesUpHeld(v: ServiceView, given: seq<Event>, failed: set<Service.Failure>, removeOk: bool, closeOk: bool, runtimeOk: bool)
    requires InvEvents(v, given) && v.state in {ServiceState.Closing, Closed}
    ensures var (w, more, result) := StopEnd(v, failed, removeOk, closeOk, runtimeOk);
            && InvEvents(w, given + more)
            && w.shutdownErr == v.shutdownErr + failed == result.failures
            && (v.removed ==> w.removed) && w.state in {ServiceState.Closing, Closed}
            && (w.state == Closed && v.state != Closed ==> w.runtimeClosed && !w.connected && (w.hasRuntime ==> w.removed))
            && (w.connected ==> v.connected) && (v.runtimeClosed ==> w.runtimeClosed) && w.hasRuntime == v.hasRuntime
  {
  }

  lemma ShutdownEndKeeps(s: Sys, t: nat, removeOk: bool, closeOk: bool, runtimeOk: bool)
    requires Inv(s)
    ensures var u := ShutdownEndStep(s, t, removeOk, closeOk, runtimeOk); Inv(u) && Later(s, u)
  {
    C.ForwardReflexive(s.srv);
    if AllStopped(s, t) {
      var failed := ShutdownFailures(s, t);
      assert s.shutdowns != map[];
      AttemptGivesUpHeld(s.service, s.given, failed, removeOk, closeOk, runtimeOk);
      var u := ShutdownEndStep(s, t, removeOk, closeOk, runtimeOk);
      FencesSurvive(s.srv, s.process, s.srv, u.process, s.clients);
    }
  }

  lemma ShutdownBeginKeeps(s: Sys, t: nat)
    requires Inv(s)
    ensures Inv(ShutdownBeginStep(s, t)) && Later(s, ShutdownBeginStep(s, t))
  {
    C.ForwardReflexive(s.srv);
  }

  /** Steps of the process or of admission: no session changes, none is lost. */
  lemma CrashKeeps(s: Sys)
    requires Inv(s) && s.process == Up
    ensures Inv(s.(process := Down)) && Later(s, s.(process := Down))
  {
    C.ForwardReflexive(s.srv);
    FencesSurvive(s.srv, s.process, s.srv, Down, s.clients);
  }

  lemma ServiceStartKeeps(c: Config, s: Sys, o: StartOutcome)
    requires Inv(s)
    ensures var t := Apply(c, s, StartServiceAction(o)); Inv(t) && Later(s, t)
  {
    C.ForwardReflexive(s.srv);
    FencesSurvive(s.srv, s.process, s.srv, Apply(c, s, StartServiceAction(o)).process, s.clients);
  }

  lemma NewSessionKeeps(c: Config, s: Sys)
    requires Inv(s)
    ensures var t := Apply(c, s, NewSessionAction); Inv(t) && Later(s, t)
  {
    C.ForwardReflexive(s.srv);
  }

  lemma StartEndKeeps(c: Config, s: Sys, a: Action)
    requires Inv(s) && (a.StartDeadline? || a.StartEnd?) && a.i < |s.clients|
    ensures Inv(Apply(c, s, a)) && Later(s, Apply(c, s, a))
  {
    assert ClientOk(s.srv, s.process, s.clients[a.i]);
    ClientKeeps(s, Apply(c, s, a), a.i);
  }

  lemma StartActionKeeps(c: Config, s: Sys, a: Action)
    requires Inv(s) && (a.StartBegin? || a.StartSend? || a.StartAnswer? || a.StartDeadline? || a.StartEnd?) && a.i < |s.clients|
    ensures Inv(Apply(c, s, a)) && Later(s, Apply(c, s, a))
  {
    match a
    case StartBegin(i) => StartKeeps(s, i);
    case StartSend(i, p) => SendStepKeeps(s, i, p);
    case StartAnswer(i, r) => AnswerKeeps(s, i, r);
    case StartDeadline(i) => StartEndKeeps(c, s, a);
    case StartEnd(i, resolved, staged) => StartEndKeeps(c, s, a);
  }

  lemma StopActionKeeps(c: Config, s: Sys, a: Action)
    requires Inv(s) && (a.StopBeginAction? || a.StopAnswer? || a.StopEndAction?) && a.i < |s.clients|
    ensures Inv(Apply(c, s, a)) && Later(s, Apply(c, s, a))
  {
    match a
    case StopBeginAction(i, caller) => StopKeeps(s, i, caller);
    case StopAnswer(i, r) =>
      if s.clients[i].phase.AwaitingRelease? && PossibleRelease(s, r) { ReleaseKeeps(s, i, r); } else { LaterReflexive(s); }
    case StopEndAction(i, downloads, removed) => CollectKeeps(c, s, i, downloads, removed);
  }

  predicate OfClient(a: Action) {
    a.StartBegin? || a.StartSend? || a.StartAnswer? || a.StartDeadline? || a.StartEnd? || a.StopBeginAction? || a.StopAnswer? || a.StopEndAction?
  }

  lemma WorldKeeps(c: Config, s: Sys, a: Action)
    requires Inv(s) && !OfClient(a)
    ensures Inv(Apply(c, s, a)) && Later(s, Apply(c, s, a))
  {
    match a
    case ServerAction(b) => ServerKeeps(c, s, b);
    case Crash => if s.process == Up { CrashKeeps(s); } else { LaterReflexive(s); }
    case StartServiceAction(o) => ServiceStartKeeps(c, s, o);
    case NewSessionAction => NewSessionKeeps(c, s);
    case ShutdownBegin(t) => ShutdownBeginKeeps(s, t);
    case ShutdownEnd(t, removeOk, closeOk, runtimeOk) => ShutdownEndKeeps(s, t, removeOk, closeOk, runtimeOk);
  }

  lemma ApplyKeeps(c: Config, s: Sys, a: Action)
    requires Inv(s)
    ensures Inv(Apply(c, s, a)) && Later(s, Apply(c, s, a))
  {
    if !OfClient(a) { WorldKeeps(c, s, a); }
    else if a.i >= |s.clients| { LaterReflexive(s); }
    else if a.StopBeginAction? || a.StopAnswer? || a.StopEndAction? { StopActionKeeps(c, s, a); }
    else { StartActionKeeps(c, s, a); }
  }

  // ----- whole runs -----

  lemma LaterTransitive(s: Sys, t: Sys, u: Sys)
    requires Later(s, t) && Later(t, u)
    ensures Later(s, u)
  {
    C.ForwardTransitive(s.srv, t.srv, u.srv);
    forall k | |s.sent| <= k < |u.sent| ensures NewSender(s, u, u.sent[k].session) {
      if k < |t.sent| {
        assert u.sent[k] == t.sent[k] && NewSender(s, t, t.sent[k].session);
      } else {
        assert NewSender(t, u, u.sent[k].session);
        if u.sent[k].session < |s.clients| { assert ClientForward(s.clients[u.sent[k].session], t.clients[u.sent[k].session]); }
      }
    }
    forall k | |s.results| <= k < |u.results| ensures s.service.shutdownErr <= u.results[k].failures {
      if k < |t.results| { assert u.results[k] == t.results[k]; }
    }
    forall i | 0 <= i < |s.clients| ensures ClientForward(s.clients[i], u.clients[i]) {
      assert ClientForward(s.clients[i], t.clients[i]) && ClientForward(t.clients[i], u.clients[i]);
    }
  }

  lemma {:induction false} RunKeeps(c: Config, s: Sys, run: seq<Action>)
    requires Inv(s)
    ensures Inv(Exec(c, s, run)) && Later(s, Exec(c, s, run))
    decreases |run|
  {
    if run == [] {
      C.ForwardReflexive(s.srv);
    } else {
      ApplyKeeps(c, s, run[0]);
      RunKeeps(c, Apply(c, s, run[0]), run[1..]);
      LaterTransitive(s, Apply(c, s, run[0]), Exec(c, s, run));
    }
  }

  lemma ReachableInv(c: Config, run: seq<Action>)
    ensures Inv(Exec(c, Init, run))
  {
    assert C.Inv(C.Init);
    RunKeeps(c, Init, run);
  }

  /** Fencing. Once a session's Stop has returned nil, then at every later moment of every run
      its sandbox ID is RELEASED without an endpoint or the bridge process is gone for good;
      every answer the server gives about that ID from then on says RELEASED and carries no
      endpoint; the session exposes nothing more and sends nothing more. */
  lemma Fencing(c: Config, run: seq<Action>, i: nat, later: seq<Action>)
    requires var s := Exec(c, Init, run); i < |s.clients| && s.clients[i].stopSucceeded
    ensures var s := Exec(c, Init, run); var t := Exec(c, s, later);
            && i < |t.clients|
            && t.clients[i].v.exposed == s.clients[i].v.exposed
            && (forall k :: |s.sent| <= k < |t.sent| ==> t.sent[k].session != i)
            && (s.clients[i].v.registered ==>
                  && s.clients[i].v.binding.Some?
                  && var id := s.clients[i].v.binding.value.sandboxId;
                     && Fenced(t.srv, t.process, id)
                     && forall r :: r in t.srv.replies && r !in s.srv.replies && r.Ok? && r.access.id == id ==>
                          (r.access.state == Released && r.access.endpoint == None))
  {
    var s := Exec(c, Init, run);
    var t := Exec(c, s, later);
    ReachableInv(c, run);
    RunKeeps(c, s, later);
    assert ClientOk(s.srv, s.process, s.clients[i]);
    forall k | |s.sent| <= k < |t.sent| ensures t.sent[k].session != i { assert NewSender(s, t, t.sent[k].session); }
    if s.clients[i].v.registered {
      var id := s.clients[i].v.binding.value.sandboxId;
      if s.process != Down {
        assert C.EntryForward(s.srv.entries[id], t.srv.entries[id]);
      }
    }
  }

  /** A Stop of the session has returned and no Start is in progress. */
  predicate Quiesced(d: Client) {
    d.stopReturned && d.v.stopped && !d.phase.Preparing? && !d.phase.AwaitingRegister? && !d.phase.Resolving?
  }

  /** Removal comes last. While the shared runtime is removed, every session there is had a
      Stop return, none is inside Start, and in every continuation no session is added and
      no registration is sent. */
  lemma RemovalComesLast(c: Config, run: seq<Action>, later: seq<Action>)
    requires Exec(c, Init, run).service.removed
    ensures var s := Exec(c, Init, run); var t := Exec(c, s, later);
            && (forall i :: 0 <= i < |s.clients| ==> Quiesced(s.clients[i]))
            && |t.clients| == |s.clients| && t.sent == s.sent
  {
    var s := Exec(c, Init, run);
    var t := Exec(c, s, later);
    ReachableInv(c, run);
    RunKeeps(c, s, later);
    forall i | 0 <= i < |s.clients| ensures Quiesced(s.clients[i]) {
      assert ClientOk(s.srv, s.process, s.clients[i]);
    }
    assert |s.sent| < |t.sent| ==> NewSender(s, t, t.sent[|s.sent|].session);
  }

  /** Closing alone does not stop a Start that has already looked: its registration is still sent. */
  lemma ClosingDoesNotStopASend(c: Config, request: Request)
    ensures var s := Exec(c, Init, [StartServiceAction(StartOutcome(true, false, true)), NewSessionAction, StartBegin(0)]);
            var t := Exec(c, s, [ShutdownBegin(0)]);
            && t.service.state == ServiceState.Closing && t.sent == []
            && Exec(c, t, [StartSend(0, Bound(request, true))]).sent == [Sent(0, request)]
  {
    var a, b, d := StartServiceAction(StartOutcome(true, false, true)), NewSessionAction, StartBegin(0);
    ExecThree(c, Init, a, b, d);
    var s := Apply(c, Apply(c, Apply(c, Init, a), b), d);
    assert s.clients == [Client(NewSession.(started := true), Preparing, false, false)] && s.service.state == Running;
    ExecOne(c, s, ShutdownBegin(0));
    var t := Apply(c, s, ShutdownBegin(0));
    ExecOne(c, t, StartSend(0, Bound(request, true)));
  }

  lemma ExecOne(c: Config, s: Sys, a: Action)
    ensures Exec(c, s, [a]) == Apply(c, s, a)
  {
    assert [a][1..] == [];
  }

  lemma ExecThree(c: Config, s: Sys, a: Action, b: Action, d: Action)
    ensures Exec(c, s, [a, b, d]) == Apply(c, Apply(c, Apply(c, s, a), b), d)
  {
    assert [a, b, d][1..] == [b, d] && [b, d][1..] == [d];
    ExecOne(c, Apply(c, Apply(c, s, a), b), d);
  }

  /** Removal, connection close and runtime close each succeed at most once, however often
      and however concurrently Service.Stop is called. */
  lemma ResourcesGivenUpOnce(c: Config, run: seq<Action>)
    ensures NoRepeats(Exec(c, Init, run).given)
  {
    ReachableInv(c, run);
  }

  /** A session failure that a shutdown recorded is in the result of every later Stop. */
  lemma FailuresAreNeverForgotten(c: Config, run: seq<Action>, later: seq<Action>, f: Service.Failure, k: nat)
    requires f in Exec(c, Init, run).service.shutdownErr
    requires |Exec(c, Init, run).results| <= k < |Exec(c, Exec(c, Init, run), later).results|
    ensures var result := Exec(c, Exec(c, Init, run), later).results[k];
            f in result.failures && !Succeeded(result)
  {
    ReachableInv(c, run);
    RunKeeps(c, Exec(c, Init, run), later);
  }
}
