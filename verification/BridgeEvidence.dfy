/** Evidence over every run of the whole bridge: what a successful Stop has collected is what the
    server published for that sandbox. */
module BridgeEvidence {
  import opened Common
  import opened Control
  import C = ControlRuns
  import opened Session
  import opened Service
  import opened BridgeRuns

  /** The server's entry of the session's ID is RELEASED, with this manifest. */
  ghost predicate Published(srv: C.Srv, v: SessionView) {
    && v.binding.Some? && v.binding.value.sandboxId in srv.entries
    && var e := srv.entries[v.binding.value.sandboxId];
       e.access.state == Released && e.access.artifacts == v.manifest
  }

  /** One client's evidence: an exposed session that was released holds the published manifest or
      has lost its evidence; a Stop that returned nil has collected it. */
  ghost predicate EvidenceOk(cfg: Config, srv: C.Srv, c: Client) {
    && SessionInv(cfg, c.v)
    && (c.v.exposed && c.v.released ==> c.v.evidenceLost || Published(srv, c.v))
    && (c.phase.Collecting? ==> !c.v.evidenceLost)
    && (c.stopSucceeded && c.v.exposed ==> c.v.collected && c.v.stopped)
  }

  ghost predicate AllEvidence(cfg: Config, srv: C.Srv, clients: seq<Client>) {
    forall i :: 0 <= i < |clients| ==> EvidenceOk(cfg, srv, clients[i])
  }

  // ----- one step of one client -----

  lemma CheckKeeps(cfg: Config, srv: C.Srv, c: Client, serviceRunning: bool)
    requires EvidenceOk(cfg, srv, c) && c.phase == Idle
    ensures var (v, running) := StartCheck(c.v, serviceRunning); EvidenceOk(cfg, srv, c.(v := v, phase := if running then Preparing else Idle))
  {
  }

  lemma PrepareKeeps(cfg: Config, srv: C.Srv, c: Client, p: Preparation)
    requires EvidenceOk(cfg, srv, c) && c.v.started && !c.v.stopped && !c.v.registered
    ensures var (v, send) := StartPrepare(c.v, p); EvidenceOk(cfg, srv, c.(v := v, phase := if send then AwaitingRegister(false) else Idle))
  {
  }

  lemma ExposeKeeps(cfg: Config, srv: C.Srv, c: Client, outcome: Option<Access>, resolved: bool, staged: bool)
    requires EvidenceOk(cfg, srv, c) && !c.v.stopped && c.v.registered && !c.stopSucceeded
    ensures EvidenceOk(cfg, srv, c.(v := StartFinish(c.v, cfg, outcome, resolved, staged).0, phase := Idle))
  {
  }

  lemma StopKeeps(cfg: Config, srv: C.Srv, c: Client, phase: Phase)
    requires EvidenceOk(cfg, srv, c) && (phase.Collecting? ==> !c.v.evidenceLost)
    ensures EvidenceOk(cfg, srv, c.(v := c.v.(stopped := true), phase := phase))
  {
  }

  /** What the server said RELEASED of is what it keeps. */
  lemma AnswerIsPublished(srv: C.Srv, v: SessionView, r: ReleaseResult)
    requires C.Inv(srv) && v.stopped && v.exposed && v.registered && !v.released
    requires r.RpcAnswered? && r.access.Some? ==> Ok(r.access.value) in srv.replies
    ensures var w := StopRelease(v, r).0; w.released && !w.evidenceLost ==> Published(srv, w)
  {
    if r.RpcAnswered? && r.access.Some? { assert C.AccessSound(srv.entries, r.access.value); }
  }

  lemma AfterRelease(cfg: Config, srv: C.Srv, c: Client, r: ReleaseResult)
    requires C.Inv(srv) && EvidenceOk(cfg, srv, c) && c.v.stopped && c.v.registered && !c.v.evidenceLost
    requires r.RpcAnswered? && r.access.Some? ==> Ok(r.access.value) in srv.replies
    ensures var (v, goOn) := StopRelease(c.v, r);
            && EvidenceOk(cfg, srv, c.(v := v, phase := Idle))
            && (goOn ==> !v.evidenceLost)
  {
    assert c.v.(stopped := true) == c.v;
    Session.ReleaseKeeps(cfg, c.v, r);
    if c.v.exposed && !c.v.released { AnswerIsPublished(srv, c.v, r); }
  }

  lemma AfterCollect(cfg: Config, srv: C.Srv, c: Client, downloads: nat -> Download, helperRemoved: bool)
    requires EvidenceOk(cfg, srv, c) && c.v.stopped && !c.v.evidenceLost && (c.v.registered ==> c.v.released)
    ensures var (v, ok) := StopCollect(c.v, cfg, downloads);
            EvidenceOk(cfg, srv, Client(v, Idle, true, c.stopSucceeded || (ok && helperRemoved)))
  {
    Session.CollectKeeps(cfg, c.v, downloads);
  }

  lemma SetEvidence(cfg: Config, srv: C.Srv, clients: seq<Client>, i: nat, d: Client)
    requires AllEvidence(cfg, srv, clients) && i < |clients| && EvidenceOk(cfg, srv, d)
    ensures AllEvidence(cfg, srv, clients[i := d])
  {
  }

  // ----- one step of the system -----

  /** The server may go on: a RELEASED entry never changes. */
  lemma ServerStays(cfg: Config, srv: C.Srv, srv': C.Srv, clients: seq<Client>)
    requires AllEvidence(cfg, srv, clients) && C.Forward(srv, srv')
    ensures AllEvidence(cfg, srv', clients)
  {
    forall i | 0 <= i < |clients| ensures EvidenceOk(cfg, srv', clients[i]) {
      assert EvidenceOk(cfg, srv, clients[i]);
      if Published(srv, clients[i].v) {
        var id := clients[i].v.binding.value.sandboxId;
        assert C.EntryForward(srv.entries[id], srv'.entries[id]);
      }
    }
  }

  predicate OfStart(a: Action) { a.StartBegin? || a.StartSend? || a.StartAnswer? || a.StartDeadline? || a.StartEnd? }

  predicate OfStop(a: Action) { a.StopBeginAction? || a.StopAnswer? || a.StopEndAction? }

  /** The one client a step of a session leaves behind. */
  lemma StartBeginEvidence(cfg: Config, s: Sys, i: nat)
    requires AllEvidence(cfg, s.srv, s.clients) && i < |s.clients|
    ensures AllEvidence(cfg, s.srv, StartStep(s, i).clients)
  {
    if s.clients[i].phase == Idle { CheckKeeps(cfg, s.srv, s.clients[i], s.service.state == Running); }
  }

  lemma StartSendEvidence(cfg: Config, s: Sys, i: nat, p: Preparation)
    requires AllEvidence(cfg, s.srv, s.clients) && i < |s.clients| && ClientOk(s.srv, s.process, s.clients[i])
    ensures AllEvidence(cfg, s.srv, SendStep(s, i, p).clients)
  {
    if s.clients[i].phase == Preparing { PrepareKeeps(cfg, s.srv, s.clients[i], p); }
  }

  /** Any move of the phase alone, except into collecting. */
  lemma PhaseEvidence(cfg: Config, srv: C.Srv, clients: seq<Client>, i: nat, phase: Phase)
    requires AllEvidence(cfg, srv, clients) && i < |clients| && !phase.Collecting?
    ensures AllEvidence(cfg, srv, clients[i := clients[i].(phase := phase)])
  {
    assert EvidenceOk(cfg, srv, clients[i]);
    SetEvidence(cfg, srv, clients, i, clients[i].(phase := phase));
  }

  lemma AnswerEvidence(cfg: Config, s: Sys, i: nat, r: RpcResult)
    requires AllEvidence(cfg, s.srv, s.clients) && i < |s.clients|
    ensures AllEvidence(cfg, s.srv, AnswerStep(s, i, r).clients)
  {
    var c := s.clients[i];
    if c.phase.AwaitingRegister? && c.v.binding.Some? && PossibleRpc(s, r) {
      PhaseEvidence(cfg, s.srv, s.clients, i, AwaitingRegister(false));
      PhaseEvidence(cfg, s.srv, s.clients, i, AwaitingRegister(true));
      PhaseEvidence(cfg, s.srv, s.clients, i, Idle);
      var d := Decide(c.v.binding.value.sandboxId, r);
      if d.Return? { PhaseEvidence(cfg, s.srv, s.clients, i, Resolving(Some(d.access))); }
    }
  }

  lemma StartEndEvidence(cfg: Config, s: Sys, i: nat, resolved: bool, staged: bool)
    requires AllEvidence(cfg, s.srv, s.clients) && i < |s.clients| && ClientOk(s.srv, s.process, s.clients[i])
    ensures AllEvidence(cfg, s.srv, Apply(cfg, s, StartEnd(i, resolved, staged)).clients)
  {
    var c := s.clients[i];
    if c.phase.Resolving? { ExposeKeeps(cfg, s.srv, c, c.phase.outcome, resolved, staged); }
  }

  lemma StartEvidence(cfg: Config, s: Sys, a: Action)
    requires Inv(s) && AllEvidence(cfg, s.srv, s.clients) && OfStart(a) && a.i < |s.clients|
    ensures var t := Apply(cfg, s, a); t.srv == s.srv && AllEvidence(cfg, s.srv, t.clients)
  {
    assert ClientOk(s.srv, s.process, s.clients[a.i]);
    match a
    case StartBegin(i) => StartBeginEvidence(cfg, s, i);
    case StartSend(i, p) => StartSendEvidence(cfg, s, i, p);
    case StartAnswer(i, r) => AnswerEvidence(cfg, s, i, r);
    case StartDeadline(i) => PhaseEvidence(cfg, s.srv, s.clients, i, Idle);
    case StartEnd(i, resolved, staged) => StartEndEvidence(cfg, s, i, resolved, staged);
  }

  lemma StopBeginEvidence(cfg: Config, s: Sys, i: nat, caller: Option<nat>)
    requires AllEvidence(cfg, s.srv, s.clients) && i < |s.clients|
    ensures AllEvidence(cfg, s.srv, StopStep(s, i, caller).clients)
  {
    var c := s.clients[i];
    assert EvidenceOk(cfg, s.srv, c);
    if c.phase == Idle {
      StopKeeps(cfg, s.srv, c, Idle);
      StopKeeps(cfg, s.srv, c, AwaitingRelease(caller));
      if !c.v.evidenceLost { StopKeeps(cfg, s.srv, c, Collecting(caller)); }
    }
  }

  lemma ReleaseEvidence(cfg: Config, s: Sys, i: nat, r: ReleaseResult)
    requires C.Inv(s.srv) && AllEvidence(cfg, s.srv, s.clients) && i < |s.clients| && ClientOk(s.srv, s.process, s.clients[i])
    ensures AllEvidence(cfg, s.srv, ReleaseStep(s, i, r).clients)
  {
    if s.clients[i].phase.AwaitingRelease? && PossibleRelease(s, r) { AfterRelease(cfg, s.srv, s.clients[i], r); }
  }

  lemma CollectEvidence(cfg: Config, s: Sys, i: nat, downloads: nat -> Download, helperRemoved: bool)
    requires AllEvidence(cfg, s.srv, s.clients) && i < |s.clients| && ClientOk(s.srv, s.process, s.clients[i])
    ensures AllEvidence(cfg, s.srv, CollectStep(s, cfg, i, downloads, helperRemoved).clients)
  {
    if s.clients[i].phase.Collecting? { AfterCollect(cfg, s.srv, s.clients[i], downloads, helperRemoved); }
  }

  lemma StopEvidence(cfg: Config, s: Sys, a: Action)
    requires Inv(s) && AllEvidence(cfg, s.srv, s.clients) && OfStop(a) && a.i < |s.clients|
    ensures var t := Apply(cfg, s, a); t.srv == s.srv && AllEvidence(cfg, s.srv, t.clients)
  {
    assert ClientOk(s.srv, s.process, s.clients[a.i]);
    match a
    case StopBeginAction(i, caller) => StopBeginEvidence(cfg, s, i, caller);
    case StopAnswer(i, r) => ReleaseEvidence(cfg, s, i, r);
    case StopEndAction(i, downloads, removed) => CollectEvidence(cfg, s, i, downloads, removed);
  }

  lemma StepEvidence(cfg: Config, s: Sys, a: Action)
    requires Inv(s) && AllEvidence(cfg, s.srv, s.clients)
    ensures AllEvidence(cfg, Apply(cfg, s, a).srv, Apply(cfg, s, a).clients)
  {
    if !OfClient(a) {
      ApplyKeeps(cfg, s, a);
      ServerStays(cfg, s.srv, Apply(cfg, s, a).srv, s.clients);
    } else if a.i < |s.clients| {
      if OfStop(a) { StopEvidence(cfg, s, a); } else { StartEvidence(cfg, s, a); }
    }
  }

  lemma {:induction false} RunEvidence(cfg: Config, s: Sys, run: seq<Action>)
    requires Inv(s) && AllEvidence(cfg, s.srv, s.clients)
    ensures var t := Exec(cfg, s, run); Inv(t) && AllEvidence(cfg, t.srv, t.clients)
    decreases |run|
  {
    if run != [] {
      ApplyKeeps(cfg, s, run[0]);
      StepEvidence(cfg, s, run[0]);
      RunEvidence(cfg, Apply(cfg, s, run[0]), run[1..]);
    }
  }

  /** In every run, once the Stop of an exposed session has returned nil: the server's entry of its
      ID is RELEASED, the session's manifest is the one published there, and every log it names
      is complete and collected with the size and digest it says; and all this stays so. */
  lemma {:induction false} StoppedMeansPublishedEvidence(cfg: Config, run: seq<Action>, i: nat, later: seq<Action>)
    requires var s := Exec(cfg, Init, run); i < |s.clients| && s.clients[i].stopSucceeded && s.clients[i].v.exposed
    ensures var t := Exec(cfg, Exec(cfg, Init, run), later);
            && i < |t.clients| && t.clients[i].v.exposed
            && Published(t.srv, t.clients[i].v) && EvidenceComplete(cfg, t.clients[i].v)
  {
    var s := Exec(cfg, Init, run);
    ReachableInv(cfg, run);
    assert AllEvidence(cfg, Init.srv, Init.clients);
    ReachableInv(cfg, []);
    RunEvidence(cfg, Init, run);
    RunEvidence(cfg, s, later);
    RunKeeps(cfg, s, later);
    var t := Exec(cfg, s, later);
    assert EvidenceOk(cfg, s.srv, s.clients[i]) && ClientForward(s.clients[i], t.clients[i]);
    assert EvidenceOk(cfg, t.srv, t.clients[i]);
  }

  // ----- a bridge that died first -----

  /** The bridge is gone, and the server never said RELEASED of this exposed session's ID: nothing
      can confirm its release, and nothing else makes its Stop succeed. */
  ghost predicate Lost(s: Sys, i: nat) {
    && s.process == Down && i < |s.clients|
    && var c := s.clients[i];
       && c.v.exposed && c.v.registered && !c.stopSucceeded && !c.phase.Collecting?
       && (c.v.released ==> c.v.evidenceLost)
       && c.v.binding.Some? && !C.SaysReleased(s.srv.entries, c.v.binding.value.sandboxId)
  }

  /** No old answer confirms the release, and a failed call finds the bridge gone. */
  lemma LostRelease(s: Sys, i: nat, r: ReleaseResult)
    requires Inv(s) && Lost(s, i) && PossibleRelease(s, r) && s.clients[i].phase.AwaitingRelease?
    ensures var (w, goOn) := StopRelease(s.clients[i].v, r); !goOn && (w.released ==> w.evidenceLost)
    ensures var w := StopRelease(s.clients[i].v, r).0; w.exposed && w.registered && w.binding == s.clients[i].v.binding
  {
    assert ClientOk(s.srv, s.process, s.clients[i]);
    if r.RpcAnswered? && r.access.Some? { assert C.AccessSound(s.srv.entries, r.access.value); }
  }

  lemma LostStop(s: Sys, i: nat, caller: Option<nat>)
    requires Lost(s, i)
    ensures Lost(StopStep(s, i, caller), i)
  {
  }

  lemma LostAnswer(s: Sys, i: nat, r: ReleaseResult)
    requires Inv(s) && Lost(s, i)
    ensures Lost(ReleaseStep(s, i, r), i)
  {
    if s.clients[i].phase.AwaitingRelease? && PossibleRelease(s, r) { LostRelease(s, i, r); }
  }

  /** A Start that is still under way changes nothing that matters. */
  lemma LostBegin(s: Sys, i: nat)
    requires Inv(s) && Lost(s, i)
    ensures Lost(StartStep(s, i), i)
  {
  }

  lemma LostSend(s: Sys, i: nat, p: Preparation)
    requires Inv(s) && Lost(s, i)
    ensures SendStep(s, i, p) == s
  {
    assert ClientOk(s.srv, s.process, s.clients[i]);
  }

  lemma LostPoll(s: Sys, i: nat, r: RpcResult)
    requires Lost(s, i)
    ensures Lost(AnswerStep(s, i, r), i)
  {
  }

  lemma LostEnd(cfg: Config, s: Sys, a: Action)
    requires (a.StartDeadline? || a.StartEnd?) && Lost(s, a.i)
    ensures Lost(Apply(cfg, s, a), a.i)
  {
  }

  lemma LostStart(cfg: Config, s: Sys, a: Action)
    requires Inv(s) && OfStart(a) && Lost(s, a.i)
    ensures Lost(Apply(cfg, s, a), a.i)
  {
    match a
    case StartBegin(i) => LostBegin(s, i);
    case StartSend(i, p) => LostSend(s, i, p);
    case StartAnswer(i, r) => LostPoll(s, i, r);
    case _ => LostEnd(cfg, s, a);
  }

  /** Steps of other sessions leave this one alone. */
  lemma OthersLeave(cfg: Config, s: Sys, a: Action, i: nat)
    requires OfClient(a) && a.i != i && i < |s.clients|
    ensures var t := Apply(cfg, s, a); t.srv == s.srv && t.process == s.process && i < |t.clients| && t.clients[i] == s.clients[i]
  {
    if OfStart(a) { OtherStarts(cfg, s, a, i); } else { OtherStops(cfg, s, a, i); }
  }

  lemma OtherStarts(cfg: Config, s: Sys, a: Action, i: nat)
    requires OfStart(a) && a.i != i && i < |s.clients|
    ensures var t := Apply(cfg, s, a); t.srv == s.srv && t.process == s.process && i < |t.clients| && t.clients[i] == s.clients[i]
  {
  }

  lemma OtherStops(cfg: Config, s: Sys, a: Action, i: nat)
    requires OfStop(a) && a.i != i && i < |s.clients|
    ensures var t := Apply(cfg, s, a); t.srv == s.srv && t.process == s.process && i < |t.clients| && t.clients[i] == s.clients[i]
  {
  }

  lemma LostWorld(cfg: Config, s: Sys, a: Action, i: nat)
    requires Lost(s, i) && !OfClient(a)
    ensures Lost(Apply(cfg, s, a), i)
  {
  }

  lemma LostStep(cfg: Config, s: Sys, a: Action, i: nat)
    requires Inv(s) && Lost(s, i)
    ensures Lost(Apply(cfg, s, a), i)
  {
    if !OfClient(a) { LostWorld(cfg, s, a, i); }
    else if a.i != i { OthersLeave(cfg, s, a, i); }
    else if OfStart(a) { LostStart(cfg, s, a); }
    else {
      match a
      case StopBeginAction(_, caller) => LostStop(s, i, caller);
      case StopAnswer(_, r) => LostAnswer(s, i, r);
      case _ =>
    }
  }

  lemma {:induction false} LostForever(cfg: Config, s: Sys, i: nat, later: seq<Action>)
    requires Inv(s) && Lost(s, i)
    ensures Lost(Exec(cfg, s, later), i)
    decreases |later|
  {
    if later != [] {
      LostStep(cfg, s, later[0], i);
      ApplyKeeps(cfg, s, later[0]);
      LostForever(cfg, Apply(cfg, s, later[0]), i, later[1..]);
    }
  }

  /** In every run: if the bridge is gone before the server said RELEASED of an exposed session's ID,
      and the session was not released or has lost its evidence, then no Stop of it ever
      succeeds, whatever old answers the network still delivers. */
  lemma {:induction false} DeadBridgeFailsEveryStop(cfg: Config, run: seq<Action>, i: nat, later: seq<Action>)
    requires var s := Exec(cfg, Init, run);
             && s.process == Down && i < |s.clients|
             && var c := s.clients[i];
                && c.v.exposed && !c.stopSucceeded && (!c.v.released || c.v.evidenceLost)
                && (c.v.binding.Some? ==> !C.SaysReleased(s.srv.entries, c.v.binding.value.sandboxId))
    ensures var t := Exec(cfg, Exec(cfg, Init, run), later); i < |t.clients| && !t.clients[i].stopSucceeded
  {
    var s := Exec(cfg, Init, run);
    ReachableInv(cfg, run);
    ReachableInv(cfg, []);
    RunEvidence(cfg, Init, run);
    assert EvidenceOk(cfg, s.srv, s.clients[i]) && ClientOk(s.srv, s.process, s.clients[i]);
    LostForever(cfg, s, i, later);
  }
}
