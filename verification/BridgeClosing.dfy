/** What is still sent once the bridge service has begun to close. */
module BridgeClosing {
  import opened Common
  import opened Control
  import opened Session
  import opened Service
  import opened BridgeRuns

  predicate Shut(s: Sys) { s.service.state == ServiceState.Closing || s.service.state == Closed }

  /** A session whose Start may still send: it has looked at the service and not sent, or it awaits an
      answer, which may tell it to send the same binding again. */
  predicate MaySend(c: Client) { c.phase.Preparing? || c.phase.AwaitingRegister? }

  /** A shut service stays shut and gets no session; its sessions only lose the ability to send, and
      what is sent comes from one that had it. */
  ghost predicate OnlyFewerSend(s: Sys, t: Sys) {
    && Shut(t) && |t.clients| == |s.clients| && s.sent <= t.sent
    && (forall i :: 0 <= i < |t.clients| && MaySend(t.clients[i]) ==> MaySend(s.clients[i]))
    && (forall k :: |s.sent| <= k < |t.sent| ==> SentBy(s, t.sent[k].session))
  }

  predicate SentBy(s: Sys, i: nat) { i < |s.clients| && MaySend(s.clients[i]) }

  // ----- one step -----

  /** The change of one client, with the message it may send. */
  lemma ClientStep(s: Sys, t: Sys, i: nat, d: Client)
    requires Shut(s) && i < |s.clients| && t.service == s.service && t.clients == s.clients[i := d]
    requires MaySend(d) ==> MaySend(s.clients[i])
    requires t.sent == s.sent || (MaySend(s.clients[i]) && exists r :: t.sent == s.sent + [Sent(i, r)])
    ensures OnlyFewerSend(s, t)
  {
  }

  lemma StandStill(s: Sys, t: Sys)
    requires Shut(s) && Shut(t) && t.clients == s.clients && t.sent == s.sent
    ensures OnlyFewerSend(s, t)
  {
  }

  lemma StartIsShut(s: Sys, i: nat)
    requires Shut(s) && i < |s.clients|
    ensures OnlyFewerSend(s, StartStep(s, i))
  {
    ClientStep(s, StartStep(s, i), i, StartStep(s, i).clients[i]);
  }

  lemma SendIsShut(s: Sys, i: nat, p: Preparation)
    requires Shut(s) && i < |s.clients|
    ensures OnlyFewerSend(s, SendStep(s, i, p))
  {
    ClientStep(s, SendStep(s, i, p), i, SendStep(s, i, p).clients[i]);
  }

  lemma AnswerIsShut(s: Sys, i: nat, r: RpcResult)
    requires Shut(s) && i < |s.clients|
    ensures OnlyFewerSend(s, AnswerStep(s, i, r))
  {
    ClientStep(s, AnswerStep(s, i, r), i, AnswerStep(s, i, r).clients[i]);
  }

  lemma StartEndIsShut(c: Config, s: Sys, a: Action)
    requires Shut(s) && (a.StartDeadline? || a.StartEnd?) && a.i < |s.clients|
    ensures OnlyFewerSend(s, Apply(c, s, a))
  {
    ClientStep(s, Apply(c, s, a), a.i, Apply(c, s, a).clients[a.i]);
  }

  lemma StopIsShut(s: Sys, i: nat, caller: Option<nat>)
    requires Shut(s) && i < |s.clients|
    ensures OnlyFewerSend(s, StopStep(s, i, caller))
  {
    ClientStep(s, StopStep(s, i, caller), i, StopStep(s, i, caller).clients[i]);
  }

  lemma ReleaseIsShut(s: Sys, i: nat, r: ReleaseResult)
    requires Shut(s) && i < |s.clients|
    ensures OnlyFewerSend(s, ReleaseStep(s, i, r))
  {
    ClientStep(s, ReleaseStep(s, i, r), i, ReleaseStep(s, i, r).clients[i]);
  }

  lemma CollectIsShut(c: Config, s: Sys, i: nat, downloads: nat -> Download, helperRemoved: bool)
    requires Shut(s) && i < |s.clients|
    ensures OnlyFewerSend(s, CollectStep(s, c, i, downloads, helperRemoved))
  {
    ClientStep(s, CollectStep(s, c, i, downloads, helperRemoved), i, CollectStep(s, c, i, downloads, helperRemoved).clients[i]);
  }

  /** No step but a session's touches a session or sends, and none opens a shut service. */
  lemma WorldIsShut(c: Config, s: Sys, a: Action)
    requires Inv(s) && Shut(s) && !OfClient(a)
    ensures OnlyFewerSend(s, Apply(c, s, a))
  {
    WorldKeeps(c, s, a);
    StandStill(s, Apply(c, s, a));
  }

  lemma StepIsShut(c: Config, s: Sys, a: Action)
    requires Inv(s) && Shut(s)
    ensures OnlyFewerSend(s, Apply(c, s, a))
  {
    if !OfClient(a) { WorldIsShut(c, s, a); }
    else if a.i >= |s.clients| { StandStill(s, s); }
    else {
      match a
      case StartBegin(i) => StartIsShut(s, i);
      case StartSend(i, p) => SendIsShut(s, i, p);
      case StartAnswer(i, r) => AnswerIsShut(s, i, r);
      case StartDeadline(_) => StartEndIsShut(c, s, a);
      case StartEnd(_, _, _) => StartEndIsShut(c, s, a);
      case StopBeginAction(i, caller) => StopIsShut(s, i, caller);
      case StopAnswer(i, r) => ReleaseIsShut(s, i, r);
      case StopEndAction(i, downloads, removed) => CollectIsShut(c, s, i, downloads, removed);
    }
  }

  // ----- whole runs -----

  lemma Chain(s: Sys, t: Sys, u: Sys)
    requires OnlyFewerSend(s, t) && OnlyFewerSend(t, u)
    ensures OnlyFewerSend(s, u)
  {
    forall k | |s.sent| <= k < |u.sent| ensures SentBy(s, u.sent[k].session) {
      if k < |t.sent| { assert u.sent[k] == t.sent[k]; } else { assert SentBy(t, u.sent[k].session); }
    }
  }

  lemma {:induction false} RunIsShut(c: Config, s: Sys, later: seq<Action>)
    requires Inv(s) && Shut(s)
    ensures OnlyFewerSend(s, Exec(c, s, later))
    decreases |later|
  {
    if later == [] {
      StandStill(s, s);
    } else {
      var t := Apply(c, s, later[0]);
      StepIsShut(c, s, later[0]);
      ApplyKeeps(c, s, later[0]);
      RunIsShut(c, t, later[1..]);
      Chain(s, t, Exec(c, t, later[1..]));
    }
  }

  /** In every run, from the moment the service begins to close: whatever is sent comes from a session
      that at that moment was preparing to send or awaiting an answer to its registration. */
  lemma {:induction false} LateSendersHadLooked(c: Config, run: seq<Action>, later: seq<Action>)
    requires Shut(Exec(c, Init, run))
    ensures var s := Exec(c, Init, run); var t := Exec(c, s, later);
            s.sent <= t.sent && forall k :: |s.sent| <= k < |t.sent| ==> SentBy(s, t.sent[k].session)
  {
    ReachableInv(c, run);
    RunIsShut(c, Exec(c, Init, run), later);
  }

  // ----- every such session can still send -----

  const AnyRequest := Request("", "", "", "")

  /** A run of one or two actions in which session `i` sends. */
  lemma CanStillSend(c: Config, s: Sys, i: nat) returns (later: seq<Action>)
    requires Inv(s) && SentBy(s, i)
    ensures |Exec(c, s, later).sent| == |s.sent| + 1
  {
    assert ClientOk(s.srv, s.process, s.clients[i]);
    match s.clients[i].phase
    case Preparing =>
      later := [StartSend(i, Bound(AnyRequest, true))];
      ExecOne(c, s, later[0]);
    case AwaitingRegister(polled) =>
      var again := StartAnswer(i, RpcResult.Failure(NotFound));
      if polled {
        later := [again];
        ExecOne(c, s, again);
      } else {
        var poll := StartAnswer(i, RpcResult.Failure(Unavailable));
        later := [poll, again];
        assert later[1..] == [again];
        ExecOne(c, Apply(c, s, poll), again);
      }
  }

  /** From the moment the service begins to close, nothing more is sent in any continuation if and
      only if no session is preparing to send or awaiting an answer to its registration. */
  lemma {:induction false} NothingMoreIsSentExactly(c: Config, run: seq<Action>)
    requires Shut(Exec(c, Init, run))
    ensures var s := Exec(c, Init, run);
            (forall later: seq<Action> :: Exec(c, s, later).sent == s.sent) <==> (forall i :: 0 <= i < |s.clients| ==> !MaySend(s.clients[i]))
  {
    var s := Exec(c, Init, run);
    ReachableInv(c, run);
    if forall i :: 0 <= i < |s.clients| ==> !MaySend(s.clients[i]) {
      forall later: seq<Action> ensures Exec(c, s, later).sent == s.sent {
        RunIsShut(c, s, later);
        var t := Exec(c, s, later);
        assert |s.sent| < |t.sent| ==> SentBy(s, t.sent[|s.sent|].session);
      }
    } else {
      var i :| 0 <= i < |s.clients| && MaySend(s.clients[i]);
      var later := CanStillSend(c, s, i);
      assert Exec(c, s, later).sent != s.sent;
    }
  }
}
