/** The interleaved steps of a session carry out the complete calls that `Session` speaks of, and
    nobody else's steps interfere. */
module BridgeCalls {
  import opened Common
  import opened Control
  import C = ControlRuns
  import opened Session
  import opened Service
  import opened BridgeRuns

  /** No step but a session's own changes it. */
  lemma OthersLeaveSession(c: Config, s: Sys, a: Action, i: nat)
    requires i < |s.clients| && !(OfClient(a) && a.i == i)
    ensures i < |Apply(c, s, a).clients| && Apply(c, s, a).clients[i] == s.clients[i]
  {
    if !OfClient(a) {
      WorldLeavesSessions(c, s, a);
    } else if a.i < |s.clients| {
      if a.StopBeginAction? || a.StopAnswer? || a.StopEndAction? { StopLeavesOthers(c, s, a); } else { StartLeavesOthers(c, s, a); }
    }
  }

  predicate OnlySession(s: Sys, t: Sys, i: nat) {
    |t.clients| == |s.clients| && forall j :: 0 <= j < |s.clients| && j != i ==> t.clients[j] == s.clients[j]
  }

  lemma WorldLeavesSessions(c: Config, s: Sys, a: Action)
    requires !OfClient(a)
    ensures s.clients <= Apply(c, s, a).clients
  {
  }

  lemma StartLeavesOthers(c: Config, s: Sys, a: Action)
    requires (a.StartBegin? || a.StartSend? || a.StartAnswer? || a.StartDeadline? || a.StartEnd?) && a.i < |s.clients|
    ensures OnlySession(s, Apply(c, s, a), a.i)
  {
  }

  lemma StopLeavesOthers(c: Config, s: Sys, a: Action)
    requires (a.StopBeginAction? || a.StopAnswer? || a.StopEndAction?) && a.i < |s.clients|
    ensures OnlySession(s, Apply(c, s, a), a.i)
  {
  }

  // ----- Start -----

  /** Session i goes on with this view in this phase, having sent these messages. */
  predicate Moved(s: Sys, t: Sys, i: nat, v: SessionView, phase: Phase, sent: seq<Sent>)
    requires i < |s.clients|
  {
    t == s.(clients := s.clients[i := s.clients[i].(v := v, phase := phase)], sent := s.sent + sent)
  }

  /** The look at the service: a new session prepares exactly while the service runs. */
  lemma StartLooks(c: Config, s: Sys, i: nat)
    requires i < |s.clients| && s.clients[i].phase == Idle
    ensures var v := s.clients[i].v; var unused := !v.started && !v.stopped;
            Moved(s, Apply(c, s, StartBegin(i)), i, if unused then v.(started := true) else v,
                  if unused && s.service.state == Running then Preparing else Idle, [])
  {
  }

  /** The sending: the binding leaves the session exactly when it was exported and recorded. */
  lemma StartSends(c: Config, s: Sys, i: nat, p: Preparation)
    requires i < |s.clients| && s.clients[i].phase == Preparing
    ensures var v := s.clients[i].v; var t := Apply(c, s, StartSend(i, p));
            && (p.Refused? ==> Moved(s, t, i, v, Idle, []))
            && (p.Bound? && !p.recorded ==> Moved(s, t, i, v.(binding := Some(p.request)), Idle, []))
            && (p.Bound? && p.recorded ==>
                  Moved(s, t, i, v.(binding := Some(p.request), registered := true), AwaitingRegister(false), [Sent(i, p.request)]))
  {
  }

  /** The end of a Start whose answer settled it. */
  lemma StartEnds(c: Config, s: Sys, i: nat, outcome: Access, resolved: bool, staged: bool)
    requires i < |s.clients| && s.clients[i].phase == Resolving(Some(outcome))
    ensures var v := s.clients[i].v; var ok := Usable(c, outcome) && resolved && (c.helper ==> staged);
            Moved(s, Apply(c, s, StartEnd(i, resolved, staged)), i, if ok then v.(exposed := true) else v, Idle, [])
  {
  }

  predicate Awaits(s: Sys, i: nat, request: Request, polled: bool) {
    i < |s.clients| && s.clients[i].phase == AwaitingRegister(polled) && s.clients[i].v.binding == Some(request)
  }

  /** One answer to a waiting session: kept waiting, settled or refused, told by states and codes. */
  lemma AnswerExactly(c: Config, s: Sys, i: nat, request: Request, script: seq<RpcResult>, k: nat)
    requires k < |script| && Awaits(s, i, request, Polls(script, k)) && PossibleRpc(s, script[k])
    ensures var t := Apply(c, s, StartAnswer(i, script[k])); var d := s.clients[i]; var id := request.sandboxId;
            && (LeavesOpen(id, script, k) ==>
                  Moved(s, t, i, d.v, AwaitingRegister(Polls(script, k + 1)), if Polls(script, k + 1) then [] else [Sent(i, request)]))
            && (Settles(id, script[k]) ==> Moved(s, t, i, d.v, Resolving(script[k].access), []))
            && (Refuses(id, script, k) ==> Moved(s, t, i, d.v, Idle, []))
  {
  }

  lemma MovedTwice(s: Sys, u: Sys, t: Sys, i: nat, v: SessionView, p: Phase, q: Phase, first: seq<Sent>, second: seq<Sent>)
    requires i < |s.clients| && Moved(s, u, i, v, p, first) && Moved(u, t, i, v, q, second)
    ensures Moved(s, t, i, v, q, first + second)
  {
    assert s.clients[i := t.clients[i]] == u.clients[i := t.clients[i]];
    assert s.sent + first + second == s.sent + (first + second);
  }

  /** The answers of a script, taken one after the other. */
  function Take(c: Config, s: Sys, i: nat, script: seq<RpcResult>): Sys {
    if script == [] then s else Apply(c, Take(c, s, i, script[..|script| - 1]), StartAnswer(i, script[|script| - 1]))
  }

  predicate Possible(s: Sys, script: seq<RpcResult>) {
    forall k :: 0 <= k < |script| ==> PossibleRpc(s, script[k])
  }

  lemma {:induction false} PrefixPolls(script: seq<RpcResult>, n: nat, k: nat)
    requires k <= n <= |script|
    ensures Polls(script[..n], k) <==> Polls(script, k)
  {
    if k > 0 { PrefixPolls(script, n, k - 1); }
  }

  lemma PrefixOpen(id: string, script: seq<RpcResult>, n: nat)
    requires n <= |script| && OpenUntil(id, script, n)
    ensures OpenUntil(id, script[..n], n)
  {
    forall j | 0 <= j < n ensures LeavesOpen(id, script[..n], j) {
      assert LeavesOpen(id, script, j);
      PrefixPolls(script, n, j);
    }
  }

  /** The registrations that the answers so far have made the session send again. */
  function Repeats(script: seq<RpcResult>): nat {
    if script == [] then 0
    else Repeats(script[..|script| - 1]) + if Polls(script, |script|) then 0 else 1
  }

  function Copies<T>(x: T, n: nat): seq<T> { seq(n, k => x) }

  lemma CopiesSnoc<T>(x: T, n: nat)
    ensures Copies(x, n) + [x] == Copies(x, n + 1) && Copies(x, n) + [] == Copies(x, n)
  {
  }

  /** While the answers leave the outcome open the session waits on, having sent its binding again
      exactly after each poll answered NotFound. */
  lemma {:induction false} KeepsWaiting(c: Config, s: Sys, i: nat, request: Request, script: seq<RpcResult>)
    requires Awaits(s, i, request, false) && Possible(s, script) && OpenUntil(request.sandboxId, script, |script|)
    decreases |script|, 1
    ensures Moved(s, Take(c, s, i, script), i, s.clients[i].v, AwaitingRegister(Polls(script, |script|)), Copies(Sent(i, request), Repeats(script)))
  {
    if script == [] {
      assert s.clients[i := s.clients[i]] == s.clients && s.sent + Copies(Sent(i, request), 0) == s.sent;
    } else {
      var n := |script| - 1;
      assert LeavesOpen(request.sandboxId, script, n);
      TakesOneMore(c, s, i, request, script);
      CopiesSnoc(Sent(i, request), Repeats(script[..n]));
    }
  }

  lemma TakesOneMore(c: Config, s: Sys, i: nat, request: Request, script: seq<RpcResult>)
    requires Awaits(s, i, request, false) && Possible(s, script) && script != [] && OpenUntil(request.sandboxId, script, |script| - 1)
    ensures var n := |script| - 1; var id := request.sandboxId; var before := Copies(Sent(i, request), Repeats(script[..n]));
            && (LeavesOpen(id, script, n) ==>
                  Moved(s, Take(c, s, i, script), i, s.clients[i].v, AwaitingRegister(Polls(script, n + 1)),
                        before + if Polls(script, n + 1) then [] else [Sent(i, request)]))
            && (Settles(id, script[n]) ==> Moved(s, Take(c, s, i, script), i, s.clients[i].v, Resolving(script[n].access), before + []))
            && (Refuses(id, script, n) ==> Moved(s, Take(c, s, i, script), i, s.clients[i].v, Idle, before + []))
    decreases |script|, 0
  {
    var n, id := |script| - 1, request.sandboxId;
    PrefixOpen(id, script, n);
    KeepsWaiting(c, s, i, request, script[..n]);
    PrefixPolls(script, n, n);
    var u := Take(c, s, i, script[..n]);
    AnswerExactly(c, u, i, request, script, n);
    var t, v, p, first := Take(c, s, i, script), s.clients[i].v, AwaitingRegister(Polls(script, n)), Copies(Sent(i, request), Repeats(script[..n]));
    if LeavesOpen(id, script, n) {
      MovedTwice(s, u, t, i, v, p, AwaitingRegister(Polls(script, n + 1)), first, if Polls(script, n + 1) then [] else [Sent(i, request)]);
    }
    if Settles(id, script[n]) { MovedTwice(s, u, t, i, v, p, Resolving(script[n].access), first, []); }
    if Refuses(id, script, n) { MovedTwice(s, u, t, i, v, p, Idle, first, []); }
  }

  /** With answers up to the first decisive one, the waiting ends with that answer: settled by it,
      or back to idle. */
  lemma {:induction false} StartSettles(c: Config, s: Sys, i: nat, request: Request, script: seq<RpcResult>)
    requires Awaits(s, i, request, false) && Possible(s, script) && script != []
    requires OpenUntil(request.sandboxId, script, |script| - 1) && !LeavesOpen(request.sandboxId, script, |script| - 1)
    ensures var last := script[|script| - 1];
            Moved(s, Take(c, s, i, script), i, s.clients[i].v, if Settles(request.sandboxId, last) then Resolving(last.access) else Idle,
                  Copies(Sent(i, request), Repeats(script[..|script| - 1])))
  {
    OneDecides(request.sandboxId, script, |script| - 1);
    TakesOneMore(c, s, i, request, script);
    CopiesSnoc(Sent(i, request), Repeats(script[..|script| - 1]));
  }

  // ----- Stop -----

  /** The Stop has returned `ok` and left the view `w`; the shutdown that asked has been told. */
  predicate StopReported(s: Sys, t: Sys, i: nat, w: SessionView, ok: bool, caller: Option<nat>)
    requires i < |s.clients|
  {
    && t.clients == s.clients[i := Client(w, Idle, true, s.clients[i].stopSucceeded || ok)]
    && t.shutdowns == (if caller.Some? && caller.value in s.shutdowns
                       then s.shutdowns[caller.value := Shutdown(s.shutdowns[caller.value].results[i := ok])] else s.shutdowns)
    && t == s.(clients := t.clients, shutdowns := t.shutdowns)
  }

  /** The Stop goes on in another phase. */
  predicate StopMoved(s: Sys, t: Sys, i: nat, v: SessionView, phase: Phase)
    requires i < |s.clients|
  {
    t == s.(clients := s.clients[i := s.clients[i].(v := v, phase := phase)])
  }

  lemma StopBegins(c: Config, s: Sys, i: nat, caller: Option<nat>)
    requires i < |s.clients| && s.clients[i].phase == Idle
    ensures var v := s.clients[i].v.(stopped := true); var t := Apply(c, s, StopBeginAction(i, caller));
            && (Asks(v) ==> StopMoved(s, t, i, v, AwaitingRelease(caller)))
            && (!Asks(v) && v.evidenceLost ==> StopReported(s, t, i, v, false, caller))
            && (!Asks(v) && !v.evidenceLost ==> StopMoved(s, t, i, v, Collecting(caller)))
  {
  }

  lemma StopIsAnswered(c: Config, s: Sys, i: nat, r: ReleaseResult, caller: Option<nat>)
    requires i < |s.clients| && s.clients[i].phase == AwaitingRelease(caller) && PossibleRelease(s, r)
    ensures var t := Apply(c, s, StopAnswer(i, r)); var (v, goOn) := StopRelease(s.clients[i].v, r);
            if goOn then StopMoved(s, t, i, v, Collecting(caller)) else StopReported(s, t, i, v, false, caller)
  {
  }

  lemma StopCollects(c: Config, s: Sys, i: nat, downloads: nat -> Download, helperRemoved: bool, caller: Option<nat>)
    requires i < |s.clients| && s.clients[i].phase == Collecting(caller)
    ensures var (v, ok) := StopCollect(s.clients[i].v, c, downloads);
            StopReported(s, Apply(c, s, StopEndAction(i, downloads, helperRemoved)), i, v, ok && helperRemoved, caller)
  {
  }

  /** A Stop that waits for the release comes to the complete call: the answer ends it with the call's
      result, or what is left to do is the rest of that call. */
  lemma AskingStopIsCarriedOut(c: Config, s: Sys, i: nat, caller: Option<nat>, r: ReleaseResult, downloads: nat -> Download, helperRemoved: bool)
    requires i < |s.clients| && s.clients[i].phase == AwaitingRelease(caller) && s.clients[i].v.stopped && Asks(s.clients[i].v) && PossibleRelease(s, r)
    ensures var t := Apply(c, s, StopAnswer(i, r)); var (w, ok) := StopCall(s.clients[i].v, c, r, downloads, helperRemoved);
            if t.clients[i].phase == Idle then StopReported(s, t, i, w, ok, caller)
            else t.clients[i].phase == Collecting(caller) && (w, ok) == Collected(t.clients[i].v, c, downloads, helperRemoved)
  {
    StopIsAnswered(c, s, i, r, caller);
    CallSplits(s.clients[i].v, c, r, downloads, helperRemoved);
  }

  /** The last part of a Stop as a call of its own. */
  function Collected(v: SessionView, c: Config, downloads: nat -> Download, helperRemoved: bool): (SessionView, bool) {
    (StopCollect(v, c, downloads).0, StopCollect(v, c, downloads).1 && helperRemoved)
  }

  lemma CallSplits(v: SessionView, c: Config, r: ReleaseResult, downloads: nat -> Download, helperRemoved: bool)
    requires v.stopped
    ensures StopCall(v, c, r, downloads, helperRemoved)
            == if StopRelease(v, r).1 then Collected(StopRelease(v, r).0, c, downloads, helperRemoved) else (StopRelease(v, r).0, false)
  {
  }
}
