/** Who is answered what by the control server, in every run: each message, each waiting handler
    and each ending goroutine, told by the entry's own fields. */
module ControlAnswers {
  import opened Common
  import opened Control
  import opened ControlRuns
  import opened ControlStory

  /** Handler h has ended with answer r, given to the network or noted for one Close; nothing else
      has changed. */
  predicate Answered(s: Srv, t: Srv, h: nat, origin: Origin, id: string, r: Reply) {
    && t == s.(handlers := s.handlers - {h}, replies := t.replies, closers := t.closers)
    && (origin.Remote? ==> t.replies == s.replies + {r} && t.closers == s.closers)
    && (origin.Closer? ==>
          && t.replies == s.replies
          && t.closers == if origin.c !in s.closers then s.closers
                          else s.closers[origin.c := CloseCall(s.closers[origin.c].ids, s.closers[origin.c].answers[id := r])])
  }

  /** A message that is answered without a handler. */
  predicate Refused(s: Srv, t: Srv, code: Code) { t == s.(replies := s.replies + {Err(code)}) }

  predicate HandlerAt(s: Srv, t: Srv, h: nat, now: Handler) { t == s.(handlers := s.handlers[h := now]) }

  predicate Letter(c: char) { 'a' <= c <= 'z' || 'A' <= c <= 'Z' || '0' <= c <= '9' }

  /** A letter or digit, and up to 255 more of them or of underscores, dots and hyphens. */
  predicate Pattern(first: char, rest: string) {
    Letter(first) && |rest| <= 255 && forall i :: 0 <= i < |rest| ==> Letter(rest[i]) || rest[i] == '_' || rest[i] == '.' || rest[i] == '-'
  }

  lemma PatternIsValid(first: char, rest: string)
    requires Pattern(first, rest)
    ensures ValidIdentifier([first] + rest)
  {
    var id := [first] + rest;
    forall i | 1 <= i < |id| ensures IdentifierChar(id[i]) || id[i] in {'_', '.', '-'} { assert id[i] == rest[i - 1]; }
  }

  /** The identifiers of the service are exactly the texts of this pattern. */
  lemma IdentifierExactly(id: string)
    ensures ValidIdentifier(id) <==> exists first: char, rest: string :: id == [first] + rest && Pattern(first, rest)
  {
    if ValidIdentifier(id) { assert id == [id[0]] + id[1..] && Pattern(id[0], id[1..]); }
    if exists first: char, rest: string :: id == [first] + rest && Pattern(first, rest) {
      var first: char, rest: string :| id == [first] + rest && Pattern(first, rest);
      PatternIsValid(first, rest);
    }
  }

  // ----- messages -----

  /** A registration that arrives: malformed, of a known ID, too late, or the start of an entry that
      is REGISTERING for exactly this request, with one goroutine at work and its sender waiting. */
  lemma RegisterArrives(run: seq<Action>, h: nat, r: Request)
    requires h !in Exec(Init, run).handlers
    ensures var s := Exec(Init, run); var t := Apply(s, Deliver(h, RegisterMsg(r))); var id := r.sandboxId;
            if !(ValidIdentifier(id) && ValidIdentifier(r.taskId) && |r.runtimeId| > 0
                 && '\0' !in r.runtimeId && '\r' !in r.runtimeId && '\n' !in r.runtimeId)
            then Refused(s, t, InvalidArgument)
            else if id in s.entries then HandlerAt(s, t, h, RegisterFound(r))
            else if s.closing then Refused(s, t, FailedPrecondition)
            else t == s.(entries := s.entries[id := EntryView(Some(r), Access(id, Registering, None, "", "", []), false, true, 0, {})],
                         ops := s.ops[OpKey(id, 0) := RegSpawned], handlers := s.handlers[h := RegisterWaiting(id, 0)])
  {
  }

  lemma GetArrives(run: seq<Action>, h: nat, id: string)
    requires h !in Exec(Init, run).handlers
    ensures var s := Exec(Init, run); var t := Apply(s, Deliver(h, GetMsg(id)));
            if !ValidIdentifier(id) then Refused(s, t, InvalidArgument)
            else if id !in s.entries then Refused(s, t, NotFound)
            else HandlerAt(s, t, h, GetFound(id))
  {
  }

  /** A release of an unknown ID reserves it as already released. */
  lemma ReleaseArrives(run: seq<Action>, h: nat, id: string)
    requires h !in Exec(Init, run).handlers
    ensures var s := Exec(Init, run); var t := Apply(s, Deliver(h, ReleaseMsg(id)));
            if !ValidIdentifier(id) then Refused(s, t, InvalidArgument)
            else if id in s.entries then HandlerAt(s, t, h, ReleaseFound(Remote, id))
            else t == s.(entries := s.entries[id := EntryView(None, Access(id, Released, None, "", "", []), false, false, 0, {})],
                         handlers := s.handlers[h := ReleaseFound(Remote, id)])
  {
  }

  /** Close, which captures every ID there is and releases each of them. */
  lemma CloseArrives(run: seq<Action>, c: nat)
    requires c !in Exec(Init, run).closers
    ensures var s := Exec(Init, run);
            Apply(s, BeginClose(c)) == s.(closing := true, closers := s.closers[c := CloseCall(set id | id in s.entries, map[])])
  {
    assert (set id | id in Exec(Init, run).entries) == Exec(Init, run).entries.Keys;
  }

  lemma CloseReleases(run: seq<Action>, c: nat, h: nat, id: string)
    requires var s := Exec(Init, run); c in s.closers && id in s.closers[c].ids && id in s.entries && h !in s.handlers
    ensures HandlerAt(Exec(Init, run), Apply(Exec(Init, run), SpawnClose(c, h, id)), h, ReleaseFound(Closer(c), id))
  {
  }

  // ----- handlers -----

  /** The immutable binding. In every run, a registration of a known ID is answered Ok, with the
      entry's access, exactly when the ID was reserved without a binding or has this very one;
      with another binding it is answered AlreadyExists and shows nothing. */
  lemma KnownIdIsAnswered(run: seq<Action>, h: nat, r: Request)
    requires var s := Exec(Init, run); h in s.handlers && s.handlers[h] == RegisterFound(r)
    ensures var s := Exec(Init, run); var t := Apply(s, Advance(h)); var id := r.sandboxId;
            && id in s.entries
            && (s.entries[id].request == None || s.entries[id].request == Some(r) ==> Answered(s, t, h, Remote, id, Ok(s.entries[id].access)))
            && (s.entries[id].request != None && s.entries[id].request != Some(r) ==> Answered(s, t, h, Remote, id, Err(AlreadyExists)))
  {
    ReachableInv(run);
    assert HandlerOk(Exec(Init, run).entries, RegisterFound(r));
  }

  /** Once an ID is bound, a registration with another binding is answered AlreadyExists, whatever
      happens between its arrival and its answer. */
  lemma ConflictIsRefused(run: seq<Action>, h: nat, r: Request, between: seq<Action>)
    requires h !in Exec(Init, run).handlers && ValidRequest(r)
    requires var s := Exec(Init, run); r.sandboxId in s.entries && s.entries[r.sandboxId].request !in {None, Some(r)}
    ensures var u := Exec(Apply(Exec(Init, run), Deliver(h, RegisterMsg(r))), between);
            h in u.handlers && u.handlers[h] == RegisterFound(r) ==> Answered(u, Apply(u, Advance(h)), h, Remote, r.sandboxId, Err(AlreadyExists))
  {
    var s := Exec(Init, run);
    ReachableInv(run);
    ApplyKeeps(s, Deliver(h, RegisterMsg(r)));
    RunKeeps(Apply(s, Deliver(h, RegisterMsg(r))), between);
  }

  /** The sender of a registration is answered when, and only when, it is over: with READY, or with
      what followed. */
  lemma RegistrationIsAnswered(run: seq<Action>, h: nat)
    requires var s := Exec(Init, run); h in s.handlers && s.handlers[h].RegisterWaiting?
    ensures var s := Exec(Init, run); var t := Apply(s, Advance(h)); var id, ch := s.handlers[h].id, s.handlers[h].ch;
            && id in s.entries
            && (ch in s.entries[id].closed ==>
                  Answered(s, t, h, Remote, id, Ok(s.entries[id].access)) && s.entries[id].access.state != Registering)
            && (ch !in s.entries[id].closed ==> t == s && OpKey(id, ch) in s.ops)
  {
    var s := Exec(Init, run);
    NoLostWakeup(run, h);
    Reach(run, s.handlers[h].id);
  }

  lemma GetIsAnswered(run: seq<Action>, h: nat)
    requires var s := Exec(Init, run); h in s.handlers && s.handlers[h].GetFound?
    ensures var s := Exec(Init, run); var id := s.handlers[h].id;
            id in s.entries && Answered(s, Apply(s, Advance(h)), h, Remote, id, Ok(s.entries[id].access))
  {
    ReachableInv(run);
    assert HandlerOk(Exec(Init, run).entries, Exec(Init, run).handlers[h]);
  }

  /** A release of a known ID: answered at once when RELEASED, otherwise the endpoint is withdrawn,
      the entry is RELEASING, a goroutine is started unless one is at work, and the caller waits for it. */
  lemma ReleaseBegins(run: seq<Action>, h: nat)
    requires var s := Exec(Init, run); h in s.handlers && s.handlers[h].ReleaseFound?
    ensures var s := Exec(Init, run); var id := s.handlers[h].id;
            id in s.entries && ReleaseStarted(s, Apply(s, Advance(h)), h, s.handlers[h].origin, id, s.entries[id])
  {
    ReachableInv(run);
    assert HandlerOk(Exec(Init, run).entries, Exec(Init, run).handlers[h]);
  }

  predicate ReleaseStarted(s: Srv, t: Srv, h: nat, origin: Origin, id: string, e: EntryView) {
    if e.access.state == Released then Answered(s, t, h, origin, id, Ok(e.access))
    else
      var ch := if e.busy then e.operation else e.operation + 1;
      var a := Access(e.access.id, Releasing, None, e.access.error, e.access.cleanupError, e.access.artifacts);
      t == s.(entries := s.entries[id := EntryView(e.request, a, e.native, true, ch, e.closed)],
              ops := if e.busy then s.ops else s.ops[OpKey(id, ch) := RelSpawned],
              handlers := s.handlers[h := ReleaseWaiting(origin, id, ch)])
  }

  /** Whoever waits for a release is woken by its channel alone. */
  lemma ReleaseWaits(run: seq<Action>, h: nat)
    requires var s := Exec(Init, run); h in s.handlers && s.handlers[h].ReleaseWaiting?
    ensures var s := Exec(Init, run); var t := Apply(s, Advance(h)); var w := s.handlers[h];
            && w.id in s.entries
            && (w.ch in s.entries[w.id].closed ==> HandlerAt(s, t, h, ReleaseWoken(w.origin, w.id)))
            && (w.ch !in s.entries[w.id].closed ==> t == s && OpKey(w.id, w.ch) in s.ops)
  {
    NoLostWakeup(run, h);
  }

  /** The answer to a release: RELEASED, or RELEASING with the error of the newest native release,
      which can be tried again; never while a goroutine is still at work. */
  lemma ReleaseIsAnswered(run: seq<Action>, h: nat)
    requires var s := Exec(Init, run); h in s.handlers && s.handlers[h].ReleaseWoken?
    ensures var s := Exec(Init, run); var t := Apply(s, Advance(h)); var id, origin := s.handlers[h].id, s.handlers[h].origin;
            && id in s.entries
            && var e := s.entries[id];
               && (e.busy ==> HandlerAt(s, t, h, ReleaseWaiting(origin, id, e.operation)))
               && (!e.busy ==>
                     && Answered(s, t, h, origin, id, Ok(e.access))
                     && (e.access.state == Released
                         || (e.access.state == Releasing && e.native && e.access.cleanupError == ReleaseError(ReleaseOf(s.trace, id)))))
  {
    var s := Exec(Init, run);
    Reach(run, s.handlers[h].id);
    assert HandlerOk(s.entries, s.handlers[h]);
  }

  /** A waiting handler whose context ends is answered with that and takes nothing with it; no other
      handler can be interrupted. */
  lemma CancelIsAnswered(run: seq<Action>, h: nat, expired: bool)
    requires h in Exec(Init, run).handlers
    ensures var s := Exec(Init, run); var t := Apply(s, CancelHandler(h, expired)); var code := if expired then DeadlineExceeded else Canceled;
            match s.handlers[h]
            case RegisterWaiting(id, _) => Answered(s, t, h, Remote, id, Err(code))
            case ReleaseWaiting(origin, id, _) => Answered(s, t, h, origin, id, Err(code))
            case _ => t == s
  {
  }

  // ----- goroutines -----

  /** A goroutine reaches its native call exactly when there is something to call. */
  lemma CallIsMade(run: seq<Action>, k: OpKey, made: bool)
    requires k in Exec(Init, run).ops
    ensures var s := Exec(Init, run); var t := Apply(s, OpCall(k, made));
            && k.id in s.entries
            && (s.ops[k] == RegSpawned && made ==> t == s.(ops := s.ops[k := RegCalling], trace := s.trace + [RegisterCalled(k.id)]))
            && (s.ops[k] == RegSpawned && !made ==> t == s.(ops := s.ops[k := RegReturned(false, None, Some(NoFactory))]))
            && (s.ops[k] == RelSpawned && s.entries[k.id].native ==> t == s.(ops := s.ops[k := RelCalling], trace := s.trace + [ReleaseCalled(k.id)]))
            && (s.ops[k] == RelSpawned && !s.entries[k.id].native ==> t == s.(ops := s.ops[k := RelReturned([], None)]))
  {
    ReachableInv(run);
    assert Owned(Exec(Init, run).entries, k);
  }

  /** A native call that returns hands its answer to its own goroutine. */
  lemma CallReturns(run: seq<Action>, k: OpKey, endpoint: Option<Endpoint>, artifacts: seq<Artifact>, err: Option<string>)
    requires k in Exec(Init, run).ops
    ensures var s := Exec(Init, run); var t := Apply(s, OpReturn(k, endpoint, artifacts, err));
            && (s.ops[k] == RegCalling ==>
                  t == s.(ops := s.ops[k := RegReturned(true, endpoint, err)], trace := s.trace + [RegisterReturned(k.id, endpoint, err)]))
            && (s.ops[k] == RelCalling ==>
                  t == s.(ops := s.ops[k := RelReturned(artifacts, err)], trace := s.trace + [ReleaseReturned(k.id, artifacts, err)]))
            && (s.ops[k] != RegCalling && s.ops[k] != RelCalling ==> t == s)
  {
  }

  /** The entry after its registration ended with nothing to undo: READY at the endpoint returned. */
  predicate BecameReady(e: EntryView, f: EntryView, endpoint: Option<Endpoint>) {
    && endpoint.Some? && 1 <= endpoint.value.port <= 65535
    && f == EntryView(e.request, Access(e.access.id, Ready, endpoint, "", "", []), true, false, 0, {0})
  }

  /** The entry after its registration failed or was overtaken by a release: without endpoint, with
      the reason if it failed, and already in the hands of the next goroutine. */
  predicate BecameReleasing(e: EntryView, f: EntryView, native: bool, error: string) {
    f == EntryView(e.request, Access(e.access.id, Releasing, None, error, "", []), native, true, 1, {0})
  }

  predicate Usable(endpoint: Option<Endpoint>, err: Option<string>) {
    err.None? && endpoint.Some? && 1 <= endpoint.value.port <= 65535
  }

  function Reason(endpoint: Option<Endpoint>, err: Option<string>): string {
    if err.Some? then err.value else if Usable(endpoint, err) then "" else NoEndpoint
  }

  lemma EntryEnds(e: EntryView, native: bool, endpoint: Option<Endpoint>, err: Option<string>)
    requires Unborn(e) && e.busy && e.access.endpoint.None? && e.access.state in {Registering, Releasing} && (!native ==> err.Some?)
    ensures var (f, spawned) := FinishRegister(e, 0, native, endpoint, err);
            if Usable(endpoint, err) && e.access.state == Registering then BecameReady(e, f, endpoint) && !spawned
            else BecameReleasing(e, f, native, Reason(endpoint, err)) && spawned
  {
  }

  /** The end of every registration: READY exactly when nobody asked for a release meanwhile and the
      native call returned a usable endpoint without an error; otherwise the release follows. */
  lemma RegistrationEnds(run: seq<Action>, k: OpKey)
    requires k in Exec(Init, run).ops && Exec(Init, run).ops[k].RegReturned?
    ensures var s := Exec(Init, run); RegistrationEnded(s, Apply(s, OpFinish(k)), k, s.ops[k])
  {
    var s := Exec(Init, run);
    Reach(run, k.id);
    OpFacts(s.entries, s.ops, s.trace, k);
    EntryEnds(s.entries[k.id], s.ops[k].native, s.ops[k].endpoint, s.ops[k].regErr);
  }

  predicate RegistrationEnded(s: Srv, t: Srv, k: OpKey, op: Op)
    requires op.RegReturned?
  {
    && k.id in s.entries && k.id in t.entries && k.ch == 0
    && t == s.(entries := s.entries[k.id := t.entries[k.id]], ops := t.ops)
    && if Usable(op.endpoint, op.regErr) && s.entries[k.id].access.state == Registering
       then BecameReady(s.entries[k.id], t.entries[k.id], op.endpoint) && t.ops == s.ops - {k}
       else BecameReleasing(s.entries[k.id], t.entries[k.id], op.native, Reason(op.endpoint, op.regErr))
            && t.ops == (s.ops - {k})[OpKey(k.id, 1) := RelSpawned]
  }

  /** The end of every release: RELEASED with the artifacts returned, or still RELEASING with the
      error, the native sandbox kept for the next attempt; the channel is closed either way. */
  lemma ReleaseEnds(run: seq<Action>, k: OpKey)
    requires k in Exec(Init, run).ops && Exec(Init, run).ops[k].RelReturned?
    ensures var s := Exec(Init, run); var t := Apply(s, OpFinish(k)); var op := s.ops[k];
            && k.id in s.entries
            && var e := s.entries[k.id];
               t == s.(ops := s.ops - {k}, entries := s.entries[k.id :=
                      if op.relErr.None?
                      then EntryView(e.request, Access(e.access.id, Released, None, e.access.error, "", op.artifacts), false, false, k.ch, e.closed + {k.ch})
                      else EntryView(e.request, Access(e.access.id, Releasing, None, e.access.error, op.relErr.value, []), true, false, k.ch, e.closed + {k.ch})])
  {
    var s := Exec(Init, run);
    ReachableInv(run);
    Reach(run, k.id);
    OpFacts(s.entries, s.ops, s.trace, k);
  }
}
