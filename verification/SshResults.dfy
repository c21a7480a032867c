/** Whom a revocation reaches, and what every step of one SSH bridge answers. */
module SshResults {
  import opened Ssh
  import opened SshRuns

  // ----- revocation reaches everyone -----

  /** Nobody is told before the revocation; behind it every registered connection was told. */
  predicate ToldOk(s: Sys) {
    (!s.v.revoked ==> s.told == {}) && (s.v.revoked ==> s.v.connections <= s.told)
  }

  /** What most steps leave alone: the session and whom it told, or the manager and its results. */
  predicate SameSession(s: Sys, u: Sys) { u.v == s.v && u.told == s.told }

  predicate SameManager(s: Sys, u: Sys) { u.m == s.m && u.outcomes == s.outcomes }

  /** Behind a revocation nobody is registered: the session is as before, or one less is counted. */
  predicate SameOrLess(s: Sys, u: Sys) { u.v == s.v || u.v == Done(s.v) }

  lemma NobodyAccepted(s: Sys, c: nat)
    requires s.v.revoked
    ensures SameOrLess(s, AcceptStep(s, c))
  {
    assert AdmitConnection(s.v, s.canceled, c) == (s.v, false);
  }

  lemma NobodyRegisters(s: Sys, a: Action)
    requires a.AcceptFails? || a.EndChannel? || a.EndConnection?
    ensures SameOrLess(s, Apply(s, a))
  {
  }

  lemma NoChannelOpens(s: Sys, a: Action)
    requires s.v.revoked && a.OpenChannel?
    ensures SameOrLess(s, Apply(s, a))
  {
    assert AdmitChannel(s.v, s.canceled || a.connectionCanceled) == (s.v, false);
  }

  predicate OfThreads(a: Action) {
    a.Accept? || a.AcceptFails? || a.OpenChannel? || a.EndChannel? || a.EndConnection? || a.Deregister? || a.Cancel?
  }

  lemma ThreadsTell(s: Sys, a: Action)
    requires Inv(s) && ToldOk(s) && OfThreads(a)
    ensures ToldOk(Apply(s, a)) && SameManager(s, Apply(s, a))
  {
    ThreadsCount(s, a);
    if s.v.revoked {
      match a
      case OpenChannel(_, _, _) => NoChannelOpens(s, a);
      case Accept(c) => NobodyAccepted(s, c);
      case Deregister(_) =>
      case Cancel =>
      case _ => NobodyRegisters(s, a);
    }
  }

  lemma AdvanceTells(s: Sys, t: nat, removeOk: bool)
    requires ToldOk(s)
    ensures ToldOk(AdvanceStep(s, t, removeOk))
  {
    if t in s.stoppers && !s.stoppers[t].Revoking? { WaitingLeaves(s, t, removeOk); }
  }

  lemma WaitingLeaves(s: Sys, t: nat, removeOk: bool)
    requires t in s.stoppers && !s.stoppers[t].Revoking?
    ensures SameSession(s, AdvanceStep(s, t, removeOk))
  {
    match s.stoppers[t]
    case Finalizing => FinalizingLeaves(s, t, removeOk);
    case _ =>
  }

  lemma FinalizingLeaves(s: Sys, t: nat, removeOk: bool)
    requires t in s.stoppers && s.stoppers[t].Finalizing?
    ensures SameSession(s, AdvanceStep(s, t, removeOk)) && SameManager(s, AdvanceStep(s, t, removeOk))
  {
  }

  lemma StartTells(s: Sys, o: StartOutcome)
    requires Inv(s) && ToldOk(s)
    ensures ToldOk(StartStep(s, o))
  {
  }

  lemma CallLeaves(s: Sys, t: nat)
    ensures SameSession(s, CallStep(s, t))
  {
  }

  lemma DeadlineLeaves(s: Sys, t: nat)
    ensures SameSession(s, DeadlineStep(s, t)) && SameManager(s, DeadlineStep(s, t))
  {
  }

  lemma EventsLeave(s: Sys, a: Action)
    requires a.Record? || a.WaiterFires?
    ensures SameSession(s, Apply(s, a)) && SameManager(s, Apply(s, a))
  {
  }

  lemma AuditLeaves(s: Sys, a: Action)
    requires a.AuditFinishes? || a.SealTimesOut?
    ensures SameSession(s, Apply(s, a)) && SameManager(s, Apply(s, a))
  {
  }

  lemma StepTells(s: Sys, a: Action)
    requires Inv(s) && ToldOk(s)
    ensures ToldOk(Apply(s, a))
  {
    match a
    case Start(o) => StartTells(s, o);
    case Advance(t, removeOk) => AdvanceTells(s, t, removeOk);
    case CallStop(t) => CallLeaves(s, t);
    case Deadline(t) => DeadlineLeaves(s, t);
    case AuditFinishes(_) => AuditLeaves(s, a);
    case SealTimesOut(_) => AuditLeaves(s, a);
    case Record(_) => EventsLeave(s, a);
    case WaiterFires => EventsLeave(s, a);
    case _ => ThreadsTell(s, a);
  }

  lemma {:induction false} RunTells(s: Sys, run: seq<Action>)
    requires Inv(s) && ToldOk(s)
    ensures ToldOk(Exec(s, run))
    decreases |run|
  {
    if run != [] {
      ApplyKeeps(s, run[0]);
      StepTells(s, run[0]);
      RunTells(Apply(s, run[0]), run[1..]);
    }
  }

  /** In every run: behind the revocation every connection whose handler is still at work was closed by
      it, or has taken itself off the list; and before it none was. */
  lemma RevocationReachesAll(run: seq<Action>, c: nat)
    ensures var s := Exec(Init, run);
            && (s.v.revoked && c in s.threads.connections ==> c in s.told || c !in s.v.connections)
            && (!s.v.revoked ==> s.told == {})
  {
    InitOk();
    RunTells(Init, run);
  }

  // ----- single steps, by the fields -----

  /** The first revocation closes admission for good, starts the one waiter and closes exactly the
      connections registered at that moment; a repeated one goes on to wait. */
  lemma RevocationCloses(s: Sys, t: nat, removeOk: bool)
    requires t in s.stoppers && s.stoppers[t] == Revoking
    ensures var u := Apply(s, Advance(t, removeOk));
            && u == s.(v := u.v, told := u.told, stoppers := s.stoppers[t := Joining])
            && u.v == s.v.(revoked := true, waiting := s.v.waiting || !s.v.revoked)
            && u.told == s.told + if s.v.revoked then {} else s.v.connections
  {
  }

  /** A connection is admitted exactly while the bridge is neither revoked nor canceled; then it is
      registered and counted. Otherwise the accept loop ends and is no longer counted. */
  lemma ConnectionIsAdmitted(s: Sys, c: nat)
    requires Inv(s) && s.threads.serving && c !in s.threads.connections
    ensures var u := Apply(s, Accept(c));
            if !s.v.revoked && !s.canceled
            then u == s.(v := s.v.(connections := s.v.connections + {c}, pending := s.v.pending + 1),
                         threads := s.threads.(connections := s.threads.connections + {c}))
            else s.v.pending > 0 && u == s.(v := s.v.(pending := s.v.pending - 1), threads := s.threads.(serving := false))
  {
  }

  lemma ChannelIsAdmitted(s: Sys, c: nat, ch: nat, connectionCanceled: bool)
    requires c in s.threads.connections && c in s.v.connections && ch !in s.threads.channels
    ensures Apply(s, OpenChannel(c, ch, connectionCanceled))
            == if !s.v.revoked && !s.canceled && !connectionCanceled
               then s.(v := s.v.(pending := s.v.pending + 1), threads := s.threads.(channels := s.threads.channels + {ch})) else s
  {
  }

  /** A handler that ends is counted out; a connection's only behind its own deregistration. */
  lemma HandlersEnd(s: Sys, c: nat, ch: nat)
    requires Inv(s) && c in s.threads.connections && ch in s.threads.channels
    ensures s.v.pending > 0
    ensures Apply(s, EndChannel(ch)) == s.(v := s.v.(pending := s.v.pending - 1), threads := s.threads.(channels := s.threads.channels - {ch}))
    ensures Apply(s, Deregister(c)) == s.(v := s.v.(connections := s.v.connections - {c}))
    ensures c !in s.v.connections ==>
              Apply(s, EndConnection(c)) == s.(v := s.v.(pending := s.v.pending - 1), threads := s.threads.(connections := s.threads.connections - {c}))
  {
    assert c in s.threads.connections ==> |s.threads.connections| > 0;
  }

  /** The waiter: joined exactly when revoked and nobody is counted. */
  lemma WaiterJoins(s: Sys)
    requires Inv(s) && !s.joined
    ensures Apply(s, WaiterFires) == if s.v.revoked && s.threads == Threads(false, {}, {})
                                     then s.(joined := true, events := s.events + [Joined]) else s
  {
    assert Live(s.threads) == 0 <==> s.threads == Threads(false, {}, {}) by {
      assert |s.threads.connections| == 0 <==> s.threads.connections == {};
      assert |s.threads.channels| == 0 <==> s.threads.channels == {};
    }
  }

  /** A start: refused once the manager was used or without a valid target; a served one is active and
      counts its accept loop; a failed one is revoked, and kept only with its cleanup still owed. */
  lemma StartAnswers(s: Sys, o: StartOutcome)
    requires Inv(s)
    ensures var u := Apply(s, Start(o));
            if s.m.used || o.Invalid? then u == s
            else if o.Served? then
              u == s.(m := s.m.(used := true, active := true, lastErr := false), v := SessionView({}, 1, false, false),
                      threads := Threads(true, {}, {}), hasAudit := true)
            else u == s.(m := s.m.(used := true, active := o.retained), v := SessionView({}, 0, true, true), canceled := true)
  {
  }

  /** A Stop that comes in: the last result when nothing is active, the running attempt, or a new one. */
  lemma StopComesIn(s: Sys, t: nat)
    requires Inv(s) && t !in s.stoppers
    ensures Apply(s, CallStop(t))
            == if !s.m.active then s.(m := s.m.(used := true), events := s.events + [StopReturned(!s.m.lastErr)])
               else if s.m.stopping then s.(stoppers := s.stoppers[t := Following(s.m.attempt)])
               else s.(m := s.m.(stopping := true, attempt := s.m.attempt + 1), stoppers := s.stoppers[t := Revoking])
  {
  }

  /** An attempt waits for the join, or gives up on it at its deadline. */
  lemma JoinIsAwaited(s: Sys, t: nat, removeOk: bool)
    requires t in s.stoppers && s.stoppers[t] == Joining
    ensures Apply(s, Advance(t, removeOk)) == if s.joined then s.(stoppers := s.stoppers[t := Finalizing]) else s
    ensures Apply(s, Deadline(t)) == if s.joined then s else s.(stoppers := s.stoppers[t := Concluding(true)])
  {
  }

  /** An attempt's end: without an audit, the removal decides; with one it is sealed first, and only
      its writing decides, unless that takes too long. */
  lemma AuditIsAwaited(s: Sys, t: nat, removeOk: bool)
    requires t in s.stoppers && s.stoppers[t] == Finalizing
    ensures var u := Apply(s, Advance(t, removeOk));
            if !s.hasAudit then u == s.(stoppers := s.stoppers[t := Concluding(!removeOk)])
            else u == s.(isSealed := true, events := s.events + (if s.isSealed then [] else [Sealed]),
                         stoppers := if s.finished then s.stoppers[t := Concluding(s.auditFailed)] else s.stoppers)
    ensures Apply(s, SealTimesOut(t)) == if s.isSealed then s.(stoppers := s.stoppers[t := Concluding(true)]) else s
  {
    assert s.isSealed ==> s.events + [] == s.events;
  }

  /** The result of an attempt is what it says, what is remembered, and what decides whether the
      session is kept for a retry. */
  lemma AttemptEnds(s: Sys, t: nat, removeOk: bool)
    requires Inv(s) && t in s.stoppers && s.stoppers[t].Concluding?
    ensures var failed := s.stoppers[t].failed;
            Apply(s, Advance(t, removeOk)) == s.(m := s.m.(lastErr := failed, stopping := false, active := failed),
              outcomes := s.outcomes[s.m.attempt := failed], stoppers := s.stoppers - {t}, events := s.events + [StopReturned(!failed)])
  {
    assert StopperOk(s, s.stoppers[t]);
  }

  /** Whoever waited for another's attempt returns once that is over, with the last result there is; or
      fails at its own deadline. */
  lemma FollowerReturns(s: Sys, t: nat, removeOk: bool)
    requires t in s.stoppers && s.stoppers[t].Following?
    ensures Apply(s, Advance(t, removeOk)) == if s.stoppers[t].attempt in s.outcomes
              then s.(stoppers := s.stoppers - {t}, events := s.events + [StopReturned(!s.m.lastErr)]) else s
    ensures Apply(s, Deadline(t)) == s.(stoppers := s.stoppers - {t}, events := s.events + [StopReturned(false)])
  {
  }

  // ----- the last result -----

  /** The attempts that have ended are all but a running one, and the last of them is remembered. */
  ghost predicate LastOk(s: Sys) {
    && (forall a: nat :: a in s.outcomes <==> 1 <= a <= s.m.attempt && (a == s.m.attempt ==> !s.m.stopping))
    && (s.m.stopping ==> s.m.attempt > 0)
    && (!s.m.stopping && s.m.attempt > 0 ==> s.m.lastErr == s.outcomes[s.m.attempt])
    && (s.m.attempt == 0 ==> !s.m.lastErr)
    && (!s.m.used ==> s.m.attempt == 0)
  }

  lemma LastStep(s: Sys, a: Action)
    requires Inv(s) && ToldOk(s) && LastOk(s)
    ensures LastOk(Apply(s, a))
  {
    match a
    case Start(o) => LastStart(s, o);
    case Advance(t, removeOk) => LastAdvance(s, t, removeOk);
    case CallStop(t) => LastCall(s, t);
    case Deadline(t) => DeadlineLeaves(s, t);
    case AuditFinishes(_) => AuditLeaves(s, a);
    case SealTimesOut(_) => AuditLeaves(s, a);
    case Record(_) => EventsLeave(s, a);
    case WaiterFires => EventsLeave(s, a);
    case _ => ThreadsTell(s, a);
  }

  lemma LastCall(s: Sys, t: nat)
    requires Inv(s) && LastOk(s)
    ensures LastOk(CallStep(s, t))
  {
    if t !in s.stoppers { StopComesIn(s, t); }
  }

  lemma LastStart(s: Sys, o: StartOutcome)
    requires Inv(s) && LastOk(s)
    ensures LastOk(StartStep(s, o))
  {
    StartAnswers(s, o);
  }

  lemma LastAdvance(s: Sys, t: nat, removeOk: bool)
    requires Inv(s) && LastOk(s)
    ensures LastOk(AdvanceStep(s, t, removeOk))
  {
    if t in s.stoppers {
      match s.stoppers[t]
      case Concluding(_) => LastEnd(s, t, removeOk);
      case Finalizing => FinalizingLeaves(s, t, removeOk);
      case _ =>
    }
  }

  lemma LastEnd(s: Sys, t: nat, removeOk: bool)
    requires Inv(s) && LastOk(s) && t in s.stoppers && s.stoppers[t].Concluding?
    ensures LastOk(AdvanceStep(s, t, removeOk))
  {
    assert StopperOk(s, s.stoppers[t]);
    AttemptEnds(s, t, removeOk);
  }

  lemma {:induction false} RunLast(s: Sys, run: seq<Action>)
    requires Inv(s) && ToldOk(s) && LastOk(s)
    ensures LastOk(Exec(s, run))
    decreases |run|
  {
    if run != [] {
      ApplyKeeps(s, run[0]);
      StepTells(s, run[0]);
      LastStep(s, run[0]);
      RunLast(Apply(s, run[0]), run[1..]);
    }
  }

  /** In every run, a Stop that comes to an idle manager returns the result of the last attempt, or nil
      if there never was one. */
  lemma IdleStopRepeats(run: seq<Action>, t: nat)
    requires var s := Exec(Init, run); t !in s.stoppers && !s.m.active
    ensures var s := Exec(Init, run); var u := Apply(s, CallStop(t)); var n := s.m.attempt;
            && (n > 0 ==> n in s.outcomes)
            && u.events == s.events + [StopReturned(n == 0 || !s.outcomes[n])]
  {
    InitOk();
    RunKeeps(Init, run);
    RunLast(Init, run);
    StopComesIn(Exec(Init, run), t);
  }
}
