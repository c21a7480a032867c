/** Every run of one SSH bridge: start, accepts, channel opens, handler ends, cancellations and
    any number of concurrent and retried Stop calls with deadlines. */
module SshRuns {
  import opened Ssh

  /** Goroutines counted by the WaitGroup: the accept loop, connection handlers (whether still
      registered or past their deregistration) and channel handlers. */
  datatype Threads = Threads(serving: bool, connections: set<nat>, channels: set<nat>)

  /** A Stop call that runs an attempt, or waits for another one. */
  datatype Stopper =
    | Revoking
    | Joining
    | Finalizing
    | Concluding(failed: bool)
    | Following(attempt: nat)

  datatype Event = Recorded(channel: nat) | Sealed | Joined | StopReturned(ok: bool)

  /** `hasAudit` is false when the start failed before the audit was opened; `finished` is the
      audit writer's completion. `outcomes` holds the results of ended attempts, `told` the connections that
      revocation has closed. */
  datatype Sys = Sys(m: ManagerView, v: SessionView, threads: Threads, canceled: bool, joined: bool,
                     hasAudit: bool, isSealed: bool, finished: bool, auditFailed: bool,
                     stoppers: map<nat, Stopper>, outcomes: map<nat, bool>, told: set<nat>, events: seq<Event>)

  const Init := Sys(NewManager, Fresh, Threads(false, {}, {}), false, false, false, false, false, false, map[], map[], {}, [])

  datatype Action =
    | Start(o: StartOutcome)
    | Accept(c: nat)
    | AcceptFails
    | OpenChannel(c: nat, ch: nat, connectionCanceled: bool)
    | Record(ch: nat)
    | EndChannel(ch: nat)
    | Deregister(c: nat)
    | EndConnection(c: nat)
    | Cancel                       // the revoker cancels the serve context
    | WaiterFires
    | AuditFinishes(failed: bool)
    | CallStop(t: nat)
    | Advance(t: nat, removeOk: bool)
    | Deadline(t: nat)
    | SealTimesOut(t: nat)

  function Log(s: Sys, e: Event): Sys { s.(events := s.events + [e]) }

  /** A failed start revokes its own session, for which nothing was started, and keeps it only
      when its cleanup failed too. */
  function StartStep(s: Sys, o: StartOutcome): Sys {
    var (m, ok) := StartTarget(s.m, o);
    var s1 := s.(m := m);
    if m == s.m then s
    else if ok then s1.(v := Fresh.(pending := 1), threads := Threads(true, {}, {}), hasAudit := true)
    else s1.(v := Revoke(Fresh).0, told := s.told + Revoke(Fresh).1, canceled := true)
  }

  /** WaitGroup.Done; `Inv` keeps the counter at the number of live goroutines. */
  function Done(v: SessionView): SessionView { v.(pending := if v.pending > 0 then v.pending - 1 else 0) }

  function AcceptStep(s: Sys, c: nat): Sys {
    if !s.threads.serving || c in s.threads.connections then s else
    var (v, admitted) := AdmitConnection(s.v, s.canceled, c);
    if admitted then s.(v := v, threads := s.threads.(connections := s.threads.connections + {c}))
    else EndServing(s)
  }

  /** The accept loop returns. */
  function EndServing(s: Sys): Sys {
    s.(v := Done(s.v), threads := s.threads.(serving := false))
  }

  function OpenStep(s: Sys, c: nat, ch: nat, connectionCanceled: bool): Sys {
    if c !in s.threads.connections || c !in s.v.connections || ch in s.threads.channels then s else
    var (v, admitted) := AdmitChannel(s.v, s.canceled || connectionCanceled);
    if admitted then s.(v := v, threads := s.threads.(channels := s.threads.channels + {ch})) else s
  }

  function CallStep(s: Sys, t: nat): Sys {
    if t in s.stoppers then s else
    var (m, entry) := StopBegin(s.m);
    match entry
    case Inactive(err) => Log(s.(m := m), StopReturned(!err))
    case JoinStop(a) => s.(stoppers := s.stoppers[t := Following(a)])
    case RunStop => s.(m := m, stoppers := s.stoppers[t := Revoking])
  }

  function AdvanceStep(s: Sys, t: nat, removeOk: bool): Sys {
    if t !in s.stoppers then s else
    match s.stoppers[t]
    case Revoking => s.(v := Revoke(s.v).0, told := s.told + Revoke(s.v).1, stoppers := s.stoppers[t := Joining])
    case Joining => if s.joined then s.(stoppers := s.stoppers[t := Finalizing]) else s
    case Finalizing =>
      if !s.hasAudit then s.(stoppers := s.stoppers[t := Concluding(!removeOk)])
      else
        var s1 := if s.isSealed then s else Log(s.(isSealed := true), Sealed);
        if s.finished then s1.(stoppers := s.stoppers[t := Concluding(s.auditFailed)]) else s1
    case Concluding(failed) =>
      Log(s.(m := StopEnd(s.m, failed), outcomes := s.outcomes[s.m.attempt := failed], stoppers := s.stoppers - {t}), StopReturned(!failed))
    case Following(a) =>
      if a in s.outcomes then Log(s.(stoppers := s.stoppers - {t}), StopReturned(!s.m.lastErr)) else s
  }

  function DeadlineStep(s: Sys, t: nat): Sys {
    if t !in s.stoppers then s else
    match s.stoppers[t]
    case Joining => if s.joined then s else s.(stoppers := s.stoppers[t := Concluding(true)])
    case Following(a) => Log(s.(stoppers := s.stoppers - {t}), StopReturned(false))
    case _ => s
  }

  function Apply(s: Sys, a: Action): Sys {
    match a
    case Start(o) => StartStep(s, o)
    case Accept(c) => AcceptStep(s, c)
    case AcceptFails => if s.threads.serving then EndServing(s) else s
    case OpenChannel(c, ch, canceled) => OpenStep(s, c, ch, canceled)
    case Record(ch) => if ch in s.threads.channels then Log(s, Recorded(ch)) else s
    case EndChannel(ch) =>
      if ch in s.threads.channels then s.(v := Done(s.v), threads := s.threads.(channels := s.threads.channels - {ch})) else s
    case Deregister(c) => s.(v := s.v.(connections := s.v.connections - {c}))
    case EndConnection(c) =>
      if c in s.threads.connections && c !in s.v.connections
      then s.(v := Done(s.v), threads := s.threads.(connections := s.threads.connections - {c})) else s
    case Cancel => if s.v.revoked then s.(canceled := true) else s
    case WaiterFires => if s.v.waiting && s.v.pending == 0 && !s.joined then Log(s.(joined := true), Joined) else s
    case AuditFinishes(failed) => if s.isSealed && !s.finished then s.(finished := true, auditFailed := failed) else s
    case CallStop(t) => CallStep(s, t)
    case Advance(t, removeOk) => AdvanceStep(s, t, removeOk)
    case Deadline(t) => DeadlineStep(s, t)
    case SealTimesOut(t) =>
      // SealAndWait seals first and then waits for the writer under the caller's deadline.
      if t in s.stoppers && s.stoppers[t].Finalizing? && s.isSealed
      then s.(stoppers := s.stoppers[t := Concluding(true)]) else s
  }

  function Exec(s: Sys, run: seq<Action>): Sys
    decreases |run|
  {
    if run == [] then s else Exec(Apply(s, run[0]), run[1..])
  }

  // ----- invariant -----

  function Live(t: Threads): nat { (if t.serving then 1 else 0) + |t.connections| + |t.channels| }

  /** Everything is joined and, if there is an audit, it was sealed and written out. */
  predicate Quiet(s: Sys) { s.joined && (s.hasAudit ==> s.isSealed && s.finished && !s.auditFailed) }

  /** No record follows the join, and the seal follows it. */
  ghost predicate Ordered(events: seq<Event>) {
    && (forall i, j :: 0 <= i < j < |events| && (events[i] == Joined || events[i] == Sealed) ==> !events[j].Recorded?)
    && (forall j :: 0 <= j < |events| && events[j] == Sealed ==> Joined in events[..j])
  }

  ghost predicate StopperOk(s: Sys, p: Stopper) {
    && (!p.Following? ==> s.m.active && s.m.stopping)
    && (p.Joining? || p.Finalizing? || p.Concluding? ==> s.v.revoked)
    && (p.Finalizing? ==> s.joined)
    && (p.Concluding? && !p.failed ==> Quiet(s))
  }

  ghost predicate InvCount(s: Sys) {
    && s.v.pending == Live(s.threads)
    && (s.v.revoked <==> s.v.waiting)
    && (s.joined ==> s.v.revoked && s.v.pending == 0)
    && (s.isSealed ==> s.joined && s.hasAudit)
    && (s.finished ==> s.isSealed)
  }

  ghost predicate InvManager(s: Sys) {
    && (!s.m.used ==> !s.m.active && !s.hasAudit && s.v == Fresh && !s.joined && s.stoppers == map[] && s.outcomes == map[] && s.threads == Threads(false, {}, {}))
    && (forall t :: t in s.stoppers ==> StopperOk(s, s.stoppers[t]))
    && (forall t, u :: t in s.stoppers && u in s.stoppers && !s.stoppers[t].Following? && !s.stoppers[u].Following? ==> t == u)
    && (s.m.stopping ==> s.m.active)
    && (s.hasAudit && !s.m.active ==> Quiet(s))
    && (s.outcomes != map[] && !s.m.lastErr ==> !s.m.active && Quiet(s))
  }

  ghost predicate InvEvents(s: Sys) {
    && Ordered(s.events)
    && (Joined in s.events <==> s.joined)
    && (Sealed in s.events <==> s.isSealed)
    && (StopReturned(true) in s.events ==> s.m.used && (s.hasAudit ==> Quiet(s)))
  }

  ghost predicate Inv(s: Sys) { InvCount(s) && InvManager(s) && InvEvents(s) }

  lemma OrderedAppend(events: seq<Event>, e: Event)
    requires Ordered(events)
    requires e.Recorded? ==> Joined !in events && Sealed !in events
    requires e == Sealed ==> Joined in events
    ensures Ordered(events + [e])
  {
    var more := events + [e];
    assert more[..|events|] == events;
    assert forall j :: 0 <= j < |events| ==> more[j] == events[j] && more[..j] == events[..j];
  }

  /** Goroutines come and go; what the managers and the history say is not affected. */
  lemma ThreadsFrame(s: Sys, u: Sys)
    requires InvManager(s) && InvEvents(s) && s.m.used
    requires u == s.(v := u.v, threads := u.threads, canceled := u.canceled) && u.v.revoked == s.v.revoked
    ensures InvManager(u) && InvEvents(u)
  {
    assert forall t :: t in s.stoppers ==> StopperOk(s, s.stoppers[t]) && StopperOk(u, s.stoppers[t]);
  }

  /** The count is kept, and nothing but the session, its goroutines and its context changes. */
  ghost predicate CountKept(s: Sys, u: Sys) {
    InvCount(u) && u == s.(v := u.v, threads := u.threads, canceled := u.canceled) && u.v.revoked == s.v.revoked
  }

  lemma AdmissionCounts(s: Sys, c: nat, ch: nat, canceled: bool)
    requires InvCount(s)
    ensures CountKept(s, AcceptStep(s, c)) && CountKept(s, OpenStep(s, c, ch, canceled))
  {
  }

  lemma ChannelEndCounts(s: Sys, ch: nat)
    requires InvCount(s)
    ensures CountKept(s, Apply(s, EndChannel(ch)))
  {
  }

  lemma ConnectionEndCounts(s: Sys, c: nat)
    requires InvCount(s)
    ensures CountKept(s, Apply(s, EndConnection(c))) && CountKept(s, Apply(s, Deregister(c)))
  {
  }

  lemma ThreadsCount(s: Sys, a: Action)
    requires InvCount(s)
    requires a.Accept? || a.AcceptFails? || a.OpenChannel? || a.EndChannel? || a.EndConnection? || a.Deregister? || a.Cancel?
    ensures CountKept(s, Apply(s, a))
  {
    match a
    case Accept(c) => AdmissionCounts(s, c, 0, false);
    case OpenChannel(c, ch, canceled) => AdmissionCounts(s, c, ch, canceled);
    case EndChannel(ch) => ChannelEndCounts(s, ch);
    case EndConnection(c) => ConnectionEndCounts(s, c);
    case Deregister(c) => ConnectionEndCounts(s, c);
    case _ =>
  }

  lemma ThreadsKeep(s: Sys, a: Action)
    requires Inv(s)
    requires a.Accept? || a.AcceptFails? || a.OpenChannel? || a.EndChannel? || a.EndConnection? || a.Deregister? || a.Cancel?
    ensures Inv(Apply(s, a))
  {
    ThreadsCount(s, a);
    if Apply(s, a) != s { ThreadsFrame(s, Apply(s, a)); }
  }

  lemma EventsKeep(s: Sys, a: Action)
    requires Inv(s) && (a.Record? || a.WaiterFires? || a.AuditFinishes?)
    ensures Inv(Apply(s, a))
  {
    OrderedAppend(s.events, Joined);
    if a.Record? && a.ch in s.threads.channels { OrderedAppend(s.events, Recorded(a.ch)); }
  }

  lemma StartKeeps(s: Sys, o: StartOutcome)
    requires Inv(s)
    ensures Inv(StartStep(s, o))
  {
  }

  lemma NewStopperKeeps(s: Sys, t: nat, m: ManagerView, p: Stopper)
    requires Inv(s) && t !in s.stoppers && s.m.active
    requires (p.Following? && m == s.m) || (p.Revoking? && !s.m.stopping && m == s.m.(stopping := true, attempt := s.m.attempt + 1))
    ensures Inv(s.(m := m, stoppers := s.stoppers[t := p]))
  {
    var u := s.(m := m, stoppers := s.stoppers[t := p]);
    forall x | x in u.stoppers ensures StopperOk(u, u.stoppers[x]) {
      if x != t { assert StopperOk(s, s.stoppers[x]); }
    }
    assert InvManager(u);
  }

  lemma InactiveKeeps(s: Sys, t: nat)
    requires Inv(s) && !s.m.active && !s.m.stopping
    ensures Inv(Log(s.(m := s.m.(used := true)), StopReturned(!s.m.lastErr)))
  {
    OrderedAppend(s.events, StopReturned(!s.m.lastErr));
    assert forall x :: x in s.stoppers ==> StopperOk(s, s.stoppers[x]);
  }

  lemma CallKeeps(s: Sys, t: nat)
    requires Inv(s)
    ensures Inv(CallStep(s, t))
  {
    if t !in s.stoppers {
      var (m, entry) := StopBegin(s.m);
      match entry
      case Inactive(_) => InactiveKeeps(s, t);
      case JoinStop(a) => NewStopperKeeps(s, t, m, Following(a));
      case RunStop => NewStopperKeeps(s, t, m, Revoking);
    }
  }

  /** A Stop call moves to its next wait without changing anything else. */
  lemma MoveKeeps(s: Sys, t: nat, p: Stopper)
    requires Inv(s) && t in s.stoppers && !s.stoppers[t].Following? && !p.Following? && StopperOk(s, p)
    ensures Inv(s.(stoppers := s.stoppers[t := p]))
  {
    var u := s.(stoppers := s.stoppers[t := p]);
    forall x | x in u.stoppers ensures StopperOk(u, u.stoppers[x]) {
      if x != t { assert StopperOk(s, s.stoppers[x]); }
    }
    assert InvManager(u);
  }

  lemma FollowerKeeps(s: Sys, t: nat, ok: bool)
    requires Inv(s) && t in s.stoppers && s.stoppers[t].Following? && (ok ==> s.outcomes != map[] && !s.m.lastErr)
    ensures Inv(Log(s.(stoppers := s.stoppers - {t}), StopReturned(ok)))
  {
    OrderedAppend(s.events, StopReturned(ok));
    assert forall x :: x in s.stoppers ==> StopperOk(s, s.stoppers[x]);
  }

  lemma DeadlineKeeps(s: Sys, a: Action)
    requires Inv(s) && (a.Deadline? || a.SealTimesOut?)
    ensures Inv(Apply(s, a))
  {
    if a.t in s.stoppers {
      assert StopperOk(s, s.stoppers[a.t]);
      match s.stoppers[a.t]
      case Following(_) => FollowerKeeps(s, a.t, false);
      case Joining => MoveKeeps(s, a.t, Concluding(true));
      case Finalizing => MoveKeeps(s, a.t, Concluding(true));
      case _ =>
    }
  }

  lemma RevokeKeeps(s: Sys, t: nat, removeOk: bool)
    requires Inv(s) && t in s.stoppers && s.stoppers[t].Revoking?
    ensures Inv(AdvanceStep(s, t, removeOk))
  {
    var u := s.(v := Revoke(s.v).0, told := s.told + Revoke(s.v).1);
    assert forall x :: x in s.stoppers ==> StopperOk(s, s.stoppers[x]) && StopperOk(u, s.stoppers[x]);
    assert Inv(u);
    MoveKeeps(u, t, Joining);
  }

  function SealedBy(s: Sys): Sys { if s.isSealed then s else Log(s.(isSealed := true), Sealed) }

  /** The seal is set once, behind the join. */
  lemma SealKeeps(s: Sys)
    requires Inv(s) && s.joined && s.hasAudit
    ensures Inv(SealedBy(s))
  {
    assert forall u :: u in s.stoppers ==> StopperOk(s, s.stoppers[u]);
    OrderedAppend(s.events, Sealed);
  }

  lemma FinalizeKeeps(s: Sys, t: nat, removeOk: bool)
    requires Inv(s) && t in s.stoppers && s.stoppers[t].Finalizing?
    ensures Inv(AdvanceStep(s, t, removeOk))
  {
    assert StopperOk(s, s.stoppers[t]);
    if !s.hasAudit { MoveKeeps(s, t, Concluding(!removeOk)); } else { AuditKeeps(s, t, removeOk); }
  }

  lemma AuditKeeps(s: Sys, t: nat, removeOk: bool)
    requires Inv(s) && t in s.stoppers && s.stoppers[t].Finalizing? && s.hasAudit && s.joined
    ensures Inv(AdvanceStep(s, t, removeOk))
  {
    SealKeeps(s);
    var u := SealedBy(s);
    assert StopperOk(u, u.stoppers[t]);
    if s.finished { MoveKeeps(u, t, Concluding(s.auditFailed)); }
  }

  lemma ConcludeKeeps(s: Sys, t: nat, removeOk: bool)
    requires Inv(s) && t in s.stoppers && s.stoppers[t].Concluding?
    ensures Inv(AdvanceStep(s, t, removeOk))
  {
    assert forall u :: u in s.stoppers ==> StopperOk(s, s.stoppers[u]);
    OrderedAppend(s.events, StopReturned(!s.stoppers[t].failed));
  }

  lemma AdvanceKeeps(s: Sys, t: nat, removeOk: bool)
    requires Inv(s)
    ensures Inv(AdvanceStep(s, t, removeOk))
  {
    if t in s.stoppers {
      assert StopperOk(s, s.stoppers[t]);
      match s.stoppers[t]
      case Revoking => RevokeKeeps(s, t, removeOk);
      case Joining => if s.joined { MoveKeeps(s, t, Finalizing); }
      case Finalizing => FinalizeKeeps(s, t, removeOk);
      case Concluding(_) => ConcludeKeeps(s, t, removeOk);
      case Following(a) => if a in s.outcomes { FollowerKeeps(s, t, !s.m.lastErr); }
    }
  }

  lemma ApplyKeeps(s: Sys, a: Action)
    requires Inv(s)
    ensures Inv(Apply(s, a))
  {
    match a
    case Start(o) => StartKeeps(s, o);
    case CallStop(t) => CallKeeps(s, t);
    case Deadline(_) => DeadlineKeeps(s, a);
    case SealTimesOut(_) => DeadlineKeeps(s, a);
    case Advance(t, removeOk) => AdvanceKeeps(s, t, removeOk);
    case Record(_) => EventsKeep(s, a);
    case WaiterFires => EventsKeep(s, a);
    case AuditFinishes(_) => EventsKeep(s, a);
    case _ => ThreadsKeep(s, a);
  }

  lemma {:induction false} RunKeeps(s: Sys, run: seq<Action>)
    requires Inv(s)
    ensures Inv(Exec(s, run))
    decreases |run|
  {
    if run == [] {
    } else {
      ApplyKeeps(s, run[0]);
      RunKeeps(Apply(s, run[0]), run[1..]);
    }
  }

  // ----- theorems -----

  lemma InitOk()
    ensures Inv(Init)
  {
  }

  /** In every run, every audit record comes before the join of all handlers, and the join
      before the seal. */
  lemma JoinBeforeSeal(run: seq<Action>)
    ensures var e := Exec(Init, run).events;
            && (forall i, j :: 0 <= i < j < |e| && (e[i] == Joined || e[i] == Sealed) ==> !e[j].Recorded?)
            && (forall j :: 0 <= j < |e| && e[j] == Sealed ==> Joined in e[..j])
  {
    InitOk();
    RunKeeps(Init, run);
  }

  /** The WaitGroup counter is the number of live goroutines at every moment, so the waiter
      fires only when none is left. */
  lemma CounterIsExact(run: seq<Action>)
    ensures var s := Exec(Init, run);
            s.v.pending == Live(s.threads) && (s.joined ==> s.threads == Threads(false, {}, {}))
  {
    InitOk();
    RunKeeps(Init, run);
    var s := Exec(Init, run);
    if s.joined { assert |s.threads.connections| == 0 && |s.threads.channels| == 0; }
  }

  ghost predicate NoNewThreads(t: Threads, u: Threads) {
    (u.serving ==> t.serving) && u.connections <= t.connections && u.channels <= t.channels
  }

  /** A join, a seal and the end of the audit's writing stay, and so does their outcome. */
  ghost predicate AuditStays(s: Sys, u: Sys) {
    && u.hasAudit == s.hasAudit && (s.joined ==> u.joined) && (s.isSealed ==> u.isSealed)
    && (s.finished ==> u.finished && u.auditFailed == s.auditFailed)
  }

  /** Once revoked, no connection and no channel is ever admitted again: the live goroutines
      can only become fewer, so the counter is never raised while the waiter waits. */
  lemma {:induction false} RevocationIsFinal(s: Sys, later: seq<Action>)
    requires Inv(s) && s.v.revoked
    ensures var u := Exec(s, later); u.v.revoked && NoNewThreads(s.threads, u.threads) && AuditStays(s, u)
    decreases |later|
  {
    if later == [] {
    } else {
      RevokedStep(s, later[0]);
      ApplyKeeps(s, later[0]);
      RevocationIsFinal(Apply(s, later[0]), later[1..]);
    }
  }

  ghost predicate Narrows(s: Sys, u: Sys) {
    u.v.revoked && NoNewThreads(s.threads, u.threads) && AuditStays(s, u)
  }

  ghost predicate SameThreads(s: Sys, u: Sys) { u.threads == s.threads && u.v.revoked && AuditStays(s, u) }

  /** Only the session and its goroutines change, and those only become fewer. */
  lemma FewerNarrows(s: Sys, v: SessionView, threads: Threads)
    requires v.revoked && NoNewThreads(s.threads, threads)
    ensures Narrows(s, s.(v := v, threads := threads))
  {
  }

  lemma AcceptNarrows(s: Sys, c: nat)
    requires s.v.revoked
    ensures Narrows(s, AcceptStep(s, c))
  {
    FewerNarrows(s, Done(s.v), s.threads.(serving := false));
    FewerNarrows(s, s.v, s.threads);
  }

  lemma OpenNarrows(s: Sys, c: nat, ch: nat, canceled: bool)
    requires s.v.revoked
    ensures Narrows(s, OpenStep(s, c, ch, canceled))
  {
    FewerNarrows(s, s.v, s.threads);
  }

  lemma ChannelEndNarrows(s: Sys, ch: nat)
    requires s.v.revoked
    ensures Narrows(s, Apply(s, EndChannel(ch)))
  {
    FewerNarrows(s, s.v, s.threads);
    FewerNarrows(s, Done(s.v), s.threads.(channels := s.threads.channels - {ch}));
  }

  lemma ConnectionEndNarrows(s: Sys, c: nat)
    requires s.v.revoked
    ensures Narrows(s, Apply(s, EndConnection(c)))
  {
    FewerNarrows(s, s.v, s.threads);
    FewerNarrows(s, Done(s.v), s.threads.(connections := s.threads.connections - {c}));
  }

  lemma DeregisterNarrows(s: Sys, c: nat)
    requires s.v.revoked
    ensures Narrows(s, Apply(s, Deregister(c)))
  {
    FewerNarrows(s, s.v.(connections := s.v.connections - {c}), s.threads);
  }

  // No other action touches the goroutines or takes a revocation back.

  /** A Stop call moves on; session and audit stay. */
  lemma CallsLeaveThreads(s: Sys, m: ManagerView, stoppers: map<nat, Stopper>, events: seq<Event>)
    requires s.v.revoked
    ensures SameThreads(s, s.(m := m, stoppers := stoppers, events := events))
  {
  }

  lemma CallLeavesThreads(s: Sys, t: nat)
    requires s.v.revoked
    ensures SameThreads(s, CallStep(s, t))
  {
    var (m, entry) := StopBegin(s.m);
    CallsLeaveThreads(s, s.m, s.stoppers, s.events);
    match entry
    case Inactive(err) => CallsLeaveThreads(s, m, s.stoppers, s.events + [StopReturned(!err)]);
    case JoinStop(a) => CallsLeaveThreads(s, s.m, s.stoppers[t := Following(a)], s.events);
    case RunStop => CallsLeaveThreads(s, m, s.stoppers[t := Revoking], s.events);
  }

  lemma DeadlineLeavesThreads(s: Sys, t: nat)
    requires s.v.revoked
    ensures SameThreads(s, DeadlineStep(s, t))
  {
  }

  lemma FinalizingLeavesThreads(s: Sys, t: nat, removeOk: bool)
    requires s.v.revoked && t in s.stoppers && s.stoppers[t].Finalizing?
    ensures SameThreads(s, AdvanceStep(s, t, removeOk))
  {
  }

  lemma ConcludingLeavesThreads(s: Sys, t: nat, removeOk: bool)
    requires s.v.revoked && t in s.stoppers && (s.stoppers[t].Concluding? || s.stoppers[t].Following?)
    ensures SameThreads(s, AdvanceStep(s, t, removeOk))
  {
  }

  lemma JoiningLeavesThreads(s: Sys, t: nat, removeOk: bool)
    requires s.v.revoked && (t in s.stoppers ==> s.stoppers[t].Revoking? || s.stoppers[t].Joining?)
    ensures SameThreads(s, AdvanceStep(s, t, removeOk))
  {
  }

  lemma AdvanceLeavesThreads(s: Sys, t: nat, removeOk: bool)
    requires s.v.revoked
    ensures SameThreads(s, AdvanceStep(s, t, removeOk))
  {
    if t in s.stoppers && s.stoppers[t].Finalizing? { FinalizingLeavesThreads(s, t, removeOk); }
    else if t in s.stoppers && (s.stoppers[t].Concluding? || s.stoppers[t].Following?) { ConcludingLeavesThreads(s, t, removeOk); }
    else { JoiningLeavesThreads(s, t, removeOk); }
  }

  lemma StartLeavesThreads(s: Sys, o: StartOutcome)
    requires s.m.used && s.v.revoked
    ensures StartStep(s, o) == s
  {
  }

  lemma EventsLeaveThreads(s: Sys, a: Action)
    requires s.v.revoked && (a.Record? || a.WaiterFires? || a.AuditFinishes? || a.SealTimesOut? || a.Cancel?)
    ensures SameThreads(s, Apply(s, a))
  {
  }

  lemma RevokedStep(s: Sys, a: Action)
    requires Inv(s) && s.v.revoked
    ensures Narrows(s, Apply(s, a))
  {
    match a
    case Start(o) => StartLeavesThreads(s, o);
    case CallStop(t) => CallLeavesThreads(s, t);
    case Deadline(t) => DeadlineLeavesThreads(s, t);
    case Advance(t, removeOk) => AdvanceLeavesThreads(s, t, removeOk);
    case Accept(c) => AcceptNarrows(s, c);
    case OpenChannel(c, ch, canceled) => OpenNarrows(s, c, ch, canceled);
    case AcceptFails => FewerNarrows(s, Done(s.v), s.threads.(serving := false));
    case EndChannel(ch) => ChannelEndNarrows(s, ch);
    case EndConnection(c) => ConnectionEndNarrows(s, c);
    case Deregister(c) => DeregisterNarrows(s, c);
    case _ => EventsLeaveThreads(s, a);
  }

  /** A Stop that returns nil, of a bridge that served, means that all handlers are joined and
      the audit is sealed and completely written; and that stays so. */
  lemma StopMeansQuiet(run: seq<Action>, later: seq<Action>)
    requires var s := Exec(Init, run); StopReturned(true) in s.events && s.hasAudit
    ensures Quiet(Exec(Init, run))
    ensures var u := Exec(Exec(Init, run), later); u.hasAudit && Quiet(u) && u.threads == Threads(false, {}, {})
  {
    InitOk();
    RunKeeps(Init, run);
    var s := Exec(Init, run);
    CounterIsExact(run);
    RevocationIsFinal(s, later);
  }
}
