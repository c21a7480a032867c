/** Every interleaving of Start, the waiter and any number of Stop calls over one process
    group. Deadlines may fire at any moment; signals, probes and waits return anything. */
module ProcessRuns {
  import opened Common
  import opened Process

  datatype Waiter =
    | NotRunning
    | Observing
    | Reaping(intentional: bool, observeFailed: bool)
    | Closing(intentional: bool, observeFailed: bool, waitFailed: bool, closeErr: bool)
    | Finished

  /** A Stop call between its sections; `a` is the attempt it runs or joined. */
  datatype Stopper =
    | Joined(a: nat)
    | Terminating
    | Awaiting(signaled: bool)
    | Killing
    | AwaitingForced
    | Probing
    | Concluding(fault: Option<ProtocolFault>)

  datatype Event =
    | Started
    | Observed
    | Reaped
    | StopSignal(signal: Signal)      // TERM or KILL from a Stop call
    | ResidualKill                    // the waiter's own KILL
    | ProbedAbsent
    | StopCalled(t: nat)
    | StopReturned(t: nat, result: StopResult)

  /** What has happened so far, kept up to date with every event; `FactsMean` says what each
      flag means about the history. */
  datatype Facts = Facts(started: bool, observed: bool, reaped: bool, probed: bool, stopSignalled: bool,
                         signalAfterReap: bool, stopSignalAfterExit: bool, probedAfterReap: bool, stoppedUnstarted: bool)

  const NoFacts := Facts(false, false, false, false, false, false, false, false, false)

  function Add(f: Facts, e: Event): Facts {
    match e
    case Started => f.(started := true)
    case Observed => f.(observed := true)
    case Reaped => f.(reaped := true)
    case StopSignal(_) => f.(stopSignalled := true, signalAfterReap := f.signalAfterReap || f.reaped,
                             stopSignalAfterExit := f.stopSignalAfterExit || f.observed)
    case ResidualKill => f.(signalAfterReap := f.signalAfterReap || f.reaped)
    case ProbedAbsent => f.(probed := true, probedAfterReap := f.probedAfterReap || f.reaped)
    case StopCalled(_) => f.(stoppedUnstarted := f.stoppedUnstarted || !f.started)
    case StopReturned(_, _) => f
  }

  /** `events` is the history, `facts` its summary. A reaped child's process ID may belong to
      someone else. */
  datatype Sys = Sys(v: View, waiter: Waiter, stoppers: map<nat, Stopper>,
                     finished: map<nat, StopResult>, events: seq<Event>, facts: Facts)

  const Init := Sys(Idle, NotRunning, map[], map[], [], NoFacts)

  datatype ProbeResult = Absent | Present | Unknown

  datatype Action =
    | Start
    | WaiterObserve(observeFailed: bool, r: SignalResult)
    | WaiterReap(waitFailed: bool, closeErr: bool)
    | WaiterFinish
    | CallStop(t: nat)
    | SendSignal(t: nat, r: SignalResult)
    | Wake(t: nat)
    | Deadline(t: nat)
    | Probe(t: nat, p: ProbeResult)
    | Conclude(t: nat)

  function Log(s: Sys, e: Event): Sys { s.(events := s.events + [e], facts := Add(s.facts, e)) }

  function Return(s: Sys, t: nat, r: StopResult): Sys {
    Log(s.(stoppers := s.stoppers - {t}), StopReturned(t, r))
  }

  function Move(s: Sys, t: nat, p: Stopper): Sys { s.(stoppers := s.stoppers[t := p]) }

  function ObserveStep(s: Sys, observeFailed: bool, r: SignalResult): Sys {
    if s.waiter != Observing then s else
    var (v, intentional) := ObserveExit(s.v, r);
    var s1 := Log(s.(v := v, waiter := Reaping(intentional, observeFailed)), Observed);
    if s.v.killIssued then s1 else Log(s1, ResidualKill)
  }

  function CallStep(s: Sys, t: nat): Sys {
    if t in s.stoppers || t in s.finished then s else
    var (v, entry) := BeginStop(s.v, t);
    var s1 := Log(s.(v := v), StopCalled(t));
    match entry
    case AlreadyConfirmed(r) => Log(s1, StopReturned(t, r))
    case Join(a) => Move(s1, t, Joined(a))
    case Run => Move(s1, t, Terminating)
    case NothingStarted => Log(s1.(finished := s.finished[t := Clean]), StopReturned(t, Clean))
  }

  /** signalOwned for TERM, or for KILL once the deadline has passed. */
  function SignalStep(s: Sys, t: nat, r: SignalResult): Sys {
    if t !in s.stoppers || !(s.stoppers[t].Terminating? || s.stoppers[t].Killing?) then s else
    var signal := if s.stoppers[t].Terminating? then Term else Kill;
    var (v, sent, failed) := SignalOwned(s.v, signal, r);
    var s1 := if sent then Log(s.(v := v), StopSignal(signal)) else s;
    if failed then Move(s1, t, Concluding(Some(if signal == Term then TermFailed else KillFailed)))
    else Move(s1, t, if signal == Term then Awaiting(sent) else AwaitingForced)
  }

  /** A waiting call sees the closed channel. */
  function WakeStep(s: Sys, t: nat): Sys {
    if t !in s.stoppers then s else
    match s.stoppers[t]
    case Joined(a) => if a in s.finished then Return(s, t, s.finished[a]) else s
    case Awaiting(_) => if s.v.done then Move(s, t, Probing) else s
    case AwaitingForced => if s.v.done then Move(s, t, Probing) else s
    case _ => s
  }

  /** A waiting call's context ends. Only the plain select may miss a closed channel. */
  function DeadlineStep(s: Sys, t: nat): Sys {
    if t !in s.stoppers then s else
    match s.stoppers[t]
    case Joined(a) => if a in s.finished then s else Return(s, t, DeadlineExceeded)
    case Awaiting(signaled) => if s.v.done && !signaled then s else Move(s, t, Killing)
    case AwaitingForced => if s.v.done then s else Move(s, t, Concluding(Some(NotExited)))
    case Probing => Move(s, t, Concluding(Some(NotAbsent)))
    case _ => s
  }

  function ProbeStep(s: Sys, t: nat, p: ProbeResult): Sys {
    if t !in s.stoppers || !s.stoppers[t].Probing? then s else
    match p
    case Absent => Log(Move(s, t, Concluding(None)), ProbedAbsent)
    case Present => s
    case Unknown => Move(s, t, Concluding(Some(ProbeFailed)))
  }

  function ConcludeStep(s: Sys, t: nat): Sys {
    if t !in s.stoppers || !s.stoppers[t].Concluding? then s else
    var (v, r) := ConcludeStop(s.v, s.stoppers[t].fault);
    Return(s.(v := v, finished := s.finished[t := r]), t, r)
  }

  function Apply(s: Sys, a: Action): Sys {
    match a
    case Start => if s.v.started then s else Log(s.(v := s.v.(started := true), waiter := Observing), Started)
    case WaiterObserve(observeFailed, r) => ObserveStep(s, observeFailed, r)
    case WaiterReap(waitFailed, closeErr) =>
      if s.waiter.Reaping?
      then Log(s.(waiter := Closing(s.waiter.intentional, s.waiter.observeFailed, waitFailed, closeErr)), Reaped)
      else s
    case WaiterFinish =>
      if s.waiter.Closing?
      then s.(v := FinishWait(s.v, s.waiter.intentional, s.waiter.observeFailed, s.waiter.waitFailed, s.waiter.closeErr), waiter := Finished)
      else s
    case CallStop(t) => CallStep(s, t)
    case SendSignal(t, r) => SignalStep(s, t, r)
    case Wake(t) => WakeStep(s, t)
    case Deadline(t) => DeadlineStep(s, t)
    case Probe(t, p) => ProbeStep(s, t, p)
    case Conclude(t) => ConcludeStep(s, t)
  }

  function Exec(s: Sys, run: seq<Action>): Sys
    decreases |run|
  {
    if run == [] then s else Exec(Apply(s, run[0]), run[1..])
  }

  // ----- what a history says -----

  predicate IsSignal(e: Event) { e.StopSignal? || e.ResidualKill? }

  /** No TERM or KILL after the child was reaped. */
  ghost predicate NoSignalAfterReap(events: seq<Event>) {
    forall i, j :: 0 <= i < j < |events| && events[i] == Reaped ==> !IsSignal(events[j])
  }

  ghost predicate StopSignalled(events: seq<Event>) { exists i :: 0 <= i < |events| && events[i].StopSignal? }

  /** Stops only signal before the exit is observed. */
  ghost predicate SignalsPrecedeExit(events: seq<Event>) {
    forall i, j :: 0 <= i < j < |events| && events[i] == Observed ==> !events[j].StopSignal?
  }

  /** Some Stop was called before the process was started. */
  ghost predicate StoppedUnstarted(events: seq<Event>) {
    exists i :: 0 <= i < |events| && events[i].StopCalled? && Started !in events[..i]
  }

  /** The group was probed absent after its leader had been reaped. */
  ghost predicate ProbedAfterReap(events: seq<Event>) {
    exists i, j :: 0 <= i < j < |events| && events[i] == Reaped && events[j] == ProbedAbsent
  }

  function FactsOf(events: seq<Event>): Facts {
    if events == [] then NoFacts else Add(FactsOf(events[..|events| - 1]), events[|events| - 1])
  }

  ghost predicate Occurrences(f: Facts, events: seq<Event>) {
    && (f.started <==> Started in events) && (f.observed <==> Observed in events)
    && (f.reaped <==> Reaped in events) && (f.probed <==> ProbedAbsent in events)
  }

  ghost predicate Orders(f: Facts, events: seq<Event>) {
    && (f.stopSignalled <==> StopSignalled(events))
    && (f.signalAfterReap <==> !NoSignalAfterReap(events))
    && (f.stopSignalAfterExit <==> !SignalsPrecedeExit(events))
    && (f.probedAfterReap <==> ProbedAfterReap(events))
    && (f.stoppedUnstarted <==> StoppedUnstarted(events))
  }

  lemma AddOccurrence(f: Facts, events: seq<Event>, e: Event)
    requires Occurrences(f, events)
    ensures Occurrences(Add(f, e), events + [e])
  {
  }

  lemma SignalsAppended(events: seq<Event>, e: Event)
    ensures var more := events + [e];
            && (StopSignalled(more) <==> StopSignalled(events) || e.StopSignal?)
            && (NoSignalAfterReap(more) <==> NoSignalAfterReap(events) && (IsSignal(e) ==> Reaped !in events))
            && (SignalsPrecedeExit(more) <==> SignalsPrecedeExit(events) && (e.StopSignal? ==> Observed !in events))
  {
    var more := events + [e];
    assert more[|events|] == e;
    assert forall i :: 0 <= i < |events| ==> more[i] == events[i];
    if StopSignalled(events) {
      var i :| 0 <= i < |events| && events[i].StopSignal?;
      assert more[i].StopSignal?;
    }
    if NoSignalAfterReap(more) {
      forall i, j | 0 <= i < j < |events| && events[i] == Reaped ensures !IsSignal(events[j]) { assert more[i] == Reaped; }
    }
    if SignalsPrecedeExit(more) {
      forall i, j | 0 <= i < j < |events| && events[i] == Observed ensures !events[j].StopSignal? { assert more[i] == Observed; }
    }
  }

  lemma ProbesAppended(events: seq<Event>, e: Event)
    ensures var more := events + [e];
            && (ProbedAfterReap(more) <==> ProbedAfterReap(events) || (e == ProbedAbsent && Reaped in events))
            && (StoppedUnstarted(more) <==> StoppedUnstarted(events) || (e.StopCalled? && Started !in events))
  {
    var more, n := events + [e], |events|;
    assert more[n] == e && more[..n] == events;
    assert forall i :: 0 <= i < n ==> more[i] == events[i] && more[..i] == events[..i];
    if ProbedAfterReap(events) {
      var i, j :| 0 <= i < j < n && events[i] == Reaped && events[j] == ProbedAbsent;
      assert more[i] == Reaped && more[j] == ProbedAbsent;
    }
    if e == ProbedAbsent && Reaped in events {
      var i :| 0 <= i < n && events[i] == Reaped;
      assert more[i] == Reaped;
    }
    if StoppedUnstarted(events) {
      var i :| 0 <= i < n && events[i].StopCalled? && Started !in events[..i];
      assert more[i].StopCalled? && Started !in more[..i];
    }
  }

  lemma AddOrder(f: Facts, events: seq<Event>, e: Event)
    requires Occurrences(f, events) && Orders(f, events)
    ensures Orders(Add(f, e), events + [e])
  {
    SignalsAppended(events, e);
    ProbesAppended(events, e);
  }

  lemma {:induction false} FactsMean(events: seq<Event>)
    ensures Occurrences(FactsOf(events), events) && Orders(FactsOf(events), events)
    decreases |events|
  {
    if events == [] {
    } else {
      var before, e := events[..|events| - 1], events[|events| - 1];
      FactsMean(before);
      AddOccurrence(FactsOf(before), before, e);
      AddOrder(FactsOf(before), before, e);
      assert events == before + [e];
    }
  }

  // ----- invariant -----

  predicate RunsAttempt(p: Stopper) { !p.Joined? }

  ghost predicate StopperOk(v: View, stoppers: map<nat, Stopper>, finished: map<nat, StopResult>, probed: bool, t: nat, p: Stopper) {
    && t !in finished
    && (RunsAttempt(p) ==> v.started && v.attempt == Some(t))
    && (p.Joined? ==> p.a in finished || v.attempt == Some(p.a))
    && (p.Probing? ==> v.done)
    && (p.Concluding? && p.fault.None? ==> v.done && probed)
  }

  ghost predicate InvStoppers(s: Sys) {
    && (forall t :: t in s.stoppers ==> StopperOk(s.v, s.stoppers, s.finished, s.facts.probed, t, s.stoppers[t]))
    && (s.v.attempt.Some? ==> s.v.attempt.value in s.stoppers && RunsAttempt(s.stoppers[s.v.attempt.value]))
    && (s.v.confirmed ==> s.v.attempt.None?)
  }

  ghost predicate InvWaiter(s: Sys) {
    && (s.waiter.NotRunning? <==> !s.v.started)
    && (s.v.exitObserved <==> s.waiter.Reaping? || s.waiter.Closing? || s.waiter.Finished?)
    && (s.facts.reaped <==> s.waiter.Closing? || s.waiter.Finished?)
    && (s.v.done <==> s.waiter.Finished?)
    && (s.v.unexpected.Some? ==> s.v.done)
    && ((s.waiter.Reaping? || s.waiter.Closing?) ==> s.waiter.intentional == s.v.stopping)
    && (s.v.done ==> (s.v.unexpected.Some? <==> !s.v.stopping))
  }

  ghost predicate InvHistory(s: Sys) {
    var f := s.facts;
    && f.started == s.v.started && f.observed == s.v.exitObserved && f.stopSignalled == s.v.stopping
    && !f.signalAfterReap && !f.stopSignalAfterExit
    && f.probed == f.probedAfterReap && (f.probed ==> f.reaped)
    && (f.stoppedUnstarted ==> s.v.confirmed && !f.probed && s.v.confirmedResult == Clean && s.stoppers.Keys == {})
    && (!s.v.started ==> s.stoppers.Keys == {})
    && (s.v.confirmed && !f.stoppedUnstarted ==>
          s.v.done && f.probed
          && s.v.confirmedResult == JoinStopErrors(None, s.v.residualFailed, s.v.closeFailed, s.v.unexpected.Some?))
  }

  ghost predicate Inv(s: Sys) { InvStoppers(s) && InvWaiter(s) && InvHistory(s) }

  // ----- one step -----

  lemma Appended(events: seq<Event>, e: Event)
    ensures FactsOf(events + [e]) == Add(FactsOf(events), e)
  {
    assert (events + [e])[..|events|] == events;
  }

  lemma StartKeeps(s: Sys)
    requires Inv(s) && s.facts == FactsOf(s.events)
    ensures var u := Apply(s, Start); Inv(u) && u.facts == FactsOf(u.events)
  {
    Appended(s.events, Started);
  }

  /** Changing view fields that no stopper depends on. */
  lemma StoppersSurvive(s: Sys, u: Sys)
    requires InvStoppers(s)
    requires u.stoppers == s.stoppers && u.finished == s.finished && u.facts.probed == s.facts.probed
    requires u.v.started == s.v.started && u.v.attempt == s.v.attempt && u.v.confirmed == s.v.confirmed && (s.v.done ==> u.v.done)
    ensures InvStoppers(u)
  {
    forall t | t in u.stoppers ensures StopperOk(u.v, u.stoppers, u.finished, u.facts.probed, t, u.stoppers[t]) {
      assert StopperOk(s.v, s.stoppers, s.finished, s.facts.probed, t, s.stoppers[t]);
    }
  }

  lemma ObserveKeeps(s: Sys, observeFailed: bool, r: SignalResult)
    requires Inv(s) && s.facts == FactsOf(s.events)
    ensures var u := ObserveStep(s, observeFailed, r); Inv(u) && u.facts == FactsOf(u.events)
  {
    if s.waiter == Observing {
      var u := ObserveStep(s, observeFailed, r);
      Appended(s.events, Observed);
      if !s.v.killIssued { Appended(s.events + [Observed], ResidualKill); }
      assert InvStoppers(u) by { StoppersSurvive(s, u); }
      assert InvWaiter(u);
      assert InvHistory(u);
    }
  }

  lemma ReapKeeps(s: Sys, waitFailed: bool, closeErr: bool)
    requires Inv(s) && s.facts == FactsOf(s.events)
    ensures var u := Apply(s, WaiterReap(waitFailed, closeErr)); Inv(u) && u.facts == FactsOf(u.events)
  {
    Appended(s.events, Reaped);
  }

  lemma FinishKeeps(s: Sys)
    requires Inv(s) && s.facts == FactsOf(s.events)
    ensures var u := Apply(s, WaiterFinish); Inv(u) && u.facts == FactsOf(u.events)
  {
  }

  /** A Stop that runs or joins an attempt. */
  lemma CallRunsKeeps(s: Sys, t: nat, p: Stopper)
    requires Inv(s) && t !in s.stoppers && t !in s.finished && !s.v.confirmed
    requires if s.v.attempt.Some? then p == Joined(s.v.attempt.value) else s.v.started && p == Terminating
    ensures Inv(Move(Log(s.(v := BeginStop(s.v, t).0), StopCalled(t)), t, p))
  {
    assert s.v.started;
  }

  /** A Stop that is answered at once. */
  lemma CallAnsweredKeeps(s: Sys, t: nat)
    requires Inv(s) && t !in s.stoppers && t !in s.finished && (s.v.confirmed || (s.v.attempt.None? && !s.v.started))
    ensures Inv(CallStep(s, t))
  {
    var u := CallStep(s, t);
    assert s.v.confirmed ==> u.v == s.v;
    assert InvStoppers(u);
  }

  lemma CallFacts(s: Sys, t: nat)
    requires s.facts == FactsOf(s.events)
    ensures CallStep(s, t).facts == FactsOf(CallStep(s, t).events)
  {
    Appended(s.events, StopCalled(t));
    match BeginStop(s.v, t).1
    case AlreadyConfirmed(r) => Appended(s.events + [StopCalled(t)], StopReturned(t, r));
    case NothingStarted => Appended(s.events + [StopCalled(t)], StopReturned(t, Clean));
    case _ =>
  }

  lemma CallKeeps(s: Sys, t: nat)
    requires Inv(s) && s.facts == FactsOf(s.events)
    ensures var u := CallStep(s, t); Inv(u) && u.facts == FactsOf(u.events)
  {
    CallFacts(s, t);
    if t in s.stoppers || t in s.finished {
    } else if s.v.confirmed || (s.v.attempt.None? && !s.v.started) {
      CallAnsweredKeeps(s, t);
    } else {
      CallRunsKeeps(s, t, if s.v.attempt.Some? then Joined(s.v.attempt.value) else Terminating);
    }
  }

  lemma SignalKeeps(s: Sys, t: nat, r: SignalResult)
    requires Inv(s) && s.facts == FactsOf(s.events)
    ensures var u := SignalStep(s, t, r); Inv(u) && u.facts == FactsOf(u.events)
  {
    Appended(s.events, StopSignal(Term));
    Appended(s.events, StopSignal(Kill));
  }

  lemma ReturnKeeps(s: Sys, t: nat, r: StopResult)
    requires Inv(s) && s.facts == FactsOf(s.events) && t in s.stoppers && s.stoppers[t].Joined?
    ensures var u := Return(s, t, r); Inv(u) && u.facts == FactsOf(u.events)
  {
    Appended(s.events, StopReturned(t, r));
  }

  lemma MoveKeeps(s: Sys, t: nat, p: Stopper)
    requires Inv(s) && s.facts == FactsOf(s.events) && t in s.stoppers && RunsAttempt(s.stoppers[t]) && RunsAttempt(p)
             && StopperOk(s.v, s.stoppers, s.finished, s.facts.probed, t, p)
    ensures var u := Move(s, t, p); Inv(u) && u.facts == FactsOf(u.events)
  {
  }

  lemma ProbeKeeps(s: Sys, t: nat, p: ProbeResult)
    requires Inv(s) && s.facts == FactsOf(s.events)
    ensures var u := ProbeStep(s, t, p); Inv(u) && u.facts == FactsOf(u.events)
  {
    Appended(s.events, ProbedAbsent);
  }

  lemma ConcludeKeeps(s: Sys, t: nat)
    requires Inv(s) && s.facts == FactsOf(s.events) && t in s.stoppers && s.stoppers[t].Concluding?
    ensures var u := ConcludeStep(s, t); Inv(u) && u.facts == FactsOf(u.events)
  {
    Appended(s.events, StopReturned(t, ConcludeStop(s.v, s.stoppers[t].fault).1));
  }

  lemma WaitingKeeps(s: Sys, a: Action)
    requires Inv(s) && s.facts == FactsOf(s.events) && (a.Wake? || a.Deadline?)
    ensures var u := Apply(s, a); Inv(u) && u.facts == FactsOf(u.events)
  {
    var u, t := Apply(s, a), a.t;
    if t in s.stoppers && u != s {
      assert StopperOk(s.v, s.stoppers, s.finished, s.facts.probed, t, s.stoppers[t]);
      if s.stoppers[t].Joined? {
        ReturnKeeps(s, t, if a.Wake? then s.finished[s.stoppers[t].a] else DeadlineExceeded);
      } else {
        MoveKeeps(s, t, u.stoppers[t]);
      }
    }
  }

  lemma ApplyKeeps(s: Sys, a: Action)
    requires Inv(s) && s.facts == FactsOf(s.events)
    ensures var u := Apply(s, a); Inv(u) && u.facts == FactsOf(u.events)
  {
    match a
    case Start => StartKeeps(s);
    case WaiterObserve(observeFailed, r) => ObserveKeeps(s, observeFailed, r);
    case WaiterReap(waitFailed, closeErr) => ReapKeeps(s, waitFailed, closeErr);
    case WaiterFinish => FinishKeeps(s);
    case CallStop(t) => CallKeeps(s, t);
    case SendSignal(t, r) => SignalKeeps(s, t, r);
    case Wake(t) => WaitingKeeps(s, a);
    case Deadline(t) => WaitingKeeps(s, a);
    case Probe(t, p) => ProbeKeeps(s, t, p);
    case Conclude(t) => if t in s.stoppers && s.stoppers[t].Concluding? { ConcludeKeeps(s, t); }
  }

  lemma {:induction false} RunKeeps(s: Sys, run: seq<Action>)
    requires Inv(s) && s.facts == FactsOf(s.events)
    ensures var u := Exec(s, run); Inv(u) && u.facts == FactsOf(u.events)
    decreases |run|
  {
    if run == [] {
    } else {
      ApplyKeeps(s, run[0]);
      RunKeeps(Apply(s, run[0]), run[1..]);
    }
  }

  // ----- theorems -----

  lemma ReachableInv(run: seq<Action>)
    ensures var s := Exec(Init, run); Inv(s) && Occurrences(s.facts, s.events) && Orders(s.facts, s.events)
  {
    RunKeeps(Init, run);
    FactsMean(Exec(Init, run).events);
  }

  /** In every interleaving, no TERM or KILL reaches the group after the child was reaped, and
      no Stop signals once the exit was observed. */
  lemma SignalSafety(run: seq<Action>)
    ensures NoSignalAfterReap(Exec(Init, run).events) && SignalsPrecedeExit(Exec(Init, run).events)
  {
    ReachableInv(run);
  }

  /** An exit is reported as unexpected exactly when it is over and no Stop ever signalled;
      which, by `SignalSafety`, means that it was observed before any stop signal. */
  lemma UnexpectedExactly(run: seq<Action>)
    ensures var s := Exec(Init, run); s.v.unexpected.Some? <==> s.v.done && !StopSignalled(s.events)
  {
    ReachableInv(run);
  }

  /** Once a stop is confirmed, the group was probed absent after its leader was reaped if and
      only if no Stop came before Start; and then the confirmed result is exact. */
  lemma ConfirmedMeansProbed(run: seq<Action>)
    requires Exec(Init, run).v.confirmed
    ensures var s := Exec(Init, run);
            && (ProbedAfterReap(s.events) <==> !StoppedUnstarted(s.events))
            && (!StoppedUnstarted(s.events) ==>
                  && s.v.done
                  && (s.v.confirmedResult == Clean <==> StopSignalled(s.events) && !s.v.residualFailed && !s.v.closeFailed))
  {
    ReachableInv(run);
  }

  ghost predicate After(s: Sys, u: Sys) {
    && u.v.confirmed && u.v.confirmedResult == s.v.confirmedResult
    && u.stoppers.Keys <= s.stoppers.Keys
    && s.events <= u.events
    && forall k :: |s.events| <= k < |u.events| ==> Settled(s, u.events[k])
  }

  /** What may still happen after confirmation: no stop signal, and only the confirmed result
      for calls that were not already waiting. */
  ghost predicate Settled(s: Sys, e: Event) {
    !e.StopSignal? && (e.StopReturned? && e.t !in s.stoppers ==> e.result == s.v.confirmedResult)
  }

  /** The steps of calls that are already in, one by one; then all others. */
  lemma ConfirmedCall(s: Sys, t: nat)
    requires Inv(s) && s.v.confirmed
    ensures After(s, CallStep(s, t)) && After(s, WakeStep(s, t))
  {
    assert t in s.stoppers ==> StopperOk(s.v, s.stoppers, s.finished, s.facts.probed, t, s.stoppers[t]);
  }

  lemma ConfirmedSignal(s: Sys, t: nat, r: SignalResult)
    requires Inv(s) && s.v.confirmed
    ensures After(s, SignalStep(s, t, r)) && After(s, DeadlineStep(s, t))
  {
    assert t in s.stoppers ==> StopperOk(s.v, s.stoppers, s.finished, s.facts.probed, t, s.stoppers[t]);
  }

  lemma ConfirmedConclude(s: Sys, t: nat, p: ProbeResult)
    requires Inv(s) && s.v.confirmed
    ensures After(s, ProbeStep(s, t, p)) && After(s, ConcludeStep(s, t))
  {
    assert t in s.stoppers ==> StopperOk(s.v, s.stoppers, s.finished, s.facts.probed, t, s.stoppers[t]);
  }

  lemma ConfirmedStep(s: Sys, a: Action)
    requires Inv(s) && s.v.confirmed
    ensures After(s, Apply(s, a))
  {
    match a
    case CallStop(t) => ConfirmedCall(s, t);
    case Wake(t) => ConfirmedCall(s, t);
    case SendSignal(t, r) => ConfirmedSignal(s, t, r);
    case Deadline(t) => ConfirmedSignal(s, t, Delivered);
    case Probe(t, p) => ConfirmedConclude(s, t, p);
    case Conclude(t) => ConfirmedConclude(s, t, Present);
    case _ => ConfirmedWaiter(s, a);
  }

  lemma ConfirmedWaiter(s: Sys, a: Action)
    requires Inv(s) && s.v.confirmed && (a.Start? || a.WaiterObserve? || a.WaiterReap? || a.WaiterFinish?)
    ensures After(s, Apply(s, a))
  {
  }

  lemma {:induction false} ConfirmedRun(s: Sys, run: seq<Action>)
    requires Inv(s) && s.facts == FactsOf(s.events) && s.v.confirmed
    ensures After(s, Exec(s, run))
    decreases |run|
  {
    if run == [] {
    } else {
      var u, w := Apply(s, run[0]), Exec(s, run);
      ConfirmedStep(s, run[0]);
      ApplyKeeps(s, run[0]);
      ConfirmedRun(u, run[1..]);
      forall k | |s.events| <= k < |w.events| ensures Settled(s, w.events[k]) {
        if k < |u.events| { assert w.events[k] == u.events[k]; } else { assert Settled(u, w.events[k]); }
      }
    }
  }

  /** After confirmation, in every continuation: no Stop signals the group again, and every
      Stop that starts from then on returns the same confirmed result. */
  lemma ConfirmationIsFinal(run: seq<Action>, later: seq<Action>)
    requires Exec(Init, run).v.confirmed
    ensures var s := Exec(Init, run); var u := Exec(s, later);
            && u.v.confirmed && u.v.confirmedResult == s.v.confirmedResult && |s.events| <= |u.events|
            && forall k :: |s.events| <= k < |u.events| ==>
                 !u.events[k].StopSignal?
                 && (u.events[k].StopReturned? && u.events[k].t !in s.stoppers ==> u.events[k].result == s.v.confirmedResult)
  {
    RunKeeps(Init, run);
    ConfirmedRun(Exec(Init, run), later);
    var s, u := Exec(Init, run), Exec(Exec(Init, run), later);
    forall k | |s.events| <= k < |u.events|
      ensures !u.events[k].StopSignal? && (u.events[k].StopReturned? && u.events[k].t !in s.stoppers ==> u.events[k].result == s.v.confirmedResult)
    {
      assert Settled(s, u.events[k]);
    }
  }

  /** Why the order matters: a Stop before Start is confirmed for good, so the process started
      afterwards keeps running while every further Stop reports a clean stop. */
  lemma StopBeforeStartLeaksTheProcess()
    ensures var s := Apply(Apply(Apply(Init, CallStop(0)), Start), CallStop(1));
            s.v.started && !s.v.exitObserved && s.v.confirmed && StopReturned(1, Clean) in s.events && s.waiter == Observing
  {
    var s1 := Apply(Init, CallStop(0));
    var s2 := Apply(s1, Start);
    var s3 := Apply(s2, CallStop(1));
    assert s3.events[|s2.events| + 1] == StopReturned(1, Clean);
  }
}
