/** The sequential task runner (pkg/runner/runner.go). Component outcomes are parameters; the
    calls made on components are logged, and a monitor says what a good log is. */
module Runner {
  import opened Common

  // ----- calls and the monitor over them -----

  datatype Event =
    | SandboxStarted
    | SandboxStop(ok: bool)
    | BridgeStart
    | BridgeStop(ok: bool)
    | HarnessStart
    | HarnessRun
    | HarnessStop(ok: bool)
    | Evaluate
    | EvalStarted(k: nat)
    | EvalStop(k: nat, ok: bool)

  /** A component that was started is owed a stop; a failed stop leaves it unconfirmed. */
  datatype Life = Unused | Owed | Unconfirmed | Closed

  /** `evalOwed` are the evaluation sandboxes without a stop attempt, oldest first; `evalLeft`
      those whose stop failed, in the order they were started. */
  datatype Monitor = Monitor(sandbox: Life, bridge: Life, harness: Life, ran: bool, evaluated: bool,
                             draining: bool, evalOwed: seq<nat>, evalLeft: seq<nat>, bad: bool)

  const Begin := Monitor(Unused, Unused, Unused, false, false, false, [], [], false)

  function AfterStop(ok: bool): Life { if ok then Closed else Unconfirmed }

  predicate Live(l: Life) { l in {Owed, Unconfirmed} }

  /** The rules. Sandbox, bridge and harness start in that order; evaluation comes once and only
      while harness and bridge are closed; nothing of them starts or runs after it; evaluation
      sandboxes are stopped newest first; nothing is stopped that was not started or is already
      closed; and the stop of a task's own sandbox is the last call. */
  predicate Breaks(m: Monitor, e: Event) {
    match e
    case SandboxStarted => m.sandbox != Unused
    case BridgeStart => m.sandbox != Owed || m.bridge != Unused || m.harness != Unused || m.evaluated
    case HarnessStart => m.sandbox != Owed || m.bridge != Owed || m.harness != Unused || m.evaluated
    case HarnessRun => m.sandbox != Owed || m.ran || m.harness != Owed || m.bridge != Owed || m.evaluated
    case HarnessStop(_) => m.sandbox != Owed || !Live(m.harness)
    case BridgeStop(_) => m.sandbox != Owed || !Live(m.bridge)
    case Evaluate => m.sandbox != Owed || m.evaluated || m.harness != Closed || m.bridge != Closed
    case EvalStarted(_) => m.sandbox != Owed || !m.evaluated || m.draining
    case EvalStop(k, _) => m.sandbox != Owed || m.evalOwed == [] || m.evalOwed[|m.evalOwed| - 1] != k
    case SandboxStop(_) => m.sandbox != Owed || m.evalOwed != []
  }

  function Update(m: Monitor, e: Event): Monitor {
    match e
    case SandboxStarted => m.(sandbox := Owed)
    case BridgeStart => m.(bridge := Owed)
    case HarnessStart => m.(harness := Owed)
    case HarnessRun => m.(ran := true)
    case HarnessStop(ok) => m.(harness := AfterStop(ok))
    case BridgeStop(ok) => m.(bridge := AfterStop(ok))
    case Evaluate => m.(evaluated := true)
    case EvalStarted(k) => m.(evalOwed := m.evalOwed + [k])
    case EvalStop(k, ok) =>
      m.(draining := true, evalOwed := if m.evalOwed == [] then [] else m.evalOwed[..|m.evalOwed| - 1],
         evalLeft := if ok then m.evalLeft else [k] + m.evalLeft)
    case SandboxStop(ok) => m.(sandbox := AfterStop(ok))
  }

  function Next(m: Monitor, e: Event): Monitor {
    if m.bad || Breaks(m, e) then m.(bad := true) else Update(m, e)
  }

  function Fold(next: (Monitor, Event) -> Monitor, log: seq<Event>): Monitor {
    if log == [] then Begin else next(Fold(next, log[..|log| - 1]), log[|log| - 1])
  }

  /** What the monitor makes of a log. */
  function Watch(log: seq<Event>): Monitor { Fold(Next, log) }

  predicate Settled(m: Monitor) { !m.bad && m.sandbox != Owed && m.bridge != Owed && m.harness != Owed && m.evalOwed == [] }

  predicate NothingStarted(m: Monitor) { m.sandbox == Unused && m.bridge == Unused && m.harness == Unused && m.evalLeft == [] }

  predicate NothingLeft(m: Monitor) { !Live(m.sandbox) && !Live(m.bridge) && !Live(m.harness) && m.evalLeft == [] }

  /** Where every path ends: all that was started got a stop attempt, and the cleanup status
      says exactly whether anything was started and whether anything is left. */
  predicate Ended(m: Monitor, cleanup: Status) {
    && Settled(m)
    && (cleanup == NotNeeded <==> NothingStarted(m))
    && (cleanup == Succeeded <==> !NothingStarted(m) && NothingLeft(m))
    && (cleanup == Failed <==> !NothingLeft(m))
  }

  // ----- what the rules mean for a whole log -----

  /** What one step of the monitor says about the logs around it. */
  ghost predicate Lawful(next: (Monitor, Event) -> Monitor) {
    forall m, e :: !next(m, e).bad ==> Law(m, e, next(m, e))
  }

  predicate Law(m: Monitor, e: Event, n: Monitor) {
    && !m.bad && !Over(m.sandbox)
    && (e.SandboxStop? ==> Over(n.sandbox))
    && (n.evaluated <==> m.evaluated || e == Evaluate)
    && (m.evaluated ==> e != Evaluate && !StartsOrRuns(e))
    && (e == Evaluate ==> m.harness == Closed && m.bridge == Closed)
    && (n.harness == Closed && e != HarnessStop(true) ==> m.harness == Closed && !StartsOrRuns(e))
    && (n.bridge == Closed && e != BridgeStop(true) ==> m.bridge == Closed && !StartsOrRuns(e))
    && LifeLaw(m, e, n, SandboxStarted) && LifeLaw(m, e, n, BridgeStart) && LifeLaw(m, e, n, HarnessStart)
    && EvalLaw(m, e, n)
  }

  predicate Over(l: Life) { l in {Unconfirmed, Closed} }

  /** A component comes alive by its start only and is owed a stop until its stop. */
  predicate LifeLaw(m: Monitor, e: Event, n: Monitor, start: Event) {
    && (e == start ==> LifeOf(n, start) == Owed)
    && (LifeOf(m, start) != Unused ==> LifeOf(n, start) != Unused && (LifeOf(n, start) == Owed ==> LifeOf(m, start) == Owed || e == start))
    && (LifeOf(m, start) == Owed && LifeOf(n, start) != Owed ==> StopOf(start, e))
    && (e == start ==> LifeOf(m, start) == Unused)
  }

  /** Evaluation sandboxes are a stack that only shrinks once it has been popped. */
  predicate EvalLaw(m: Monitor, e: Event, n: Monitor) {
    if e.EvalStarted? then !m.draining && !n.draining && n.evalOwed == m.evalOwed + [e.k]
    else if e.EvalStop? then n.draining && m.evalOwed == n.evalOwed + [e.k]
    else n.draining == m.draining && n.evalOwed == m.evalOwed
  }

  lemma NextIsLawful()
    ensures Lawful(Next)
  {
    forall m, e | !Next(m, e).bad ensures Law(m, e, Next(m, e)) {
      LawOf(m, e);
    }
  }

  lemma LawOf(m: Monitor, e: Event)
    requires !m.bad && !Breaks(m, e)
    ensures Law(m, e, Update(m, e))
  {
  }

  /** The last event of a log is a lawful step. */
  lemma FoldStep(next: (Monitor, Event) -> Monitor, log: seq<Event>)
    requires Lawful(next) && log != [] && !Fold(next, log).bad
    ensures var p, e := log[..|log| - 1], log[|log| - 1];
            log == p + [e] && !Fold(next, p).bad && Law(Fold(next, p), e, Fold(next, log))
  {
  }

  /** Prefixes of good logs are good, and each of their events is a lawful step. */
  lemma {:induction false} FoldPrefix(next: (Monitor, Event) -> Monitor, log: seq<Event>, i: nat)
    requires Lawful(next) && i < |log| && !Fold(next, log).bad
    ensures !Fold(next, log[..i]).bad && !Fold(next, log[..i + 1]).bad
    ensures Law(Fold(next, log[..i]), log[i], Fold(next, log[..i + 1]))
    decreases |log|
  {
    FoldStep(next, log);
    if i < |log| - 1 {
      var p := log[..|log| - 1];
      FoldPrefix(next, p, i);
      assert p[..i] == log[..i] && p[..i + 1] == log[..i + 1] && p[i] == log[i];
    } else {
      assert log[..i + 1] == log;
    }
  }

  predicate StartsOrRuns(e: Event) { e in {BridgeStart, HarnessStart, HarnessRun} }

  /** `e` is the last start-or-run-sensitive stop: it is at `h` and nothing starts or runs after it. */
  predicate QuietSince(log: seq<Event>, h: nat, e: Event) {
    h < |log| && log[h] == e && forall j :: h < j < |log| ==> !StartsOrRuns(log[j])
  }

  lemma QuietExtends(p: seq<Event>, h: nat, stop: Event, e: Event)
    requires QuietSince(p, h, stop) && !StartsOrRuns(e)
    ensures QuietSince(p + [e], h, stop)
  {
    assert forall j :: h < j < |p| ==> (p + [e])[j] == p[j];
  }

  lemma {:induction false} HarnessClosedMeansQuiet(next: (Monitor, Event) -> Monitor, log: seq<Event>) returns (h: nat)
    requires Lawful(next) && !Fold(next, log).bad && Fold(next, log).harness == Closed
    ensures QuietSince(log, h, HarnessStop(true))
  {
    FoldStep(next, log);
    var p, e := log[..|log| - 1], log[|log| - 1];
    if e == HarnessStop(true) {
      h := |p|;
    } else {
      h := HarnessClosedMeansQuiet(next, p);
      QuietExtends(p, h, HarnessStop(true), e);
    }
  }

  lemma {:induction false} BridgeClosedMeansQuiet(next: (Monitor, Event) -> Monitor, log: seq<Event>) returns (b: nat)
    requires Lawful(next) && !Fold(next, log).bad && Fold(next, log).bridge == Closed
    ensures QuietSince(log, b, BridgeStop(true))
  {
    FoldStep(next, log);
    var p, e := log[..|log| - 1], log[|log| - 1];
    if e == BridgeStop(true) {
      b := |p|;
    } else {
      b := BridgeClosedMeansQuiet(next, p);
      QuietExtends(p, b, BridgeStop(true), e);
    }
  }

  lemma {:induction false} EvaluatedIsLogged(next: (Monitor, Event) -> Monitor, log: seq<Event>)
    requires Lawful(next) && !Fold(next, log).bad
    ensures Fold(next, log).evaluated <==> Evaluate in log
  {
    if log != [] {
      FoldStep(next, log);
      EvaluatedIsLogged(next, log[..|log| - 1]);
    }
  }

  lemma {:induction false} NothingAfterEvaluate(next: (Monitor, Event) -> Monitor, log: seq<Event>, i: nat, j: nat)
    requires Lawful(next) && i < j < |log| && log[i] == Evaluate && !Fold(next, log).bad
    ensures log[j] != Evaluate && !StartsOrRuns(log[j])
  {
    FoldPrefix(next, log, j);
    EvaluatedIsLogged(next, log[..j]);
    assert log[..j][i] == Evaluate;
  }

  lemma QuietToTheEnd(log: seq<Event>, i: nat, h: nat, stop: Event)
    requires i < |log| && log[i] == Evaluate && QuietSince(log[..i], h, stop)
    requires forall j :: i < j < |log| ==> !StartsOrRuns(log[j])
    ensures QuietSince(log, h, stop) && h < i
  {
    assert forall j :: 0 <= j < i ==> log[j] == log[..i][j];
  }

  lemma AtMostOneEvaluate(next: (Monitor, Event) -> Monitor, log: seq<Event>, i: nat)
    requires Lawful(next) && i < |log| && log[i] == Evaluate && !Fold(next, log).bad
    ensures forall j :: 0 <= j < |log| && j != i ==> log[j] != Evaluate
    ensures forall j :: i < j < |log| ==> !StartsOrRuns(log[j])
  {
    forall j | 0 <= j < |log| && j != i ensures log[j] != Evaluate && (j > i ==> !StartsOrRuns(log[j])) {
      if j < i { if log[j] == Evaluate { NothingAfterEvaluate(next, log, j, i); } } else { NothingAfterEvaluate(next, log, i, j); }
    }
  }

  /** The evaluation at `i` is the only one, behind both stops with nothing started or run since. */
  predicate Behind(log: seq<Event>, i: nat) {
    && (forall j :: 0 <= j < |log| && j != i ==> log[j] != Evaluate)
    && (exists h: nat :: h < i && QuietSince(log, h, HarnessStop(true)))
    && (exists b: nat :: b < i && QuietSince(log, b, BridgeStop(true)))
  }

  lemma Gate(next: (Monitor, Event) -> Monitor, log: seq<Event>, i: nat)
    requires Lawful(next) && i < |log| && log[i] == Evaluate && !Fold(next, log).bad
    ensures Behind(log, i)
  {
    AtMostOneEvaluate(next, log, i);
    FoldPrefix(next, log, i);
    var h := HarnessClosedMeansQuiet(next, log[..i]);
    var b := BridgeClosedMeansQuiet(next, log[..i]);
    QuietToTheEnd(log, i, h, HarnessStop(true));
    QuietToTheEnd(log, i, b, BridgeStop(true));
  }

  /** Isolation gate: in a log that keeps the rules, a task is evaluated at most once, after a
      successful harness stop and a successful bridge stop, each later than every bridge
      start, harness start and harness run of that task; none of those follows either. */
  lemma {:induction false} IsolationGate(log: seq<Event>, i: nat)
    requires i < |log| && log[i] == Evaluate && !Watch(log).bad
    ensures forall j :: 0 <= j < |log| && j != i ==> log[j] != Evaluate
    ensures exists h: nat :: h < i && QuietSince(log, h, HarnessStop(true))
    ensures exists b: nat :: b < i && QuietSince(log, b, BridgeStop(true))
  {
    NextIsLawful();
    Gate(Next, log, i);
  }

  lemma LastIsLast(next: (Monitor, Event) -> Monitor, log: seq<Event>, i: nat)
    requires Lawful(next) && i < |log| && log[i].SandboxStop? && !Fold(next, log).bad
    ensures i == |log| - 1
  {
    FoldPrefix(next, log, i);
    if i + 1 < |log| { FoldPrefix(next, log, i + 1); }
  }

  /** Stopping a task's own sandbox is the last call, so every other stop precedes it. */
  lemma {:induction false} SandboxGoesLast(log: seq<Event>, i: nat)
    requires i < |log| && log[i].SandboxStop? && !Watch(log).bad
    ensures i == |log| - 1
  {
    NextIsLawful();
    LastIsLast(Next, log, i);
  }

  function EvalStarts(log: seq<Event>): seq<nat> {
    if log == [] then [] else
      var e := log[|log| - 1];
      EvalStarts(log[..|log| - 1]) + if e.EvalStarted? then [e.k] else []
  }

  function EvalStops(log: seq<Event>): seq<nat> {
    if log == [] then [] else
      var e := log[|log| - 1];
      EvalStops(log[..|log| - 1]) + if e.EvalStop? then [e.k] else []
  }

  lemma StackStep(m: Monitor, e: Event, n: Monitor, starts: seq<nat>, stops: seq<nat>)
    requires EvalLaw(m, e, n) && starts == m.evalOwed + Reversed(stops) && (!m.draining ==> stops == [])
    ensures starts + (if e.EvalStarted? then [e.k] else []) == n.evalOwed + Reversed(stops + if e.EvalStop? then [e.k] else [])
    ensures !n.draining ==> stops + (if e.EvalStop? then [e.k] else []) == []
  {
    if e.EvalStop? {
      ReversedSnoc(stops, e.k);
    } else {
      assert stops + [] == stops && starts + [] == starts;
    }
  }

  lemma {:induction false} Stack(next: (Monitor, Event) -> Monitor, log: seq<Event>)
    requires Lawful(next) && !Fold(next, log).bad
    ensures EvalStarts(log) == Fold(next, log).evalOwed + Reversed(EvalStops(log))
    ensures !Fold(next, log).draining ==> EvalStops(log) == []
  {
    if log != [] {
      FoldStep(next, log);
      var p, e := log[..|log| - 1], log[|log| - 1];
      Stack(next, p);
      StackStep(Fold(next, p), e, Fold(next, log), EvalStarts(p), EvalStops(p));
    }
  }

  /** Evaluation sandboxes are stopped newest first; in a settled log, each of them exactly once. */
  lemma {:induction false} NewestFirst(log: seq<Event>)
    requires !Watch(log).bad
    ensures EvalStarts(log) == Watch(log).evalOwed + Reversed(EvalStops(log))
    ensures Settled(Watch(log)) ==> EvalStarts(log) == Reversed(EvalStops(log))
  {
    NextIsLawful();
    Stack(Next, log);
  }

  predicate StopOf(start: Event, stop: Event) {
    || (start == SandboxStarted && stop.SandboxStop?)
    || (start == BridgeStart && stop.BridgeStop?)
    || (start == HarnessStart && stop.HarnessStop?)
  }

  function LifeOf(m: Monitor, start: Event): Life {
    match start
    case SandboxStarted => m.sandbox
    case BridgeStart => m.bridge
    case HarnessStart => m.harness
    case _ => Closed
  }

  lemma {:induction false} StartIsStopped(next: (Monitor, Event) -> Monitor, log: seq<Event>, i: nat)
    requires Lawful(next) && i < |log| && log[i] in {SandboxStarted, BridgeStart, HarnessStart} && !Fold(next, log).bad
    ensures LifeOf(Fold(next, log), log[i]) != Owed ==> exists j :: i < j < |log| && StopOf(log[i], log[j])
    ensures LifeOf(Fold(next, log), log[i]) != Unused
  {
    FoldStep(next, log);
    if i < |log| - 1 {
      var p := log[..|log| - 1];
      StartIsStopped(next, p, i);
      assert forall j :: 0 <= j < |p| ==> log[j] == p[j];
    }
  }

  /** Ownership: in a settled log every start of a component is followed by a stop of it. */
  lemma {:induction false} EveryStartIsStopped(log: seq<Event>, i: nat)
    requires i < |log| && log[i] in {SandboxStarted, BridgeStart, HarnessStart} && !Watch(log).bad
    ensures LifeOf(Watch(log), log[i]) != Owed ==> exists j :: i < j < |log| && StopOf(log[i], log[j])
    ensures LifeOf(Watch(log), log[i]) != Unused
  {
    NextIsLawful();
    StartIsStopped(Next, log, i);
  }

  // ----- results -----

  datatype Status = NotStarted | NotRun | Succeeded | Failed | Canceled | Confirmed | BlockedIsolation | NotNeeded | Unset | Other

  datatype TaskResult = TaskResult(harness: Status, isolation: Status, harnessStopped: bool, bridgeRevoked: bool,
                                   evaluation: Status, cleanup: Status)

  const NewResult := TaskResult(NotStarted, NotStarted, false, false, NotRun, NotNeeded)

  /** What the components answer during one task. `Some(true)` is a cancellation error. */
  datatype SandboxOutcome = StartFailed | NilSandbox | Started
  datatype Outcomes = Outcomes(
    sandbox: SandboxOutcome, prepared: bool, bridgeStarted: bool, harnessStartErr: Option<bool>,
    harnessRunErr: Option<bool>, harnessStatus: Status,
    isolateHarness: bool, isolateBridge: bool,
    evalErr: Option<bool>, evalStatus: Status, evalStarted: seq<nat>, evalStopOk: nat -> bool,
    stopHarness: bool, stopBridge: bool, stopSandbox: bool, contextEnded: bool)

  function FailureStatus(canceled: bool): Status { if canceled then Canceled else Failed }

  function Reported(err: Option<bool>, status: Status): Status {
    if err.Some? then FailureStatus(err.value) else if status == Unset then Succeeded else status
  }

  /** The sandboxes whose stop fails, in order. */
  function FailedStops(started: seq<nat>, ok: nat -> bool): seq<nat> {
    if started == [] then [] else (if ok(started[0]) then [] else [started[0]]) + FailedStops(started[1..], ok)
  }

  function Reversed(s: seq<nat>): seq<nat> { if s == [] then [] else Reversed(s[1..]) + [s[0]] }

  lemma ReversedSnoc(s: seq<nat>, x: nat)
    ensures Reversed(s + [x]) == [x] + Reversed(s)
  {
    if s != [] { assert (s + [x])[1..] == s[1..] + [x]; ReversedSnoc(s[1..], x); }
  }

  // ----- what one task must come to -----

  predicate HarnessReached(o: Outcomes) { o.sandbox == Started && o.prepared && o.bridgeStarted }

  predicate Isolated(o: Outcomes) { HarnessReached(o) && o.isolateHarness && o.isolateBridge }

  /** The calls made are those the outcomes allow: evaluation exactly after both confirmations. */
  predicate CallsMade(o: Outcomes, m: Monitor) {
    && (m.sandbox != Unused <==> o.sandbox == Started)
    && (m.bridge != Unused <==> o.sandbox == Started && o.prepared)
    && (m.harness != Unused <==> HarnessReached(o))
    && (m.ran <==> HarnessReached(o) && o.harnessStartErr.None?)
    && (m.evaluated <==> Isolated(o))
  }

  predicate Statuses(o: Outcomes, r: TaskResult) {
    && r.harness == (if !HarnessReached(o) then NotStarted
                     else if o.harnessStartErr.Some? then FailureStatus(o.harnessStartErr.value)
                     else Reported(o.harnessRunErr, o.harnessStatus))
    && r.isolation == (if !HarnessReached(o) then NotStarted else if Isolated(o) then Confirmed else BlockedIsolation)
    && r.harnessStopped == (HarnessReached(o) && o.isolateHarness)
    && r.bridgeRevoked == (HarnessReached(o) && o.isolateBridge)
    && r.evaluation == (if !HarnessReached(o) then NotRun else if Isolated(o) then Reported(o.evalErr, o.evalStatus) else BlockedIsolation)
  }

  predicate StepFailed(o: Outcomes) {
    !HarnessReached(o) || o.harnessStartErr.Some? || o.harnessRunErr.Some? || !Isolated(o) || o.evalErr.Some?
  }

  // ----- the calls of one task -----

  predicate BridgeReached(o: Outcomes) { o.sandbox == Started && o.prepared }

  function StartCalls(o: Outcomes): seq<Event> {
    if o.sandbox != Started then [] else if !o.prepared then [SandboxStarted] else [SandboxStarted, BridgeStart]
  }

  function HarnessCalls(o: Outcomes): seq<Event> {
    if o.harnessStartErr.Some? then [HarnessStart] else [HarnessStart, HarnessRun]
  }

  function IsolationCalls(o: Outcomes): seq<Event> { [HarnessStop(o.isolateHarness), BridgeStop(o.isolateBridge)] }

  function EvalStartCalls(ks: seq<nat>): seq<Event> {
    if ks == [] then [] else EvalStartCalls(ks[..|ks| - 1]) + [EvalStarted(ks[|ks| - 1])]
  }

  /** Newest first. */
  function EvalStopCalls(ks: seq<nat>, ok: nat -> bool): seq<Event> {
    if ks == [] then [] else [EvalStop(ks[|ks| - 1], ok(ks[|ks| - 1]))] + EvalStopCalls(ks[..|ks| - 1], ok)
  }

  function ComponentStops(o: Outcomes, harness: bool, bridge: bool, sandbox: bool): seq<Event> {
    (if harness then [HarnessStop(o.stopHarness)] else []) + (if bridge then [BridgeStop(o.stopBridge)] else []) +
    (if sandbox then [SandboxStop(o.stopSandbox)] else [])
  }

  /** What is owed when the common end of all paths is reached. */
  predicate HarnessOwed(o: Outcomes) { HarnessReached(o) && !o.isolateHarness }
  predicate BridgeOwed(o: Outcomes) { BridgeReached(o) && !(HarnessReached(o) && o.isolateBridge) }
  function EvalOwed(o: Outcomes): seq<nat> { if Isolated(o) then o.evalStarted else [] }

  function WorkCalls(o: Outcomes): seq<Event> {
    if !HarnessReached(o) then []
    else HarnessCalls(o) + IsolationCalls(o) + if Isolated(o) then [Evaluate] + EvalStartCalls(o.evalStarted) else []
  }

  function EndCalls(o: Outcomes): seq<Event> {
    EvalStopCalls(EvalOwed(o), o.evalStopOk) + ComponentStops(o, HarnessOwed(o), BridgeOwed(o), o.sandbox == Started)
  }

  function Calls(o: Outcomes): seq<Event> { StartCalls(o) + WorkCalls(o) + EndCalls(o) }

  /** The status the cleanup gets. */
  function CleanupOf(o: Outcomes): Status {
    if o.sandbox != Started then NotNeeded
    else if FailedStops(EvalOwed(o), o.evalStopOk) != [] || (HarnessOwed(o) && !o.stopHarness) || (BridgeOwed(o) && !o.stopBridge) || !o.stopSandbox
    then Failed else Succeeded
  }

  /** The calls, statuses, leftovers and verdict that the outcomes determine. */
  predicate Followed(o: Outcomes, r: TaskResult, log: seq<Event>, left: seq<nat>, failed: bool) {
    && log == Calls(o) && Statuses(o, r) && r.cleanup == CleanupOf(o) && left == FailedStops(EvalOwed(o), o.evalStopOk)
    && (failed <==> StepFailed(o) || r.cleanup == Failed || o.contextEnded)
  }

  // ----- one task -----

  class TaskRun {
    const o: Outcomes
    var sandboxActive: bool
    var bridgeActive: bool
    var harnessActive: bool
    var cleanupUsed: bool
    var cleanupFailed: bool
    var failed: bool
    var started: seq<nat>
    var result: TaskResult
    var log: seq<Event>

    ghost predicate New() reads this {
      && !sandboxActive && !bridgeActive && !harnessActive && !cleanupUsed && !cleanupFailed && !failed
      && started == [] && result == NewResult && log == []
    }

    constructor (o: Outcomes)
      ensures New() && this.o == o
    {
      this.o := o;
      sandboxActive, bridgeActive, harnessActive, cleanupUsed, cleanupFailed, failed := false, false, false, false, false, false;
      started, result, log := [], NewResult, [];
    }

    /** evaluationSandboxes.stop: newest first; what cannot be stopped is kept in its order. */
    method StopEvaluation() returns (ok: bool)
      modifies this`log, this`started
      ensures started == FailedStops(old(started), o.evalStopOk) && (ok <==> started == [])
      ensures log == old(log) + EvalStopCalls(old(started), o.evalStopOk)
    {
      var remaining: seq<nat> := [];
      ok := true;
      var index := |started|;
      assert started[..index] == started && FailedStops(started[index..], o.evalStopOk) == [];
      while index > 0
        invariant 0 <= index <= |started| && started == old(started)
        invariant Reversed(remaining) == FailedStops(started[index..], o.evalStopOk) && (ok <==> remaining == [])
        invariant log + EvalStopCalls(started[..index], o.evalStopOk) == old(log) + EvalStopCalls(started, o.evalStopOk)
      {
        index := index - 1;
        var k := started[index];
        assert started[..index + 1][..index] == started[..index] && started[index..] == [k] + started[index + 1..];
        Regroup(log, [EvalStop(k, o.evalStopOk(k))], EvalStopCalls(started[..index], o.evalStopOk));
        log := log + [EvalStop(k, o.evalStopOk(k))];
        if !o.evalStopOk(k) {
          ReversedSnoc(remaining, k);
          remaining, ok := remaining + [k], false;
        }
      }
      assert log + [] == log;
      ReversedEmpty(remaining);
      started := Reversed(remaining);
      assert started == FailedStops(old(started), o.evalStopOk) by { assert old(started)[0..] == old(started); }
    }

    /** The common end of every path: every live component gets a stop attempt. */
    method Finish()
      requires !cleanupUsed && !cleanupFailed
      modifies this
      ensures started == FailedStops(old(started), o.evalStopOk)
      ensures log == old(log) + (EvalStopCalls(old(started), o.evalStopOk) + ComponentStops(o, old(harnessActive), old(bridgeActive), old(sandboxActive)))
      ensures var left := started != [] || (old(harnessActive) && !o.stopHarness) || (old(bridgeActive) && !o.stopBridge) || (old(sandboxActive) && !o.stopSandbox);
              var used := old(started) != [] || old(harnessActive) || old(bridgeActive) || old(sandboxActive);
              && result == old(result).(cleanup := if !used then NotNeeded else if left then Failed else Succeeded)
              && (failed <==> old(failed) || left || o.contextEnded)
    {
      if started != [] {
        cleanupUsed := true;
        var ok := StopEvaluation();
        cleanupFailed := !ok;
      } else {
        assert log + [] == log;
      }
      StopComponents();
      Regroup(old(log), EvalStopCalls(old(started), o.evalStopOk), ComponentStops(o, old(harnessActive), old(bridgeActive), old(sandboxActive)));
      if !cleanupUsed {
        result := result.(cleanup := NotNeeded);
      } else if !cleanupFailed {
        result := result.(cleanup := Succeeded);
      } else {
        result, failed := result.(cleanup := Failed), true;
      }
      if o.contextEnded { failed := true; }
    }

    method StopComponents()
      modifies this`log, this`harnessActive, this`bridgeActive, this`sandboxActive, this`cleanupUsed, this`cleanupFailed
      ensures log == old(log) + ComponentStops(o, old(harnessActive), old(bridgeActive), old(sandboxActive))
      ensures cleanupUsed <==> old(cleanupUsed || harnessActive || bridgeActive || sandboxActive)
      ensures cleanupFailed <==> old(cleanupFailed) || (old(harnessActive) && !o.stopHarness) || (old(bridgeActive) && !o.stopBridge)
                                 || (old(sandboxActive) && !o.stopSandbox)
    {
      if harnessActive {
        cleanupUsed, log := true, log + [HarnessStop(o.stopHarness)];
        if o.stopHarness { harnessActive := false; } else { cleanupFailed := true; }
      }
      if bridgeActive {
        cleanupUsed, log := true, log + [BridgeStop(o.stopBridge)];
        if o.stopBridge { bridgeActive := false; } else { cleanupFailed := true; }
      }
      if sandboxActive {
        cleanupUsed, log := true, log + [SandboxStop(o.stopSandbox)];
        if o.stopSandbox { sandboxActive := false; } else { cleanupFailed := true; }
      }
    }

    /** runTask: every path. */
    method Run()
      requires New()
      modifies this
      ensures Followed(o, result, log, started, failed)
    {
      var reached := StartComponents();
      ghost var first := log;
      if !reached {
        Finish();
        assert log == first + [] + EndCalls(o) by { assert first + [] == first; }
        return;
      }
      RunHarness();
      var isolated := Isolate();
      if isolated { EvaluateTask(); }
      assert log == first + WorkCalls(o) by {
        Regroup(first, HarnessCalls(o), IsolationCalls(o));
        Regroup(first, HarnessCalls(o) + IsolationCalls(o), if Isolated(o) then [Evaluate] + EvalStartCalls(o.evalStarted) else []);
      }
      Finish();
    }

    /** Sandbox, preparation and bridge; a failed bridge start still owes a stop. */
    method StartComponents() returns (reached: bool)
      requires New()
      modifies this`log, this`sandboxActive, this`bridgeActive, this`failed
      ensures (reached <==> HarnessReached(o)) && (failed <==> !reached)
      ensures log == StartCalls(o) && (sandboxActive <==> o.sandbox == Started) && (bridgeActive <==> BridgeReached(o))
    {
      reached := false;
      if o.sandbox != Started { failed := true; return; }
      log := log + [SandboxStarted];
      sandboxActive := true;
      if !o.prepared { failed := true; return; }
      log := log + [BridgeStart];
      bridgeActive := true;
      if !o.bridgeStarted { failed := true; return; }
      reached := true;
    }

    method RunHarness()
      requires !failed
      modifies this`log, this`harnessActive, this`failed, this`result
      ensures log == old(log) + HarnessCalls(o) && harnessActive
      ensures result == old(result).(harness := if o.harnessStartErr.Some? then FailureStatus(o.harnessStartErr.value)
                                                else Reported(o.harnessRunErr, o.harnessStatus))
      ensures failed <==> o.harnessStartErr.Some? || o.harnessRunErr.Some?
    {
      log := log + [HarnessStart];
      harnessActive := true;
      if o.harnessStartErr.Some? {
        result, failed := result.(harness := FailureStatus(o.harnessStartErr.value)), true;
        return;
      }
      log := log + [HarnessRun];
      result := result.(harness := o.harnessStatus);
      if o.harnessRunErr.None? {
        if result.harness == Unset { result := result.(harness := Succeeded); }
      } else {
        result, failed := result.(harness := FailureStatus(o.harnessRunErr.value)), true;
      }
    }

    /** Both stops are tried; evaluation needs both confirmations. */
    method Isolate() returns (isolated: bool)
      requires harnessActive && bridgeActive
      modifies this`log, this`harnessActive, this`bridgeActive, this`failed, this`result
      ensures isolated <==> o.isolateHarness && o.isolateBridge
      ensures log == old(log) + IsolationCalls(o)
      ensures (harnessActive <==> !o.isolateHarness) && (bridgeActive <==> !o.isolateBridge)
      ensures result == old(result).(harnessStopped := old(result).harnessStopped || o.isolateHarness,
                                     bridgeRevoked := old(result).bridgeRevoked || o.isolateBridge,
                                     isolation := if isolated then Confirmed else BlockedIsolation,
                                     evaluation := if isolated then old(result).evaluation else BlockedIsolation)
      ensures failed <==> old(failed) || !isolated
    {
      log := log + [HarnessStop(o.isolateHarness)];
      if o.isolateHarness { harnessActive, result := false, result.(harnessStopped := true); }
      log := log + [BridgeStop(o.isolateBridge)];
      if o.isolateBridge { bridgeActive, result := false, result.(bridgeRevoked := true); }
      isolated := o.isolateHarness && o.isolateBridge;
      if !isolated {
        result, failed := result.(isolation := BlockedIsolation, evaluation := BlockedIsolation), true;
      } else {
        result := result.(isolation := Confirmed);
      }
    }

    method EvaluateTask()
      requires started == []
      modifies this`log, this`started, this`failed, this`result
      ensures started == o.evalStarted && log == old(log) + ([Evaluate] + EvalStartCalls(o.evalStarted))
      ensures result == old(result).(evaluation := Reported(o.evalErr, o.evalStatus))
      ensures failed <==> old(failed) || o.evalErr.Some?
    {
      log := log + [Evaluate];
      for k := 0 to |o.evalStarted|
        invariant log == old(log) + ([Evaluate] + EvalStartCalls(o.evalStarted[..k])) && started == o.evalStarted[..k]
        invariant result == old(result) && failed == old(failed)
      {
        assert o.evalStarted[..k + 1][..k] == o.evalStarted[..k];
        log := log + [EvalStarted(o.evalStarted[k])];
        started := started + [o.evalStarted[k]];
      }
      assert o.evalStarted[..|o.evalStarted|] == o.evalStarted;
      result := result.(evaluation := o.evalStatus);
      if o.evalErr.None? {
        if result.evaluation == Unset { result := result.(evaluation := Succeeded); }
      } else {
        result, failed := result.(evaluation := FailureStatus(o.evalErr.value)), true;
      }
    }
  }

  lemma Regroup(a: seq<Event>, b: seq<Event>, c: seq<Event>)
    ensures a + b + c == a + (b + c)
  {
  }

  lemma ReversedEmpty(s: seq<nat>)
    ensures Reversed(s) == [] <==> s == []
  {
  }

  // ----- the calls keep the rules -----

  function RunFrom(next: (Monitor, Event) -> Monitor, m: Monitor, es: seq<Event>): Monitor
    decreases |es|
  {
    if es == [] then m else RunFrom(next, next(m, es[0]), es[1..])
  }

  lemma {:induction false} RunFromConcat(next: (Monitor, Event) -> Monitor, m: Monitor, a: seq<Event>, b: seq<Event>)
    ensures RunFrom(next, m, a + b) == RunFrom(next, RunFrom(next, m, a), b)
    decreases |a|
  {
    if a == [] {
      assert a + b == b;
    } else {
      assert (a + b)[1..] == a[1..] + b;
      RunFromConcat(next, next(m, a[0]), a[1..], b);
    }
  }

  function WatchFrom(m: Monitor, es: seq<Event>): Monitor { RunFrom(Next, m, es) }

  lemma WatchFromConcat(m: Monitor, a: seq<Event>, b: seq<Event>)
    ensures WatchFrom(m, a + b) == WatchFrom(WatchFrom(m, a), b)
  {
    RunFromConcat(Next, m, a, b);
  }

  lemma {:induction false} FoldIsRun(next: (Monitor, Event) -> Monitor, log: seq<Event>)
    ensures Fold(next, log) == RunFrom(next, Begin, log)
  {
    if log != [] {
      var p, e := log[..|log| - 1], log[|log| - 1];
      FoldIsRun(next, p);
      assert log == p + [e];
      RunFromConcat(next, Begin, p, [e]);
      assert [e][1..] == [];
    }
  }

  lemma RunOne(next: (Monitor, Event) -> Monitor, m: Monitor, e: Event)
    ensures RunFrom(next, m, [e]) == next(m, e)
  {
    assert [e][1..] == [];
  }

  lemma FromOne(m: Monitor, e: Event)
    ensures WatchFrom(m, [e]) == Next(m, e)
  {
    RunOne(Next, m, e);
  }

  lemma FromTwo(m: Monitor, d: Event, e: Event)
    ensures WatchFrom(m, [d, e]) == Next(Next(m, d), e)
  {
    assert [d, e] == [d] + [e];
    WatchFromConcat(m, [d], [e]);
    FromOne(m, d);
    FromOne(Next(m, d), e);
  }

  lemma {:induction false} FromEvalStarts(m: Monitor, ks: seq<nat>)
    requires !m.bad && m.sandbox == Owed && m.evaluated && !m.draining && m.evalOwed == []
    ensures WatchFrom(m, EvalStartCalls(ks)) == m.(evalOwed := ks)
  {
    if ks != [] {
      var before, k := ks[..|ks| - 1], ks[|ks| - 1];
      FromEvalStarts(m, before);
      WatchFromConcat(m, EvalStartCalls(before), [EvalStarted(k)]);
      FromOne(m.(evalOwed := before), EvalStarted(k));
      assert ks == before + [k];
    }
  }

  lemma FailedSnoc(ks: seq<nat>, k: nat, ok: nat -> bool)
    ensures FailedStops(ks + [k], ok) == FailedStops(ks, ok) + Failing(k, ok)
  {
    if ks != [] {
      assert (ks + [k])[1..] == ks[1..] + [k];
      FailedSnoc(ks[1..], k, ok);
    }
  }

  lemma StopNewest(m: Monitor, rest: seq<nat>, k: nat, ok: bool)
    requires !m.bad && m.sandbox == Owed && m.evalOwed == rest + [k]
    ensures Next(m, EvalStop(k, ok)) == m.(draining := true, evalOwed := rest, evalLeft := (if ok then [] else [k]) + m.evalLeft)
  {
    assert (rest + [k])[..|rest|] == rest && [] + m.evalLeft == m.evalLeft;
  }

  function Failing(k: nat, ok: nat -> bool): seq<nat> { if ok(k) then [] else [k] }

  lemma FromNewestStop(m: Monitor, rest: seq<nat>, k: nat, ok: nat -> bool)
    requires !m.bad && m.sandbox == Owed && m.evalOwed == rest + [k]
    ensures WatchFrom(m, EvalStopCalls(rest + [k], ok)) ==
            WatchFrom(m.(draining := true, evalOwed := rest, evalLeft := Failing(k, ok) + m.evalLeft), EvalStopCalls(rest, ok))
  {
    assert (rest + [k])[..|rest|] == rest;
    StopNewest(m, rest, k, ok(k));
    WatchFromConcat(m, [EvalStop(k, ok(k))], EvalStopCalls(rest, ok));
    FromOne(m, EvalStop(k, ok(k)));
  }

  lemma {:induction false} FromEvalStops(m: Monitor, ks: seq<nat>, ok: nat -> bool)
    requires !m.bad && m.sandbox == Owed && m.evalOwed == ks
    ensures WatchFrom(m, EvalStopCalls(ks, ok)) ==
            m.(evalOwed := [], evalLeft := FailedStops(ks, ok) + m.evalLeft, draining := m.draining || ks != [])
    decreases |ks|
  {
    if ks == [] {
      assert [] + m.evalLeft == m.evalLeft;
    } else {
      var rest, k := ks[..|ks| - 1], ks[|ks| - 1];
      assert ks == rest + [k];
      FromNewestStop(m, rest, k, ok);
      FromEvalStops(m.(draining := true, evalOwed := rest, evalLeft := Failing(k, ok) + m.evalLeft), rest, ok);
      FailedSnoc(rest, k, ok);
      Nested(FailedStops(rest, ok), Failing(k, ok), m.evalLeft);
    }
  }

  lemma Nested(a: seq<nat>, b: seq<nat>, c: seq<nat>)
    ensures a + b + c == a + (b + c)
  {
  }

  /** The state in which the common end of all paths begins. */
  function AtEnd(o: Outcomes): Monitor {
    Monitor(if o.sandbox == Started then Owed else Unused,
            if !BridgeReached(o) then Unused else if HarnessReached(o) then AfterStop(o.isolateBridge) else Owed,
            if HarnessReached(o) then AfterStop(o.isolateHarness) else Unused,
            HarnessReached(o) && o.harnessStartErr.None?, Isolated(o), false, EvalOwed(o), [], false)
  }

  function Final(o: Outcomes): Monitor {
    var m := AtEnd(o);
    m.(sandbox := if o.sandbox == Started then AfterStop(o.stopSandbox) else Unused,
       bridge := if BridgeOwed(o) then AfterStop(o.stopBridge) else m.bridge,
       harness := if HarnessOwed(o) then AfterStop(o.stopHarness) else m.harness,
       draining := EvalOwed(o) != [], evalOwed := [], evalLeft := FailedStops(EvalOwed(o), o.evalStopOk))
  }

  const BothStarted := Begin.(sandbox := Owed, bridge := Owed)

  lemma FromStart(o: Outcomes)
    ensures WatchFrom(Begin, StartCalls(o)) ==
            Begin.(sandbox := if o.sandbox == Started then Owed else Unused, bridge := if BridgeReached(o) then Owed else Unused)
  {
    FromOne(Begin, SandboxStarted);
    FromTwo(Begin, SandboxStarted, BridgeStart);
  }

  lemma FromHarness(o: Outcomes)
    ensures WatchFrom(BothStarted, HarnessCalls(o)) == BothStarted.(harness := Owed, ran := o.harnessStartErr.None?)
  {
    FromOne(BothStarted, HarnessStart);
    FromTwo(BothStarted, HarnessStart, HarnessRun);
  }

  lemma FromIsolation(o: Outcomes, m: Monitor)
    requires m == BothStarted.(harness := Owed, ran := o.harnessStartErr.None?)
    ensures WatchFrom(m, IsolationCalls(o)) == m.(harness := AfterStop(o.isolateHarness), bridge := AfterStop(o.isolateBridge))
  {
    FromTwo(m, HarnessStop(o.isolateHarness), BridgeStop(o.isolateBridge));
  }

  lemma {:induction false} FromWork(o: Outcomes)
    requires HarnessReached(o)
    ensures WatchFrom(BothStarted, WorkCalls(o)) == AtEnd(o)
  {
    var a, b := HarnessCalls(o), IsolationCalls(o);
    var c := if Isolated(o) then [Evaluate] + EvalStartCalls(o.evalStarted) else [];
    var m := BothStarted.(harness := Owed, ran := o.harnessStartErr.None?);
    WatchFromConcat(BothStarted, a + b, c);
    WatchFromConcat(BothStarted, a, b);
    FromHarness(o);
    FromIsolation(o, m);
    var n := m.(harness := AfterStop(o.isolateHarness), bridge := AfterStop(o.isolateBridge));
    if Isolated(o) {
      WatchFromConcat(n, [Evaluate], EvalStartCalls(o.evalStarted));
      FromOne(n, Evaluate);
      FromEvalStarts(n.(evaluated := true), o.evalStarted);
    }
  }

  lemma FromMaybe(m: Monitor, called: bool, e: Event)
    ensures WatchFrom(m, if called then [e] else []) == if called then Next(m, e) else m
  {
    FromOne(m, e);
  }

  /** The stops of the components, from a state that owes them. */
  lemma {:induction false} FromStops(o: Outcomes, m: Monitor, harness: bool, bridge: bool, sandbox: bool)
    requires !m.bad && m.evalOwed == [] && (sandbox <==> m.sandbox == Owed) && (harness || bridge ==> sandbox)
    requires (harness ==> Live(m.harness)) && (bridge ==> Live(m.bridge))
    ensures WatchFrom(m, ComponentStops(o, harness, bridge, sandbox)) ==
            m.(harness := if harness then AfterStop(o.stopHarness) else m.harness,
               bridge := if bridge then AfterStop(o.stopBridge) else m.bridge,
               sandbox := if sandbox then AfterStop(o.stopSandbox) else m.sandbox)
  {
    var a := if harness then [HarnessStop(o.stopHarness)] else [];
    var b := if bridge then [BridgeStop(o.stopBridge)] else [];
    var c := if sandbox then [SandboxStop(o.stopSandbox)] else [];
    WatchFromConcat(m, a + b, c);
    WatchFromConcat(m, a, b);
    var n := m.(harness := if harness then AfterStop(o.stopHarness) else m.harness);
    FromMaybe(m, harness, HarnessStop(o.stopHarness));
    var k := n.(bridge := if bridge then AfterStop(o.stopBridge) else n.bridge);
    FromMaybe(n, bridge, BridgeStop(o.stopBridge));
    FromMaybe(k, sandbox, SandboxStop(o.stopSandbox));
  }

  lemma {:induction false} FromEnd(o: Outcomes)
    ensures WatchFrom(AtEnd(o), EndCalls(o)) == Final(o)
  {
    var m := AtEnd(o);
    WatchFromConcat(m, EvalStopCalls(EvalOwed(o), o.evalStopOk), ComponentStops(o, HarnessOwed(o), BridgeOwed(o), o.sandbox == Started));
    var left := FailedStops(EvalOwed(o), o.evalStopOk);
    assert left + [] == left;
    if o.sandbox == Started { FromEvalStops(m, EvalOwed(o), o.evalStopOk); }
    FromStops(o, m.(evalOwed := [], evalLeft := left, draining := EvalOwed(o) != []), HarnessOwed(o), BridgeOwed(o), o.sandbox == Started);
  }

  /** Every path keeps the rules, and where it ends is known from the outcomes. */
  lemma {:induction false} CallsKeepRules(o: Outcomes)
    ensures Watch(Calls(o)) == Final(o)
  {
    FoldIsRun(Next, Calls(o));
    WatchFromConcat(Begin, StartCalls(o) + WorkCalls(o), EndCalls(o));
    WatchFromConcat(Begin, StartCalls(o), WorkCalls(o));
    FromStart(o);
    if HarnessReached(o) { FromWork(o); }
    FromEnd(o);
  }

  lemma {:induction false} CleanupTellsAll(o: Outcomes)
    ensures Ended(Final(o), CleanupOf(o)) && CallsMade(o, Final(o))
    ensures Final(o).evalLeft == if Isolated(o) then FailedStops(o.evalStarted, o.evalStopOk) else []
  {
    assert FailedStops([], o.evalStopOk) == [];
  }

  /** A finished task: its calls keep the rules and are all stopped, the sandboxes it could not
      stop are kept in order, its statuses tell what happened and no failure is lost. */
  predicate TaskDone(o: Outcomes, r: TaskResult, log: seq<Event>, left: seq<nat>, failed: bool) {
    && Ended(Watch(log), r.cleanup) && CallsMade(o, Watch(log)) && Statuses(o, r)
    && left == Watch(log).evalLeft == (if Isolated(o) then FailedStops(o.evalStarted, o.evalStopOk) else [])
    && (failed <==> StepFailed(o) || r.cleanup == Failed || o.contextEnded)
  }

  lemma {:induction false} FollowedIsDone(o: Outcomes, r: TaskResult, log: seq<Event>, left: seq<nat>, failed: bool)
    requires Followed(o, r, log, left, failed)
    ensures TaskDone(o, r, log, left, failed)
  {
    CallsKeepRules(o);
    CleanupTellsAll(o);
  }

  // ----- a run over all tasks -----

  /** One scheduled task: whether the run context has ended by its turn, and its outcomes. */
  datatype Turn = Turn(ended: bool, o: Outcomes)

  datatype Record = Record(result: TaskResult, log: seq<Event>, left: seq<nat>, failed: bool)

  /** Tasks that get their turn: those before the first ended context. */
  function Scheduled(turns: seq<Turn>): (k: nat)
    ensures k <= |turns| && (k < |turns| ==> turns[k].ended)
    ensures forall i :: 0 <= i < k ==> !turns[i].ended
  {
    if turns == [] || turns[0].ended then 0 else 1 + Scheduled(turns[1..])
  }

  lemma ScheduledIs(turns: seq<Turn>, k: nat)
    requires k <= |turns| && (forall i :: 0 <= i < k ==> !turns[i].ended) && (k < |turns| ==> turns[k].ended)
    ensures Scheduled(turns) == k
  {
  }

  predicate AllHold(turns: seq<Turn>, records: seq<Record>, ok: (Turn, Record) -> bool) {
    |records| <= |turns| && forall i :: 0 <= i < |records| ==> ok(turns[i], records[i])
  }

  predicate TurnFollowed(turn: Turn, r: Record) { Followed(turn.o, r.result, r.log, r.left, r.failed) }

  /** Every record is that of its turn. */
  predicate RecordsMatch(turns: seq<Turn>, records: seq<Record>) { AllHold(turns, records, TurnFollowed) }

  function Results(records: seq<Record>): (r: seq<TaskResult>)
    ensures |r| == |records| && forall i :: 0 <= i < |r| ==> r[i] == records[i].result
  {
    seq(|records|, i requires 0 <= i < |records| => records[i].result)
  }

  predicate SomeFailed(records: seq<Record>) { exists i :: 0 <= i < |records| && records[i].failed }

  lemma OneMore(turns: seq<Turn>, records: seq<Record>, r: Record, ok: (Turn, Record) -> bool)
    requires AllHold(turns, records, ok) && |records| < |turns| && ok(turns[|records|], r)
    ensures AllHold(turns, records + [r], ok)
  {
  }

  lemma SomeFailedSnoc(records: seq<Record>, r: Record)
    ensures SomeFailed(records + [r]) <==> SomeFailed(records) || r.failed
  {
    var all := records + [r];
    assert forall i :: 0 <= i < |records| ==> all[i] == records[i];
    assert all[|records|] == r;
  }

  /** `ok` holds whenever a record is that of its turn. */
  ghost predicate Implied(ok: (Turn, Record) -> bool) { forall turn, r :: TurnFollowed(turn, r) ==> ok(turn, r) }

  method RunTask(turn: Turn, ghost ok: (Turn, Record) -> bool) returns (record: Record)
    requires Implied(ok)
    ensures ok(turn, record)
  {
    var task := new TaskRun(turn.o);
    task.Run();
    record := Record(task.result, task.log, task.started, task.failed);
    assert TurnFollowed(turn, record);
  }

  /** The loop of Runner.Run: only an ended context stops it. */
  method RunTasks(turns: seq<Turn>, ghost ok: (Turn, Record) -> bool) returns (records: seq<Record>, failed: bool)
    requires Implied(ok)
    ensures |records| == Scheduled(turns) && AllHold(turns, records, ok)
    ensures failed <==> Scheduled(turns) < |turns| || SomeFailed(records)
  {
    records, failed := [], false;
    var i := 0;
    while i < |turns|
      invariant 0 <= i <= |turns| && |records| == i && AllHold(turns, records, ok)
      invariant forall j :: 0 <= j < i ==> !turns[j].ended
      invariant failed <==> SomeFailed(records)
    {
      if turns[i].ended { failed := true; break; }
      var record := RunTask(turns[i], ok);
      OneMore(turns, records, record, ok);
      SomeFailedSnoc(records, record);
      records := records + [record];
      if record.failed { failed := true; }
      i := i + 1;
    }
    ScheduledIs(turns, |records|);
  }

  /** Runner.Run: a task failure never hides later tasks, and the summary counts the results. */
  method Run(turns: seq<Turn>) returns (records: seq<Record>, summary: Summary, failed: bool)
    ensures |records| == Scheduled(turns) && RecordsMatch(turns, records)
    ensures summary == SummaryOf(Results(records))
    ensures failed <==> Scheduled(turns) < |turns| || SomeFailed(records)
  {
    records, failed := RunTasks(turns, TurnFollowed);
    summary := Summarize(Results(records));
  }

  /** The gate, and stops newest first, for the log of one task. */
  predicate Gated(log: seq<Event>, confirmed: bool) {
    && (Evaluate in log <==> confirmed)
    && (forall i :: 0 <= i < |log| && log[i] == Evaluate ==> Behind(log, i))
    && EvalStarts(log) == Reversed(EvalStops(log))
  }

  lemma {:induction false} SettledIsGated(log: seq<Event>)
    requires Settled(Watch(log))
    ensures Gated(log, Watch(log).evaluated)
  {
    NextIsLawful();
    EvaluatedIsLogged(Next, log);
    NewestFirst(log);
    forall i | 0 <= i < |log| && log[i] == Evaluate ensures Behind(log, i) { IsolationGate(log, i); }
  }

  /** Over every run: each task that had its turn is done, is evaluated exactly when it was isolated
      and then behind the gate, and has its evaluation sandboxes all stopped, newest first. */
  lemma {:induction false} EveryTaskIsGated(turns: seq<Turn>, records: seq<Record>, t: nat)
    requires RecordsMatch(turns, records) && t < |records|
    ensures TaskDone(turns[t].o, records[t].result, records[t].log, records[t].left, records[t].failed)
    ensures Gated(records[t].log, records[t].result.isolation == Confirmed)
  {
    TaskIsGated(turns[t].o, records[t]);
  }

  lemma {:induction false} TaskIsGated(o: Outcomes, r: Record)
    requires Followed(o, r.result, r.log, r.left, r.failed)
    ensures TaskDone(o, r.result, r.log, r.left, r.failed)
    ensures Gated(r.log, r.result.isolation == Confirmed)
  {
    FollowedIsDone(o, r.result, r.log, r.left, r.failed);
    SettledIsGated(r.log);
  }

  // ----- the summary -----

  datatype Summary = Summary(tasks: nat, harnessSucceeded: nat, harnessFailed: nat, evaluationsRun: nat,
                             evaluationsSucceeded: nat, evaluationsFailed: nat, evaluationsBlocked: nat, cleanupFailed: nat)

  const NoSummary := Summary(0, 0, 0, 0, 0, 0, 0, 0)

  function Count(tasks: seq<TaskResult>, p: TaskResult -> bool): nat {
    if tasks == [] then 0 else Count(tasks[..|tasks| - 1], p) + if p(tasks[|tasks| - 1]) then 1 else 0
  }

  lemma {:induction false} CountConcat(a: seq<TaskResult>, b: seq<TaskResult>, p: TaskResult -> bool)
    ensures Count(a + b, p) == Count(a, p) + Count(b, p)
  {
    if b == [] {
      assert a + b == a;
    } else {
      assert (a + b)[..|a + b| - 1] == a + b[..|b| - 1];
      CountConcat(a, b[..|b| - 1], p);
    }
  }

  const Broken := {Failed, Canceled}

  predicate HarnessOk(t: TaskResult) { t.harness == Succeeded }
  predicate HarnessBroke(t: TaskResult) { t.harness in Broken }
  predicate Evaluated(t: TaskResult) { t.evaluation in {Succeeded, Failed, Canceled} }
  predicate EvaluationOk(t: TaskResult) { t.evaluation == Succeeded }
  predicate EvaluationBroke(t: TaskResult) { t.evaluation in Broken }
  predicate EvaluationBlocked(t: TaskResult) { t.evaluation == BlockedIsolation }
  predicate CleanupBroke(t: TaskResult) { t.cleanup == Failed }

  /** One summary field per class of results. */
  function SummaryBy(count: (seq<TaskResult>, TaskResult -> bool) -> nat, tasks: seq<TaskResult>): Summary {
    Summary(|tasks|, count(tasks, HarnessOk), count(tasks, HarnessBroke), count(tasks, Evaluated), count(tasks, EvaluationOk),
            count(tasks, EvaluationBroke), count(tasks, EvaluationBlocked), count(tasks, CleanupBroke))
  }

  /** Recounting from the results. */
  function SummaryOf(tasks: seq<TaskResult>): Summary { SummaryBy(Count, tasks) }

  /** What one result adds to each field. */
  function CountedIn(s: Summary, t: TaskResult): Summary {
    Summary(s.tasks,
            s.harnessSucceeded + (if HarnessOk(t) then 1 else 0), s.harnessFailed + (if HarnessBroke(t) then 1 else 0),
            s.evaluationsRun + (if Evaluated(t) then 1 else 0), s.evaluationsSucceeded + (if EvaluationOk(t) then 1 else 0),
            s.evaluationsFailed + (if EvaluationBroke(t) then 1 else 0), s.evaluationsBlocked + (if EvaluationBlocked(t) then 1 else 0),
            s.cleanupFailed + (if CleanupBroke(t) then 1 else 0))
  }

  ghost predicate Stepwise(count: (seq<TaskResult>, TaskResult -> bool) -> nat, tasks: seq<TaskResult>, t: TaskResult) {
    forall p :: count(tasks + [t], p) == count(tasks, p) + if p(t) then 1 else 0
  }

  lemma SummarySnoc(count: (seq<TaskResult>, TaskResult -> bool) -> nat, tasks: seq<TaskResult>, t: TaskResult, n: nat)
    requires Stepwise(count, tasks, t)
    ensures SummaryBy(count, tasks + [t]).(tasks := n) == CountedIn(SummaryBy(count, tasks).(tasks := n), t)
  {
  }

  lemma CountSnoc(tasks: seq<TaskResult>, t: TaskResult)
    ensures Stepwise(Count, tasks, t)
  {
    forall p ensures Count(tasks + [t], p) == Count(tasks, p) + if p(t) then 1 else 0 {
      assert (tasks + [t])[..|tasks|] == tasks;
    }
  }

  /** The switch of summarize on one result. */
  method CountTask(before: Summary, task: TaskResult) returns (s: Summary)
    ensures s == CountedIn(before, task)
  {
    s := before;
    if task.harness == Succeeded {
      s := s.(harnessSucceeded := s.harnessSucceeded + 1);
    } else if task.harness == Failed || task.harness == Canceled {
      s := s.(harnessFailed := s.harnessFailed + 1);
    }
    match task.evaluation {
      case Succeeded => s := s.(evaluationsRun := s.evaluationsRun + 1, evaluationsSucceeded := s.evaluationsSucceeded + 1);
      case Failed => s := s.(evaluationsRun := s.evaluationsRun + 1, evaluationsFailed := s.evaluationsFailed + 1);
      case Canceled => s := s.(evaluationsRun := s.evaluationsRun + 1, evaluationsFailed := s.evaluationsFailed + 1);
      case BlockedIsolation => s := s.(evaluationsBlocked := s.evaluationsBlocked + 1);
      case _ =>
    }
    if task.cleanup == Failed { s := s.(cleanupFailed := s.cleanupFailed + 1); }
  }

  method Summarize(tasks: seq<TaskResult>) returns (s: Summary)
    ensures s == SummaryOf(tasks)
  {
    s := NoSummary.(tasks := |tasks|);
    for i := 0 to |tasks|
      invariant s == SummaryOf(tasks[..i]).(tasks := |tasks|)
    {
      CountSnoc(tasks[..i], tasks[i]);
      SummarySnoc(Count, tasks[..i], tasks[i], |tasks|);
      assert tasks[..i + 1] == tasks[..i] + [tasks[i]];
      s := CountTask(s, tasks[i]);
    }
    assert tasks[..|tasks|] == tasks;
  }

  function Plus(a: Summary, b: Summary): Summary {
    Summary(a.tasks + b.tasks, a.harnessSucceeded + b.harnessSucceeded, a.harnessFailed + b.harnessFailed,
            a.evaluationsRun + b.evaluationsRun, a.evaluationsSucceeded + b.evaluationsSucceeded,
            a.evaluationsFailed + b.evaluationsFailed, a.evaluationsBlocked + b.evaluationsBlocked,
            a.cleanupFailed + b.cleanupFailed)
  }

  ghost predicate Additive(count: (seq<TaskResult>, TaskResult -> bool) -> nat, a: seq<TaskResult>, b: seq<TaskResult>) {
    forall p :: count(a + b, p) == count(a, p) + count(b, p)
  }

  lemma SummaryAdds(count: (seq<TaskResult>, TaskResult -> bool) -> nat, a: seq<TaskResult>, b: seq<TaskResult>)
    requires Additive(count, a, b)
    ensures SummaryBy(count, a + b) == Plus(SummaryBy(count, a), SummaryBy(count, b))
  {
  }

  lemma CountIsAdditive(a: seq<TaskResult>, b: seq<TaskResult>)
    ensures Additive(Count, a, b)
  {
    forall p ensures Count(a + b, p) == Count(a, p) + Count(b, p) { CountConcat(a, b, p); }
  }

  /** Adding the summaries of two runs is recounting all their tasks. */
  lemma {:induction false} SummariesAdd(a: seq<TaskResult>, b: seq<TaskResult>)
    ensures SummaryOf(a + b) == Plus(SummaryOf(a), SummaryOf(b))
  {
    CountIsAdditive(a, b);
    SummaryAdds(Count, a, b);
  }
}
