/** Whole runs of the occurrence scheduler: every interleaving of the admission loop, the
    occurrences, the context and the deadline. */
module SchedulerRuns {
  import opened OccurrenceId
  import opened Scheduler
  import Runner

  /** A run is any list of actions; one that is not enabled does nothing. */
  function Next(c: Config, s: State, a: Action): State { if Enabled(c, s, a) then Step(c, s, a) else s }

  function Exec(c: Config, acts: seq<Action>): State {
    if acts == [] then Initial else Next(c, Exec(c, acts[..|acts| - 1]), acts[|acts| - 1])
  }

  lemma ExecSnoc(c: Config, acts: seq<Action>, a: Action)
    ensures Exec(c, acts + [a]) == Next(c, Exec(c, acts), a)
  {
    assert (acts + [a])[..|acts|] == acts;
  }

  lemma {:induction false} RunKeeps(c: Config, acts: seq<Action>)
    requires ValidConfig(c)
    ensures Inv(c, Exec(c, acts))
  {
    if acts != [] {
      var before, a := acts[..|acts| - 1], acts[|acts| - 1];
      RunKeeps(c, before);
      if Enabled(c, Exec(c, before), a) { StepKeeps(c, Exec(c, before), a); }
    }
  }

  predicate DistinctTexts(slots: seq<Slot>, index: nat)
    requires Numbered(slots, index)
  {
    forall j, k :: 0 <= j < k < index ==> slots[j].id.Text() != slots[k].id.Text()
  }

  lemma TextsDiffer(a: Id, b: Id)
    requires a.index < b.index <= MaxUint64
    ensures a.Text() != b.Text()
  {
    IdsAreDistinct(a.logical, a.index, b.logical, b.index);
  }

  lemma IdsDiffer(slots: seq<Slot>, index: nat)
    requires Numbered(slots, index) && index <= MaxUint64
    ensures DistinctTexts(slots, index)
  {
    forall j, k | 0 <= j < k < index ensures slots[j].id.Text() != slots[k].id.Text() { TextsDiffer(slots[j].id, slots[k].id); }
  }

  /** At every step: at most `concurrency` occurrences run, the tokens held are those of the
      occurrences that have not freed theirs plus the one in hand, and the admitted occurrences
      are the first positions of the plan, numbered from one, with IDs that all differ. */
  lemma {:induction false} Bounded(c: Config, acts: seq<Action>)
    requires ValidConfig(c)
    ensures var s := Exec(c, acts);
            && Live(s.slots) <= Held(s.slots) <= s.tokens <= c.concurrency
            && s.tokens == Held(s.slots) + (if InHand(s) then 1 else 0)
            && InOrder(c, s.slots, s.index) && Numbered(s.slots, s.index) && DistinctTexts(s.slots, s.index)
  {
    RunKeeps(c, acts);
    InOrderIsNumbered(c, Exec(c, acts).slots, Exec(c, acts).index);
    IdsDiffer(Exec(c, acts).slots, Exec(c, acts).index);
  }

  // ----- once the context or the deadline is over -----

  predicate Over(s: State) { s.ended || s.late }

  /** What a step may do once the end has come: only a look made before it still admits. */
  predicate LateStep(s: State, t: State, admits: bool) {
    && Over(t) && |t.slots| == |s.slots| + (if admits then 1 else 0)
    && s.index <= t.index <= s.index + (if admits then 1 else 0)
    && (t.phase == Cleared <==> s.phase == Cleared && !admits)
  }

  lemma LateAdmission(c: Config, s: State)
    requires Over(s) && Enabled(c, s, Admit)
    ensures LateStep(s, AdmitNext(c, s), true)
  {
  }

  lemma LateOther(c: Config, s: State, a: Action)
    requires Over(s) && Enabled(c, s, a) && a != Admit
    ensures LateStep(s, Step(c, s, a), false)
  {
  }

  lemma OverStep(c: Config, s: State, a: Action)
    requires Inv(c, s) && Over(s)
    ensures LateStep(s, Next(c, s, a), s.phase == Cleared && a == Admit)
  {
    if s.phase == Cleared && a == Admit {
      AdmitKeeps(c, s);
      LateAdmission(c, s);
    } else if Enabled(c, s, a) {
      LateOther(c, s, a);
    }
  }

  lemma {:induction false} AfterTheEnd(c: Config, acts: seq<Action>, more: seq<Action>)
    requires ValidConfig(c) && Over(Exec(c, acts))
    ensures var s, t := Exec(c, acts), Exec(c, acts + more);
            && Over(t) && (t.phase == Cleared <==> s.phase == Cleared && Admit !in more)
            && |t.slots| == |s.slots| + (if s.phase == Cleared && Admit in more then 1 else 0)
            && s.index <= t.index <= s.index + (if s.phase == Cleared && Admit in more then 1 else 0)
  {
    if more == [] {
      assert acts + more == acts;
    } else {
      var before, a := more[..|more| - 1], more[|more| - 1];
      assert more == before + [a] && acts + more == acts + before + [a];
      AfterTheEnd(c, acts, before);
      ExecSnoc(c, acts + before, a);
      RunKeeps(c, acts + before);
      OverStep(c, Exec(c, acts + before), a);
    }
  }

  /** After the context has ended or the deadline has passed, at most one more slot is added over
      any continuation: exactly when the second look had already passed and its pending
      admission is taken. */
  lemma {:induction false} LateAdmitsOnlyTheCleared(c: Config, acts: seq<Action>, more: seq<Action>)
    requires ValidConfig(c) && Over(Exec(c, acts))
    ensures var s, t := Exec(c, acts), Exec(c, acts + more);
            && |s.slots| <= |t.slots| <= |s.slots| + 1
            && (|t.slots| == |s.slots| + 1 <==> s.phase == Cleared && Admit in more)
            && s.index <= t.index <= s.index + 1
  {
    AfterTheEnd(c, acts, more);
  }

  /** The gap is real: the context ends behind the second look, and an occurrence is started. */
  lemma OneIsAdmittedLate()
    ensures var c := Config(Once(["a"]), 1);
            var end := [TakeToken, LookAgain, ContextEnds];
            && ValidConfig(c) && Exec(c, end).ended && Exec(c, end).slots == []
            && Exec(c, end + [Admit]).slots == [Occurrence("a", Id("a", 1), Running, NoOutput)]
  {
    var c := Config(Once(["a"]), 1);
    var s1 := Initial.(phase := Holding, tokens := 1);
    assert Exec(c, [TakeToken]) == s1 by { RunOne(c, [], TakeToken); }
    var s2 := s1.(phase := Cleared);
    assert Exec(c, [TakeToken, LookAgain]) == s2 by { RunOne(c, [TakeToken], LookAgain); }
    assert Exec(c, [TakeToken, LookAgain, ContextEnds]) == s2.(ended := true) by { RunOne(c, [TakeToken, LookAgain], ContextEnds); }
    RunOne(c, [TakeToken, LookAgain, ContextEnds], Admit);
  }

  lemma RunOne(c: Config, acts: seq<Action>, a: Action)
    requires Enabled(c, Exec(c, acts), a)
    ensures Exec(c, acts + [a]) == Step(c, Exec(c, acts), a)
  {
    ExecSnoc(c, acts, a);
  }

  // ----- outputs -----

  /** The outputs the occurrences have stored, by admission position. */
  function Told(c: Config, acts: seq<Action>): map<nat, Output> {
    if acts == [] then map[]
    else
      var before, a := acts[..|acts| - 1], acts[|acts| - 1];
      if a.Store? && Enabled(c, Exec(c, before), a) then Told(c, before)[a.k := a.output] else Told(c, before)
  }

  predicate SlotTold(slot: Slot, k: nat, told: map<nat, Output>) {
    slot.Occurrence? ==>
      (slot.stage == Running <==> k !in told) && slot.output == if k in told then told[k] else NoOutput
  }

  predicate AllTold(slots: seq<Slot>, told: map<nat, Output>) {
    (forall k :: 0 <= k < |slots| ==> SlotTold(slots[k], k, told)) && (forall k :: k in told ==> k < |slots|)
  }

  /** All that one step can do to the slots. */
  predicate SlotsMove(was: seq<Slot>, now: seq<Slot>, a: Action) {
    || (now == was && !a.Store?)
    || (now == was + [Overflow] && !a.Store?)
    || (!a.Store? && |now| == |was| + 1 && now[..|was|] == was && now[|was|].Occurrence?
        && now[|was|].stage == Running && now[|was|].output == NoOutput)
    || (a.Store? && a.k < |was| && was[a.k].Occurrence? && was[a.k].stage == Running && now == was[a.k := was[a.k].(output := a.output, stage := Stored)])
    || ((a.Free? || a.Done?) && a.k < |was| && was[a.k].Occurrence? && was[a.k].stage != Running
        && (now == was[a.k := was[a.k].(stage := Freed)] || now == was[a.k := was[a.k].(stage := Joined)]))
  }

  lemma StepMovesSlots(c: Config, s: State, a: Action)
    requires Enabled(c, s, a)
    ensures SlotsMove(s.slots, Step(c, s, a).slots, a)
  {
  }

  lemma {:induction false} ToldStep(was: seq<Slot>, now: seq<Slot>, a: Action, told: map<nat, Output>)
    requires AllTold(was, told) && SlotsMove(was, now, a)
    ensures AllTold(now, if a.Store? then told[a.k := a.output] else told)
  {
    var told' := if a.Store? then told[a.k := a.output] else told;
    forall k | 0 <= k < |now| ensures SlotTold(now[k], k, told') {
      if k < |was| { assert SlotTold(was[k], k, told); }
    }
  }

  lemma {:induction false} SlotsAreTold(c: Config, acts: seq<Action>)
    ensures AllTold(Exec(c, acts).slots, Told(c, acts))
  {
    if acts != [] {
      var before, a := acts[..|acts| - 1], acts[|acts| - 1];
      SlotsAreTold(c, before);
      var s := Exec(c, before);
      if Enabled(c, s, a) {
        StepMovesSlots(c, s, a);
        ToldStep(s.slots, Step(c, s, a).slots, a, Told(c, before));
      }
    }
  }

  /** The slots of a returned run depend on how many were admitted and what each produced, not on
      the order in which anything happened; and so, since it is a function of them, does the report. */
  lemma {:induction false} OrderDoesNotMatter(c: Config, a: seq<Action>, b: seq<Action>)
    requires ValidConfig(c) && Exec(c, a).phase == Returned && Exec(c, b).phase == Returned
    requires |Exec(c, a).slots| == |Exec(c, b).slots| && Told(c, a) == Told(c, b)
    ensures Exec(c, a).slots == Exec(c, b).slots
    ensures ReportOf(Exec(c, a).slots, Exec(c, a).ended) == ReportOf(Exec(c, b).slots, Exec(c, a).ended)
  {
    SlotsAreTold(c, a);
    SlotsAreTold(c, b);
    RunKeeps(c, a);
    RunKeeps(c, b);
    SameSlots(c, Exec(c, a), Exec(c, b), Told(c, a));
  }

  lemma SameSlots(c: Config, s: State, t: State, told: map<nat, Output>)
    requires Inv(c, s) && Inv(c, t) && s.phase == t.phase == Returned && |s.slots| == |t.slots|
    requires AllTold(s.slots, told) && AllTold(t.slots, told)
    ensures s.slots == t.slots
  {
    forall k | 0 <= k < |s.slots| ensures s.slots[k] == t.slots[k] {
      assert SlotTold(s.slots[k], k, told) && SlotTold(t.slots[k], k, told);
      assert NamesOf(s.slots)[k] == NamesOf(t.slots)[k];
    }
  }

  // ----- progress -----

  lemma {:induction false} SomeHolder(slots: seq<Slot>) returns (k: nat)
    requires Held(slots) > 0
    ensures k < |slots| && HoldsToken(slots[k])
  {
    if HoldsToken(slots[|slots| - 1]) { k := |slots| - 1; } else { k := SomeHolder(slots[..|slots| - 1]); }
  }

  /** The scheduler never deadlocks: until it returns, it can move or an occurrence is running. */
  lemma {:induction false} NoDeadlock(c: Config, acts: seq<Action>)
    requires ValidConfig(c) && Exec(c, acts).phase != Returned
    ensures var s := Exec(c, acts);
            || Enabled(c, s, GiveUp) || Enabled(c, s, TakeToken) || Enabled(c, s, LookAgain) || Enabled(c, s, Admit) || Enabled(c, s, Join)
            || (exists k :: OccurrenceMoves(c, s, k))
  {
    var s := Exec(c, acts);
    RunKeeps(c, acts);
    CanMove(c, s);
  }

  predicate OccurrenceMoves(c: Config, s: State, k: nat) {
    StageIs(s, k, Running) || Enabled(c, s, Free(k)) || Enabled(c, s, Done(k))
  }

  lemma Unjoined(c: Config, s: State, k: nat)
    requires s.tokens >= Held(s.slots) && k < |s.slots| && s.slots[k].Occurrence? && s.slots[k].stage != Joined
    ensures OccurrenceMoves(c, s, k)
  {
    if HoldsToken(s.slots[k]) { HeldPositive(s.slots, k); }
  }

  lemma CanMove(c: Config, s: State)
    requires Inv(c, s) && s.phase != Returned
    ensures || Enabled(c, s, GiveUp) || Enabled(c, s, TakeToken) || Enabled(c, s, LookAgain) || Enabled(c, s, Admit) || Enabled(c, s, Join)
            || (exists k :: OccurrenceMoves(c, s, k))
  {
    if s.phase == Waiting && !AllJoined(s.slots) {
      var k :| 0 <= k < |s.slots| && s.slots[k].Occurrence? && s.slots[k].stage != Joined;
      Unjoined(c, s, k);
    }
    if s.phase == Choosing && s.tokens == c.concurrency {
      var k := SomeHolder(s.slots);
      Unjoined(c, s, k);
    }
  }

  // ----- aggregation -----

  datatype Fault = OccurrenceFault(id: Id) | OverflowFault | ContextFault

  datatype Report = Report(tasks: seq<Runner.TaskResult>, summary: Runner.Summary, faults: seq<Fault>)

  function OutputOf(slot: Slot): Output { if slot.Occurrence? then slot.output else NoOutput }

  function AllTasks(slots: seq<Slot>): seq<Runner.TaskResult> {
    if slots == [] then [] else AllTasks(slots[..|slots| - 1]) + OutputOf(slots[|slots| - 1]).tasks
  }

  function Total(slots: seq<Slot>): Runner.Summary {
    if slots == [] then Runner.NoSummary else Runner.Plus(Total(slots[..|slots| - 1]), OutputOf(slots[|slots| - 1]).summary)
  }

  function FaultOf(slot: Slot): seq<Fault> {
    if slot.Overflow? then [OverflowFault] else if slot.output.failed then [OccurrenceFault(slot.id)] else []
  }

  function Faults(slots: seq<Slot>): seq<Fault> {
    if slots == [] then [] else Faults(slots[..|slots| - 1]) + FaultOf(slots[|slots| - 1])
  }

  function ReportOf(slots: seq<Slot>, ended: bool): Report {
    Report(AllTasks(slots), Total(slots), Faults(slots) + if ended then [ContextFault] else [])
  }

  /** The loop after the join: tasks, totals and faults in admission order. */
  method Aggregate(slots: seq<Slot>, ended: bool) returns (r: Report)
    ensures r == ReportOf(slots, ended)
  {
    r := Report([], Runner.NoSummary, []);
    assert slots[..0] == [];
    for i := 0 to |slots|
      invariant r == ReportOf(slots[..i], false)
    {
      assert slots[..i + 1][..i] == slots[..i];
      var slot := slots[i];
      if slot.Occurrence? {
        r := r.(tasks := r.tasks + slot.output.tasks, summary := Runner.Plus(r.summary, slot.output.summary));
        if slot.output.failed { r := r.(faults := r.faults + [OccurrenceFault(slot.id)]); }
      } else {
        PlusZero(r.summary);
        r := r.(faults := r.faults + [OverflowFault]);
      }
    }
    assert slots[..|slots|] == slots;
    if ended { r := r.(faults := r.faults + [ContextFault]); }
  }

  lemma PlusZero(s: Runner.Summary)
    ensures Runner.Plus(s, Runner.NoSummary) == s
  {
  }

  /** An output whose summary counts its own tasks, which is what Runner.Run returns. */
  predicate Honest(output: Output) { output.summary == Runner.SummaryOf(output.tasks) }

  lemma {:induction false} HonestSlots(c: Config, acts: seq<Action>, k: nat)
    requires forall i :: 0 <= i < |acts| && acts[i].Store? ==> Honest(acts[i].output)
    requires k < |Exec(c, acts).slots|
    ensures Honest(OutputOf(Exec(c, acts).slots[k]))
  {
    if acts != [] {
      var before, a := acts[..|acts| - 1], acts[|acts| - 1];
      var s := Exec(c, before);
      if k < |s.slots| { HonestSlots(c, before, k); }
      if Enabled(c, s, a) {
        StepMovesSlots(c, s, a);
        HonestStep(s.slots, Step(c, s, a).slots, a, k);
      }
    }
  }

  lemma HonestStep(was: seq<Slot>, now: seq<Slot>, a: Action, k: nat)
    requires SlotsMove(was, now, a) && (a.Store? ==> Honest(a.output)) && k < |now|
    requires k < |was| ==> Honest(OutputOf(was[k]))
    ensures Honest(OutputOf(now[k]))
  {
  }

  lemma {:induction false} TotalIsRecount(slots: seq<Slot>)
    requires forall k :: 0 <= k < |slots| ==> Honest(OutputOf(slots[k]))
    ensures Total(slots) == Runner.SummaryOf(AllTasks(slots))
  {
    if slots != [] {
      var before, last := slots[..|slots| - 1], OutputOf(slots[|slots| - 1]);
      TotalIsRecount(before);
      Runner.SummariesAdd(AllTasks(before), last.tasks);
    }
  }

  /** The total of every run is what recounting its concatenated tasks gives. */
  lemma {:induction false} ReportRecounts(c: Config, acts: seq<Action>)
    requires forall i :: 0 <= i < |acts| && acts[i].Store? ==> Honest(acts[i].output)
    ensures var r := ReportOf(Exec(c, acts).slots, Exec(c, acts).ended); r.summary == Runner.SummaryOf(r.tasks)
  {
    var slots := Exec(c, acts).slots;
    forall k | 0 <= k < |slots| ensures Honest(OutputOf(slots[k])) { HonestSlots(c, acts, k); }
    TotalIsRecount(slots);
  }
}
