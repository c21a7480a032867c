/** What a run of the occurrence scheduler reports, position by position, and when it has admitted
    everything. */
module SchedulerReport {
  import opened Common
  import opened OccurrenceId
  import opened Scheduler
  import opened SchedulerRuns
  import Runner

  // ----- the order of the report -----

  /** The results an occurrence produced; an overflow has none. */
  function TasksOf(slot: Slot): seq<Runner.TaskResult> {
    match slot
    case Occurrence(_, _, _, output) => output.tasks
    case Overflow => []
  }

  /** How many results the first k slots have together. */
  function LengthBefore(slots: seq<Slot>, k: nat): nat
    requires k <= |slots|
  {
    if k == 0 then 0 else LengthBefore(slots, k - 1) + |TasksOf(slots[k - 1])|
  }

  /** A slot that the report names as failed, and how many of the first k slots are. */
  predicate Bad(slot: Slot) { slot == Overflow || (slot.Occurrence? && slot.output.failed) }

  function BadBefore(slots: seq<Slot>, k: nat): nat
    requires k <= |slots|
  {
    if k == 0 then 0 else BadBefore(slots, k - 1) + if Bad(slots[k - 1]) then 1 else 0
  }

  lemma {:induction false} PrefixCounts(slots: seq<Slot>, n: nat, k: nat)
    requires k <= n <= |slots|
    ensures LengthBefore(slots[..n], k) == LengthBefore(slots, k) && BadBefore(slots[..n], k) == BadBefore(slots, k)
  {
    if k > 0 { PrefixCounts(slots, n, k - 1); }
  }

  lemma TaskCount(slots: seq<Slot>)
    ensures |AllTasks(slots)| == LengthBefore(slots, |slots|)
  {
    if slots != [] {
      var n := |slots| - 1;
      TaskCount(slots[..n]);
      PrefixCounts(slots, n, n);
    }
  }

  /** `part` stands in `all` from `at` to `end`. */
  predicate Holds<T(==)>(all: seq<T>, at: nat, end: nat, part: seq<T>) { at <= end <= |all| && all[at..end] == part }

  lemma HoldsInFront<T>(a: seq<T>, b: seq<T>, at: nat, end: nat, part: seq<T>)
    requires Holds(a, at, end, part)
    ensures Holds(a + b, at, end, part)
  {
  }

  lemma HoldsAtEnd<T>(a: seq<T>, b: seq<T>)
    ensures Holds(a + b, |a|, |a| + |b|, b)
  {
  }

  lemma AllTasksSnoc(slots: seq<Slot>)
    requires slots != []
    ensures AllTasks(slots) == AllTasks(slots[..|slots| - 1]) + TasksOf(slots[|slots| - 1])
  {
  }

  /** The results of slot k stand behind those of all earlier slots, and there are no others. */
  lemma {:induction false} TasksInOrder(slots: seq<Slot>, k: nat)
    requires k < |slots|
    ensures |AllTasks(slots)| == LengthBefore(slots, |slots|)
    ensures Holds(AllTasks(slots), LengthBefore(slots, k), LengthBefore(slots, k + 1), TasksOf(slots[k]))
  {
    var n := |slots| - 1;
    TaskCount(slots);
    AllTasksSnoc(slots);
    var before, last := AllTasks(slots[..n]), TasksOf(slots[n]);
    if k < n {
      TasksInOrder(slots[..n], k);
      PrefixCounts(slots, n, k);
      PrefixCounts(slots, n, k + 1);
      HoldsInFront(before, last, LengthBefore(slots, k), LengthBefore(slots, k + 1), TasksOf(slots[k]));
    } else {
      TaskCount(slots[..n]);
      PrefixCounts(slots, n, n);
      HoldsAtEnd(before, last);
    }
  }

  /** The fault that slot k leads to stands behind those of all earlier slots, and there are no others. */
  lemma {:induction false} FaultsInOrder(slots: seq<Slot>, k: nat)
    requires k < |slots|
    ensures |Faults(slots)| == BadBefore(slots, |slots|)
    ensures Bad(slots[k]) ==>
              BadBefore(slots, k) < |Faults(slots)|
              && Faults(slots)[BadBefore(slots, k)] == if slots[k] == Overflow then OverflowFault else OccurrenceFault(slots[k].id)
  {
    var n := |slots| - 1;
    var before, last := slots[..n], slots[n];
    PrefixCounts(slots, n, n);
    if n == 0 {
      assert Faults(before) == [];
    } else {
      FaultsInOrder(before, if k < n then k else 0);
      if k < n { PrefixCounts(slots, n, k); }
    }
    assert Faults(slots) == Faults(before) + FaultOf(last);
  }

  /** The results of slot k are where they belong. */
  predicate TasksAt(slots: seq<Slot>, k: nat, tasks: seq<Runner.TaskResult>)
    requires k < |slots|
  {
    Holds(tasks, LengthBefore(slots, k), LengthBefore(slots, k + 1), TasksOf(slots[k]))
  }

  predicate FaultAt(slots: seq<Slot>, k: nat, faults: seq<Fault>)
    requires k < |slots|
  {
    Bad(slots[k]) ==>
      BadBefore(slots, k) < |faults| && faults[BadBefore(slots, k)] == if slots[k] == Overflow then OverflowFault else OccurrenceFault(slots[k].id)
  }

  /** What it means that a report is in admission order: slot by slot the results and, of the failed
      ones, the faults, with nothing in between and only the ended context behind. */
  ghost predicate InAdmissionOrder(slots: seq<Slot>, ended: bool, r: Report) {
    && |r.tasks| == LengthBefore(slots, |slots|)
    && (forall k :: 0 <= k < |slots| ==> TasksAt(slots, k, r.tasks))
    && |r.faults| == BadBefore(slots, |slots|) + (if ended then 1 else 0)
    && (forall k :: 0 <= k < |slots| ==> FaultAt(slots, k, r.faults))
    && (ended ==> r.faults[BadBefore(slots, |slots|)] == ContextFault)
  }

  lemma SlotInOrder(slots: seq<Slot>, ended: bool, k: nat)
    requires k < |slots|
    ensures TasksAt(slots, k, AllTasks(slots)) && |AllTasks(slots)| == LengthBefore(slots, |slots|)
    ensures FaultAt(slots, k, Faults(slots) + if ended then [ContextFault] else []) && |Faults(slots)| == BadBefore(slots, |slots|)
  {
    TasksInOrder(slots, k);
    FaultsInOrder(slots, k);
  }

  lemma ReportIsInOrder(slots: seq<Slot>, ended: bool)
    ensures InAdmissionOrder(slots, ended, ReportOf(slots, ended))
  {
    if slots == [] { assert AllTasks(slots) == [] && Faults(slots) == []; } else { SlotInOrder(slots, ended, 0); }
    forall k | 0 <= k < |slots|
      ensures TasksAt(slots, k, ReportOf(slots, ended).tasks) && FaultAt(slots, k, ReportOf(slots, ended).faults)
    {
      SlotInOrder(slots, ended, k);
    }
  }

  lemma HoldsNext<T>(all: seq<T>, at: nat, end: nat, part: seq<T>, before: seq<T>)
    requires Holds(all, at, end, part) && all[..at] == before
    ensures all[..end] == before + part
  {
    assert all[..end] == all[..at] + all[at..end];
  }

  lemma {:induction false} OrderGives(slots: seq<Slot>, n: nat, tasks: seq<Runner.TaskResult>)
    requires n <= |slots| && forall k :: 0 <= k < n ==> TasksAt(slots, k, tasks)
    ensures LengthBefore(slots, n) <= |tasks| && tasks[..LengthBefore(slots, n)] == AllTasks(slots[..n])
  {
    if n > 0 {
      OrderGives(slots, n - 1, tasks);
      AllTasksSnoc(slots[..n]);
      assert slots[..n][..n - 1] == slots[..n - 1] && slots[..n][n - 1] == slots[n - 1];
      assert TasksAt(slots, n - 1, tasks);
      HoldsNext(tasks, LengthBefore(slots, n - 1), LengthBefore(slots, n), TasksOf(slots[n - 1]), AllTasks(slots[..n - 1]));
    }
  }

  /** No other list of results is in that order. */
  lemma OrderDetermines(slots: seq<Slot>, ended: bool, r: Report)
    requires InAdmissionOrder(slots, ended, r)
    ensures r.tasks == ReportOf(slots, ended).tasks
  {
    OrderGives(slots, |slots|, r.tasks);
    assert slots[..|slots|] == slots && r.tasks[..|r.tasks|] == r.tasks;
  }

  /** The occurrence at position k is the plan's, and the report has what it stored. */
  predicate Tells(c: Config, slot: Slot, k: nat, told: map<nat, Output>)
    requires ValidConfig(c)
  {
    slot.Occurrence? ==>
      && k in told && TasksOf(slot) == told[k].tasks && (Bad(slot) <==> told[k].failed)
      && (c.plan.Repeat? || k < |c.plan.ids|)
      && slot.logical == (if c.plan.Repeat? then c.plan.ids[Wrap(k, |c.plan.ids|)] else c.plan.ids[k])
      && slot.id == Id(slot.logical, k + 1)
  }

  lemma SlotTells(c: Config, s: State, told: map<nat, Output>, k: nat)
    requires Inv(c, s) && s.phase == Returned && AllTold(s.slots, told) && k < |s.slots|
    ensures Tells(c, s.slots[k], k, told)
  {
    if s.slots[k].Occurrence? {
      assert SlotTold(s.slots[k], k, told);
      assert NamesOf(s.slots)[k] == NameOf(s.slots[k]);
      assert k < s.index;
      SlotAt(c, s.slots, s.index, k);
    }
  }

  /** In every run the report is in admission order; and once the run has returned, what stands at the
      place of occurrence k is the output that this very occurrence stored. */
  lemma RunReportsInOrder(c: Config, acts: seq<Action>)
    requires ValidConfig(c)
    ensures var s := Exec(c, acts);
            && InAdmissionOrder(s.slots, s.ended, ReportOf(s.slots, s.ended))
            && (s.phase == Returned ==> forall k :: 0 <= k < |s.slots| ==> Tells(c, s.slots[k], k, Told(c, acts)))
  {
    var s := Exec(c, acts);
    ReportIsInOrder(s.slots, s.ended);
    RunKeeps(c, acts);
    SlotsAreTold(c, acts);
    if s.phase == Returned {
      forall k | 0 <= k < |s.slots| ensures Tells(c, s.slots[k], k, Told(c, acts)) { SlotTells(c, s, Told(c, acts), k); }
    }
  }

  // ----- completeness -----

  /** The admission loop ends for a reason. */
  predicate Ended(c: Config, s: State) {
    s.phase in {Waiting, Returned} ==>
      s.ended || s.late || (!c.plan.Repeat? && s.cursor >= |c.plan.ids|) || (s.slots != [] && s.slots[|s.slots| - 1] == Overflow)
  }

  lemma StepEnds(c: Config, s: State, a: Action)
    requires Ended(c, s) && Enabled(c, s, a)
    ensures Ended(c, Step(c, s, a))
  {
  }

  lemma {:induction false} RunEnds(c: Config, acts: seq<Action>)
    ensures Ended(c, Exec(c, acts))
  {
    if acts != [] {
      var before, a := acts[..|acts| - 1], acts[|acts| - 1];
      RunEnds(c, before);
      if Enabled(c, Exec(c, before), a) { StepEnds(c, Exec(c, before), a); }
    }
  }

  /** A run that stops admitting with its context alive, its deadline not passed and no overflow has
      admitted its whole list, each task once and in order; an endless one never stops like that. */
  lemma NothingIsLeftOut(c: Config, acts: seq<Action>)
    requires ValidConfig(c)
    requires var s := Exec(c, acts); s.phase in {Waiting, Returned} && !s.ended && !s.late && Overflow !in s.slots
    ensures var s := Exec(c, acts);
            && !c.plan.Repeat? && |s.slots| == |c.plan.ids|
            && forall k :: 0 <= k < |s.slots| ==> s.slots[k].Occurrence? && s.slots[k].logical == c.plan.ids[k]
  {
    var s := Exec(c, acts);
    RunEnds(c, acts);
    RunKeeps(c, acts);
    assert |s.slots| > s.index ==> NamesOf(s.slots)[s.index] == NoName && s.slots[s.index] == Overflow;
    forall k | 0 <= k < |s.slots| ensures s.slots[k].Occurrence? && s.slots[k].logical == c.plan.ids[k] {
      SlotAt(c, s.slots, s.index, k);
    }
  }

  /** The admission loop gives up as soon as the context has ended or the deadline has passed, even with
      no place free, and otherwise only behind its whole list; and it takes a place exactly while
      fewer occurrences than `concurrency` hold one and something is left to admit. */
  lemma AdmissionIsPrompt(c: Config, acts: seq<Action>)
    requires ValidConfig(c) && Exec(c, acts).phase == Choosing
    ensures var s := Exec(c, acts); var left := c.plan.Repeat? || s.index < |c.plan.ids|;
            && (Enabled(c, s, GiveUp) <==> s.ended || s.late || !left)
            && (Enabled(c, s, TakeToken) <==> left && Held(s.slots) < c.concurrency)
            && Next(c, s, GiveUp) == (if s.ended || s.late || !left then s.(phase := Waiting) else s)
  {
    RunKeeps(c, acts);
  }
}
