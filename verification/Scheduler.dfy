/** The occurrence scheduler (internal/app/execution.go:59-180): bounded admission, occurrences that
    finish in any order, and aggregation in admission order. */
module Scheduler {
  import opened Common
  import opened OccurrenceId
  import Runner

  // ----- configuration -----

  datatype Plan =
    | Once(ids: seq<string>)
    | Repeat(ids: seq<string>, timed: bool)
    | Arrive(ids: seq<string>)

  datatype Config = Config(plan: Plan, concurrency: nat)

  predicate ValidConfig(c: Config) { c.concurrency > 0 && c.plan.ids != [] }

  /** The checks at the start of runProfile. A negative loop duration repeats without a deadline. */
  function Configure(tasks: seq<string>, concurrency: int, loop: int, arrivals: seq<string>): (r: Option<Config>)
    ensures r.Some? <==> concurrency > 0 && tasks != [] && (arrivals != [] ==> loop <= 0 && |arrivals| == |tasks|)
    ensures r.Some? ==> ValidConfig(r.value) && r.value.concurrency == concurrency
                        && r.value.plan.ids == if arrivals == [] then tasks else arrivals
    ensures r.Some? ==> (r.value.plan.Arrive? <==> arrivals != []) && (r.value.plan.Once? <==> arrivals == [] && loop == 0)
                        && (r.value.plan.Repeat? && r.value.plan.timed <==> loop > 0)
  {
    if concurrency <= 0 || tasks == [] then None
    else if arrivals != [] && loop > 0 then None
    else if arrivals != [] && |arrivals| != |tasks| then None
    else Some(Config(if arrivals != [] then Arrive(arrivals) else if loop == 0 then Once(tasks) else Repeat(tasks, loop > 0), concurrency))
  }

  /** Position `p` around a list of `n`: the remainder, counted off. */
  function Wrap(p: nat, n: nat): (r: nat)
    requires n > 0
    ensures r < n
  {
    if p < n then p else Wrap(p - n, n)
  }

  lemma {:induction false} WrapIsRemainder(p: nat, n: nat)
    requires n > 0
    ensures exists q: nat :: p == q * n + Wrap(p, n)
  {
    if p < n {
      assert p == 0 * n + Wrap(p, n);
    } else {
      WrapIsRemainder(p - n, n);
      var q: nat :| p - n == q * n + Wrap(p - n, n);
      assert p == (q + 1) * n + Wrap(p, n);
    }
  }

  lemma {:induction false} WrapNext(p: nat, n: nat)
    requires n > 0
    ensures Wrap(p + 1, n) == if Wrap(p, n) + 1 == n then 0 else Wrap(p, n) + 1
  {
    if p >= n { WrapNext(p - n, n); }
  }

  /** Position `p` of the admission order: the list itself, or its endless repetition. */
  function LogicalAt(plan: Plan, p: nat): string
    requires plan.ids != [] && (plan.Repeat? || p < |plan.ids|)
  {
    if plan.Repeat? then plan.ids[Wrap(p, |plan.ids|)] else plan.ids[p]
  }

  // ----- state -----

  datatype Output = Output(tasks: seq<Runner.TaskResult>, summary: Runner.Summary, failed: bool)

  const NoOutput := Output([], Runner.NoSummary, false)

  /** An occurrence runs, has stored its output but still holds its token, has freed the token,
      and is done for the wait group. */
  datatype Stage = Running | Stored | Freed | Joined

  /** An execution ID, kept as what it is printed from. */
  datatype Id = Id(logical: string, index: nat) {
    function Text(): string { ExecutionId(logical, index) }
  }

  datatype Slot =
    | Occurrence(logical: string, id: Id, stage: Stage, output: Output)
    | Overflow

  /** The admission loop is before its select, holds a token, has looked again and will admit,
      waits for all, or has returned. */
  datatype Phase = Choosing | Holding | Cleared | Waiting | Returned

  datatype State = State(phase: Phase, cursor: nat, index: nat, tokens: nat, slots: seq<Slot>, ended: bool, late: bool)

  const Initial := State(Choosing, 0, 0, 0, [], false, false)

  /** What may happen next: the admission loop moves, an occurrence moves, or the world does. */
  datatype Action =
    | GiveUp
    | TakeToken
    | LookAgain
    | Admit
    | Join
    | Store(k: nat, output: Output)
    | Free(k: nat)
    | Done(k: nat)
    | ContextEnds
    | DeadlinePasses

  predicate Exhausted(c: Config, s: State) { !c.plan.Repeat? && s.cursor >= |c.plan.ids| }

  predicate StageIs(s: State, k: nat, stage: Stage) {
    k < |s.slots| && s.slots[k].Occurrence? && s.slots[k].stage == stage
  }

  predicate AllJoined(slots: seq<Slot>) { forall k :: 0 <= k < |slots| && slots[k].Occurrence? ==> slots[k].stage == Joined }

  predicate Enabled(c: Config, s: State, a: Action) {
    match a
    case GiveUp => s.phase == Choosing && (Exhausted(c, s) || s.ended || s.late)
    case TakeToken => s.phase == Choosing && !Exhausted(c, s) && s.tokens < c.concurrency
    case LookAgain => s.phase == Holding && s.tokens > 0
    case Admit => s.phase == Cleared && s.tokens > 0 && s.index <= MaxUint64 && s.cursor < |c.plan.ids|
    case Join => s.phase == Waiting && AllJoined(s.slots)
    case Store(k, _) => StageIs(s, k, Running)
    case Free(k) => StageIs(s, k, Stored) && s.tokens > 0
    case Done(k) => StageIs(s, k, Freed)
    case ContextEnds => true
    case DeadlinePasses => c.plan.Repeat? && c.plan.timed
  }

  /** With a token in hand, admit looks at the context and the clock once more. No lock joins
      this look to the admission. */
  function Recheck(s: State): State
    requires s.tokens > 0
  {
    if s.ended || s.late then s.(phase := Waiting, tokens := s.tokens - 1) else s.(phase := Cleared)
  }

  /** The next slot: the numbered occurrence, or an error on overflow. */
  function NextSlot(c: Config, s: State): Slot
    requires s.cursor < |c.plan.ids|
  {
    var logical := c.plan.ids[s.cursor];
    if s.index == MaxUint64 then Overflow else Occurrence(logical, Id(logical, s.index + 1), Running, NoOutput)
  }

  /** Numbers the occurrence and starts it, or gives the token back. */
  function AdmitNext(c: Config, s: State): State
    requires s.tokens > 0 && s.index <= MaxUint64 && s.cursor < |c.plan.ids|
  {
    var t := s.(slots := s.slots + [NextSlot(c, s)]);
    if s.index == MaxUint64 then t.(phase := Waiting, tokens := s.tokens - 1)
    else t.(phase := Choosing, index := s.index + 1, cursor := if c.plan.Repeat? && s.cursor + 1 == |c.plan.ids| then 0 else s.cursor + 1)
  }

  /** The occurrence admitted is the one nextTaskOccurrence names, and it overflows when that fails. */
  lemma AdmitsTheNext(c: Config, s: State)
    requires s.tokens > 0 && s.index <= MaxUint64 && s.cursor < |c.plan.ids|
    ensures var slot := NextSlot(c, s);
            match NextOccurrence(c.plan.ids[s.cursor], s.index)
            case None => slot == Overflow
            case Some((index, text)) => slot.Occurrence? && AdmitNext(c, s).index == index && slot.id.Text() == text
  {
  }

  function Step(c: Config, s: State, a: Action): State
    requires Enabled(c, s, a)
  {
    match a
    case GiveUp => s.(phase := Waiting)
    case TakeToken => s.(phase := Holding, tokens := s.tokens + 1)
    case LookAgain => Recheck(s)
    case Admit => AdmitNext(c, s)
    case Join => s.(phase := Returned)
    case Store(k, output) => s.(slots := s.slots[k := s.slots[k].(output := output, stage := Stored)])
    case Free(k) => s.(tokens := s.tokens - 1, slots := s.slots[k := s.slots[k].(stage := Freed)])
    case Done(k) => s.(slots := s.slots[k := s.slots[k].(stage := Joined)])
    case ContextEnds => s.(ended := true)
    case DeadlinePasses => s.(late := true)
  }

  // ----- invariant -----

  predicate HoldsToken(slot: Slot) { slot.Occurrence? && slot.stage in {Running, Stored} }

  function Held(slots: seq<Slot>): nat {
    if slots == [] then 0 else Held(slots[..|slots| - 1]) + if HoldsToken(slots[|slots| - 1]) then 1 else 0
  }

  function Live(slots: seq<Slot>): (n: nat)
    ensures n <= Held(slots)
  {
    if slots == [] then 0 else
      Live(slots[..|slots| - 1]) + if slots[|slots| - 1].Occurrence? && slots[|slots| - 1].stage == Running then 1 else 0
  }

  /** The admission loop has a token in hand. */
  predicate InHand(s: State) { s.phase.Holding? || s.phase.Cleared? }

  /** Held tokens are exactly those of occurrences, plus the one being admitted. */
  predicate TokensExact(c: Config, s: State) {
    s.tokens == Held(s.slots) + (if InHand(s) then 1 else 0) && s.tokens <= c.concurrency
  }

  /** What a slot is called; an overflow has no name. */
  datatype Name = Name(logical: string, id: Id) | NoName

  function NameOf(slot: Slot): Name { if slot.Occurrence? then Name(slot.logical, slot.id) else NoName }

  function NamesOf(slots: seq<Slot>): (names: seq<Name>)
    ensures |names| == |slots| && forall k :: 0 <= k < |slots| ==> names[k] == NameOf(slots[k])
  {
    seq(|slots|, k requires 0 <= k < |slots| => NameOf(slots[k]))
  }

  /** What position `p` of the plan is called: indices count from one. */
  function PlanName(plan: Plan, p: nat): Name
    requires plan.ids != []
  {
    if !plan.Repeat? && p >= |plan.ids| then NoName
    else Name(LogicalAt(plan, p), Id(LogicalAt(plan, p), p + 1))
  }

  function PlanNames(plan: Plan): nat -> Name
    requires plan.ids != []
  {
    (p: nat) => PlanName(plan, p)
  }

  function First(names: nat -> Name, n: nat): (s: seq<Name>)
    ensures |s| == n
  {
    if n == 0 then [] else First(names, n - 1) + [names(n - 1)]
  }

  lemma {:induction false} FirstAt(names: nat -> Name, n: nat, k: nat)
    requires k < n
    ensures First(names, n)[k] == names(k)
  {
    if k < n - 1 { FirstAt(names, n - 1, k); }
  }

  /** The admitted occurrences are the first of the plan; only the last slot may be an overflow. */
  predicate InOrder(c: Config, slots: seq<Slot>, index: nat)
    requires ValidConfig(c)
  {
    && index <= MaxUint64 && (c.plan.Repeat? || index <= |c.plan.ids|)
    && (NamesOf(slots) == First(PlanNames(c.plan), index) || (index == MaxUint64 && NamesOf(slots) == First(PlanNames(c.plan), index) + [NoName]))
  }

  /** The range loop's cursor is the number admitted, around the list when it repeats. */
  predicate CursorExact(c: Config, s: State)
    requires ValidConfig(c)
  {
    s.cursor == (if c.plan.Repeat? then Wrap(s.index, |c.plan.ids|) else s.index)
  }

  predicate Inv(c: Config, s: State) {
    && ValidConfig(c) && TokensExact(c, s) && InOrder(c, s.slots, s.index) && CursorExact(c, s)
    && (s.phase == Choosing || InHand(s) ==> |s.slots| == s.index)
    && (InHand(s) ==> !Exhausted(c, s))
    && (s.phase == Returned ==> AllJoined(s.slots))
  }

  lemma {:induction false} HeldPositive(slots: seq<Slot>, k: nat)
    requires k < |slots| && HoldsToken(slots[k])
    ensures Held(slots) > 0
  {
    if k < |slots| - 1 { HeldPositive(slots[..|slots| - 1], k); }
  }

  lemma {:induction false} HeldUpdate(slots: seq<Slot>, k: nat, slot: Slot)
    requires k < |slots|
    ensures Held(slots[k := slot]) == Held(slots) - (if HoldsToken(slots[k]) then 1 else 0) + (if HoldsToken(slot) then 1 else 0)
  {
    var n := |slots| - 1;
    if k < n {
      assert slots[k := slot][..n] == slots[..n][k := slot];
      HeldUpdate(slots[..n], k, slot);
    } else {
      assert slots[k := slot][..n] == slots[..n];
    }
  }

  lemma HeldSnoc(slots: seq<Slot>, slot: Slot)
    ensures Held(slots + [slot]) == Held(slots) + if HoldsToken(slot) then 1 else 0
  {
    assert (slots + [slot])[..|slots|] == slots;
  }

  lemma NamesSnoc(slots: seq<Slot>, slot: Slot)
    ensures NamesOf(slots + [slot]) == NamesOf(slots) + [NameOf(slot)]
  {
  }

  lemma NamesUpdate(slots: seq<Slot>, k: nat, slot: Slot)
    requires k < |slots| && NameOf(slot) == NameOf(slots[k])
    ensures NamesOf(slots[k := slot]) == NamesOf(slots)
  {
  }

  lemma InOrderSnoc(c: Config, slots: seq<Slot>, slot: Slot)
    requires ValidConfig(c) && InOrder(c, slots, |slots|) && |slots| < MaxUint64 && (c.plan.Repeat? || |slots| < |c.plan.ids|)
    requires NameOf(slot) == PlanName(c.plan, |slots|)
    ensures InOrder(c, slots + [slot], |slots| + 1)
  {
    NamesSnoc(slots, slot);
  }

  /** The cursor names the next position of the plan, and moves to the one after it. */
  lemma CursorNext(c: Config, index: nat, cursor: nat)
    requires ValidConfig(c) && cursor == (if c.plan.Repeat? then Wrap(index, |c.plan.ids|) else index) && cursor < |c.plan.ids|
    ensures c.plan.ids[cursor] == LogicalAt(c.plan, index)
    ensures (if c.plan.Repeat? && cursor + 1 == |c.plan.ids| then 0 else cursor + 1)
            == if c.plan.Repeat? then Wrap(index + 1, |c.plan.ids|) else index + 1
  {
    WrapNext(index, |c.plan.ids|);
  }

  lemma AdmittedInOrder(c: Config, s: State)
    requires ValidConfig(c) && InOrder(c, s.slots, s.index) && CursorExact(c, s) && |s.slots| == s.index
    requires s.cursor < |c.plan.ids| && !Exhausted(c, s)
    ensures InOrder(c, s.slots + [NextSlot(c, s)], if s.index == MaxUint64 then s.index else s.index + 1)
  {
    if s.index == MaxUint64 {
      NamesSnoc(s.slots, Overflow);
    } else {
      CursorNext(c, s.index, s.cursor);
      InOrderSnoc(c, s.slots, NextSlot(c, s));
    }
  }

  lemma AdmittedCursor(c: Config, s: State)
    requires ValidConfig(c) && CursorExact(c, s) && s.cursor < |c.plan.ids| && s.tokens > 0 && s.index <= MaxUint64
    ensures CursorExact(c, AdmitNext(c, s))
  {
    CursorNext(c, s.index, s.cursor);
  }

  lemma AdmitEnabled(c: Config, s: State)
    requires Inv(c, s) && s.phase == Cleared
    ensures Enabled(c, s, Admit) && s.index == |s.slots|
  {
  }

  lemma {:induction false} AdmitKeeps(c: Config, s: State)
    requires Inv(c, s) && s.phase == Cleared
    ensures Enabled(c, s, Admit) && Inv(c, AdmitNext(c, s))
  {
    AdmitEnabled(c, s);
    AdmittedInOrder(c, s);
    AdmittedCursor(c, s);
    AdmittedTokens(c, s);
  }

  lemma AdmittedTokens(c: Config, s: State)
    requires TokensExact(c, s) && s.phase == Cleared && s.index <= MaxUint64 && s.cursor < |c.plan.ids|
    ensures s.tokens > 0 && TokensExact(c, AdmitNext(c, s))
  {
    HeldSnoc(s.slots, NextSlot(c, s));
  }

  lemma {:induction false} SlotStepKeeps(c: Config, s: State, k: nat, slot: Slot)
    requires ValidConfig(c) && InOrder(c, s.slots, s.index) && k < |s.slots| && NameOf(slot) == NameOf(s.slots[k])
    ensures InOrder(c, s.slots[k := slot], s.index)
    ensures Held(s.slots[k := slot]) == Held(s.slots) - (if HoldsToken(s.slots[k]) then 1 else 0) + (if HoldsToken(slot) then 1 else 0)
  {
    NamesUpdate(s.slots, k, slot);
    HeldUpdate(s.slots, k, slot);
  }

  lemma StoreKeeps(c: Config, s: State, k: nat, output: Output)
    requires Inv(c, s) && StageIs(s, k, Running)
    ensures Inv(c, Step(c, s, Store(k, output)))
  {
    SlotStepKeeps(c, s, k, s.slots[k].(output := output, stage := Stored));
  }

  lemma FreeKeeps(c: Config, s: State, k: nat)
    requires Inv(c, s) && StageIs(s, k, Stored) && s.tokens > 0
    ensures Inv(c, Step(c, s, Free(k)))
  {
    SlotStepKeeps(c, s, k, s.slots[k].(stage := Freed));
  }

  lemma DoneKeeps(c: Config, s: State, k: nat)
    requires Inv(c, s) && StageIs(s, k, Freed)
    ensures Inv(c, Step(c, s, Done(k)))
  {
    SlotStepKeeps(c, s, k, s.slots[k].(stage := Joined));
  }

  lemma LoopKeeps(c: Config, s: State, a: Action)
    requires Inv(c, s) && Enabled(c, s, a) && (a.GiveUp? || a.TakeToken? || a.LookAgain? || a.Join?)
    ensures Inv(c, Step(c, s, a))
  {
  }

  lemma WorldKeeps(c: Config, s: State)
    requires Inv(c, s)
    ensures Inv(c, s.(ended := true)) && Inv(c, s.(late := true))
  {
  }

  lemma {:induction false} StepKeeps(c: Config, s: State, a: Action)
    requires Inv(c, s) && Enabled(c, s, a)
    ensures Inv(c, Step(c, s, a))
  {
    match a
    case Admit => AdmitKeeps(c, s);
    case Store(k, output) => StoreKeeps(c, s, k, output);
    case Free(k) => FreeKeeps(c, s, k);
    case Done(k) => DoneKeeps(c, s, k);
    case ContextEnds => WorldKeeps(c, s);
    case DeadlinePasses => WorldKeeps(c, s);
    case _ => LoopKeeps(c, s, a);
  }

  /** Slot `k` has the ID of its logical ID and index `k + 1`. */
  predicate Numbered(slots: seq<Slot>, index: nat) {
    index <= |slots| && forall k :: 0 <= k < index ==> slots[k].Occurrence? && slots[k].id == Id(slots[k].logical, k + 1)
  }

  lemma SlotAt(c: Config, slots: seq<Slot>, index: nat, k: nat)
    requires ValidConfig(c) && InOrder(c, slots, index) && k < index
    ensures k < |slots| && NameOf(slots[k]) == PlanName(c.plan, k)
  {
    FirstAt(PlanNames(c.plan), index, k);
    assert NamesOf(slots)[k] == NameOf(slots[k]);
  }

  lemma InOrderIsNumbered(c: Config, slots: seq<Slot>, index: nat)
    requires ValidConfig(c) && InOrder(c, slots, index)
    ensures Numbered(slots, index)
  {
    forall k | 0 <= k < index ensures slots[k].Occurrence? && slots[k].id == Id(slots[k].logical, k + 1) {
      SlotAt(c, slots, index, k);
    }
  }

  // ----- the admission loop's own variables -----

  /** The variables the admission closure and the occurrence goroutines share. */
  class Pool {
    const c: Config
    var phase: Phase
    var cursor: nat
    var index: nat
    var tokens: nat
    var slots: seq<Slot>

    ghost function View(ended: bool, late: bool): State
      reads this
    {
      State(phase, cursor, index, tokens, slots, ended, late)
    }

    constructor (c: Config)
      requires ValidConfig(c)
      ensures this.c == c && View(false, false) == Initial
    {
      this.c := c;
      phase, cursor, index, tokens, slots := Choosing, 0, 0, 0, [];
    }

    /** The select that puts a token into the channel. */
    method PutToken(ghost ended: bool, ghost late: bool)
      requires Enabled(c, View(ended, late), TakeToken)
      modifies this
      ensures View(ended, late) == Step(c, old(View(ended, late)), TakeToken)
    {
      phase, tokens := Holding, tokens + 1;
    }

    /** The second look of admit, with a token in hand. */
    method CheckAgain(ended: bool, late: bool) returns (cleared: bool)
      requires Enabled(c, View(ended, late), LookAgain)
      modifies this
      ensures View(ended, late) == Step(c, old(View(ended, late)), LookAgain)
      ensures (cleared <==> phase == Cleared) && (cleared <==> !ended && !late)
    {
      if ended || late {
        phase, tokens, cleared := Waiting, tokens - 1, false;
      } else {
        phase, cleared := Cleared, true;
      }
    }

    /** The rest of admit, which looks at neither context nor clock. */
    method StartNext(ghost ended: bool, ghost late: bool) returns (admitted: bool)
      requires Enabled(c, View(ended, late), Admit)
      modifies this
      ensures View(ended, late) == Step(c, old(View(ended, late)), Admit)
      ensures (admitted <==> phase == Choosing) && (admitted <==> old(index) < MaxUint64)
    {
      var logical := c.plan.ids[cursor];
      if index == MaxUint64 {
        phase, tokens, slots, admitted := Waiting, tokens - 1, slots + [Overflow], false;
        return;
      }
      index := index + 1;
      slots := slots + [Occurrence(logical, Id(logical, index), Running, NoOutput)];
      cursor := cursor + 1;
      if c.plan.Repeat? && cursor == |c.plan.ids| { cursor := 0; }
      phase, admitted := Choosing, true;
    }

    /** The two deferred calls and the body of an occurrence's goroutine, one step each. */
    method StoreOutput(k: nat, output: Output, ghost ended: bool, ghost late: bool)
      requires Enabled(c, View(ended, late), Store(k, output))
      modifies this`slots
      ensures View(ended, late) == Step(c, old(View(ended, late)), Store(k, output))
    {
      slots := slots[k := slots[k].(output := output, stage := Stored)];
    }

    method ReleaseToken(k: nat, ghost ended: bool, ghost late: bool)
      requires Enabled(c, View(ended, late), Free(k))
      modifies this`slots, this`tokens
      ensures View(ended, late) == Step(c, old(View(ended, late)), Free(k))
    {
      tokens, slots := tokens - 1, slots[k := slots[k].(stage := Freed)];
    }
  }
}
