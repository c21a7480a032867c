/** What a client reads in an access, traced back to what the native sandbox returned. */
module ControlStory {
  import opened Common
  import opened Control
  import opened ControlRuns

  const NoFactory := "native sandbox factory returned nil"
  const NoEndpoint := "native bridge did not provide a ready endpoint"

  /** The newest answer of a native registration of `id`, and of a native release. */
  function RegisterOf(trace: seq<NativeEvent>, id: string): (newest: Option<NativeEvent>)
    ensures newest.Some? ==> newest.value.RegisterReturned? && newest.value.id == id && newest.value in trace
  {
    if trace == [] then None
    else if trace[|trace| - 1].RegisterReturned? && trace[|trace| - 1].id == id then Some(trace[|trace| - 1])
    else RegisterOf(trace[..|trace| - 1], id)
  }

  function ReleaseOf(trace: seq<NativeEvent>, id: string): (newest: Option<NativeEvent>)
    ensures newest.Some? ==> newest.value.ReleaseReturned? && newest.value.id == id && newest.value in trace
  {
    if trace == [] then None
    else if trace[|trace| - 1].ReleaseReturned? && trace[|trace| - 1].id == id then Some(trace[|trace| - 1])
    else ReleaseOf(trace[..|trace| - 1], id)
  }

  /** The error text of a registration that is over. */
  function RegisterError(reg: Option<NativeEvent>): string
    requires reg.Some? ==> reg.value.RegisterReturned?
  {
    if reg.None? then NoFactory
    else if reg.value.err.Some? then reg.value.err.value
    else if reg.value.endpoint.Some? && 1 <= reg.value.endpoint.value.port <= 65535 then ""
    else NoEndpoint
  }

  function ReleaseError(rel: Option<NativeEvent>): string
    requires rel.Some? ==> rel.value.ReleaseReturned?
  {
    if rel.Some? && rel.value.err.Some? then rel.value.err.value else ""
  }

  lemma {:induction false} NothingOf(trace: seq<NativeEvent>, id: string)
    requires NativeOf(trace, id) == Fresh
    ensures RegisterOf(trace, id).None? && ReleaseOf(trace, id).None?
  {
    if trace != [] {
      HistoryFacts(trace, id);
      HistoryFacts(trace[..|trace| - 1], id);
      NothingOf(trace[..|trace| - 1], id);
    }
  }

  lemma NewestAppended(trace: seq<NativeEvent>, e: NativeEvent, id: string)
    ensures RegisterOf(trace + [e], id) == if e.RegisterReturned? && e.id == id then Some(e) else RegisterOf(trace, id)
    ensures ReleaseOf(trace + [e], id) == if e.ReleaseReturned? && e.id == id then Some(e) else ReleaseOf(trace, id)
  {
    assert (trace + [e])[..|trace|] == trace;
  }

  // ----- invariant -----

  /** An entry whose registration is still on its way. */
  predicate Unborn(e: EntryView) {
    && e.access.error == "" && e.access.cleanupError == "" && e.access.artifacts == []
    && e.operation == 0 && e.closed == {} && e.request.Some?
  }

  /** An entry whose registration is over, or which never had one. */
  predicate Born(e: EntryView, reg: Option<NativeEvent>)
    requires reg.Some? ==> reg.value.RegisterReturned?
  {
    && e.access.error == (if e.request.None? then "" else RegisterError(reg))
    && (e.request.None? ==> reg.None?)
    && (e.access.state != Released ==> e.access.artifacts == [])
    && e.access.state != Registering
  }

  predicate RunningOk(e: EntryView, op: Op, reg: Option<NativeEvent>, rel: Option<NativeEvent>)
    requires (reg.Some? ==> reg.value.RegisterReturned?) && (rel.Some? ==> rel.value.ReleaseReturned?)
  {
    match op
    case RegSpawned => Unborn(e) && reg.None? && rel.None?
    case RegCalling => Unborn(e) && reg.None? && rel.None?
    case RegReturned(native, endpoint, err) =>
      Unborn(e) && rel.None? && if native then reg == Some(RegisterReturned(e.access.id, endpoint, err)) else reg.None? && err == Some(NoFactory)
    case RelSpawned => Born(e, reg) && e.access.cleanupError == ReleaseError(rel) && (!e.native ==> rel.None?)
    case RelCalling => Born(e, reg) && e.access.cleanupError == ReleaseError(rel)
    case RelReturned(artifacts, err) =>
      && Born(e, reg)
      && if e.native then rel == Some(ReleaseReturned(e.access.id, artifacts, err)) else rel.None? && artifacts == [] && err.None?
  }

  predicate RestingOk(e: EntryView, reg: Option<NativeEvent>, rel: Option<NativeEvent>)
    requires (reg.Some? ==> reg.value.RegisterReturned?) && (rel.Some? ==> rel.value.ReleaseReturned?)
  {
    && Born(e, reg) && e.access.cleanupError == ReleaseError(rel)
    && (e.access.state == Ready ==> reg == Some(RegisterReturned(e.access.id, e.access.endpoint, None)))
    && (e.access.state == Released ==> if rel.Some? then rel == Some(ReleaseReturned(e.access.id, e.access.artifacts, None)) else e.access.artifacts == [])
  }

  predicate StoryOk(e: EntryView, op: Option<Op>, reg: Option<NativeEvent>, rel: Option<NativeEvent>)
    requires (reg.Some? ==> reg.value.RegisterReturned?) && (rel.Some? ==> rel.value.ReleaseReturned?)
  {
    if op.Some? then RunningOk(e, op.value, reg, rel) else RestingOk(e, reg, rel)
  }

  function OpOf(ops: map<OpKey, Op>, id: string, e: EntryView): Option<Op> {
    if OpKey(id, e.operation) in ops then Some(ops[OpKey(id, e.operation)]) else None
  }

  predicate TellsStory(entries: map<string, EntryView>, ops: map<OpKey, Op>, trace: seq<NativeEvent>, id: string)
  {
    id in entries ==> StoryOk(entries[id], OpOf(ops, id, entries[id]), RegisterOf(trace, id), ReleaseOf(trace, id))
  }

  ghost predicate Story(entries: map<string, EntryView>, ops: map<OpKey, Op>, trace: seq<NativeEvent>) {
    forall id :: TellsStory(entries, ops, trace, id)
  }

  // ----- one step -----

  /** A step that touches one sandbox only has to be checked for that sandbox. */
  lemma StoryLocal(s: Srv, t: Srv, id: string)
    requires Story(s.entries, s.ops, s.trace)
    requires forall x :: x != id && x in t.entries ==> x in s.entries && t.entries[x] == s.entries[x]
    requires forall k: OpKey :: k.id != id ==> (k in t.ops <==> k in s.ops) && (k in s.ops ==> t.ops[k] == s.ops[k])
    requires t.trace == s.trace || exists e :: t.trace == s.trace + [e] && e.id == id
    requires TellsStory(t.entries, t.ops, t.trace, id)
    ensures Story(t.entries, t.ops, t.trace)
  {
    forall x ensures TellsStory(t.entries, t.ops, t.trace, x) {
      assert TellsStory(s.entries, s.ops, s.trace, x);
      if t.trace != s.trace {
        var e :| t.trace == s.trace + [e] && e.id == id;
        NewestAppended(s.trace, e, x);
      }
    }
  }

  lemma Idle(s: Srv, id: string)
    requires InvCore(s.entries, s.ops, s.trace)
    ensures id !in s.entries || !s.entries[id].busy ==> forall k: OpKey :: k in s.ops ==> k.id != id
    ensures id !in s.entries ==> NativeOf(s.trace, id) == Fresh
  {
    assert SandboxOk(s.entries, s.ops, NativeOf(s.trace, id), id);
    assert forall k: OpKey :: k in s.ops ==> Owned(s.entries, k);
  }

  lemma ReserveTells(s: Srv, id: string)
    requires InvCore(s.entries, s.ops, s.trace) && Story(s.entries, s.ops, s.trace)
    ensures Story(Reserve(s.entries, id), s.ops, s.trace)
  {
    if id !in s.entries {
      Idle(s, id);
      NothingOf(s.trace, id);
      StoryLocal(s, s.(entries := Reserve(s.entries, id)), id);
    }
  }

  lemma AdmitTells(s: Srv, r: Request)
    requires InvCore(s.entries, s.ops, s.trace) && Story(s.entries, s.ops, s.trace) && r.sandboxId !in s.entries
    ensures Story(s.entries[r.sandboxId := NewEntry(r)], s.ops[OpKey(r.sandboxId, 0) := RegSpawned], s.trace)
  {
    var id := r.sandboxId;
    Idle(s, id);
    NothingOf(s.trace, id);
    StoryLocal(s, s.(entries := s.entries[id := NewEntry(r)], ops := s.ops[OpKey(id, 0) := RegSpawned]), id);
  }

  lemma ReleaseStory(id: string, e: EntryView, op: Option<Op>, reg: Option<NativeEvent>, rel: Option<NativeEvent>)
    requires (reg.Some? ==> reg.value.RegisterReturned?) && (rel.Some? ==> rel.value.ReleaseReturned?)
    requires StoryOk(e, op, reg, rel) && EntryOk(id, e) && (e.busy ==> op.Some?) && (!e.busy ==> op.None?)
    requires e.busy && !op.value.RegSpawned? && !op.value.RegCalling? && !op.value.RegReturned? ==> e.access.state == Releasing
    ensures var (f, spawned) := ReleaseLocked(e); StoryOk(f, if spawned then Some(RelSpawned) else op, reg, rel)
  {
  }

  lemma StartReleaseTells(s: Srv, id: string)
    requires InvCore(s.entries, s.ops, s.trace) && Story(s.entries, s.ops, s.trace) && id in s.entries
    ensures var t := StartRelease(s, id); Story(t.entries, t.ops, t.trace)
  {
    assert SandboxOk(s.entries, s.ops, NativeOf(s.trace, id), id);
    assert TellsStory(s.entries, s.ops, s.trace, id);
    Idle(s, id);
    var e := s.entries[id];
    ReleaseStory(id, e, OpOf(s.ops, id, e), RegisterOf(s.trace, id), ReleaseOf(s.trace, id));
    StoryLocal(s, StartRelease(s, id), id);
  }

  lemma CallTells(s: Srv, k: OpKey, made: bool)
    requires InvCore(s.entries, s.ops, s.trace) && Story(s.entries, s.ops, s.trace)
    ensures var t := CallStep(s, k, made); Story(t.entries, t.ops, t.trace)
  {
    if k in s.ops {
      OpFacts(s.entries, s.ops, s.trace, k);
      assert TellsStory(s.entries, s.ops, s.trace, k.id);
      NewestAppended(s.trace, RegisterCalled(k.id), k.id);
      NewestAppended(s.trace, ReleaseCalled(k.id), k.id);
      StoryLocal(s, CallStep(s, k, made), k.id);
    }
  }

  lemma ReturnTells(s: Srv, k: OpKey, endpoint: Option<Endpoint>, artifacts: seq<Artifact>, err: Option<string>)
    requires InvCore(s.entries, s.ops, s.trace) && Story(s.entries, s.ops, s.trace)
    ensures var t := ReturnStep(s, k, endpoint, artifacts, err); Story(t.entries, t.ops, t.trace)
  {
    if k in s.ops {
      OpFacts(s.entries, s.ops, s.trace, k);
      assert TellsStory(s.entries, s.ops, s.trace, k.id);
      NewestAppended(s.trace, RegisterReturned(k.id, endpoint, err), k.id);
      NewestAppended(s.trace, ReleaseReturned(k.id, artifacts, err), k.id);
      StoryLocal(s, ReturnStep(s, k, endpoint, artifacts, err), k.id);
    }
  }

  lemma FinishRegisterStory(e: EntryView, ch: nat, native: bool, endpoint: Option<Endpoint>, err: Option<string>, reg: Option<NativeEvent>)
    requires reg.Some? ==> reg.value.RegisterReturned?
    requires RunningOk(e, RegReturned(native, endpoint, err), reg, None) && e.busy && e.access.state in {Registering, Releasing}
    ensures var (f, spawned) := FinishRegister(e, ch, native, endpoint, err);
            if spawned then RunningOk(f, RelSpawned, reg, None) else RestingOk(f, reg, None)
  {
  }

  lemma FinishRegisterOp(s: Srv, k: OpKey)
    requires InvCore(s.entries, s.ops, s.trace) && k in s.ops && s.ops[k].RegReturned?
    ensures var t := FinishStep(s, k); var op := s.ops[k];
            && k.id in s.entries && k.id in t.entries
            && var (f, spawned) := FinishRegister(s.entries[k.id], k.ch, op.native, op.endpoint, op.regErr);
               t.entries[k.id] == f && OpOf(t.ops, k.id, f) == if spawned then Some(RelSpawned) else None
  {
    OpFacts(s.entries, s.ops, s.trace, k);
    OnlyOp(s.entries, s.ops, s.trace, k);
  }

  lemma FinishRegisterTells(s: Srv, k: OpKey)
    requires InvCore(s.entries, s.ops, s.trace) && Story(s.entries, s.ops, s.trace) && k in s.ops && s.ops[k].RegReturned?
    ensures var t := FinishStep(s, k); Story(t.entries, t.ops, t.trace)
  {
    OpFacts(s.entries, s.ops, s.trace, k);
    assert TellsStory(s.entries, s.ops, s.trace, k.id);
    var op := s.ops[k];
    FinishRegisterStory(s.entries[k.id], k.ch, op.native, op.endpoint, op.regErr, RegisterOf(s.trace, k.id));
    FinishRegisterOp(s, k);
    FinishRegisterOps(s, k);
    StoryLocal(s, FinishStep(s, k), k.id);
  }

  lemma FinishReleaseTells(s: Srv, k: OpKey)
    requires InvCore(s.entries, s.ops, s.trace) && Story(s.entries, s.ops, s.trace) && k in s.ops && s.ops[k].RelReturned?
    ensures var t := FinishStep(s, k); Story(t.entries, t.ops, t.trace)
  {
    OpFacts(s.entries, s.ops, s.trace, k);
    OnlyOp(s.entries, s.ops, s.trace, k);
    assert TellsStory(s.entries, s.ops, s.trace, k.id);
    StoryLocal(s, FinishStep(s, k), k.id);
  }

  lemma DeliverTells(s: Srv, h: nat, m: Message)
    requires InvCore(s.entries, s.ops, s.trace) && Story(s.entries, s.ops, s.trace)
    ensures var t := DeliverStep(s, h, m); Story(t.entries, t.ops, t.trace)
  {
    match m
    case RegisterMsg(r) => if r.sandboxId !in s.entries { AdmitTells(s, r); }
    case GetMsg(id) =>
    case ReleaseMsg(id) => ReserveTells(s, id);
  }

  lemma AdvanceTells(s: Srv, h: nat)
    requires InvCore(s.entries, s.ops, s.trace) && Story(s.entries, s.ops, s.trace)
    ensures var t := AdvanceStep(s, h); Story(t.entries, t.ops, t.trace)
  {
    if h in s.handlers && s.handlers[h].ReleaseFound? && s.handlers[h].id in s.entries { StartReleaseTells(s, s.handlers[h].id); }
  }

  lemma StepTells(s: Srv, a: Action)
    requires InvCore(s.entries, s.ops, s.trace) && Story(s.entries, s.ops, s.trace)
    ensures var t := Apply(s, a); Story(t.entries, t.ops, t.trace)
  {
    match a
    case Deliver(h, m) => DeliverTells(s, h, m);
    case Advance(h) => AdvanceTells(s, h);
    case OpCall(k, made) => CallTells(s, k, made);
    case OpReturn(k, endpoint, artifacts, err) => ReturnTells(s, k, endpoint, artifacts, err);
    case OpFinish(k) =>
      if k in s.ops && s.ops[k].RegReturned? { FinishRegisterTells(s, k); }
      else if k in s.ops && s.ops[k].RelReturned? { FinishReleaseTells(s, k); }
    case SpawnClose(c, h, id) => ReserveTells(s, id);
    case _ =>
  }

  lemma {:induction false} RunTells(s: Srv, run: seq<Action>)
    requires Inv(s) && Story(s.entries, s.ops, s.trace)
    ensures var t := Exec(s, run); Story(t.entries, t.ops, t.trace)
    decreases |run|
  {
    if run != [] {
      ApplyKeeps(s, run[0]);
      StepTells(s, run[0]);
      RunTells(Apply(s, run[0]), run[1..]);
    }
  }

  // ----- theorems -----

  /** In every run, the endpoint of a READY access is the one that a native registration of this ID
      returned without an error, and it is the newest such answer. */
  lemma ReadyEndpointIsNative(run: seq<Action>, id: string)
    requires var s := Exec(Init, run); id in s.entries && s.entries[id].access.state == Ready
    ensures var s := Exec(Init, run); var a := s.entries[id].access;
            && a.endpoint.Some? && 1 <= a.endpoint.value.port <= 65535 && a.error == ""
            && RegisterReturned(id, a.endpoint, None) in s.trace
            && RegisterOf(s.trace, id) == Some(RegisterReturned(id, a.endpoint, None))
  {
    Reach(run, id);
  }

  lemma Reach(run: seq<Action>, id: string)
    ensures var s := Exec(Init, run);
            Inv(s) && SandboxOk(s.entries, s.ops, NativeOf(s.trace, id), id) && TellsStory(s.entries, s.ops, s.trace, id)
            && (id in s.entries && !s.entries[id].busy ==> OpOf(s.ops, id, s.entries[id]).None?)
  {
    ReachableInv(run);
    RunTells(Init, run);
    Idle(Exec(Init, run), id);
  }

  /** In every run, the artifacts of a RELEASED access are those that a native release returned
      without an error; there are none only if no native release ever returned. */
  lemma ReleasedArtifactsAreNative(run: seq<Action>, id: string)
    requires var s := Exec(Init, run); id in s.entries && s.entries[id].access.state == Released
    ensures var s := Exec(Init, run); var a := s.entries[id].access; var rel := ReleaseOf(s.trace, id);
            && a.cleanupError == ""
            && (rel.Some? ==> rel == Some(ReleaseReturned(id, a.artifacts, None)) && ReleaseReturned(id, a.artifacts, None) in s.trace)
            && (rel.None? ==> a.artifacts == [] && NativeOf(s.trace, id) == Fresh)
  {
    Reach(run, id);
    var s := Exec(Init, run);
    if NativeOf(s.trace, id) == Gone { GoneWasReleased(s.trace, id); }
  }

  lemma {:induction false} GoneWasReleased(trace: seq<NativeEvent>, id: string)
    requires NativeOf(trace, id) == Gone
    ensures ReleaseOf(trace, id).Some?
  {
    if trace[|trace| - 1].id != id || !trace[|trace| - 1].ReleaseReturned? { GoneWasReleased(trace[..|trace| - 1], id); }
  }

  /** In every run, whenever no goroutine works for an entry: its error is that of its one registration,
      empty if that succeeded, and its cleanup error is that of the newest native release; an entry
      that is still RELEASING holds its native sandbox for the next attempt. */
  lemma ErrorsAreNative(run: seq<Action>, id: string)
    requires var s := Exec(Init, run); id in s.entries && !s.entries[id].busy && s.entries[id].request.Some?
    ensures var s := Exec(Init, run); var a := s.entries[id].access;
            && a.error == RegisterError(RegisterOf(s.trace, id))
            && a.cleanupError == ReleaseError(ReleaseOf(s.trace, id))
            && (a.state != Released ==> a.artifacts == []) && a.state != Registering
            && (a.state == Releasing ==> NativeOf(s.trace, id) == Held && s.entries[id].native)
  {
    Reach(run, id);
  }
}
