/** Every run of the control server, under an environment that may deliver any message at
    any time and any number of times, lose any reply, cancel any waiting handler, and let
    native calls return anything after any delay. */
module ControlRuns {
  import opened Common
  import opened Control

  // ----- state -----

  /** A background goroutine is named by its entry and by the channel it will close. */
  datatype OpKey = OpKey(id: string, ch: nat)

  datatype Op =
    | RegSpawned
    | RegCalling
    | RegReturned(native: bool, endpoint: Option<Endpoint>, regErr: Option<string>)
    | RelSpawned
    | RelCalling
    | RelReturned(artifacts: seq<Artifact>, relErr: Option<string>)

  /** What reached the native sandbox, in order. */
  datatype NativeEvent =
    | RegisterCalled(id: string)
    | RegisterReturned(id: string, endpoint: Option<Endpoint>, err: Option<string>)
    | ReleaseCalled(id: string)
    | ReleaseReturned(id: string, artifacts: seq<Artifact>, err: Option<string>)

  datatype Message = RegisterMsg(request: Request) | GetMsg(id: string) | ReleaseMsg(id: string)

  /** Who gets a handler's answer: the network, or one Close call. */
  datatype Origin = Remote | Closer(c: nat)

  /** Where an RPC handler stands between two lock sections. */
  datatype Handler =
    | RegisterFound(request: Request)
    | RegisterWaiting(id: string, ch: nat)
    | GetFound(id: string)
    | ReleaseFound(origin: Origin, id: string)
    | ReleaseWaiting(origin: Origin, id: string, ch: nat)
    | ReleaseWoken(origin: Origin, id: string)

  /** One Close call: the IDs it captured and the answers it got so far. */
  datatype CloseCall = CloseCall(ids: set<string>, answers: map<string, Reply>)

  datatype Srv = Srv(entries: map<string, EntryView>, closing: bool, ops: map<OpKey, Op>,
                     handlers: map<nat, Handler>, closers: map<nat, CloseCall>,
                     replies: set<Reply>, trace: seq<NativeEvent>)

  const Init := Srv(map[], false, map[], map[], map[], {}, [])

  datatype Action =
    | Deliver(h: nat, message: Message)
    | Advance(h: nat)
    | CancelHandler(h: nat, expired: bool)
    | OpCall(key: OpKey, made: bool)
    | OpReturn(key: OpKey, endpoint: Option<Endpoint>, artifacts: seq<Artifact>, err: Option<string>)
    | OpFinish(key: OpKey)
    | BeginClose(c: nat)
    | SpawnClose(c: nat, h: nat, id: string)

  // ----- steps; an action that is not enabled leaves the state alone -----

  function Drop<K, V>(m: map<K, V>, k: K): map<K, V> { m - {k} }

  /** Handler h answers and ends. */
  function Answer(s: Srv, h: nat, origin: Origin, id: string, r: Reply): Srv {
    var s1 := s.(handlers := Drop(s.handlers, h));
    match origin
    case Remote => s1.(replies := s.replies + {r})
    case Closer(c) =>
      if c in s.closers
      then s1.(closers := s.closers[c := s.closers[c].(answers := s.closers[c].answers[id := r])])
      else s1
  }

  function DeliverStep(s: Srv, h: nat, m: Message): Srv {
    if h in s.handlers then s else
    match m
    case RegisterMsg(r) =>
      if !ValidRequest(r) then s.(replies := s.replies + {Err(InvalidArgument)})
      else
        var (entries, admission) := Admit(s.entries, s.closing, r);
        (match admission
         case Existing => s.(handlers := s.handlers[h := RegisterFound(r)])
         case Closing => s.(replies := s.replies + {Err(FailedPrecondition)})
         case Admitted =>
           s.(entries := entries, ops := s.ops[OpKey(r.sandboxId, 0) := RegSpawned],
              handlers := s.handlers[h := RegisterWaiting(r.sandboxId, 0)]))
    case GetMsg(id) =>
      if !ValidIdentifier(id) then s.(replies := s.replies + {Err(InvalidArgument)})
      else if id !in s.entries then s.(replies := s.replies + {Err(NotFound)})
      else s.(handlers := s.handlers[h := GetFound(id)])
    case ReleaseMsg(id) =>
      if !ValidIdentifier(id) then s.(replies := s.replies + {Err(InvalidArgument)})
      else s.(entries := Reserve(s.entries, id), handlers := s.handlers[h := ReleaseFound(Remote, id)])
  }

  /** releaseLocked on a retained entry, including the goroutine it may start. */
  function StartRelease(s: Srv, id: string): Srv
    requires id in s.entries
  {
    var (e, spawned) := ReleaseLocked(s.entries[id]);
    var s1 := s.(entries := s.entries[id := e]);
    if spawned then s1.(ops := s.ops[OpKey(id, e.operation) := RelSpawned]) else s1
  }

  function AdvanceStep(s: Srv, h: nat): Srv {
    if h !in s.handlers then s else
    match s.handlers[h]
    case RegisterFound(r) =>
      if r.sandboxId !in s.entries then s
      else Answer(s, h, Remote, r.sandboxId, AnswerExisting(s.entries[r.sandboxId], r))
    case RegisterWaiting(id, ch) =>
      if id !in s.entries || ch !in s.entries[id].closed then s
      else Answer(s, h, Remote, id, Ok(s.entries[id].access))
    case GetFound(id) =>
      if id !in s.entries then s else Answer(s, h, Remote, id, Ok(s.entries[id].access))
    case ReleaseFound(origin, id) =>
      if id !in s.entries then s
      else if s.entries[id].access.state == Released then Answer(s, h, origin, id, Ok(s.entries[id].access))
      else
        var s1 := StartRelease(s, id);
        s1.(handlers := s.handlers[h := ReleaseWaiting(origin, id, s1.entries[id].operation)])
    case ReleaseWaiting(origin, id, ch) =>
      if id !in s.entries || ch !in s.entries[id].closed then s
      else s.(handlers := s.handlers[h := ReleaseWoken(origin, id)])
    case ReleaseWoken(origin, id) =>
      if id !in s.entries then s
      else if !s.entries[id].busy then Answer(s, h, origin, id, Ok(s.entries[id].access))
      else s.(handlers := s.handlers[h := ReleaseWaiting(origin, id, s.entries[id].operation)])
  }

  /** The request context of a waiting handler ends: by its deadline, or because it was canceled. */
  function CancelStep(s: Srv, h: nat, expired: bool): Srv {
    if h !in s.handlers then s else
    match s.handlers[h]
    case RegisterWaiting(id, ch) => Answer(s, h, Remote, id, Err(if expired then DeadlineExceeded else Canceled))
    case ReleaseWaiting(origin, id, ch) => Answer(s, h, origin, id, Err(if expired then DeadlineExceeded else Canceled))
    case _ => s
  }

  /** The goroutine reaches its native call, or finds that there is nothing to call. */
  function CallStep(s: Srv, k: OpKey, made: bool): Srv {
    if k !in s.ops || k.id !in s.entries then s else
    match s.ops[k]
    case RegSpawned =>
      if made then s.(ops := s.ops[k := RegCalling], trace := s.trace + [RegisterCalled(k.id)])
      else s.(ops := s.ops[k := RegReturned(false, None, Some("native sandbox factory returned nil"))])
    case RelSpawned =>
      if s.entries[k.id].native then s.(ops := s.ops[k := RelCalling], trace := s.trace + [ReleaseCalled(k.id)])
      else s.(ops := s.ops[k := RelReturned([], None)])
    case _ => s
  }

  function ReturnStep(s: Srv, k: OpKey, endpoint: Option<Endpoint>, artifacts: seq<Artifact>, err: Option<string>): Srv {
    if k !in s.ops then s else
    match s.ops[k]
    case RegCalling => s.(ops := s.ops[k := RegReturned(true, endpoint, err)], trace := s.trace + [RegisterReturned(k.id, endpoint, err)])
    case RelCalling => s.(ops := s.ops[k := RelReturned(artifacts, err)], trace := s.trace + [ReleaseReturned(k.id, artifacts, err)])
    case _ => s
  }

  function FinishStep(s: Srv, k: OpKey): Srv {
    if k !in s.ops || k.id !in s.entries then s else
    match s.ops[k]
    case RegReturned(native, endpoint, err) =>
      var (e, spawned) := FinishRegister(s.entries[k.id], k.ch, native, endpoint, err);
      var s1 := s.(entries := s.entries[k.id := e], ops := Drop(s.ops, k));
      if spawned then s1.(ops := s1.ops[OpKey(k.id, e.operation) := RelSpawned]) else s1
    case RelReturned(artifacts, err) =>
      s.(entries := s.entries[k.id := FinishRelease(s.entries[k.id], k.ch, artifacts, err)], ops := Drop(s.ops, k))
    case _ => s
  }

  function Apply(s: Srv, a: Action): Srv {
    match a
    case Deliver(h, m) => DeliverStep(s, h, m)
    case Advance(h) => AdvanceStep(s, h)
    case CancelHandler(h, expired) => CancelStep(s, h, expired)
    case OpCall(k, made) => CallStep(s, k, made)
    case OpReturn(k, endpoint, artifacts, err) => ReturnStep(s, k, endpoint, artifacts, err)
    case OpFinish(k) => FinishStep(s, k)
    case BeginClose(c) =>
      if c in s.closers then s
      else s.(closing := true, closers := s.closers[c := CloseCall(s.entries.Keys, map[])])
    case SpawnClose(c, h, id) =>
      if c !in s.closers || h in s.handlers || id !in s.closers[c].ids then s
      else s.(handlers := s.handlers[h := ReleaseFound(Closer(c), id)], entries := Reserve(s.entries, id))
  }

  function Exec(s: Srv, run: seq<Action>): Srv
    decreases |run|
  {
    if run == [] then s else Exec(Apply(s, run[0]), run[1..])
  }

  /** Close returns nil: every captured ID was answered, and answered RELEASED. */
  predicate CloseSucceeded(s: Srv, c: nat) {
    && c in s.closers
    && forall id :: id in s.closers[c].ids ==>
         id in s.closers[c].answers && s.closers[c].answers[id].Ok? && s.closers[c].answers[id].access.state == Released
  }

  // ----- the order of native calls, as an automaton over the trace -----

  datatype Native = Fresh | InRegister | Held | InRelease | Gone | Bad

  function NativeNext(n: Native, e: NativeEvent): Native {
    match (n, e)
    case (Fresh, RegisterCalled(_)) => InRegister
    case (InRegister, RegisterReturned(_, _, _)) => Held
    case (Held, ReleaseCalled(_)) => InRelease
    case (InRelease, ReleaseReturned(_, _, err)) => if err.None? then Gone else Held
    case _ => Bad
  }

  /** Where the native sandbox of `id` stands after the trace. `Bad` means that two native
      calls overlapped, a release came before the registration returned, a registration was
      repeated, or anything was called after a successful release. */
  function NativeOf(trace: seq<NativeEvent>, id: string): Native {
    if trace == [] then Fresh
    else
      var before := NativeOf(trace[..|trace| - 1], id);
      var last := trace[|trace| - 1];
      if last.id == id then NativeNext(before, last) else before
  }

  /** An event moves only the sandbox it names. */
  lemma NativeAppend(trace: seq<NativeEvent>, e: NativeEvent)
    ensures forall id :: NativeOf(trace + [e], id) ==
              if e.id == id then NativeNext(NativeOf(trace, id), e) else NativeOf(trace, id)
  {
    assert (trace + [e])[..|trace|] == trace;
  }

  // ----- invariant -----

  /** A channel someone may wait on is closed, or its goroutine is still there to close it. */
  predicate Wakes(e: EntryView, ch: nat) {
    ch in e.closed || (e.busy && ch == e.operation)
  }

  ghost predicate EntryOk(id: string, e: EntryView) {
    && e.access.id == id
    && (e.access.endpoint.Some? <==> e.access.state == Ready)
    && (e.access.endpoint.Some? ==> ValidEndpoint(e.access.endpoint))
    && (e.request.None? ==> e.access.state == Released)
    && (e.request.Some? ==> e.request.value.sandboxId == id)
    && (e.access.state == Registering ==> e.busy && !e.native)
    && (e.access.state == Ready ==> !e.busy && e.native)
    && (e.access.state == Releasing && !e.busy ==> e.native)
    && (e.access.state == Released ==> !e.busy && !e.native)
    && (forall ch :: ch in e.closed ==> ch <= e.operation)
    && (e.busy ==> e.operation !in e.closed)
    && (e.request.Some? && !e.busy ==> e.operation in e.closed)
  }

  /** The goroutine that keeps entry `e` busy, and the automaton state both imply. */
  ghost predicate OpOk(e: EntryView, op: Op, n: Native) {
    match op
    case RegSpawned => e.access.state in {Registering, Releasing} && !e.native && n == Fresh
    case RegCalling => e.access.state in {Registering, Releasing} && !e.native && n == InRegister
    case RegReturned(native, _, err) =>
      && e.access.state in {Registering, Releasing} && !e.native
      && n == (if native then Held else Fresh) && (!native ==> err.Some?)
    case RelSpawned => e.access.state == Releasing && n == if e.native then Held else Fresh
    case RelCalling => e.access.state == Releasing && e.native && n == InRelease
    case RelReturned(_, err) =>
      && e.access.state == Releasing && (!e.native ==> err.None?)
      && n == if !e.native then Fresh else if err.None? then Gone else Held
  }

  /** Everything about one sandbox ID: its entry, its goroutine and its native history. */
  ghost predicate SandboxOk(entries: map<string, EntryView>, ops: map<OpKey, Op>, n: Native, id: string) {
    if id !in entries then n == Fresh
    else
      var e := entries[id];
      && EntryOk(id, e)
      && if e.busy then OpKey(id, e.operation) in ops && OpOk(e, ops[OpKey(id, e.operation)], n)
         else if e.native then n == Held else n in {Fresh, Gone}
  }

  /** Every goroutine is the one its busy entry waits for. */
  ghost predicate Owned(entries: map<string, EntryView>, k: OpKey) {
    k.id in entries && entries[k.id].busy && k.ch == entries[k.id].operation
  }

  ghost predicate InvCore(entries: map<string, EntryView>, ops: map<OpKey, Op>, trace: seq<NativeEvent>) {
    && (forall id :: SandboxOk(entries, ops, NativeOf(trace, id), id))
    && (forall k :: k in ops ==> Owned(entries, k))
  }

  ghost predicate HandlerOk(entries: map<string, EntryView>, t: Handler) {
    match t
    case RegisterFound(r) => r.sandboxId in entries
    case RegisterWaiting(id, ch) => id in entries && Wakes(entries[id], ch)
    case GetFound(id) => id in entries
    case ReleaseFound(origin, id) => id in entries
    case ReleaseWaiting(origin, id, ch) => id in entries && Wakes(entries[id], ch) && Rank(entries[id].access.state) >= 2
    case ReleaseWoken(origin, id) => id in entries && Rank(entries[id].access.state) >= 2
  }

  ghost predicate InvHandlers(entries: map<string, EntryView>, handlers: map<nat, Handler>) {
    forall h :: h in handlers ==> HandlerOk(entries, handlers[h])
  }

  /** What an access says is never ahead of the entry, and final once it says RELEASED. */
  ghost predicate AccessSound(entries: map<string, EntryView>, a: Access) {
    && a.id in entries
    && Rank(a.state) <= Rank(entries[a.id].access.state)
    && (a.endpoint.Some? <==> a.state == Ready)
    && (a.state == Released ==> a == entries[a.id].access)
  }

  ghost predicate InvReplies(entries: map<string, EntryView>, replies: set<Reply>) {
    forall r :: r in replies && r.Ok? ==> AccessSound(entries, r.access)
  }

  ghost predicate CloserOk(entries: map<string, EntryView>, c: CloseCall) {
    && (forall id :: id in entries && entries[id].access.state != Released ==> id in c.ids)
    && (forall id :: id in c.answers && c.answers[id].Ok? ==>
          c.answers[id].access.id == id && AccessSound(entries, c.answers[id].access))
  }

  ghost predicate InvClosers(entries: map<string, EntryView>, closing: bool, closers: map<nat, CloseCall>) {
    forall c :: c in closers ==> closing && CloserOk(entries, closers[c])
  }

  ghost predicate InvShell(s: Srv) {
    InvHandlers(s.entries, s.handlers) && InvReplies(s.entries, s.replies) && InvClosers(s.entries, s.closing, s.closers)
  }

  ghost predicate Inv(s: Srv) {
    InvCore(s.entries, s.ops, s.trace) && InvShell(s)
  }

  // ----- what any number of steps may do to the entries -----

  ghost predicate EntryForward(e: EntryView, f: EntryView) {
    && f.request == e.request
    && f.access.id == e.access.id
    && Rank(e.access.state) <= Rank(f.access.state)
    && (e.access.state == Released ==> f == e)
    && (forall ch :: Wakes(e, ch) ==> Wakes(f, ch))
  }

  ghost predicate EntriesForward(entries: map<string, EntryView>, closing: bool, later: map<string, EntryView>) {
    && (forall id :: id in entries ==> id in later && EntryForward(entries[id], later[id]))
    && (forall id :: id in later && id !in entries && closing ==> later[id].access.state == Released)
  }

  ghost predicate Forward(s: Srv, t: Srv) {
    && EntriesForward(s.entries, s.closing, t.entries)
    && (s.closing ==> t.closing)
    && s.replies <= t.replies
    && (forall r :: r in t.replies && r !in s.replies && r.Ok? && SaysReleased(s.entries, r.access.id) ==>
          r.access == s.entries[r.access.id].access)
  }

  predicate SaysReleased(entries: map<string, EntryView>, id: string) {
    id in entries && entries[id].access.state == Released
  }

  // ----- one step keeps the invariant -----

  /** Waiting handlers, old replies and Close calls survive any forward move of the entries. */
  lemma ShellSurvives(s: Srv, later: map<string, EntryView>)
    requires InvShell(s) && EntriesForward(s.entries, s.closing, later)
    ensures InvShell(s.(entries := later))
  {
    forall h | h in s.handlers ensures HandlerOk(later, s.handlers[h]) {
      assert HandlerOk(s.entries, s.handlers[h]);
    }
    forall c | c in s.closers ensures CloserOk(later, s.closers[c]) {
      assert CloserOk(s.entries, s.closers[c]);
    }
  }

  /** A step that touches one sandbox only has to be checked for that sandbox. */
  lemma CoreLocal(s: Srv, t: Srv, id: string)
    requires InvCore(s.entries, s.ops, s.trace)
    requires forall x :: x != id ==> (x in t.entries <==> x in s.entries) && (x in s.entries ==> t.entries[x] == s.entries[x])
    requires forall k: OpKey :: k.id != id ==> (k in t.ops <==> k in s.ops) && (k in s.ops ==> t.ops[k] == s.ops[k])
    requires forall x :: x != id ==> NativeOf(t.trace, x) == NativeOf(s.trace, x)
    requires SandboxOk(t.entries, t.ops, NativeOf(t.trace, id), id)
    requires forall k: OpKey :: k in t.ops && k.id == id ==> Owned(t.entries, k)
    ensures InvCore(t.entries, t.ops, t.trace)
  {
    forall x ensures SandboxOk(t.entries, t.ops, NativeOf(t.trace, x), x) {
      assert SandboxOk(s.entries, s.ops, NativeOf(s.trace, x), x);
    }
  }

  lemma ForwardLocal(entries: map<string, EntryView>, closing: bool, id: string, f: EntryView)
    requires if id in entries then EntryForward(entries[id], f) else closing ==> f.access.state == Released
    ensures EntriesForward(entries, closing, entries[id := f])
  {
  }

  /** A handler moves on; nothing else changes. */
  lemma HandlerKeeps(s: Srv, h: nat, t: Handler)
    requires Inv(s) && HandlerOk(s.entries, t)
    ensures Inv(s.(handlers := s.handlers[h := t]))
  {
  }

  lemma ReleaseLockedOk(id: string, e: EntryView)
    requires EntryOk(id, e)
    ensures var (f, spawned) := ReleaseLocked(e);
            && EntryOk(id, f) && EntryForward(e, f) && Rank(f.access.state) >= 2 && f.native == e.native
            && (spawned <==> f.busy && !e.busy) && (!spawned ==> f.operation == e.operation && f.busy == e.busy)
            && (spawned ==> f.access.state == Releasing) && (f.access.state != Released ==> f.busy)
  {
  }

  lemma StartReleaseCore(s: Srv, id: string)
    requires InvCore(s.entries, s.ops, s.trace) && id in s.entries
    ensures var t := StartRelease(s, id);
            && InvCore(t.entries, t.ops, t.trace) && t == s.(entries := s.entries[id := t.entries[id]], ops := t.ops)
            && EntryForward(s.entries[id], t.entries[id])
            && Rank(t.entries[id].access.state) >= 2 && (t.entries[id].access.state != Released ==> t.entries[id].busy)
  {
    assert SandboxOk(s.entries, s.ops, NativeOf(s.trace, id), id);
    ReleaseLockedOk(id, s.entries[id]);
    CoreLocal(s, StartRelease(s, id), id);
  }

  /** releaseLocked may run at any moment: it starts a goroutine exactly when none is there. */
  lemma StartReleaseKeeps(s: Srv, id: string)
    requires Inv(s) && id in s.entries
    ensures Inv(StartRelease(s, id)) && Forward(s, StartRelease(s, id))
    ensures var e := StartRelease(s, id).entries[id]; Rank(e.access.state) >= 2 && (e.access.state != Released ==> e.busy)
  {
    var t := StartRelease(s, id);
    StartReleaseCore(s, id);
    assert EntriesForward(s.entries, s.closing, t.entries) by { ForwardLocal(s.entries, s.closing, id, t.entries[id]); }
    assert InvShell(t) by { ShellSurvives(s, t.entries); }
  }

  lemma AnswerKeeps(s: Srv, h: nat, origin: Origin, id: string, r: Reply)
    requires Inv(s)
    requires r.Ok? ==> id in s.entries && r.access == s.entries[id].access && r.access.id == id && AccessSound(s.entries, r.access)
    ensures Inv(Answer(s, h, origin, id, r)) && Forward(s, Answer(s, h, origin, id, r))
  {
  }

  lemma SnapshotSound(s: Srv, id: string)
    requires Inv(s) && id in s.entries
    ensures s.entries[id].access.id == id && AccessSound(s.entries, s.entries[id].access)
  {
    assert SandboxOk(s.entries, s.ops, NativeOf(s.trace, id), id);
  }

  lemma ReserveKeeps(s: Srv, id: string)
    requires Inv(s)
    ensures var t := s.(entries := Reserve(s.entries, id)); Inv(t) && Forward(s, t)
  {
    var t := s.(entries := Reserve(s.entries, id));
    assert SandboxOk(s.entries, s.ops, NativeOf(s.trace, id), id);
    CoreLocal(s, t, id);
    ShellSurvives(s, t.entries);
  }

  lemma AdmitKeeps(s: Srv, r: Request)
    requires Inv(s) && r.sandboxId !in s.entries && !s.closing
    ensures var t := s.(entries := s.entries[r.sandboxId := NewEntry(r)], ops := s.ops[OpKey(r.sandboxId, 0) := RegSpawned]);
            Inv(t) && Forward(s, t)
  {
    var id := r.sandboxId;
    var t := s.(entries := s.entries[id := NewEntry(r)], ops := s.ops[OpKey(id, 0) := RegSpawned]);
    assert SandboxOk(s.entries, s.ops, NativeOf(s.trace, id), id);
    CoreLocal(s, t, id);
    ShellSurvives(s, t.entries);
  }

  lemma RefuseKeeps(s: Srv, code: Code)
    requires Inv(s)
    ensures var t := s.(replies := s.replies + {Err(code)}); Inv(t) && Forward(s, t)
  {
  }

  lemma DeliverKeeps(s: Srv, h: nat, m: Message)
    requires Inv(s)
    ensures Inv(DeliverStep(s, h, m)) && Forward(s, DeliverStep(s, h, m))
  {
    if h in s.handlers { return; }
    match m
    case RegisterMsg(r) =>
      if !ValidRequest(r) {
        RefuseKeeps(s, InvalidArgument);
      } else if r.sandboxId in s.entries {
        HandlerKeeps(s, h, RegisterFound(r));
      } else if s.closing {
        RefuseKeeps(s, FailedPrecondition);
      } else {
        AdmitKeeps(s, r);
        var t := s.(entries := s.entries[r.sandboxId := NewEntry(r)], ops := s.ops[OpKey(r.sandboxId, 0) := RegSpawned]);
        HandlerKeeps(t, h, RegisterWaiting(r.sandboxId, 0));
      }
    case GetMsg(id) =>
      if !ValidIdentifier(id) {
        RefuseKeeps(s, InvalidArgument);
      } else if id !in s.entries {
        RefuseKeeps(s, NotFound);
      } else {
        HandlerKeeps(s, h, GetFound(id));
      }
    case ReleaseMsg(id) =>
      if !ValidIdentifier(id) {
        RefuseKeeps(s, InvalidArgument);
      } else {
        ReserveKeeps(s, id);
        HandlerKeeps(s.(entries := Reserve(s.entries, id)), h, ReleaseFound(Remote, id));
      }
  }

  lemma AdvanceReleaseKeeps(s: Srv, h: nat, origin: Origin, id: string)
    requires Inv(s) && h in s.handlers && s.handlers[h] == ReleaseFound(origin, id)
    requires id in s.entries && s.entries[id].access.state != Released
    ensures Inv(AdvanceStep(s, h)) && Forward(s, AdvanceStep(s, h))
  {
    StartReleaseKeeps(s, id);
    var t := StartRelease(s, id);
    assert SandboxOk(t.entries, t.ops, NativeOf(t.trace, id), id);
    assert Wakes(t.entries[id], t.entries[id].operation);
    HandlerKeeps(t, h, ReleaseWaiting(origin, id, t.entries[id].operation));
  }

  lemma AdvanceKeeps(s: Srv, h: nat)
    requires Inv(s)
    ensures Inv(AdvanceStep(s, h)) && Forward(s, AdvanceStep(s, h))
  {
    if h !in s.handlers { return; }
    assert HandlerOk(s.entries, s.handlers[h]);
    match s.handlers[h]
    case RegisterFound(r) =>
      SnapshotSound(s, r.sandboxId);
      AnswerKeeps(s, h, Remote, r.sandboxId, AnswerExisting(s.entries[r.sandboxId], r));
    case RegisterWaiting(id, ch) =>
      SnapshotSound(s, id);
      AnswerKeeps(s, h, Remote, id, Ok(s.entries[id].access));
    case GetFound(id) =>
      SnapshotSound(s, id);
      AnswerKeeps(s, h, Remote, id, Ok(s.entries[id].access));
    case ReleaseFound(origin, id) =>
      if s.entries[id].access.state == Released {
        SnapshotSound(s, id);
        AnswerKeeps(s, h, origin, id, Ok(s.entries[id].access));
      } else {
        AdvanceReleaseKeeps(s, h, origin, id);
      }
    case ReleaseWaiting(origin, id, ch) =>
      HandlerKeeps(s, h, ReleaseWoken(origin, id));
    case ReleaseWoken(origin, id) =>
      if s.entries[id].busy {
        HandlerKeeps(s, h, ReleaseWaiting(origin, id, s.entries[id].operation));
      } else {
        SnapshotSound(s, id);
        AnswerKeeps(s, h, origin, id, Ok(s.entries[id].access));
      }
  }

  lemma CancelKeeps(s: Srv, h: nat, expired: bool)
    requires Inv(s)
    ensures Inv(CancelStep(s, h, expired)) && Forward(s, CancelStep(s, h, expired))
  {
    if h !in s.handlers { return; }
    match s.handlers[h]
    case RegisterWaiting(id, ch) => AnswerKeeps(s, h, Remote, id, Err(if expired then DeadlineExceeded else Canceled));
    case ReleaseWaiting(origin, id, ch) => AnswerKeeps(s, h, origin, id, Err(if expired then DeadlineExceeded else Canceled));
    case _ =>
  }

  /** A goroutine moves on with at most one native event; its entry stays as it is. */
  lemma OpMoves(entries: map<string, EntryView>, ops: map<OpKey, Op>, trace: seq<NativeEvent>, k: OpKey, op: Op, e: NativeEvent)
    requires InvCore(entries, ops, trace) && k in ops && k.id in entries && e.id == k.id
    requires OpOk(entries[k.id], op, NativeNext(NativeOf(trace, k.id), e))
    ensures InvCore(entries, ops[k := op], trace + [e])
  {
    assert Owned(entries, k);
    NativeAppend(trace, e);
    forall x ensures SandboxOk(entries, ops[k := op], NativeOf(trace + [e], x), x) {
      assert SandboxOk(entries, ops, NativeOf(trace, x), x);
    }
  }

  lemma OpMovesQuietly(entries: map<string, EntryView>, ops: map<OpKey, Op>, trace: seq<NativeEvent>, k: OpKey, op: Op)
    requires InvCore(entries, ops, trace) && k in ops && k.id in entries
    requires OpOk(entries[k.id], op, NativeOf(trace, k.id))
    ensures InvCore(entries, ops[k := op], trace)
  {
    assert Owned(entries, k);
    forall x ensures SandboxOk(entries, ops[k := op], NativeOf(trace, x), x) {
      assert SandboxOk(entries, ops, NativeOf(trace, x), x);
    }
  }

  /** What the invariant says about the goroutine `k`. */
  lemma OpFacts(entries: map<string, EntryView>, ops: map<OpKey, Op>, trace: seq<NativeEvent>, k: OpKey)
    requires InvCore(entries, ops, trace) && k in ops
    ensures k.id in entries && entries[k.id].busy && k.ch == entries[k.id].operation
    ensures EntryOk(k.id, entries[k.id]) && OpOk(entries[k.id], ops[k], NativeOf(trace, k.id))
  {
    assert Owned(entries, k);
    assert SandboxOk(entries, ops, NativeOf(trace, k.id), k.id);
  }

  lemma CoreStep(s: Srv, t: Srv)
    requires Inv(s) && InvCore(t.entries, t.ops, t.trace) && t == s.(ops := t.ops, trace := t.trace)
    ensures Inv(t) && Forward(s, t)
  {
  }

  lemma CallCore(s: Srv, k: OpKey, made: bool)
    requires InvCore(s.entries, s.ops, s.trace)
    ensures var t := CallStep(s, k, made); InvCore(t.entries, t.ops, t.trace) && t == s.(ops := t.ops, trace := t.trace)
  {
    if k !in s.ops { return; }
    OpFacts(s.entries, s.ops, s.trace, k);
    match s.ops[k]
    case RegSpawned =>
      if made { OpMoves(s.entries, s.ops, s.trace, k, RegCalling, RegisterCalled(k.id)); }
      else { OpMovesQuietly(s.entries, s.ops, s.trace, k, RegReturned(false, None, Some("native sandbox factory returned nil"))); }
    case RelSpawned =>
      if s.entries[k.id].native { OpMoves(s.entries, s.ops, s.trace, k, RelCalling, ReleaseCalled(k.id)); }
      else { OpMovesQuietly(s.entries, s.ops, s.trace, k, RelReturned([], None)); }
    case _ =>
  }

  lemma CallKeeps(s: Srv, k: OpKey, made: bool)
    requires Inv(s)
    ensures Inv(CallStep(s, k, made)) && Forward(s, CallStep(s, k, made))
  {
    CallCore(s, k, made);
    CoreStep(s, CallStep(s, k, made));
  }

  lemma ReturnCore(s: Srv, k: OpKey, endpoint: Option<Endpoint>, artifacts: seq<Artifact>, err: Option<string>)
    requires InvCore(s.entries, s.ops, s.trace)
    ensures var t := ReturnStep(s, k, endpoint, artifacts, err); InvCore(t.entries, t.ops, t.trace) && t == s.(ops := t.ops, trace := t.trace)
  {
    if k !in s.ops { return; }
    OpFacts(s.entries, s.ops, s.trace, k);
    match s.ops[k]
    case RegCalling => OpMoves(s.entries, s.ops, s.trace, k, RegReturned(true, endpoint, err), RegisterReturned(k.id, endpoint, err));
    case RelCalling => OpMoves(s.entries, s.ops, s.trace, k, RelReturned(artifacts, err), ReleaseReturned(k.id, artifacts, err));
    case _ =>
  }

  lemma ReturnKeeps(s: Srv, k: OpKey, endpoint: Option<Endpoint>, artifacts: seq<Artifact>, err: Option<string>)
    requires Inv(s)
    ensures Inv(ReturnStep(s, k, endpoint, artifacts, err)) && Forward(s, ReturnStep(s, k, endpoint, artifacts, err))
  {
    ReturnCore(s, k, endpoint, artifacts, err);
    CoreStep(s, ReturnStep(s, k, endpoint, artifacts, err));
  }

  lemma FinishRegisterOk(id: string, e: EntryView, ch: nat, native: bool, endpoint: Option<Endpoint>, err: Option<string>)
    requires EntryOk(id, e) && e.busy && !e.native && ch == e.operation && e.access.state in {Registering, Releasing}
    requires !native ==> err.Some?
    ensures var (f, spawned) := FinishRegister(e, ch, native, endpoint, err);
            && EntryOk(id, f) && EntryForward(e, f) && f.native == native
            && (spawned <==> f.busy) && (f.busy ==> f.operation == e.operation + 1 && f.access.state == Releasing)
  {
    var (f, spawned) := FinishRegister(e, ch, native, endpoint, err);
    assert f.closed == e.closed + {ch};
  }

  lemma FinishReleaseOk(id: string, e: EntryView, ch: nat, artifacts: seq<Artifact>, err: Option<string>)
    requires EntryOk(id, e) && e.busy && ch == e.operation && e.access.state == Releasing
    requires !e.native ==> err.None?
    ensures var f := FinishRelease(e, ch, artifacts, err);
            EntryOk(id, f) && EntryForward(e, f) && !f.busy && (f.native <==> err.Some?)
  {
    assert FinishRelease(e, ch, artifacts, err).closed == e.closed + {ch};
  }

  predicate Finishing(s: Srv, k: OpKey) {
    k in s.ops && k.id in s.entries && (s.ops[k].RegReturned? || s.ops[k].RelReturned?)
  }

  /** One entry moves forward and its goroutine is replaced; all else stays. */
  ghost predicate LocalStep(s: Srv, t: Srv, id: string) {
    && id in s.entries && id in t.entries && t == s.(entries := s.entries[id := t.entries[id]], ops := t.ops)
    && EntryForward(s.entries[id], t.entries[id])
    && SandboxOk(t.entries, t.ops, NativeOf(t.trace, id), id)
    && (forall j: OpKey :: j in t.ops && j.id == id ==> Owned(t.entries, j))
    && (forall j: OpKey :: j.id != id ==> (j in t.ops <==> j in s.ops) && (j in s.ops ==> t.ops[j] == s.ops[j]))
  }

  lemma OnlyOp(entries: map<string, EntryView>, ops: map<OpKey, Op>, trace: seq<NativeEvent>, k: OpKey)
    requires InvCore(entries, ops, trace) && k in ops
    ensures forall j: OpKey :: j in ops && j.id == k.id ==> j == k
  {
    assert Owned(entries, k);
    assert forall j: OpKey :: j in ops ==> Owned(entries, j);
  }

  /** What ends a registration does to goroutines: its own is gone, a release may follow. */
  lemma FinishRegisterOps(s: Srv, k: OpKey)
    requires InvCore(s.entries, s.ops, s.trace) && Finishing(s, k) && s.ops[k].RegReturned?
    ensures var t := FinishStep(s, k);
            && k.id in t.entries && t == s.(entries := s.entries[k.id := t.entries[k.id]], ops := t.ops)
            && (forall j: OpKey :: j in t.ops && j.id == k.id ==> Owned(t.entries, j))
            && (forall j: OpKey :: j.id != k.id ==> (j in t.ops <==> j in s.ops) && (j in s.ops ==> t.ops[j] == s.ops[j]))
  {
    OpFacts(s.entries, s.ops, s.trace, k);
    OnlyOp(s.entries, s.ops, s.trace, k);
    FinishRegisterOk(k.id, s.entries[k.id], k.ch, s.ops[k].native, s.ops[k].endpoint, s.ops[k].regErr);
  }

  lemma FinishRegisterEntry(s: Srv, k: OpKey)
    requires InvCore(s.entries, s.ops, s.trace) && Finishing(s, k) && s.ops[k].RegReturned?
    ensures var t := FinishStep(s, k);
            && k.id in t.entries && EntryForward(s.entries[k.id], t.entries[k.id]) && SandboxOk(t.entries, t.ops, NativeOf(t.trace, k.id), k.id)
  {
    OpFacts(s.entries, s.ops, s.trace, k);
    FinishRegisterOk(k.id, s.entries[k.id], k.ch, s.ops[k].native, s.ops[k].endpoint, s.ops[k].regErr);
  }

  lemma FinishRegisterLocal(s: Srv, k: OpKey)
    requires InvCore(s.entries, s.ops, s.trace) && Finishing(s, k) && s.ops[k].RegReturned?
    ensures LocalStep(s, FinishStep(s, k), k.id)
  {
    FinishRegisterOps(s, k);
    FinishRegisterEntry(s, k);
  }

  lemma FinishReleaseLocal(s: Srv, k: OpKey)
    requires InvCore(s.entries, s.ops, s.trace) && Finishing(s, k) && s.ops[k].RelReturned?
    ensures LocalStep(s, FinishStep(s, k), k.id)
  {
    OpFacts(s.entries, s.ops, s.trace, k);
    OnlyOp(s.entries, s.ops, s.trace, k);
    FinishReleaseOk(k.id, s.entries[k.id], k.ch, s.ops[k].artifacts, s.ops[k].relErr);
  }

  lemma LocalStepKeeps(s: Srv, t: Srv, id: string)
    requires Inv(s) && LocalStep(s, t, id)
    ensures Inv(t) && Forward(s, t)
  {
    CoreLocal(s, t, id);
    ForwardLocal(s.entries, s.closing, id, t.entries[id]);
    ShellSurvives(s, t.entries);
  }

  lemma FinishKeeps(s: Srv, k: OpKey)
    requires Inv(s)
    ensures Inv(FinishStep(s, k)) && Forward(s, FinishStep(s, k))
  {
    if Finishing(s, k) {
      if s.ops[k].RegReturned? { FinishRegisterLocal(s, k); } else { FinishReleaseLocal(s, k); }
      LocalStepKeeps(s, FinishStep(s, k), k.id);
    }
  }

  lemma CloseBeginKeeps(s: Srv, c: nat)
    requires Inv(s)
    ensures Inv(Apply(s, BeginClose(c))) && Forward(s, Apply(s, BeginClose(c)))
  {
  }

  lemma ApplyKeeps(s: Srv, a: Action)
    requires Inv(s)
    ensures Inv(Apply(s, a)) && Forward(s, Apply(s, a))
  {
    match a
    case Deliver(h, m) => DeliverKeeps(s, h, m);
    case Advance(h) => AdvanceKeeps(s, h);
    case CancelHandler(h, expired) => CancelKeeps(s, h, expired);
    case OpCall(k, made) => CallKeeps(s, k, made);
    case OpReturn(k, endpoint, artifacts, err) => ReturnKeeps(s, k, endpoint, artifacts, err);
    case OpFinish(k) => FinishKeeps(s, k);
    case BeginClose(c) => CloseBeginKeeps(s, c);
    case SpawnClose(c, h, id) => ReserveKeeps(s, id);
  }

  // ----- theorems over whole runs -----

  lemma ForwardReflexive(s: Srv)
    ensures Forward(s, s)
  {
  }

  lemma ForwardTransitive(s: Srv, t: Srv, u: Srv)
    requires Forward(s, t) && Forward(t, u)
    ensures Forward(s, u)
  {
    forall id | id in s.entries ensures id in u.entries && EntryForward(s.entries[id], u.entries[id]) {
      assert EntryForward(s.entries[id], t.entries[id]) && EntryForward(t.entries[id], u.entries[id]);
    }
  }

  /** From any state that satisfies the invariant, every run keeps it and only moves forward. */
  lemma {:induction false} RunKeeps(s: Srv, run: seq<Action>)
    requires Inv(s)
    ensures Inv(Exec(s, run)) && Forward(s, Exec(s, run))
    decreases |run|
  {
    if run == [] {
    } else {
      ApplyKeeps(s, run[0]);
      RunKeeps(Apply(s, run[0]), run[1..]);
      ForwardTransitive(s, Apply(s, run[0]), Exec(s, run));
    }
  }

  lemma ReachableInv(run: seq<Action>)
    ensures Inv(Exec(Init, run))
  {
    assert Inv(Init);
    RunKeeps(Init, run);
  }

  /** What holds of one sandbox after every run: the endpoint is there exactly while READY,
      at most one goroutine works for it and only while it is busy, and its native calls so
      far never overlapped, were never out of order and never continued after a release. */
  lemma EntryInvariant(run: seq<Action>, id: string)
    ensures var s := Exec(Init, run);
            && NativeOf(s.trace, id) != Bad
            && (id in s.entries ==>
                  var e := s.entries[id];
                  && (e.access.endpoint.Some? <==> e.access.state == Ready)
                  && (e.request.Some? ==> e.request.value.sandboxId == id)
                  && (e.busy <==> exists k :: k in s.ops && k.id == id)
                  && (e.access.state == Released ==> !e.busy && NativeOf(s.trace, id) in {Fresh, Gone})
                  && (e.access.state == Ready ==> NativeOf(s.trace, id) == Held))
            && (forall j, k :: j in s.ops && k in s.ops && j.id == k.id == id ==> j == k)
  {
    ReachableInv(run);
    var s := Exec(Init, run);
    assert SandboxOk(s.entries, s.ops, NativeOf(s.trace, id), id);
    if id in s.entries && s.entries[id].busy {
      assert OpKey(id, s.entries[id].operation) in s.ops;
    }
  }

  /** Between any two moments of a run: the binding is the same, the state moved only along
      REGISTERING, READY, RELEASING, RELEASED, and a RELEASED entry is unchanged. */
  lemma EntriesOnlyMoveForward(run: seq<Action>, later: seq<Action>, id: string)
    requires id in Exec(Init, run).entries
    ensures var s := Exec(Init, run); var t := Exec(s, later);
            && id in t.entries
            && t.entries[id].request == s.entries[id].request
            && Rank(s.entries[id].access.state) <= Rank(t.entries[id].access.state)
            && (s.entries[id].access.state == Released ==> t.entries[id] == s.entries[id])
  {
    ReachableInv(run);
    RunKeeps(Exec(Init, run), later);
  }

  /** Once Close has returned nil, every entry is RELEASED at every later moment, whatever
      arrives, and no native call is left running or will ever start. */
  lemma CloseIsFinal(run: seq<Action>, c: nat, later: seq<Action>)
    requires CloseSucceeded(Exec(Init, run), c)
    ensures var t := Exec(Exec(Init, run), later);
            t.closing && t.ops == map[] && forall id :: id in t.entries ==> t.entries[id].access.state == Released
  {
    var s := Exec(Init, run);
    var t := Exec(s, later);
    ReachableInv(run);
    RunKeeps(s, later);
    forall id | id in t.entries ensures t.entries[id].access.state == Released && !t.entries[id].busy {
      if id in s.entries { CapturedIsReleased(s, c, id); }
      assert SandboxOk(t.entries, t.ops, NativeOf(t.trace, id), id);
    }
    assert t.ops.Keys == {};
  }

  lemma CapturedIsReleased(s: Srv, c: nat, id: string)
    requires Inv(s) && CloseSucceeded(s, c) && id in s.entries
    ensures s.entries[id].access.state == Released
  {
    assert CloserOk(s.entries, s.closers[c]);
    if id in s.closers[c].ids {
      assert AccessSound(s.entries, s.closers[c].answers[id].access);
    }
  }

  /** A release that arrives before any registration closes the ID for good: the sandbox is
      never touched, and every later registration is answered RELEASED. */
  lemma EarlyReleaseClosesId(run: seq<Action>, h: nat, id: string, later: seq<Action>)
    requires var s := Exec(Init, run); id !in s.entries && h !in s.handlers && ValidIdentifier(id)
    ensures var t := Exec(Apply(Exec(Init, run), Deliver(h, ReleaseMsg(id))), later);
            && id in t.entries && t.entries[id] == Tombstone(id)
            && NativeOf(t.trace, id) == Fresh
            && forall r :: AnswerExisting(t.entries[id], r) == Ok(NewAccess(id, Released))
  {
    var s := Exec(Init, run);
    ReachableInv(run);
    var u := Apply(s, Deliver(h, ReleaseMsg(id)));
    ApplyKeeps(s, Deliver(h, ReleaseMsg(id)));
    assert SandboxOk(s.entries, s.ops, NativeOf(s.trace, id), id);
    TombstoneStays(u, id, later);
  }

  lemma {:induction false} TombstoneStays(s: Srv, id: string, run: seq<Action>)
    requires Inv(s) && id in s.entries && s.entries[id] == Tombstone(id) && NativeOf(s.trace, id) == Fresh
    ensures var t := Exec(s, run); id in t.entries && t.entries[id] == Tombstone(id) && NativeOf(t.trace, id) == Fresh
    decreases |run|
  {
    if run == [] {
    } else {
      var t := Apply(s, run[0]);
      ApplyKeeps(s, run[0]);
      assert EntryForward(s.entries[id], t.entries[id]);
      QuietWithoutGoroutine(s, run[0], id);
      TombstoneStays(t, id, run[1..]);
    }
  }

  lemma QuietCall(s: Srv, k: OpKey, made: bool, id: string)
    requires (k in s.ops ==> Owned(s.entries, k)) && (id in s.entries ==> !s.entries[id].busy)
    ensures NativeOf(CallStep(s, k, made).trace, id) == NativeOf(s.trace, id)
  {
    NativeAppend(s.trace, RegisterCalled(k.id));
    NativeAppend(s.trace, ReleaseCalled(k.id));
  }

  lemma QuietReturn(s: Srv, k: OpKey, endpoint: Option<Endpoint>, artifacts: seq<Artifact>, err: Option<string>, id: string)
    requires (k in s.ops ==> Owned(s.entries, k)) && (id in s.entries ==> !s.entries[id].busy)
    ensures NativeOf(ReturnStep(s, k, endpoint, artifacts, err).trace, id) == NativeOf(s.trace, id)
  {
    NativeAppend(s.trace, RegisterReturned(k.id, endpoint, err));
    NativeAppend(s.trace, ReleaseReturned(k.id, artifacts, err));
  }

  lemma QuietDeliver(s: Srv, h: nat, m: Message)
    ensures DeliverStep(s, h, m).trace == s.trace
  {
    match m
    case RegisterMsg(r) => QuietRegister(s, h, r);
    case GetMsg(id) =>
    case ReleaseMsg(id) =>
  }

  lemma QuietRegister(s: Srv, h: nat, r: Request)
    ensures DeliverStep(s, h, RegisterMsg(r)).trace == s.trace
  {
  }

  lemma QuietAdvance(s: Srv, h: nat)
    ensures AdvanceStep(s, h).trace == s.trace
  {
    if h in s.handlers {
      match s.handlers[h]
      case ReleaseFound(origin, id) => QuietReleaseFound(s, h, origin, id);
      case ReleaseWoken(origin, id) => QuietReleaseWoken(s, h, origin, id);
      case _ =>
    }
  }

  lemma QuietReleaseFound(s: Srv, h: nat, origin: Origin, id: string)
    requires h in s.handlers && s.handlers[h] == ReleaseFound(origin, id)
    ensures AdvanceStep(s, h).trace == s.trace
  {
  }

  lemma QuietReleaseWoken(s: Srv, h: nat, origin: Origin, id: string)
    requires h in s.handlers && s.handlers[h] == ReleaseWoken(origin, id)
    ensures AdvanceStep(s, h).trace == s.trace
  {
  }

  lemma QuietFinish(s: Srv, k: OpKey)
    ensures FinishStep(s, k).trace == s.trace
  {
  }

  /** Native calls for a sandbox are only made by a goroutine of its busy entry. */
  lemma QuietWithoutGoroutine(s: Srv, a: Action, id: string)
    requires InvCore(s.entries, s.ops, s.trace) && (id in s.entries ==> !s.entries[id].busy)
    ensures NativeOf(Apply(s, a).trace, id) == NativeOf(s.trace, id)
  {
    match a
    case OpCall(k, made) => QuietCall(s, k, made, id);
    case OpReturn(k, endpoint, artifacts, err) => QuietReturn(s, k, endpoint, artifacts, err, id);
    case Deliver(h, m) => QuietDeliver(s, h, m);
    case Advance(h) => QuietAdvance(s, h);
    case OpFinish(k) => QuietFinish(s, k);
    case _ =>
  }

  /** No wake-up is ever lost: whenever a handler waits for a channel, the channel is already
      closed or the goroutine that closes it is still running. */
  lemma NoLostWakeup(run: seq<Action>, h: nat)
    requires var s := Exec(Init, run);
             h in s.handlers && (s.handlers[h].RegisterWaiting? || s.handlers[h].ReleaseWaiting?)
    ensures var s := Exec(Init, run); var t := s.handlers[h];
            t.id in s.entries && (t.ch in s.entries[t.id].closed || OpKey(t.id, t.ch) in s.ops)
  {
    ReachableInv(run);
    var s := Exec(Init, run);
    assert HandlerOk(s.entries, s.handlers[h]);
    assert SandboxOk(s.entries, s.ops, NativeOf(s.trace, s.handlers[h].id), s.handlers[h].id);
  }

  // ----- what "not Bad" says about a history -----

  /** Native calls of `id` that were made and have not returned. */
  function InFlight(trace: seq<NativeEvent>, id: string): int {
    if trace == [] then 0
    else
      var last := trace[|trace| - 1];
      InFlight(trace[..|trace| - 1], id) +
      (if last.id != id then 0 else if last.RegisterCalled? || last.ReleaseCalled? then 1 else -1)
  }

  predicate RegisterEnded(e: NativeEvent, id: string) { e.RegisterReturned? && e.id == id }

  predicate ReleaseSucceeded(e: NativeEvent, id: string) { e.ReleaseReturned? && e.id == id && e.err.None? }

  ghost predicate Registered(trace: seq<NativeEvent>, id: string) {
    exists i :: 0 <= i < |trace| && RegisterEnded(trace[i], id)
  }

  /** Where the automaton stands tells what has been called. */
  lemma {:induction false} HistoryFacts(trace: seq<NativeEvent>, id: string)
    requires NativeOf(trace, id) != Bad
    ensures var n := NativeOf(trace, id);
            && InFlight(trace, id) == (if n in {InRegister, InRelease} then 1 else 0)
            && (n in {Held, InRelease, Gone} ==> Registered(trace, id))
            && (n == Fresh ==> forall i :: 0 <= i < |trace| ==> trace[i].id != id)
            && (n != Gone ==> forall i :: 0 <= i < |trace| ==> !ReleaseSucceeded(trace[i], id))
    decreases |trace|
  {
    if trace != [] {
      var before, last := trace[..|trace| - 1], trace[|trace| - 1];
      assert trace == before + [last];
      HistoryFacts(before, id);
      assert Registered(before, id) ==> Registered(trace, id) by {
        if i :| 0 <= i < |before| && RegisterEnded(before[i], id) { assert RegisterEnded(trace[i], id); }
      }
      assert RegisterEnded(trace[|trace| - 1], id) ==> Registered(trace, id);
    }
  }

  /** No event of `id` takes the automaton to `Bad`, so what precedes it is good. */
  lemma PrefixIsGood(trace: seq<NativeEvent>, id: string, k: nat)
    requires NativeOf(trace, id) != Bad && k <= |trace|
    ensures NativeOf(trace[..k], id) != Bad
    decreases |trace|
  {
    if k < |trace| {
      PrefixIsGood(trace[..|trace| - 1], id, k);
      assert trace[..|trace| - 1][..k] == trace[..k];
    } else {
      assert trace[..k] == trace;
    }
  }

  /** The automaton right before event `k` lets it happen. */
  lemma EventIsAllowed(trace: seq<NativeEvent>, id: string, k: nat)
    requires NativeOf(trace, id) != Bad && k < |trace| && trace[k].id == id
    ensures NativeOf(trace[..k], id) != Bad && NativeNext(NativeOf(trace[..k], id), trace[k]) != Bad
  {
    PrefixIsGood(trace, id, k);
    PrefixIsGood(trace, id, k + 1);
    assert trace[..k + 1][..k] == trace[..k];
  }

  /** At no moment of a good history are two native calls of one sandbox in flight; releases
      come after the registration returned; nothing follows a successful release. */
  lemma {:induction false} GoodHistory(trace: seq<NativeEvent>, id: string)
    requires NativeOf(trace, id) != Bad
    ensures InFlight(trace, id) == if NativeOf(trace, id) in {InRegister, InRelease} then 1 else 0
    ensures forall i :: 0 <= i < |trace| && trace[i] == ReleaseCalled(id) ==> Registered(trace[..i], id)
    ensures forall i, j :: 0 <= i < j < |trace| && ReleaseSucceeded(trace[i], id) ==> trace[j].id != id
    ensures forall i, j :: 0 <= i < j < |trace| && trace[i] == RegisterCalled(id) ==> trace[j] != RegisterCalled(id)
  {
    HistoryFacts(trace, id);
    forall i | 0 <= i < |trace| && trace[i] == ReleaseCalled(id) ensures Registered(trace[..i], id) {
      EventIsAllowed(trace, id, i);
      HistoryFacts(trace[..i], id);
    }
    forall i, j | 0 <= i < j < |trace| && ReleaseSucceeded(trace[i], id) ensures trace[j].id != id {
      NothingFollows(trace, id, i, j);
    }
    forall i, j | 0 <= i < j < |trace| && trace[i] == RegisterCalled(id) ensures trace[j] != RegisterCalled(id) {
      RegisteredOnce(trace, id, i, j);
    }
  }

  lemma NothingFollows(trace: seq<NativeEvent>, id: string, i: nat, j: nat)
    requires NativeOf(trace, id) != Bad && i < j < |trace| && ReleaseSucceeded(trace[i], id)
    ensures trace[j].id != id
  {
    assert trace[..j][i] == trace[i];
    if trace[j].id == id {
      EventIsAllowed(trace, id, j);
      HistoryFacts(trace[..j], id);
    }
  }

  lemma RegisteredOnce(trace: seq<NativeEvent>, id: string, i: nat, j: nat)
    requires NativeOf(trace, id) != Bad && i < j < |trace| && trace[i] == RegisterCalled(id)
    ensures trace[j] != RegisterCalled(id)
  {
    assert trace[..j][i] == trace[i];
    if trace[j] == RegisterCalled(id) {
      EventIsAllowed(trace, id, j);
      HistoryFacts(trace[..j], id);
    }
  }
}
