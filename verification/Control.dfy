/** The lock sections of the run-owned control server (pkg/bridge/control/server.go).

    Every function below is one section that the program runs while holding a mutex;
    the classes `Entry` and `Server` carry the same sections as updates in place and are
    proved against the functions. What the sections guarantee over whole runs is proved
    in `ControlRuns`. */
module Control {
  import opened Common

  datatype State = Registering | Ready | Releasing | Released

  /** Position of a state on the only path a sandbox may take. */
  function Rank(s: State): nat {
    match s
    case Registering => 0
    case Ready => 1
    case Releasing => 2
    case Released => 3
  }

  datatype Endpoint = Endpoint(port: nat, transport: string, user: string)
  datatype Artifact = Artifact(name: string, status: string, size: int, sha256: string)

  /** The immutable binding; `rest` stands for the fields that are only compared. */
  datatype Request = Request(sandboxId: string, runtimeId: string, taskId: string, rest: string)

  datatype Access = Access(id: string, state: State, endpoint: Option<Endpoint>,
                           error: string, cleanupError: string, artifacts: seq<Artifact>)

  /** One server entry. Channels are numbered per entry: `operation` is the newest one and
      `closed` holds the numbers of the channels that were closed. */
  datatype EntryView = EntryView(request: Option<Request>, access: Access, native: bool,
                                 busy: bool, operation: nat, closed: set<nat>)

  predicate IdentifierChar(c: char) {
    'a' <= c <= 'z' || 'A' <= c <= 'Z' || '0' <= c <= '9'
  }

  /** The identifier pattern of the service: 1 to 256 characters, the first alphanumeric. */
  predicate ValidIdentifier(id: string) {
    && 1 <= |id| <= 256
    && IdentifierChar(id[0])
    && forall i :: 1 <= i < |id| ==> IdentifierChar(id[i]) || id[i] in {'_', '.', '-'}
  }

  predicate ValidRequest(r: Request) {
    && ValidIdentifier(r.sandboxId)
    && r.runtimeId != ""
    && (forall c :: c in r.runtimeId ==> c != '\0' && c != '\r' && c != '\n')
    && ValidIdentifier(r.taskId)
  }

  predicate ValidEndpoint(endpoint: Option<Endpoint>) {
    endpoint.Some? && 0 < endpoint.value.port <= 65535
  }

  function NewAccess(id: string, state: State): Access {
    Access(id, state, None, "", "", [])
  }

  function NewEntry(r: Request): EntryView {
    EntryView(Some(r), NewAccess(r.sandboxId, Registering), false, true, 0, {})
  }

  /** The reservation of an ID that was released before anyone registered it. */
  function Tombstone(id: string): EntryView {
    EntryView(None, NewAccess(id, Released), false, false, 0, {})
  }

  /** releaseLocked: the new entry, and whether it started a background release. */
  function ReleaseLocked(e: EntryView): (EntryView, bool) {
    if e.access.state == Released then (e, false)
    else
      var closing := e.(access := e.access.(state := Releasing, endpoint := None));
      if e.busy then (closing, false)
      else (closing.(busy := true, operation := e.operation + 1), true)
  }

  /** The last section of the register goroutine, run after native registration returned. */
  function FinishRegister(e: EntryView, ch: nat, native: bool, endpoint: Option<Endpoint>, err: Option<string>): (EntryView, bool) {
    var failure := if err.None? && !ValidEndpoint(endpoint)
                   then Some("native bridge did not provide a ready endpoint") else err;
    var e1 := e.(native := native, busy := false, closed := e.closed + {ch});
    var e2 := if failure.Some? then e1.(access := e1.access.(error := failure.value, state := Releasing)) else e1;
    var e3 := if e2.access.state == Registering
              then e2.(access := e2.access.(endpoint := endpoint, state := Ready)) else e2;
    if e3.access.state == Releasing then ReleaseLocked(e3) else (e3, false)
  }

  /** The last section of the release goroutine. */
  function FinishRelease(e: EntryView, ch: nat, artifacts: seq<Artifact>, err: Option<string>): EntryView {
    var e1 := e.(busy := false, closed := e.closed + {ch});
    match err
    case Some(message) => e1.(access := e1.access.(cleanupError := message))
    case None => e1.(access := e1.access.(cleanupError := "", state := Released, artifacts := artifacts), native := false)
  }

  datatype Code = InvalidArgument | AlreadyExists | FailedPrecondition | NotFound
                | Unavailable | DeadlineExceeded | Canceled | OtherCode
  datatype Reply = Ok(access: Access) | Err(code: Code)

  /** Register on an ID that already has an entry. */
  function AnswerExisting(e: EntryView, r: Request): Reply {
    if e.request.None? || e.request.value == r then Ok(e.access) else Err(AlreadyExists)
  }

  /** A retained sandbox entry, updated in place under its own mutex. */
  class Entry {
    const request: Option<Request>
    var access: Access
    var native: bool
    var busy: bool
    var operation: nat
    var closed: set<nat>

    ghost function View(): EntryView reads this {
      EntryView(request, access, native, busy, operation, closed)
    }

    constructor (request: Option<Request>, id: string, state: State, busy: bool)
      ensures View() == EntryView(request, NewAccess(id, state), false, busy, 0, {})
    {
      this.request := request;
      access := NewAccess(id, state);
      native, this.busy, operation, closed := false, busy, 0, {};
    }

    method Release() returns (spawned: bool)
      modifies this
      ensures (View(), spawned) == ReleaseLocked(old(View()))
    {
      spawned := false;
      if access.state == Released { return; }
      access := access.(state := Releasing, endpoint := None);
      if busy { return; }
      busy, operation, spawned := true, operation + 1, true;
    }

    method CompleteRegister(ch: nat, made: bool, endpoint: Option<Endpoint>, err: Option<string>) returns (spawned: bool)
      modifies this
      ensures (View(), spawned) == FinishRegister(old(View()), ch, made, endpoint, err)
    {
      var failure := err;
      if failure.None? && (endpoint.None? || endpoint.value.port == 0 || endpoint.value.port > 65535) {
        failure := Some("native bridge did not provide a ready endpoint");
      }
      native, busy := made, false;
      if failure.Some? {
        access := access.(error := failure.value, state := Releasing);
      }
      if access.state == Registering {
        access := access.(endpoint := endpoint, state := Ready);
      }
      closed := closed + {ch};
      spawned := false;
      if access.state == Releasing { spawned := Release(); }
    }

    method CompleteRelease(ch: nat, artifacts: seq<Artifact>, err: Option<string>)
      modifies this
      ensures View() == FinishRelease(old(View()), ch, artifacts, err)
    {
      busy := false;
      if err.Some? {
        access := access.(cleanupError := err.value);
      } else {
        access := access.(cleanupError := "", state := Released, artifacts := artifacts);
        native := false;
      }
      closed := closed + {ch};
    }
  }

  /** Result of the first section of RegisterSandbox. */
  datatype Admission = Existing | Closing | Admitted

  function Admit(entries: map<string, EntryView>, closing: bool, r: Request): (map<string, EntryView>, Admission) {
    if r.sandboxId in entries then (entries, Existing)
    else if closing then (entries, Closing)
    else (entries[r.sandboxId := NewEntry(r)], Admitted)
  }

  /** The first section of ReleaseSandbox: an unseen ID is reserved as already released. */
  function Reserve(entries: map<string, EntryView>, id: string): map<string, EntryView> {
    if id in entries then entries else entries[id := Tombstone(id)]
  }

  /** The registry, updated in place under the server mutex. */
  class Server {
    var entries: map<string, Entry>
    var closing: bool

    /** Distinct IDs own distinct entry objects. */
    ghost predicate Valid() reads this {
      forall a, b :: a in entries && b in entries && a != b ==> entries[a] != entries[b]
    }

    ghost function View(): map<string, EntryView>
      reads this, entries.Values
    {
      map id | id in entries :: entries[id].View()
    }

    constructor ()
      ensures Valid() && !closing && entries == map[]
    {
      entries, closing := map[], false;
    }

    method RegisterSandbox(r: Request) returns (admission: Admission)
      requires Valid()
      modifies this`entries
      ensures Valid()
      ensures (View(), admission) == Admit(old(View()), closing, r)
      ensures forall id :: id in old(entries) ==> id in entries && entries[id] == old(entries[id])
    {
      if r.sandboxId in entries { return Existing; }
      if closing { return Closing; }
      var e := new Entry(Some(r), r.sandboxId, Registering, true);
      entries := entries[r.sandboxId := e];
      assert View() == old(View())[r.sandboxId := NewEntry(r)];
      return Admitted;
    }

    method ReleaseLookup(id: string) returns (e: Entry)
      requires Valid()
      modifies this`entries
      ensures Valid()
      ensures View() == Reserve(old(View()), id)
      ensures id in entries && e == entries[id]
      ensures forall k :: k in old(entries) ==> k in entries && entries[k] == old(entries[k])
    {
      if id !in entries {
        e := new Entry(None, id, Released, false);
        entries := entries[id := e];
      }
      e := entries[id];
    }

    /** The first section of Close. */
    method BeginClose() returns (ids: set<string>)
      modifies this`closing
      ensures closing && ids == entries.Keys
    {
      closing := true;
      ids := entries.Keys;
    }
  }
}
