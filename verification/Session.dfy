/** One sandbox's client session (pkg/bridge/session.go, admission.go, artifacts.go).

    Start and Stop hold the session mutex for their whole duration, so a session history is a
    sequence of complete calls. What the network, the runtime and the file system answered
    is a parameter of each call. */
module Session {
  import opened Common
  import opened Control

  const TOOL_LOG := "tool-calls.jsonl"
  const MAX_ARTIFACT_BYTES := 256 * 1024 * 1024

  /** The fixed facts of a run; `digest` stands for SHA-256 in hexadecimal. */
  datatype Config = Config(transport: string, retainRawLog: bool, helper: bool, digest: string -> string)

  function RawLogName(c: Config): string { c.transport + "_raw.log" }

  function Expected(c: Config): set<string> {
    {TOOL_LOG} + if c.retainRawLog then {RawLogName(c)} else {}
  }

  datatype SessionView = SessionView(
    started: bool, stopped: bool, registered: bool, exposed: bool, released: bool, collected: bool,
    binding: Option<Request>, manifest: seq<Artifact>, evidenceLost: bool, local: map<string, string>)

  const NewSession := SessionView(false, false, false, false, false, false, None, [], false, map[])

  // ----- Start -----

  /** What the sandbox exported, and whether the session record could be written. */
  datatype Preparation = Refused | Bound(request: Request, recorded: bool)

  /** The first look of Start, at the session and at the service under the service's mutex. */
  function StartCheck(v: SessionView, serviceRunning: bool): (SessionView, bool) {
    if v.started || v.stopped then (v, false) else (v.(started := true), serviceRunning)
  }

  /** From there up to the first registration message; the result says whether it is sent. */
  function StartPrepare(v: SessionView, p: Preparation): (SessionView, bool) {
    if p.Refused? then (v, false)
    else if !p.recorded then (v.(binding := Some(p.request)), false)
    else (v.(binding := Some(p.request), registered := true), true)
  }

  function StartAdmit(v: SessionView, serviceRunning: bool, p: Preparation): (SessionView, bool) {
    var (v1, running) := StartCheck(v, serviceRunning);
    if !running then (v1, false) else StartPrepare(v1, p)
  }

  datatype RpcResult = Answer(access: Option<Access>) | Failure(code: Code)

  datatype Decision = Return(access: Access) | GiveUp | Poll

  predicate Uncertain(code: Code) { code in {Unavailable, DeadlineExceeded, Canceled} }

  /** One turn of the reconciliation loop, given the latest answer. */
  function Decide(id: string, r: RpcResult): Decision {
    match r
    case Answer(access) =>
      if access.None? || access.value.id != id then GiveUp
      else if access.value.state != Registering then Return(access.value)
      else Poll
    case Failure(code) => if Uncertain(code) then Poll else GiveUp
  }

  /** The rest of Start, once the reconciliation loop has ended. */
  function StartFinish(v: SessionView, c: Config, outcome: Option<Access>, addressResolved: bool, helperStaged: bool): (SessionView, bool) {
    if outcome.None? || outcome.value.state != Ready || outcome.value.endpoint.None? then (v, false)
    else
      var e := outcome.value.endpoint.value;
      if e.transport != c.transport || e.user != "aries" || !ValidEndpoint(Some(e)) || !addressResolved || (c.helper && !helperStaged)
      then (v, false)
      else (v.(exposed := true), true)
  }

  // ----- Stop -----

  datatype ReleaseResult = RpcFailed(running: bool, runErr: bool) | RpcAnswered(access: Option<Access>)

  /** Stop up to the point where evidence may be collected; the result says whether it goes on. */
  function StopRelease(v: SessionView, r: ReleaseResult): (SessionView, bool) {
    if v.evidenceLost then (v, false)
    else if !v.registered || v.released then (v, true)
    else
      match r
      case RpcFailed(running, runErr) =>
        if runErr || running then (v, false)
        else if v.exposed then (v.(released := true, evidenceLost := true), false)
        else (v.(released := true, collected := true), true)
      case RpcAnswered(access) =>
        if access.None? || v.binding.None? || access.value.id != v.binding.value.sandboxId then (v, false)
        else if access.value.state != Released || access.value.cleanupError != "" then (v, false)
        else (v.(released := true, manifest := access.value.artifacts,
                 collected := v.collected || (!v.exposed && access.value.artifacts == [])), true)
  }

  datatype TarEntry = TarEntry(regular: bool, name: string, size: int, readable: bool, content: string)
  datatype Download = DownloadFailed | Archive(regular: bool, size: int, entries: seq<TarEntry>, cleanEnd: bool, writeOk: bool)

  /** The download is exactly the promised artifact; `CollectOk` adds that it could be stored. */
  predicate Matches(c: Config, a: Artifact, d: Download) {
    && a.name in {TOOL_LOG, RawLogName(c)} && 0 <= a.size <= MAX_ARTIFACT_BYTES
    && d.Archive? && d.regular && d.size == a.size
    && |d.entries| == 1 && d.cleanEnd
    && d.entries[0].regular && d.entries[0].name == a.name && d.entries[0].size == a.size && d.entries[0].readable
    && |d.entries[0].content| == a.size
    && c.digest(d.entries[0].content) == a.sha256
  }

  predicate CollectOk(c: Config, a: Artifact, d: Download) { Matches(c, a, d) && d.writeOk }

  predicate Absent(a: Artifact) { a.status == "absent" && a.size == 0 && a.sha256 == "" }

  /** The manifest loop from position i: the collected files, and whether it succeeded. A
      failed write leaves no file that can be trusted. */
  function CollectFrom(c: Config, exposed: bool, manifest: seq<Artifact>, downloads: nat -> Download,
                       i: nat, seen: set<string>, local: map<string, string>): (map<string, string>, bool)
    requires i <= |manifest|
    decreases |manifest| - i
  {
    if i == |manifest| then (local, Expected(c) <= seen)
    else
      var a := manifest[i];
      if a.name !in Expected(c) || a.name in seen then (local, false)
      else if Absent(a) && !exposed then CollectFrom(c, exposed, manifest, downloads, i + 1, seen + {a.name}, local)
      else if a.status != "complete" then (local, false)
      else if !CollectOk(c, a, downloads(i)) then (if Matches(c, a, downloads(i)) then local - {a.name} else local, false)
      else CollectFrom(c, exposed, manifest, downloads, i + 1, seen + {a.name}, local[a.name := downloads(i).entries[0].content])
  }

  function StopCollect(v: SessionView, c: Config, downloads: nat -> Download): (SessionView, bool) {
    if !v.released || v.collected then (v, true)
    else
      var (local, ok) := CollectFrom(c, v.exposed, v.manifest, downloads, 0, {}, v.local);
      (v.(local := local, collected := v.collected || ok), ok)
  }

  /** A complete Stop. */
  function StopCall(v: SessionView, c: Config, r: ReleaseResult, downloads: nat -> Download, helperRemoved: bool): (SessionView, bool) {
    var (v1, goOn) := StopRelease(v.(stopped := true), r);
    if !goOn then (v1, false)
    else
      var (v2, ok) := StopCollect(v1, c, downloads);
      (v2, ok && helperRemoved)
  }

  function StartCall(v: SessionView, c: Config, serviceRunning: bool, p: Preparation,
                     outcome: Option<Access>, addressResolved: bool, helperStaged: bool): (SessionView, bool) {
    var (v1, sent) := StartAdmit(v, serviceRunning, p);
    if !sent then (v1, false) else StartFinish(v1, c, outcome, addressResolved, helperStaged)
  }

  // ----- what a registration's answers mean, told without the loop -----

  /** Message k of a registration asks with Get: every one does but the first and those that
      follow a poll answered NotFound. */
  predicate Polls(script: seq<RpcResult>, k: nat)
    requires k <= |script|
  {
    k > 0 && !(script[k - 1] == Failure(NotFound) && Polls(script, k - 1))
  }

  /** Answer k decides nothing: this ID is still REGISTERING, the error leaves the outcome open,
      or a poll found no such ID. */
  predicate LeavesOpen(id: string, script: seq<RpcResult>, k: nat)
    requires k < |script|
  {
    match script[k]
    case Answer(access) => access.Some? && access.value.id == id && access.value.state == Registering
    case Failure(code) =>
      code == Unavailable || code == DeadlineExceeded || code == Code.Canceled || (code == NotFound && Polls(script, k))
  }

  /** The loop is still waiting when answer k arrives. */
  ghost predicate OpenUntil(id: string, script: seq<RpcResult>, k: nat)
    requires k <= |script|
  {
    forall j :: 0 <= j < k ==> LeavesOpen(id, script, j)
  }

  /** An access to this very ID that is past REGISTERING. */
  predicate Settles(id: string, r: RpcResult) {
    r.Answer? && r.access.Some? && r.access.value.id == id && r.access.value.state in {Ready, Releasing, Released}
  }

  /** No access at all, an access to another ID, or an error that is not worth asking again:
      among these NotFound in answer to the registration itself. */
  predicate Refuses(id: string, script: seq<RpcResult>, k: nat)
    requires k < |script|
  {
    match script[k]
    case Answer(access) => access.None? || access.value.id != id
    case Failure(code) => code in {InvalidArgument, AlreadyExists, FailedPrecondition, OtherCode} || (code == NotFound && !Polls(script, k))
  }

  /** An answer leaves the outcome open, settles it or refuses, and only one is ever decisive. */
  lemma OneDecides(id: string, script: seq<RpcResult>, i: nat)
    requires i < |script| && OpenUntil(id, script, i)
    ensures LeavesOpen(id, script, i) || Settles(id, script[i]) || Refuses(id, script, i)
    ensures Settles(id, script[i]) || Refuses(id, script, i) ==> !LeavesOpen(id, script, i)
    ensures !(Settles(id, script[i]) && Refuses(id, script, i))
    ensures !LeavesOpen(id, script, i) ==> !OpenUntil(id, script, |script|)
    ensures forall k :: 0 <= k < |script| && OpenUntil(id, script, k) && !LeavesOpen(id, script, k) && !LeavesOpen(id, script, i) ==> k == i
    ensures forall k :: 0 <= k < |script| && (Settles(id, script[k]) || Refuses(id, script, k)) ==> !LeavesOpen(id, script, k)
  {
  }

  /** The loop's next step, told by states and codes. */
  lemma DecideExactly(id: string, r: RpcResult, access: Access)
    ensures Decide(id, r) == Return(access) <==> r == Answer(Some(access)) && Settles(id, r)
    ensures Decide(id, r) == Poll <==>
              || (r.Answer? && r.access.Some? && r.access.value.id == id && r.access.value.state == Registering)
              || (r.Failure? && (r.code == Unavailable || r.code == DeadlineExceeded || r.code == Code.Canceled))
  {
  }

  /** The endpoint a session may hand out. */
  predicate Usable(c: Config, access: Access) {
    && access.state == Ready && access.endpoint.Some?
    && access.endpoint.value.transport == c.transport && access.endpoint.value.user == "aries"
    && 1 <= access.endpoint.value.port <= 65535
  }

  /** A new session that has a running service and a recorded binding sends its registration. */
  predicate Sends(v: SessionView, serviceRunning: bool, p: Preparation) {
    !v.started && !v.stopped && serviceRunning && p.Bound? && p.recorded
  }

  /** What a complete Start does, by its inputs: it succeeds exactly for a usable endpoint with
      everything around it in place, it owns the registration exactly when it was sent, and
      nothing else of the session changes. */
  lemma StartExactly(v: SessionView, c: Config, serviceRunning: bool, p: Preparation,
                     outcome: Option<Access>, addressResolved: bool, helperStaged: bool)
    ensures var (w, ok) := StartCall(v, c, serviceRunning, p, outcome, addressResolved, helperStaged);
            && (ok <==> Sends(v, serviceRunning, p) && outcome.Some? && Usable(c, outcome.value)
                        && addressResolved && (c.helper ==> helperStaged))
            && w.exposed == (v.exposed || ok)
            && w.registered == (v.registered || Sends(v, serviceRunning, p))
            && w.started == (v.started || !v.stopped)
            && (w.binding == if !v.started && !v.stopped && serviceRunning && p.Bound? then Some(p.request) else v.binding)
            && w == v.(started := w.started, registered := w.registered, exposed := w.exposed, binding := w.binding)
  {
  }

  // ----- the session object -----

  /** Request number k (None is a poll) is a poll, or the same binding again after a poll that
      was answered NotFound. */
  predicate Retry(request: Request, script: seq<RpcResult>, sent: seq<Option<Request>>, k: nat)
    requires 1 <= k < |sent| <= |script| + 1
  {
    sent[k].None? || (sent[k] == Some(request) && sent[k - 1].None? && script[k - 1] == Failure(NotFound))
  }

  class BridgeSession {
    const config: Config
    var started: bool
    var stopped: bool
    var registered: bool
    var exposed: bool
    var released: bool
    var collected: bool
    var binding: Option<Request>
    var manifest: seq<Artifact>
    var evidenceLost: bool
    var local: map<string, string>

    ghost function View(): SessionView reads this {
      SessionView(started, stopped, registered, exposed, released, collected, binding, manifest, evidenceLost, local)
    }

    constructor (config: Config)
      ensures View() == NewSession && this.config == config
    {
      this.config := config;
      started, stopped, registered, exposed, released, collected := false, false, false, false, false, false;
      binding, manifest, evidenceLost, local := None, [], false, map[];
    }

    /** The reconciliation loop. `script` holds the answers in the order they arrive; when it
        runs out, the caller's deadline has fired. `sent` lists the requests it made: it asks
        again exactly while the answers leave the outcome open. */
    static method RegisterSandbox(request: Request, script: seq<RpcResult>) returns (outcome: Option<Access>, sent: seq<Option<Request>>)
      ensures outcome.Some? ==> outcome.value.id == request.sandboxId && outcome.value.state != Registering
      ensures outcome.Some? ==> 0 < |sent| <= |script| && script[|sent| - 1] == Answer(outcome)
      ensures sent != [] && sent[0] == Some(request)
      ensures |sent| <= |script| + 1
      ensures forall k :: 1 <= k < |sent| ==> Retry(request, script, sent, k)
      ensures forall k :: 0 <= k < |sent| ==> sent[k] == if Polls(script, k) then None else Some(request)
      ensures OpenUntil(request.sandboxId, script, |sent| - 1)
      ensures |sent| <= |script| ==> !LeavesOpen(request.sandboxId, script, |sent| - 1)
      ensures forall k :: 0 <= k < |script| && OpenUntil(request.sandboxId, script, k) && Settles(request.sandboxId, script[k]) ==>
                outcome == script[k].access
      ensures outcome.None? <==>
                || OpenUntil(request.sandboxId, script, |script|)
                || exists k :: 0 <= k < |script| && OpenUntil(request.sandboxId, script, k) && Refuses(request.sandboxId, script, k)
    {
      ghost var id := request.sandboxId;
      sent := [Some(request)];
      outcome := None;
      var i := 0;
      while i < |script|
        invariant 0 <= i <= |script| && |sent| == i + 1
        invariant sent[0] == Some(request) && outcome.None?
        invariant forall k :: 1 <= k < |sent| ==> Retry(request, script, sent, k)
        invariant forall k :: 0 <= k < |sent| ==> sent[k] == if Polls(script, k) then None else Some(request)
        invariant OpenUntil(id, script, i)
      {
        var next: Option<Request> := None;
        if script[i] == Failure(NotFound) && sent[i].None? {
          // The confirmed absence of the ID permits the same binding again.
          next := Some(request);
        } else {
          match Decide(request.sandboxId, script[i])
          case Return(access) =>
            outcome := Some(access);
            OneDecides(id, script, i);
            return;
          case GiveUp =>
            OneDecides(id, script, i);
            return;
          case Poll =>
        }
        assert LeavesOpen(id, script, i);
        ghost var before := sent;
        sent, i := sent + [next], i + 1;
        forall k | 1 <= k < |sent| ensures Retry(request, script, sent, k) {
          if k < |before| { assert Retry(request, script, before, k); }
        }
      }
      assert OpenUntil(id, script, |script|);
      assert forall k :: 0 <= k < |script| ==> LeavesOpen(id, script, k) && !Settles(id, script[k]);
    }

    /** Start succeeds exactly when it sends and the first answer that does not leave the
        outcome open is a usable access to its own ID. */
    method Start(serviceRunning: bool, p: Preparation, script: seq<RpcResult>, addressResolved: bool, helperStaged: bool)
      returns (ok: bool, ghost outcome: Option<Access>)
      modifies this
      ensures (View(), ok) == StartCall(old(View()), config, serviceRunning, p, outcome, addressResolved, helperStaged)
      ensures outcome.Some? ==> binding.Some? && outcome.value.id == binding.value.sandboxId
      ensures ok <==> Sends(old(View()), serviceRunning, p) && addressResolved && (config.helper ==> helperStaged)
                      && exists k :: 0 <= k < |script| && OpenUntil(p.request.sandboxId, script, k)
                                     && Settles(p.request.sandboxId, script[k]) && Usable(config, script[k].access.value)
    {
      ok, outcome := false, None;
      if started || stopped { return; }
      started := true;
      if !serviceRunning || p.Refused? { return; }
      binding := Some(p.request);
      if !p.recorded { return; }
      registered := true;  // cleanup ownership is retained even if the answer is lost
      var access, sent := RegisterSandbox(p.request, script);
      outcome := access;
      ghost var id := p.request.sandboxId;
      assert access.Some? ==> OpenUntil(id, script, |sent| - 1) && Settles(id, script[|sent| - 1]);
      if access.None? || access.value.state != Ready || access.value.endpoint.None? { return; }
      var e := access.value.endpoint.value;
      if e.transport != config.transport || e.user != "aries" || e.port == 0 || e.port > 65535 { return; }
      if !addressResolved { return; }
      if config.helper && !helperStaged { return; }
      exposed, ok := true, true;
    }

    method Collect(downloads: nat -> Download) returns (ok: bool)
      modifies this`local
      ensures (local, ok) == CollectFrom(config, exposed, manifest, downloads, 0, {}, old(local))
    {
      var expected, seen := Expected(config), {};
      var i := 0;
      while i < |manifest|
        invariant 0 <= i <= |manifest| && expected == Expected(config)
        invariant CollectFrom(config, exposed, manifest, downloads, 0, {}, old(local))
               == CollectFrom(config, exposed, manifest, downloads, i, seen, local)
      {
        var a := manifest[i];
        if a.name !in expected || a.name in seen { return false; }
        if !(a.status == "absent" && !exposed && a.size == 0 && a.sha256 == "") {
          if a.status != "complete" { return false; }
          var d := downloads(i);
          if !Matches(config, a, d) { return false; }
          if !d.writeOk {
            local := local - {a.name};
            return false;
          }
          local := local[a.name := d.entries[0].content];
        }
        seen := seen + {a.name};
        i := i + 1;
      }
      ok := expected <= seen;
    }

    method Stop(r: ReleaseResult, downloads: nat -> Download, helperRemoved: bool) returns (ok: bool)
      modifies this
      ensures (View(), ok) == StopCall(old(View()), config, r, downloads, helperRemoved)
    {
      stopped := true;
      if evidenceLost { return false; }
      if registered && !released {
        match r
        case RpcFailed(running, runErr) =>
          if runErr || running { return false; }
          released := true;
          if exposed {
            evidenceLost := true;
            return false;
          }
          collected := true;
        case RpcAnswered(access) =>
          if access.None? || binding.None? || access.value.id != binding.value.sandboxId { return false; }
          if access.value.state != Released || access.value.cleanupError != "" { return false; }
          released, manifest := true, access.value.artifacts;
          if !exposed && |access.value.artifacts| == 0 { collected := true; }
      }
      if released && !collected {
        var complete := Collect(downloads);
        if !complete { return false; }
        collected := true;
      }
      return helperRemoved;
    }
  }

  // ----- what the manifest loop accepts -----

  ghost predicate EntryGood(c: Config, exposed: bool, a: Artifact, d: Download) {
    a.name in Expected(c) && ((Absent(a) && !exposed) || (a.status == "complete" && CollectOk(c, a, d)))
  }

  ghost predicate EntriesGood(c: Config, exposed: bool, m: seq<Artifact>, downloads: nat -> Download, i: nat, seen: set<string>) {
    forall j :: i <= j < |m| ==> EntryGood(c, exposed, m[j], downloads(j)) && m[j].name !in seen
  }

  ghost predicate NamedOnce(m: seq<Artifact>, i: nat) { forall j, k :: i <= j < k < |m| ==> m[j].name != m[k].name }

  ghost predicate Named(m: seq<Artifact>, i: nat, n: string) { exists j :: i <= j < |m| && m[j].name == n }

  ghost predicate Covers(c: Config, m: seq<Artifact>, i: nat, seen: set<string>) {
    forall n :: n in Expected(c) && n !in seen ==> Named(m, i, n)
  }

  /** Every entry from i on is good and new, and together with `seen` they cover what is expected. */
  ghost predicate ManifestGood(c: Config, exposed: bool, m: seq<Artifact>, downloads: nat -> Download, i: nat, seen: set<string>) {
    EntriesGood(c, exposed, m, downloads, i, seen) && NamedOnce(m, i) && Covers(c, m, i, seen)
  }

  /** The loop succeeds exactly on manifests that name each expected log once, each entry
      acceptable and collected. Files collected earlier are not disturbed. */
  lemma {:induction false} CollectAccepts(c: Config, exposed: bool, m: seq<Artifact>, downloads: nat -> Download,
                                          i: nat, seen: set<string>, local: map<string, string>)
    requires i <= |m| && seen <= Expected(c)
    ensures var (result, ok) := CollectFrom(c, exposed, m, downloads, i, seen, local);
            && (ok <==> ManifestGood(c, exposed, m, downloads, i, seen))
            && (ok ==> forall n :: n in seen && n in local ==> n in result && result[n] == local[n])
            && (ok ==> forall j :: i <= j < |m| && m[j].status == "complete" ==>
                  m[j].name in result && |result[m[j].name]| == m[j].size && c.digest(result[m[j].name]) == m[j].sha256)
    decreases |m| - i
  {
    if i == |m| {
    } else if EntryGood(c, exposed, m[i], downloads(i)) && m[i].name !in seen {
      var next := if Absent(m[i]) && !exposed then local else local[m[i].name := downloads(i).entries[0].content];
      CollectAccepts(c, exposed, m, downloads, i + 1, seen + {m[i].name}, next);
      GoodCons(c, exposed, m, downloads, i, seen);
    }
  }

  lemma EntriesCons(c: Config, exposed: bool, m: seq<Artifact>, downloads: nat -> Download, i: nat, seen: set<string>)
    requires i < |m| && EntryGood(c, exposed, m[i], downloads(i)) && m[i].name !in seen
    ensures EntriesGood(c, exposed, m, downloads, i, seen) && NamedOnce(m, i)
       <==> EntriesGood(c, exposed, m, downloads, i + 1, seen + {m[i].name}) && NamedOnce(m, i + 1)
  {
    if EntriesGood(c, exposed, m, downloads, i + 1, seen + {m[i].name}) && NamedOnce(m, i + 1) {
      forall j, k | i <= j < k < |m| ensures m[j].name != m[k].name {
        if j == i { assert m[k].name !in seen + {m[i].name}; }
      }
    }
  }

  lemma CoversCons(c: Config, m: seq<Artifact>, i: nat, seen: set<string>)
    requires i < |m|
    ensures Covers(c, m, i, seen) <==> Covers(c, m, i + 1, seen + {m[i].name})
  {
    forall n | n != m[i].name ensures Named(m, i, n) <==> Named(m, i + 1, n) { }
    assert Named(m, i, m[i].name);
  }

  lemma GoodCons(c: Config, exposed: bool, m: seq<Artifact>, downloads: nat -> Download, i: nat, seen: set<string>)
    requires i < |m| && EntryGood(c, exposed, m[i], downloads(i)) && m[i].name !in seen
    ensures ManifestGood(c, exposed, m, downloads, i, seen) <==> ManifestGood(c, exposed, m, downloads, i + 1, seen + {m[i].name})
  {
    EntriesCons(c, exposed, m, downloads, i, seen);
    CoversCons(c, m, i, seen);
  }

  // ----- histories of complete calls -----

  datatype Call =
    | StartOf(serviceRunning: bool, p: Preparation, outcome: Option<Access>, addressResolved: bool, helperStaged: bool)
    | StopOf(r: ReleaseResult, downloads: nat -> Download, helperRemoved: bool)

  function Perform(v: SessionView, c: Config, call: Call): (SessionView, bool) {
    match call
    case StartOf(running, p, outcome, resolved, staged) => StartCall(v, c, running, p, outcome, resolved, staged)
    case StopOf(r, downloads, removed) => StopCall(v, c, r, downloads, removed)
  }

  function PerformAll(v: SessionView, c: Config, calls: seq<Call>): SessionView
    decreases |calls|
  {
    if calls == [] then v else PerformAll(Perform(v, c, calls[0]).0, c, calls[1..])
  }

  /** Each expected log is named exactly once, as complete, and its collected content has
      the size and digest of the manifest. */
  ghost predicate EvidenceComplete(c: Config, v: SessionView) {
    && (forall j :: 0 <= j < |v.manifest| ==> v.manifest[j].name in Expected(c) && v.manifest[j].status == "complete")
    && (forall j, k :: 0 <= j < k < |v.manifest| ==> v.manifest[j].name != v.manifest[k].name)
    && (forall n :: n in Expected(c) ==> exists j :: 0 <= j < |v.manifest| && v.manifest[j].name == n)
    && (forall j :: 0 <= j < |v.manifest| ==> var a := v.manifest[j];
          a.name in v.local && |v.local[a.name]| == a.size && c.digest(v.local[a.name]) == a.sha256)
  }

  ghost predicate SessionInv(c: Config, v: SessionView) {
    && (v.exposed ==> v.registered)
    && (v.registered ==> v.started && v.binding.Some?)
    && (v.released ==> v.registered && v.stopped)
    && (v.evidenceLost ==> v.exposed && v.released && v.stopped && !v.collected)
    && (v.collected ==> v.released)
    && (v.collected && v.exposed ==> EvidenceComplete(c, v))
  }

  /** What no call ever takes back. */
  ghost predicate Lasting(v: SessionView, w: SessionView) {
    && (v.stopped ==> w.stopped && w.exposed == v.exposed) && (v.evidenceLost ==> w.evidenceLost)
    && (v.released ==> w.released && w.manifest == v.manifest)
    && (v.collected ==> w.collected && w.local == v.local)
  }

  lemma StartKeeps(c: Config, v: SessionView, call: Call)
    requires SessionInv(c, v) && call.StartOf?
    ensures var w := Perform(v, c, call).0; SessionInv(c, w) && Lasting(v, w) && (v.binding.Some? && v.started ==> w.binding == v.binding)
  {
  }

  lemma ReleaseKeeps(c: Config, v: SessionView, r: ReleaseResult)
    requires SessionInv(c, v)
    ensures var (w, goOn) := StopRelease(v.(stopped := true), r);
            && SessionInv(c, w) && Lasting(v, w) && w.binding == v.binding && w.stopped
            && (goOn ==> !w.evidenceLost && (w.registered ==> w.released))
  {
  }

  lemma EvidenceFrom(c: Config, v: SessionView, downloads: nat -> Download, local: map<string, string>)
    requires v.exposed && CollectFrom(c, true, v.manifest, downloads, 0, {}, v.local) == (local, true)
    ensures EvidenceComplete(c, v.(local := local))
  {
    CollectAccepts(c, true, v.manifest, downloads, 0, {}, v.local);
    forall n | n in Expected(c) ensures exists j :: 0 <= j < |v.manifest| && v.manifest[j].name == n {
      assert Named(v.manifest, 0, n);
    }
  }

  lemma CollectKeeps(c: Config, v: SessionView, downloads: nat -> Download)
    requires SessionInv(c, v) && v.stopped && !v.evidenceLost && (v.registered ==> v.released)
    ensures var (w, ok) := StopCollect(v, c, downloads);
            && SessionInv(c, w) && Lasting(v, w) && w.binding == v.binding && w.stopped && !w.evidenceLost
            && (ok ==> w.registered ==> w.released && w.collected)
  {
    if v.exposed && !v.collected {
      var (local, ok) := CollectFrom(c, true, v.manifest, downloads, 0, {}, v.local);
      if ok { EvidenceFrom(c, v, downloads, local); }
    }
  }

  lemma PerformKeeps(c: Config, v: SessionView, call: Call)
    requires SessionInv(c, v)
    ensures var (w, ok) := Perform(v, c, call);
            && SessionInv(c, w) && Lasting(v, w)
            && (v.binding.Some? && v.started ==> w.binding == v.binding)
            && (call.StopOf? && ok ==> w.stopped && !w.evidenceLost && (w.registered ==> w.released && w.collected))
  {
    if call.StartOf? {
      StartKeeps(c, v, call);
    } else {
      ReleaseKeeps(c, v, call.r);
      var (v1, goOn) := StopRelease(v.(stopped := true), call.r);
      if goOn { CollectKeeps(c, v1, call.downloads); }
    }
  }

  lemma {:induction false} PerformAllKeeps(c: Config, v: SessionView, calls: seq<Call>)
    requires SessionInv(c, v)
    ensures var w := PerformAll(v, c, calls); SessionInv(c, w) && Lasting(v, w)
    decreases |calls|
  {
    if calls == [] {
    } else {
      PerformKeeps(c, v, calls[0]);
      PerformAllKeeps(c, Perform(v, c, calls[0]).0, calls[1..]);
    }
  }

  /** If a session exposed an endpoint, a Stop that returns nil means that the release was
      confirmed and the evidence is complete; and it stays so after every further call. */
  lemma StopMeansEvidence(c: Config, calls: seq<Call>, stop: Call, more: seq<Call>)
    requires stop.StopOf? && PerformAll(NewSession, c, calls).exposed
    requires Perform(PerformAll(NewSession, c, calls), c, stop).1
    ensures var w := PerformAll(Perform(PerformAll(NewSession, c, calls), c, stop).0, c, more);
            w.released && w.collected && w.exposed && EvidenceComplete(c, w)
  {
    PerformAllKeeps(c, NewSession, calls);
    var v := PerformAll(NewSession, c, calls);
    PerformKeeps(c, v, stop);
    PerformAllKeeps(c, Perform(v, c, stop).0, more);
  }

  /** The bridge was found dead before an exposed session was released: no Stop ever succeeds. */
  lemma DeadBridgeFailsForever(c: Config, calls: seq<Call>, stop: Call, more: seq<Call>, last: Call)
    requires stop.StopOf? && stop.r == RpcFailed(false, false) && last.StopOf?
    requires var v := PerformAll(NewSession, c, calls); v.exposed && !v.released
    ensures var v := PerformAll(NewSession, c, calls);
            && !Perform(v, c, stop).1
            && !Perform(PerformAll(Perform(v, c, stop).0, c, more), c, last).1
  {
    var v := PerformAll(NewSession, c, calls);
    PerformAllKeeps(c, NewSession, calls);
    PerformKeeps(c, v, stop);
    PerformAllKeeps(c, Perform(v, c, stop).0, more);
  }

  /** Exactly when an exposed session's Stop succeeds after a confirmed release whose
      evidence is not collected yet: the manifest is good and the helper is gone. */
  lemma ExposedStopSucceedsExactly(c: Config, v: SessionView, r: ReleaseResult, downloads: nat -> Download, helperRemoved: bool)
    requires v.exposed && v.released && !v.collected && !v.evidenceLost
    ensures StopCall(v, c, r, downloads, helperRemoved).1
       <==> helperRemoved && ManifestGood(c, true, v.manifest, downloads, 0, {})
  {
    CollectAccepts(c, true, v.manifest, downloads, 0, {}, v.local);
  }

  /** What the manifest loop does to the collected files, successful or not: each is as before or has
      the content of its own download, and only a file whose write failed is gone. */
  ghost predicate FileOk(m: seq<Artifact>, downloads: nat -> Download, i: nat, local: map<string, string>, result: map<string, string>, n: string) {
    if n in result
    then (n in local && result[n] == local[n]) || exists j :: i <= j < |m| && Stored(m[j], downloads(j), n, result[n])
    else n in local ==> exists j :: i <= j < |m| && m[j].name == n && downloads(j).Archive? && !downloads(j).writeOk
  }

  predicate Stored(a: Artifact, d: Download, n: string, content: string) {
    a.name == n && a.status == "complete" && d == OneFile(a, content, true)
  }

  lemma {:induction false} CollectStores(c: Config, exposed: bool, m: seq<Artifact>, downloads: nat -> Download,
                                         i: nat, seen: set<string>, local: map<string, string>, n: string)
    requires i <= |m|
    ensures FileOk(m, downloads, i, local, CollectFrom(c, exposed, m, downloads, i, seen, local).0, n)
    decreases |m| - i
  {
    if i < |m| && EntryGood(c, exposed, m[i], downloads(i)) && m[i].name !in seen {
      var complete := !(Absent(m[i]) && !exposed);
      var next := if complete then local[m[i].name := downloads(i).entries[0].content] else local;
      CollectStores(c, exposed, m, downloads, i + 1, seen + {m[i].name}, next, n);
      if complete && n == m[i].name {
        MatchesExactly(c, m[i], downloads(i));
        assert Stored(m[i], downloads(i), n, next[n]);
      }
    }
  }

  // ----- what a complete Stop does, by its inputs -----

  /** The names that count, spelled out. */
  lemma NamesExactly(c: Config, n: string)
    ensures n in Expected(c) <==> n == "tool-calls.jsonl" || (c.retainRawLog && n == c.transport + "_raw.log")
  {
  }

  /** The archive of one regular, readable file and nothing else. */
  function OneFile(a: Artifact, content: string, writeOk: bool): Download {
    Archive(true, a.size, [TarEntry(true, a.name, a.size, true, content)], true, writeOk)
  }

  /** A download matches exactly when it is the archive of that one file, of the promised size and digest. */
  lemma MatchesExactly(c: Config, a: Artifact, d: Download)
    ensures Matches(c, a, d) <==>
              && (a.name == "tool-calls.jsonl" || a.name == c.transport + "_raw.log") && a.size <= 256 * 1024 * 1024
              && exists content: string, writeOk: bool ::
                   d == OneFile(a, content, writeOk) && |content| == a.size && c.digest(content) == a.sha256
  {
    if Matches(c, a, d) {
      assert d.entries == [d.entries[0]];
      assert d == OneFile(a, d.entries[0].content, d.writeOk);
    }
  }

  /** The server says RELEASED of the session's own ID, without a cleanup error. */
  predicate Confirms(v: SessionView, r: ReleaseResult) {
    && r.RpcAnswered? && r.access.Some? && v.binding.Some? && r.access.value.id == v.binding.value.sandboxId
    && r.access.value.state == Released && r.access.value.cleanupError == ""
  }

  /** The release could not be asked for because the bridge process is gone. */
  predicate FoundGone(r: ReleaseResult) { r.RpcFailed? && !r.running && !r.runErr }

  /** This Stop has a release to obtain. */
  predicate Asks(v: SessionView) { v.registered && !v.released && !v.evidenceLost }

  /** The evidence there is to collect is collected, or there is none. */
  ghost predicate EvidenceSettled(v: SessionView, c: Config, r: ReleaseResult, downloads: nat -> Download) {
    if !v.registered || v.collected then true
    else if v.released then ManifestGood(c, v.exposed, v.manifest, downloads, 0, {})
    else if Confirms(v, r) then
      (!v.exposed && r.access.value.artifacts == []) || ManifestGood(c, v.exposed, r.access.value.artifacts, downloads, 0, {})
    else FoundGone(r) && !v.exposed
  }

  /** From any session state a run can reach: Stop succeeds exactly when no evidence was lost, the
      release is confirmed now or was before, the evidence is settled and the helper is gone. */
  lemma StopSucceedsExactly(v: SessionView, c: Config, r: ReleaseResult, downloads: nat -> Download, helperRemoved: bool)
    requires SessionInv(c, v)
    ensures StopCall(v, c, r, downloads, helperRemoved).1 <==>
              !v.evidenceLost && EvidenceSettled(v, c, r, downloads) && helperRemoved
  {
    var v1 := StopRelease(v.(stopped := true), r).0;
    CollectAccepts(c, v.exposed, v1.manifest, downloads, 0, {}, v.local);
  }

  /** And what it leaves behind: everything but the files collected so far. */
  lemma StopLeaves(v: SessionView, c: Config, r: ReleaseResult, downloads: nat -> Download, helperRemoved: bool)
    requires SessionInv(c, v)
    ensures var w := StopCall(v, c, r, downloads, helperRemoved).0;
            && w.stopped
            && (w.released <==> v.released || (Asks(v) && (Confirms(v, r) || FoundGone(r))))
            && (w.evidenceLost <==> v.evidenceLost || (Asks(v) && FoundGone(r) && v.exposed))
            && (w.collected <==> v.collected || (v.registered && !v.evidenceLost && EvidenceSettled(v, c, r, downloads)))
            && w.manifest == (if Asks(v) && Confirms(v, r) then r.access.value.artifacts else v.manifest)
            && w == v.(stopped := true, released := w.released, evidenceLost := w.evidenceLost, collected := w.collected,
                       manifest := w.manifest, local := w.local)
  {
    var v1 := StopRelease(v.(stopped := true), r).0;
    CollectAccepts(c, v.exposed, v1.manifest, downloads, 0, {}, v.local);
  }
}
