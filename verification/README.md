# ARIES lifecycle model

A Dafny model of the parts of ARIES that own things and hand them over: the bridge control
protocol, the managed model process, the native SSH sessions, the task runner and its occurrence
scheduler, the streaming file procedures, and the parsers, filters, indexes and encoders with an
exact specification. `dafny verify dfyconfig.toml` checks all of it.

Concurrent code is modelled the same way everywhere. Every section that runs under a mutex is a
function from the old to the new fields; a class with those fields has one method per section,
proved equal to that function. A second module (`...Runs`) turns the functions into a transition
system in which sections of all threads, native calls, network deliveries, lost and repeated
messages, context ends and deadlines are actions, and proves its theorems about every list of
actions. A third (`...Results`, `...Answers`, `...Report`) says of every answer when it is given, in
raw fields and outcomes rather than through those functions. Where no lock joins a look at shared
state to what follows it, the two are separate actions, with everything else possible in between.
Code that only computes is a function with lemmas; loops are methods proved against it.

| module | source |
|---|---|
| `Control`, `ControlRuns`, `ControlStory`, `ControlAnswers` | control server: registration, release, close |
| `Session`, `Service`, `BridgeRuns`, `BridgeEvidence`, `BridgeClosing`, `BridgeResults`, `BridgeCalls` | client sessions, run-level service, and the whole bridge with an adversarial network |
| `Process`, `ProcessRuns`, `ProcessResults` | managed process: waiter and concurrent stops |
| `Ssh`, `SshRuns`, `SshResults` | native SSH sessions: admission, revocation, audit seal |
| `Runner`, `RunnerResults` | task runner, isolation gate, cleanup, summaries |
| `OccurrenceId`, `Scheduler`, `SchedulerRuns`, `SchedulerReport` | occurrence IDs, bounded admission, aggregation |
| `FileStreams`, `LineWindow`, `LineNumbers`, `WriteBody` | file procedures |
| `ShellWords`, `ShellErrors`, `PythonList`, `PythonListGrammar`, `PythonListErrors`, `Utf8`, `PatchFilter`, `PatchLines` | SWE-bench Pro inputs and patches |
| `Monitor`, `MonitorRuns`, `MonitorResults`, `Coverage` | CPU baselines and the coverage index |
| `MuLaw` | G.711 mu-law encoder |

Findings where the code does less than a reader may expect; each has its exact condition:

- A `Stop` before `Start` of the managed process is confirmed for good without a probe, and a
  process started afterwards is never stopped (`StopBeforeStartLeaksTheProcess`). A confirmed stop
  means a probed group if and only if no `Stop` came before `Start` (`ConfirmedMeansProbed`).
- A target that reads on after a write-stream error can still be told end-of-file, because a
  refused message is consumed (`ReadingPastAnErrorCanEnd`). `CanEndExactly` and
  `OnlyExactBodiesEndExactly` say for which streams; a target that stops at the first error is
  always safe (`FirstEndIsExact`).
- An occurrence can still be started after the run's context has ended or its deadline has passed,
  because nothing is looked at between the second look of `admit` and the start. It is at most
  one, and exactly the one already cleared (`LateAdmitsOnlyTheCleared`, `OneIsAdmittedLate`).
- A registration can still be sent after the service began to close (`ClosingDoesNotStopASend`): by
  a session that had looked before and not sent yet, or that awaits an answer to its registration
  and sends it again after a poll was answered NotFound. Nothing more can be sent exactly
  when there is no such session (`NothingMoreIsSentExactly`, `LateSendersHadLooked`), and never after the
  runtime is removed (`RemovalComesLast`).
- The smallest 64-bit sample is encoded as silence, because its negation wraps. It is the only
  sample outside the error bound (`AccurateExactly`), and the only one out of order: it decodes to
  0, which is more than what any sample below -3 decodes to (`DecodeMonotone`,
  `LowestBreaksOrder`).
- The execution-ID check accepts IDs that are never generated: those with needless leading zeros
  in the index, and only those (`AcceptedIsGenerated`, `AcceptedNotGenerated`).
- Mu-law word 0x7F, negative zero, is the only one that decoding and encoding changes
  (`DecodeEncode`).

## Model

The theorems come first, module group by module group. Behind them, from `Control.Entry.constructor`
on, stand the constructors, sections and loops of the code, each tied to the function or property
that the theorems are about.

| member | source | states |
|---|---|---|
| `BridgeRuns.Fencing` | pkg/bridge/session.go:139-203 | Once a Stop returned nil: the ID stays RELEASED without endpoint or the process is gone, every later answer about it says so, and the session sends nothing more, whatever the network delivers |
| `BridgeEvidence.StoppedMeansPublishedEvidence` | pkg/bridge/session.go:139-203 | In every run, after the Stop of an exposed session returned nil: the entry of its ID is RELEASED, the collected manifest is the one published there, and all evidence is complete, for good |
| `BridgeEvidence.DeadBridgeFailsEveryStop` | pkg/bridge/session.go:143-169 | In every run: if the bridge is gone before the server said RELEASED of an exposed session's ID, and the session was not released or has lost its evidence, no Stop of it ever succeeds, whatever old answers are delivered |
| `BridgeRuns.RemovalComesLast` | pkg/bridge/service.go:221-252 | When the runtime is removed, every session's Stop has returned, no Start is under way, and no session is added and no registration sent ever after |
| `BridgeClosing.NothingMoreIsSentExactly` | pkg/bridge/session.go:58-90 | In every run, from the moment the service begins to close: nothing more is sent in any continuation if and only if no session is preparing to send or awaiting an answer to its registration |
| `BridgeClosing.LateSendersHadLooked` | pkg/bridge/admission.go:14-38 | Whatever is sent after that moment comes from a session that was then in one of these two phases, the second because a poll answered NotFound sends the binding again |
| `BridgeRuns.ClosingDoesNotStopASend` | pkg/bridge/session.go:58-90 | A concrete run in which the service begins to close between the look of Start and its registration, which is still sent |
| `BridgeRuns.ResourcesGivenUpOnce` | pkg/bridge/service.go:207-252 | Removal, connection close and runtime close each succeed at most once over all concurrent and repeated Stops |
| `BridgeRuns.FailuresAreNeverForgotten` | pkg/bridge/service.go:207-252 | A recorded session failure is in the result of every later Stop |
| `BridgeResults.ShutdownResultExactly` | pkg/bridge/service.go:229-252 | In every run, a shutdown that ends succeeds if and only if the service is then closed with runtime, connection and deployment given up, no session failure is recorded and the allocation did not fail; the failures it reports are those recorded before and those of the Stops it asked for |
| `BridgeResults.SuccessMeansGivenUp` | pkg/bridge/service.go:207-252 | Whoever was told of a successful shutdown: at that and every later moment of every run everything is given up |
| `BridgeCalls.StartSettles` | pkg/bridge/admission.go:14-38 | In the whole system, a waiting session takes every script of answers as the registration loop does: it sends its binding again after each poll answered NotFound, and the first decisive answer settles or refuses it |
| `BridgeCalls.AskingStopIsCarriedOut` | pkg/bridge/session.go:139-203 | The steps of a Stop that asks for the release come to the complete call |
| `BridgeCalls.OthersLeaveSession` | pkg/bridge/session.go:50-203 | No step of anyone else changes a session |
| `BridgeRuns.RunKeeps` | pkg/bridge/service.go:190-252 | Every run of the whole system keeps its invariant and never takes back what later steps may rely on |
| `BridgeRuns.BelievedReleaseIsFenced` | pkg/bridge/session.go:146-172 | A session believes a release only when the server said RELEASED of its own ID or the process is gone |
| `ControlRuns.RunKeeps` | pkg/bridge/control/server.go:76-262 | Every run of handlers, goroutines, native outcomes and Close calls keeps the invariant and only moves entries forward |
| `ControlRuns.EntryInvariant` | pkg/bridge/control/server.go:80-231 | After every run: endpoint exactly in READY, one goroutine exactly while busy, native calls never overlapping or out of order, nothing native behind RELEASED |
| `ControlStory.ReadyEndpointIsNative` | pkg/bridge/control/server.go:105-133 | In every run, the endpoint of a READY access is the one a native registration of this ID returned without error |
| `ControlStory.ReleasedArtifactsAreNative` | pkg/bridge/control/server.go:210-231 | In every run, the artifacts of a RELEASED access are those a native release returned without error, and none only if no native release ever returned |
| `ControlStory.ErrorsAreNative` | pkg/bridge/control/server.go:105-231 | Whenever an entry rests: its error is that of its one registration, its cleanup error that of the newest native release, and a failed release can be tried again |
| `ControlAnswers.KnownIdIsAnswered` | pkg/bridge/control/server.go:82-93 | The immutable binding, in every run: a registration of a known ID is answered Ok with the entry exactly when the ID has no binding or this very one, and AlreadyExists otherwise |
| `ControlAnswers.ConflictIsRefused` | pkg/bridge/control/server.go:82-93 | Whatever happens between its arrival and its answer, a registration with another binding is refused |
| `ControlAnswers.RegistrationEnds` | pkg/bridge/control/server.go:105-133 | The end of every registration: READY at the returned endpoint exactly when it is usable and nobody asked for a release; otherwise the release follows, with the reason |
| `ControlAnswers.ReleaseEnds` | pkg/bridge/control/server.go:210-231 | The end of every release: RELEASED with the returned artifacts, or RELEASING with the error and the native sandbox kept |
| `ControlAnswers.ReleaseIsAnswered` | pkg/bridge/control/server.go:180-193 | A release is answered only once no goroutine is at work: RELEASED, or RELEASING with the error of the newest native release |
| `ControlAnswers.RegistrationIsAnswered` | pkg/bridge/control/server.go:65-75 | The sender of a registration is answered exactly when it is over, and never with REGISTERING |
| `ControlRuns.EntriesOnlyMoveForward` | pkg/bridge/control/server.go:80-231 | Between any two moments: same binding, state only along REGISTERING, READY, RELEASING, RELEASED, and RELEASED entries unchanged |
| `ControlRuns.CloseIsFinal` | pkg/bridge/control/server.go:234-262 | After Close returned nil, at every later moment all entries are RELEASED and no goroutine runs |
| `ControlRuns.EarlyReleaseClosesId` | pkg/bridge/control/server.go:162-176 | A release before any registration keeps the ID a tombstone for good: no native call ever, every registration answered RELEASED |
| `ControlRuns.NoLostWakeup` | pkg/bridge/control/server.go:180-193 | Whenever a handler waits for a channel, it is closed or the goroutine that closes it still runs |
| `ControlRuns.GoodHistory` | pkg/bridge/control/server.go:105-231 | What the automaton over native calls means: at most one in flight, release only after registration returned, nothing after a successful release, one registration |
| `Session.StopMeansEvidence` | pkg/bridge/session.go:139-203 | If an endpoint was exposed, a Stop that returned nil means a confirmed release and complete evidence, then and after every further call |
| `Session.DeadBridgeFailsForever` | pkg/bridge/session.go:143-158 | If the bridge was found dead before an exposed session was released, no Stop ever succeeds |
| `Session.ExposedStopSucceedsExactly` | pkg/bridge/session.go:173-203 | A Stop that has evidence to collect succeeds if and only if the manifest is good and the helper is gone |
| `Session.StopSucceedsExactly` | pkg/bridge/session.go:139-203 | From every reachable session state, Stop succeeds exactly when no evidence was lost, the release is confirmed, the evidence is settled and the helper is gone |
| `Session.StopLeaves` | pkg/bridge/session.go:139-203 | What every Stop leaves behind, field by field and by its inputs alone |
| `Session.StartExactly` | pkg/bridge/session.go:50-129 | Start succeeds exactly for a new session with a running service, a recorded binding and a usable endpoint, address and helper; it owns the registration exactly when it was sent |
| `Session.DecideExactly` | pkg/bridge/admission.go:16-37 | One answer returns exactly for READY, RELEASING or RELEASED of this ID, and polls exactly for REGISTERING of it or an uncertain error |
| `Session.MatchesExactly` | pkg/bridge/artifacts.go:79-117 | A download is accepted exactly when it is the archive of that one regular file with the promised size and digest |
| `Session.CollectAccepts` | pkg/bridge/artifacts.go:79-117 | The loop succeeds exactly when every entry is acceptable, named once, and all expected logs are named; what it keeps has the size and digest of the manifest |
| `Session.CollectStores` | pkg/bridge/artifacts.go:79-117 | Successful or not, every collected file is as before or has the content of its own download; only one whose write failed is gone |
| `Session.PerformKeeps` | pkg/bridge/session.go:50-203 | Every Start or Stop call keeps the session invariant; stopped, released, collected and lost evidence are never taken back |
| `ProcessRuns.SignalSafety` | internal/modelruntime/sglang/process.go:194-229 | In every interleaving, no signal after the reap, and no stop signal after the exit was observed |
| `ProcessRuns.UnexpectedExactly` | internal/modelruntime/sglang/process.go:194-229 | The exit is unexpected exactly when it is over and no stop signal was attempted |
| `ProcessRuns.ConfirmedMeansProbed` | internal/modelruntime/sglang/process.go:299-419 | A confirmed stop means the group was probed absent after the reap if and only if no Stop came before Start; then the result is exact |
| `ProcessResults.CleanMeansConfirmed` | internal/modelruntime/sglang/process.go:299-335 | In every run, a Stop that returned nil means a confirmed clean stop: signalled, over, and probed absent after the reap unless a Stop came before Start |
| `ProcessResults.ResultsAreTold` | internal/modelruntime/sglang/process.go:299-335 | Every other result not cut off by a deadline is the confirmed one, or names a protocol fault with cleanup failed |
| `ProcessResults.AttemptEnds` | internal/modelruntime/sglang/process.go:325-335 | A protocol fault is what its attempt returns, and confirms nothing; without one the result is confirmed, and clean exactly if residual kill and closing worked and the exit was wanted |
| `ProcessRuns.ConfirmationIsFinal` | internal/modelruntime/sglang/process.go:299-336 | After confirmation no Stop signals again, and every Stop that starts later returns the same result |
| `ProcessRuns.StopBeforeStartLeaksTheProcess` | internal/modelruntime/sglang/process.go:299-336 | A concrete run in which a process started after a Stop runs on while every Stop reports a clean stop |
| `SshRuns.JoinBeforeSeal` | pkg/bridge/ssh/bridge.go:247-301 | In every run all audit records come before the join, and the join before the seal |
| `SshRuns.CounterIsExact` | pkg/bridge/ssh/server.go:21-106 | The wait-group count is the number of live handlers at every moment, so the waiter fires only when none is left |
| `SshRuns.RevocationIsFinal` | pkg/bridge/ssh/bridge.go:277-301 | Once revoked, the live handlers can only become fewer, and join, seal and audit outcome stay |
| `SshResults.RevocationReachesAll` | pkg/bridge/ssh/bridge.go:277-301 | In every run, behind the revocation every connection still registered was closed by it, and before it none was |
| `SshResults.RevocationCloses` | pkg/bridge/ssh/bridge.go:277-301 | The first revocation closes exactly the connections registered at that moment; a repeated one closes none |
| `SshResults.IdleStopRepeats` | pkg/bridge/ssh/bridge.go:219-230 | A Stop of an idle manager returns the result of the last attempt, or nil if there was none |
| `SshRuns.StopMeansQuiet` | pkg/bridge/ssh/bridge.go:219-276 | A Stop that returned nil means all handlers joined and the audit sealed and completely written, then and at every later moment |
| `Runner.EveryTaskIsGated` | pkg/runner/runner.go:96-319 | Over every run and task list: each task is done, is evaluated exactly when isolation was confirmed and then behind the gate, and stops its evaluation sandboxes newest first |
| `Runner.IsolationGate` | pkg/runner/runner.go:284-319 | In a log that keeps the rules, Evaluate happens at most once, after nil results of both stops that are later than every start and run, and nothing starts or runs after it |
| `Runner.EveryStartIsStopped` | pkg/runner/runner.go:155-186 | In a settled log every started sandbox, bridge and harness has a later stop attempt |
| `Runner.NewestFirst` | pkg/runner/runner.go:431-477 | Evaluation sandboxes are stopped in the reverse of the order they were started, each exactly once |
| `Runner.SandboxGoesLast` | pkg/runner/runner.go:178-186 | The stop of a task's own sandbox is the last call |
| `Runner.CallsKeepRules` | pkg/runner/runner.go:124-319 | For every combination of outcomes the calls keep all rules of the monitor and end in a known state |
| `Runner.CleanupTellsAll` | pkg/runner/runner.go:187-197 | Cleanup is "not needed" exactly when nothing was started, "succeeded" exactly when nothing started is left, "failed" exactly when something is |
| `Runner.FollowedIsDone` | pkg/runner/runner.go:124-319 | Hence a finished task is settled, its cleanup status exact, its leftovers those the monitor knows, and no failure lost |
| `Runner.SummariesAdd` | pkg/runner/runner.go:405-429 | Adding two summaries is recounting both lists |
| `RunnerResults.SuccessIsExact` | pkg/runner/runner.go:124-319 | A task succeeds exactly when every step did: start, run, both isolation stops, evaluation and every sandbox stop, within its context |
| `RunnerResults.StatusesTell` | pkg/runner/runner.go:213-319 | Each status by the raw outcomes: canceled or failed by the error, the component's own status, or success if it gave none; blocked without isolation |
| `RunnerResults.CleanupIsExact` | pkg/runner/runner.go:155-197 | Cleanup failed exactly when a stop still owed at the end did not work, and was not needed exactly without a sandbox |
| `RunnerResults.CallsAreExact` | pkg/runner/runner.go:124-319 | A call is in the log exactly when the outcomes call for it, with their answer; the length of the log says none is made twice |
| `RunnerResults.LeftAreTheFailed` | pkg/runner/runner.go:463-477 | The evaluation sandboxes kept are those whose stop failed, in order |
| `RunnerResults.SummaryIsHowMany` | pkg/runner/runner.go:405-429 | Each field of the summary is the number of tasks with those statuses |
| `SchedulerRuns.Bounded` | internal/app/execution.go:80-148 | In every run at most `concurrency` occurrences run, held tokens are those of occurrences plus the one in hand, admitted names are a prefix of the list, its endless repetition or the arrivals, and all execution IDs differ |
| `SchedulerRuns.LateAdmitsOnlyTheCleared` | internal/app/execution.go:84-114 | After the context or the deadline is over, any continuation adds at most one slot, and does so exactly when the second look had already passed and its pending admission is taken |
| `SchedulerRuns.OneIsAdmittedLate` | internal/app/execution.go:95-112 | A concrete run in which the context ends behind the second look and an occurrence is started all the same |
| `SchedulerRuns.OrderDoesNotMatter` | internal/app/execution.go:149-169 | Slots and report of a returned run depend on what each occurrence produced, not on any order of completion |
| `SchedulerReport.RunReportsInOrder` | internal/app/execution.go:149-169 | In every run the report has the results and faults slot by slot in admission order and nothing else; once returned, each slot's place holds what that very occurrence stored, under the plan's name |
| `SchedulerReport.TasksInOrder` | internal/app/execution.go:152-154 | The results of slot k stand from the sum of the lengths of all earlier outputs on, and there are no others |
| `SchedulerReport.FaultsInOrder` | internal/app/execution.go:155-163 | The faults are exactly those of the failed occurrences and overflows, by increasing position |
| `SchedulerReport.OrderDetermines` | internal/app/execution.go:149-169 | Only one list of results is in that order |
| `SchedulerReport.NothingIsLeftOut` | internal/app/execution.go:114-149 | A run that stops admitting without an ended context, a passed deadline or an overflow has admitted its whole list, each task once |
| `SchedulerReport.AdmissionIsPrompt` | internal/app/execution.go:84-98 | The loop gives up at once when the context or the deadline is over, otherwise only behind its list, and takes a place exactly while one is free |
| `SchedulerRuns.NoDeadlock` | internal/app/execution.go:84-150 | Until it returns, the scheduler can move or an occurrence is still running |
| `SchedulerRuns.ReportRecounts` | internal/app/execution.go:171-180 | The total of every run equals recounting its concatenated tasks |
| `Scheduler.StepKeeps` | internal/app/execution.go:81-148 | Every step keeps: tokens exact and bounded, slots in plan order, cursor exact |
| `Scheduler.AdmitsTheNext` | internal/app/execution.go:99-106 | The occurrence started is the one nextTaskOccurrence names, and the slot is an error exactly when that fails |
| `Scheduler.WrapIsRemainder` | internal/app/execution.go:143-149 | The position around the task list is the remainder of the admission count |
| `OccurrenceId.IdsAreDistinct` | internal/app/execution.go:37-43 | Two IDs are equal exactly when logical ID and index are, even if one logical ID is a prefix of the other |
| `OccurrenceId.IndexReadsBack` | internal/app/execution.go:42-42 | For every logical ID and index, the digits behind the last hyphen are the index |
| `OccurrenceId.NextReadsBack` | internal/app/execution.go:37-43 | Fails exactly at the largest index; otherwise the new index can be read back from the ID alone |
| `OccurrenceId.GeneratedIsAccepted` | pkg/benchmark/terminalbench/terminalbench.go:474-513 | For every safe logical ID and positive 64-bit index the ID passes the execution-ID check and has at most 149 characters |
| `OccurrenceId.AcceptedExactly` | pkg/benchmark/terminalbench/terminalbench.go:487-500 | The check accepts exactly the logical ID, a hyphen and at least three digits of a positive 64-bit number, safe and within 149 characters |
| `OccurrenceId.SafeExactly` | pkg/benchmark/terminalbench/terminalbench.go:502-513 | A safe identity is exactly a nonempty text over its alphabet with a letter or digit first; it holds no separator and is no directory reference |
| `OccurrenceId.AcceptedIsGenerated` | pkg/benchmark/terminalbench/terminalbench.go:487-500 | An accepted ID is a generated one exactly when its index has three digits or no leading zero |
| `OccurrenceId.AcceptedNotGenerated` | pkg/benchmark/terminalbench/terminalbench.go:487-500 | A concrete ID, "a-0001" of "a", that is accepted and never generated |
| `LineWindow.BytesMatchLines` | pkg/bridge/grpc/files.go:315-356 | Passing bytes one at a time emits exactly the selected lines, each cut with its newline kept |
| `LineNumbers.WindowIsItsLines` | pkg/bridge/grpc/files.go:315-356 | The window is the lines numbered from first on, at most count of them, each cut, one behind the other |
| `LineNumbers.CutExactly` | pkg/bridge/grpc/files.go:330-339 | A cut line keeps its newline and the first bytes of its body up to the clamp |
| `LineWindow.ReadLines` | pkg/bridge/grpc/files.go:315-356 | For every content, window, clamp and buffering: the window is written, with exact newline count, trailing-newline and more flags |
| `LineWindow.StreamLines` | pkg/bridge/grpc/files.go:272-313 | With chunking and flush: the messages concatenate to the window, none is empty, all but the last are full |
| `LineWindow.MoreMeansTerminatedLineBehind` | pkg/bridge/grpc/files.go:347-355 | What the summary says, exactly: how many lines are terminated, whether the content ends with a newline, and whether a terminated line lies behind the window |
| `LineWindow.LinesAreTheContent` | pkg/bridge/grpc/files.go:315-356 | The lines of the specification concatenate to the content |
| `LineWindow.LinesPartition` | pkg/bridge/grpc/files.go:315-356 | Each line holds one newline at most, at its end, and only the last may lack it |
| `LineWindow.TerminatedLines` | pkg/bridge/grpc/files.go:315-356 | The newline count is the number of lines, less an unterminated last one |
| `WriteBody.FirstEndIsExact` | pkg/bridge/grpc/files.go:388-418 | A target that stops at it gets end-of-file exactly for a matching body and has received that body; overrun, second header and early close are errors |
| `WriteBody.CanEndExactly` | pkg/bridge/grpc/files.go:388-418 | Some way to read a stream ends it if and only if the client closed it and its messages, refused ones skipped, add up to the declared size |
| `WriteBody.OnlyExactBodiesEndExactly` | pkg/bridge/grpc/files.go:388-418 | For all ways to read, only matching bodies end if and only if the stream matches, breaks, or does not add up when refused messages are skipped |
| `WriteBody.ReadingPastAnErrorCanEnd` | pkg/bridge/grpc/files.go:408-411 | A concrete stream that gives an error first and end-of-file next |
| `WriteBody.EofMeansDeclaredBytes` | pkg/bridge/grpc/files.go:388-418 | End-of-file comes only after exactly the declared bytes, equal to what the sink saw |
| `WriteBody.ReadsConserve` | pkg/bridge/grpc/files.go:395-418 | Over any Reads nothing is lost, repeated or reordered; sink and remainder add up to the header |
| `WriteBody.VerdictIsExact` | pkg/bridge/grpc/files.go:395-418 | The first result that is not data is end-of-file exactly for a matching body |
| `WriteBody.VerdictTells` | pkg/bridge/grpc/files.go:395-418 | Mismatch as soon as a message cannot be taken, otherwise the receive error of a broken stream, otherwise end-of-file exactly with the declared length |
| `WriteBody.ReadFills` | pkg/bridge/grpc/files.go:395-418 | A Read fills the buffer or empties what is pending, gives nothing only to an empty buffer, and gives data before any end or error |
| `ShellWords.ParserDecidesGrammar` | pkg/benchmark/swebenchpro/command.go:47-99 | A line is accepted with some words if and only if it is such a line with that meaning |
| `ShellErrors.RejectedExactly` | pkg/benchmark/swebenchpro/command.go:47-99 | A line is rejected with an error exactly when, behind a good beginning, it has that flaw: an open quote or escape, an unquoted metacharacter, or an empty word |
| `ShellWords.GrammarIsAccepted` | pkg/benchmark/swebenchpro/command.go:47-99 | Every line of plain, escaped and quoted pieces parses to their meaning |
| `ShellWords.NoUnquotedMeta` | pkg/benchmark/swebenchpro/command.go:84-90 | Every metacharacter of an accepted line is quoted or escaped |
| `ShellWords.QuotingRoundTrip` | pkg/benchmark/swebenchpro/command.go:47-99 | Double-quoting, escaping and joining any nonempty words parses back to them |
| `PythonListGrammar.ParserDecidesGrammar` | pkg/benchmark/swebenchpro/dataset.go:233-370 | An input gives some values if and only if it is such a printed list of them |
| `PythonListErrors.ListRejectedExactly` | pkg/benchmark/swebenchpro/dataset.go:233-276 | An input is rejected with an error exactly when, behind good distinct elements, it has that flaw |
| `PythonListErrors.StringRejectedExactly` | pkg/benchmark/swebenchpro/dataset.go:278-335 | A string is rejected with an error exactly when good pieces are followed by that flaw |
| `PythonListErrors.EscapeRoundTrip` | pkg/benchmark/swebenchpro/dataset.go:337-351 | An escape of any allowed rune, printed with the digits its letter announces, adds the UTF-8 of that rune |
| `PythonListErrors.HexExactly` | pkg/benchmark/swebenchpro/dataset.go:337-351 | Digits give their own number and are refused exactly for a control, a surrogate or a number beyond Unicode |
| `PythonListErrors.SpaceExactly` | pkg/benchmark/swebenchpro/dataset.go:353-362 | White space is blanks, tabs, newlines and carriage returns, and all of it in front is skipped |
| `PythonListGrammar.PrintedIsAccepted` | pkg/benchmark/swebenchpro/dataset.go:233-370 | Every printed list of distinct clean strings, with any white space, quotes, escapes and trailing comma, parses to its values |
| `PythonListGrammar.AcceptedValuesAreSound` | pkg/benchmark/swebenchpro/dataset.go:253-262 | Accepted values are distinct, nonempty, valid UTF-8 and free of control characters |
| `PythonListGrammar.PrintRoundTrip` | pkg/benchmark/swebenchpro/dataset.go:233-370 | Printing any distinct clean strings parses back to them |
| `PythonListGrammar.ControlsAreBytes` | pkg/benchmark/swebenchpro/dataset.go:290-292 | In valid text, control runes and control bytes are the same thing |
| `Utf8.ValidMeansEncoded` | pkg/benchmark/swebenchpro/dataset.go:290-292 | Text that passes the validity scan encodes its runes |
| `Utf8.EncodedIsValid` | pkg/benchmark/swebenchpro/dataset.go:310-327 | Encoded runes pass the scan and decode to themselves |
| `PatchFilter.FilterKeepsText` | pkg/benchmark/swebenchpro/evaluate.go:376-421 | The output has the same preamble and exactly the text sections as its sections, none binary |
| `PatchLines.FilterExactly` | pkg/benchmark/swebenchpro/evaluate.go:376-412 | The filter in one: the preamble, then each section in its place unless it is binary |
| `PatchLines.KeepsEach` | pkg/benchmark/swebenchpro/evaluate.go:397-411 | Sections are kept or dropped each by itself, in order |
| `PatchLines.MarkExactly` | pkg/benchmark/swebenchpro/evaluate.go:414-421 | The lines that mark a section as binary, spelled out, with the one whose prefix and suffix overlap |
| `PatchLines.StartExactly` | pkg/benchmark/swebenchpro/evaluate.go:376-392 | A section starts exactly where git's header opens a line |
| `PatchLines.LinesAreBetweenNewlines` | pkg/benchmark/swebenchpro/evaluate.go:414-416 | The lines looked at join back to the section with newlines and hold none |
| `PatchLines.LinesAreDetermined` | pkg/benchmark/swebenchpro/evaluate.go:414-416 | And no other lines do |
| `PatchFilter.FilterTwice` | pkg/benchmark/swebenchpro/evaluate.go:376-421 | Filtering again changes nothing, and never makes a patch longer |
| `PatchFilter.PatchIsItsParts` | pkg/benchmark/swebenchpro/evaluate.go:380-412 | A patch is its preamble and its sections, each with one start and all but the last ending a line |
| `MonitorRuns.BaselineKeptExactly` | pkg/monitor/recorder.go:351-493 | Over every history of samples, a baseline is kept exactly if the runtime was measured and never since absent for more than the grace in a row |
| `MonitorRuns.RatesTelescope` | pkg/monitor/recorder.go:455-475 | Over any stretch for which it is kept, rates times elapsed time add up to the counter difference |
| `MonitorResults.RateExactly` | pkg/monitor/recorder.go:455-475 | A rate is refused exactly when time did not advance, the counter fell or the bound is passed; a first reading reports zero; only its own baseline moves |
| `MonitorResults.TakeExactly` | pkg/monitor/recorder.go:369-402 | A reading is taken exactly when valid, rated or of a GPU, and written; a GPU reports zero and has no baseline |
| `MonitorResults.TakesInTurn` | pkg/monitor/recorder.go:369-402 | Readings are taken in turn, and the first that is not taken stops the sample |
| `Coverage.CountsSumToSequence` | pkg/monitor/artifacts.go:226-238 | In whatever order the entries are listed, their counts sum to the sample sequence |
| `Coverage.TallyIsExact` | pkg/monitor/artifacts.go:186-202 | Every entry has the count of its key, the name and second of its first sample and the second of its last |
| `Coverage.CountIsHowMany` | pkg/monitor/artifacts.go:187-202 | The count of a key is the number of its samples |
| `MuLaw.AccurateExactly` | pkg/audio/audio.go:277-296 | Decoding by Tables 2a and 2b of G.711 is within a 32nd of the biased magnitude, if and only if the sample is not the smallest 64-bit number |
| `MuLaw.DecodeMonotone` | pkg/audio/audio.go:277-296 | Larger samples decode to no smaller values, if and only if the smaller is not the smallest 64-bit number with the larger another one below -3 |
| `MuLaw.LowestBreaksOrder` | pkg/audio/audio.go:277-296 | A concrete pair out of order: the smallest 64-bit number decodes to 0, above what -1000 decodes to |
| `MuLaw.DecodeEncode` | pkg/audio/audio.go:277-296 | Decoding and encoding again gives the same word, except for negative zero |
| `MuLaw.LevelsAreTheTables` | pkg/audio/audio.go:277-296 | The decoder the encoder is measured against has the levels of the tables of G.711 |
| `MuLaw.BufferIsAccurate` | pkg/audio/audio.go:230-243 | Accuracy and order lift to every sample of every buffer |
| `MuLaw.SamplesReadBack` | pkg/audio/audio.go:238-241 | Samples written low byte first are the samples encoded |
| `Control.Entry.constructor` | pkg/bridge/control/server.go:98-103 | A new entry is registering and busy, or the released tombstone of an ID never registered |
| `Control.Entry.Release` | pkg/bridge/control/server.go:194-210 | releaseLocked: drops the endpoint at once, never leaves RELEASED, starts an operation exactly when none runs |
| `Control.Entry.CompleteRegister` | pkg/bridge/control/server.go:105-133 | End of the registration goroutine: READY only from REGISTERING with a usable endpoint; a failed or overtaken registration goes on to a release |
| `Control.Entry.CompleteRelease` | pkg/bridge/control/server.go:210-231 | End of the release goroutine: RELEASED with its artifacts on success, retryable with a cleanup error otherwise |
| `Control.Server.constructor` | pkg/bridge/control/server.go:49-57 | A new server has no entries and is open |
| `Control.Server.RegisterSandbox` | pkg/bridge/control/server.go:76-104 | First section: an existing entry is never replaced, a closing server admits nothing, otherwise exactly one entry is added; what a known ID is answered is `ControlAnswers.KnownIdIsAnswered` |
| `Control.Server.ReleaseLookup` | pkg/bridge/control/server.go:158-170 | An unseen ID is reserved as a tombstone; known entries keep their identity |
| `Control.Server.BeginClose` | pkg/bridge/control/server.go:234-241 | Close stops admission and captures all IDs |
| `ControlAnswers.IdentifierExactly` | pkg/bridge/control/server.go:47-47 | Identifiers are exactly the texts of the pattern |
| `ControlAnswers.RegisterArrives` | pkg/bridge/control/server.go:76-104 | A registration that arrives, in every run: malformed, known, too late, or the start of an entry for exactly this request |
| `ControlAnswers.GetArrives` | pkg/bridge/control/server.go:137-157 | A query that arrives: malformed, unknown, or looking at its entry |
| `ControlAnswers.GetIsAnswered` | pkg/bridge/control/server.go:149-157 | A query is answered with the entry's access |
| `ControlAnswers.ReleaseArrives` | pkg/bridge/control/server.go:158-170 | A release that arrives: malformed, known, or the reservation of an unknown ID |
| `ControlAnswers.ReleaseBegins` | pkg/bridge/control/server.go:171-209 | Answered at once when RELEASED; otherwise the endpoint is withdrawn and exactly one goroutine is at work, which the caller waits for |
| `ControlAnswers.ReleaseWaits` | pkg/bridge/control/server.go:180-183 | Whoever waits for a release is woken by its channel alone |
| `ControlAnswers.CancelIsAnswered` | pkg/bridge/control/server.go:66-75 | Only a waiting handler can be interrupted, and nothing else changes |
| `ControlAnswers.CallIsMade` | pkg/bridge/control/server.go:105-113 | A goroutine reaches its native call exactly when there is something to call |
| `ControlAnswers.CallReturns` | pkg/bridge/control/server.go:113-114 | A native answer goes to the goroutine that asked |
| `ControlAnswers.CloseArrives` | pkg/bridge/control/server.go:234-241 | Close stops admission and captures every ID there is |
| `ControlAnswers.CloseReleases` | pkg/bridge/control/server.go:244-250 | Close releases each captured ID |
| `Session.BridgeSession.constructor` | pkg/bridge/session.go:29-42 | A new session owns nothing |
| `Session.BridgeSession.RegisterSandbox` | pkg/bridge/admission.go:14-47 | The reconciliation loop, told by answers: it asks again exactly while they leave the outcome open, returns exactly the first access past REGISTERING of this ID, and nothing exactly if the answers run out or one refuses; the binding is repeated only after a poll answered NotFound |
| `Session.BridgeSession.Start` | pkg/bridge/session.go:50-129 | Start succeeds exactly when it sends and the first decisive answer is a usable access to its own ID; ownership flags by its sections |
| `Session.BridgeSession.Collect` | pkg/bridge/session.go:173-201 | The manifest loop against its recursive form |
| `Session.BridgeSession.Stop` | pkg/bridge/session.go:139-203 | All paths of Stop over release, lost bridge, evidence and helper removal |
| `BridgeCalls.StartLooks` | pkg/bridge/session.go:50-65 | The look of Start at the service, as a step of the whole system |
| `BridgeCalls.StartSends` | pkg/bridge/session.go:66-92 | The binding leaves the session exactly when it was exported and recorded |
| `BridgeCalls.AnswerExactly` | pkg/bridge/admission.go:16-37 | One answer to a waiting session of the whole system: kept waiting, settled or refused |
| `BridgeCalls.KeepsWaiting` | pkg/bridge/admission.go:14-38 | While the answers leave the outcome open, the session waits on and has sent its binding again after each poll answered NotFound |
| `BridgeCalls.StartEnds` | pkg/bridge/session.go:93-129 | The end of a settled Start exposes exactly a usable endpoint with address and helper |
| `BridgeCalls.StopBegins` | pkg/bridge/session.go:139-146 | A Stop asks for the release exactly when it is owed, fails at once when evidence was lost, and collects otherwise |
| `BridgeCalls.StopIsAnswered` | pkg/bridge/session.go:147-172 | A release answer lets the Stop go on or ends it |
| `BridgeCalls.StopCollects` | pkg/bridge/session.go:173-203 | The last part of a Stop, with its result told to the shutdown that asked |
| `Service.BridgeService.constructor` | pkg/bridge/service.go:53-86 | A new service holds nothing |
| `Service.BridgeService.StartService` | pkg/bridge/service.go:101-189 | Running only with runtime and connection; what was allocated is kept for Stop |
| `Service.BridgeService.NewSession` | pkg/bridge/service.go:190-206 | Sessions are added only while running |
| `Service.BridgeService.BeginStop` | pkg/bridge/service.go:207-216 | Stop closes admission, and is done at once when closed |
| `Service.BridgeService.EndStop` | pkg/bridge/service.go:229-252 | Failures are recorded, then removal, connection and runtime are given up in order, each only if still held, with the exact result |
| `BridgeResults.AttemptExactly` | pkg/bridge/service.go:229-252 | What one attempt gives up, in which order, and what it reports, by the fields |
| `BridgeResults.ShutdownBeginExactly` | pkg/bridge/service.go:207-216 | A shutdown of a closed service is answered at once with the same meaning; any other closes admission |
| `BridgeResults.StartsExactly` | pkg/bridge/service.go:101-189 | A service starts once, and runs exactly with a confirmed runtime and a connection |
| `Process.JoinStopErrors` | internal/modelruntime/sglang/process.go:65-75 | Nil exactly when nothing failed; each fault is in the result exactly if it happened; cleanup failed unless the unexpected exit is the only fault |
| `Process.Runtime.constructor` | internal/modelruntime/sglang/process.go:120-150 | A new runtime is idle |
| `Process.Runtime.Observe` | internal/modelruntime/sglang/process.go:198-210 | The exit is recorded before the reap, and the rest of the group killed unless a stop did |
| `Process.Runtime.Finish` | internal/modelruntime/sglang/process.go:211-229 | After the reap: done, and unexpected unless a stop had signalled |
| `Process.Runtime.Send` | internal/modelruntime/sglang/process.go:382-401 | Nothing is sent once the exit was observed |
| `Process.Runtime.EnterStop` | internal/modelruntime/sglang/process.go:299-323 | A call returns the confirmed result, joins the running attempt, confirms at once when nothing was started, or runs |
| `Process.Runtime.LeaveStop` | internal/modelruntime/sglang/process.go:325-335 | Confirmed only without a protocol fault, with exactly the collected faults in the result |
| `ProcessResults.StopComesIn` | internal/modelruntime/sglang/process.go:299-323 | The four ways a Stop comes in, by the fields |
| `ProcessResults.SignalIsSent` | internal/modelruntime/sglang/process.go:382-401 | TERM first, KILL after the deadline; withheld once the exit was observed; a failed one ends the protocol with its own fault |
| `ProcessResults.WaitEnds` | internal/modelruntime/sglang/process.go:337-355 | What a waiting call does when the exit is over or its attempt ended |
| `ProcessResults.DeadlineComes` | internal/modelruntime/sglang/process.go:337-380 | What a deadline does at each point: give up alone, go on to KILL, or end with the fault that tells where |
| `ProcessResults.ProbeAnswers` | internal/modelruntime/sglang/process.go:402-419 | The protocol ends without a fault exactly when the group is probed absent |
| `ProcessResults.ExitIsObserved` | internal/modelruntime/sglang/process.go:198-210 | The residual kill is sent unless a Stop did, and its failure remembered |
| `ProcessResults.WaiterEnds` | internal/modelruntime/sglang/process.go:211-229 | The end of the waiter, with what failed and why the exit is unexpected |
| `Ssh.BridgeSession.constructor` | pkg/bridge/ssh/bridge.go:70-91 | A new session is not revoked, has no connections and counts nothing yet |
| `Ssh.BridgeSession.AcceptConnection` | pkg/bridge/ssh/server.go:21-42 | A connection is counted under the lock that also checks revocation |
| `Ssh.BridgeSession.OpenChannel` | pkg/bridge/ssh/server.go:84-106 | A channel handler is counted under the same lock, or refused |
| `Ssh.BridgeSession.RevokeOnce` | pkg/bridge/ssh/bridge.go:277-302 | The first revocation closes admission and hands over all connections; later ones do nothing |
| `Ssh.Manager.constructor` | pkg/bridge/ssh/bridge.go:92-128 | A new manager is unused |
| `Ssh.Manager.Start` | pkg/bridge/ssh/bridge.go:129-211 | One start per manager; a failed one keeps its session only when cleanup failed too |
| `Ssh.Manager.BeginStop` | pkg/bridge/ssh/bridge.go:219-245 | Stops join the running attempt or run; an inactive manager repeats its last result |
| `Ssh.Manager.EndStop` | pkg/bridge/ssh/bridge.go:247-262 | A failed stop keeps the session for a retry |
| `SshResults.ConnectionIsAdmitted` | pkg/bridge/ssh/server.go:21-42 | A connection is admitted exactly while neither revoked nor canceled; otherwise the accept loop ends |
| `SshResults.ChannelIsAdmitted` | pkg/bridge/ssh/server.go:84-106 | A channel is admitted under the same condition and its connection's |
| `SshResults.HandlersEnd` | pkg/bridge/ssh/server.go:44-50 | Every handler that ends is counted out once |
| `SshResults.WaiterJoins` | pkg/bridge/ssh/bridge.go:299-301 | The waiter fires exactly when revoked with no goroutine left |
| `SshResults.StartAnswers` | pkg/bridge/ssh/bridge.go:129-211 | The three ends of a start, by the fields |
| `SshResults.StopComesIn` | pkg/bridge/ssh/bridge.go:219-245 | A Stop repeats the last result, joins the running attempt or runs its own |
| `SshResults.JoinIsAwaited` | pkg/bridge/ssh/bridge.go:303-318 | An attempt waits for the join or gives up at its deadline |
| `SshResults.AuditIsAwaited` | pkg/bridge/ssh/bridge.go:264-276 | Without an audit the removal decides; with one it is sealed first and its writing decides |
| `SshResults.AttemptEnds` | pkg/bridge/ssh/bridge.go:252-262 | The result of an attempt is returned, remembered, and decides whether the session is kept |
| `SshResults.FollowerReturns` | pkg/bridge/ssh/bridge.go:231-244 | Whoever waited returns the last result there is, or fails at its own deadline |
| `Runner.TaskRun.constructor` | pkg/runner/runner.go:124-143 | A new task run owns nothing |
| `Runner.TaskRun.StartComponents` | pkg/runner/runner.go:213-245 | Sandbox, preparation and bridge; a failed bridge start still owes a stop |
| `Runner.TaskRun.RunHarness` | pkg/runner/runner.go:246-282 | A failed harness start still owes a stop, and the harness runs only after a successful one |
| `Runner.TaskRun.Isolate` | pkg/runner/runner.go:284-309 | Both stops are tried; confirmed only when both succeeded, otherwise evaluation is blocked |
| `Runner.TaskRun.EvaluateTask` | pkg/runner/runner.go:310-319 | Evaluation and the sandboxes it starts, with the status it reports |
| `Runner.TaskRun.StopEvaluation` | pkg/runner/runner.go:463-477 | Evaluation sandboxes are stopped newest first and exactly the failed ones are kept, in their original order |
| `RunnerResults.LeftIsKept` | pkg/runner/runner.go:463-477 | What a finished task keeps |
| `Runner.TaskRun.StopComponents` | pkg/runner/runner.go:163-186 | Harness, bridge and sandbox each get one stop attempt if still active |
| `Runner.TaskRun.Finish` | pkg/runner/runner.go:155-211 | The common end of all paths: calls, kept sandboxes, cleanup status and verdict |
| `Runner.TaskRun.Run` | pkg/runner/runner.go:124-319 | Every path makes exactly the calls its outcomes determine, with the statuses that tell them |
| `Runner.RunTasks` | pkg/runner/runner.go:107-117 | Tasks run in order up to the first ended context; a failed task hides no other |
| `Runner.Run` | pkg/runner/runner.go:96-122 | One record per scheduled task, the summary that recounts them, and failure exactly when a task failed or was not scheduled |
| `Runner.Summarize` | pkg/runner/runner.go:405-429 | The summary loop equals counting each class of results |
| `Runner.CountTask` | pkg/runner/runner.go:408-427 | One result adds one to exactly the fields of its classes |
| `Scheduler.Configure` | internal/app/execution.go:59-71 | Refused exactly for no concurrency, no tasks, arrivals with a loop, or arrivals of another length; arrivals, one pass, or repetition with a deadline exactly for a positive loop |
| `Scheduler.Pool.constructor` | internal/app/execution.go:81-84 | An empty pool |
| `Scheduler.Pool.PutToken` | internal/app/execution.go:89-95 | Taking a token in the select |
| `Scheduler.Pool.CheckAgain` | internal/app/execution.go:95-98 | The second look with a token in hand: clears the admission, or gives the token back and ends the loop |
| `Scheduler.Pool.StartNext` | internal/app/execution.go:99-113 | The admission itself, which looks at neither context nor clock: next occurrence, or an error slot on overflow |
| `Scheduler.Pool.StoreOutput` | internal/app/execution.go:109-113 | An occurrence stores its output in its own slot |
| `Scheduler.Pool.ReleaseToken` | internal/app/execution.go:110-112 | Its token is given back |
| `SchedulerRuns.Aggregate` | internal/app/execution.go:149-169 | The aggregation loop gives the report that `SchedulerReport.RunReportsInOrder` puts in admission order |
| `FileStreams.ChunkWriter.constructor` | pkg/bridge/grpc/files.go:173-177 | An empty batch |
| `FileStreams.ChunkWriter.Flush` | pkg/bridge/grpc/files.go:196-203 | Sends the batch if there is one; an empty message is never sent |
| `FileStreams.ChunkWriter.Write` | pkg/bridge/grpc/files.go:178-195 | Accepts exactly the content; every message sent is full and a full batch is never kept back |
| `FileStreams.ContentSink.constructor` | pkg/bridge/grpc/files.go:139-150 | An empty sink |
| `FileStreams.ContentSink.Write` | pkg/bridge/grpc/files.go:151-169 | Counts and hashes what was passed on; the retained copy is the whole content or empty past the bound |
| `LineWindow.EmitSlice` | pkg/bridge/grpc/files.go:321-344 | One slice of any size is written as that many bytes of the byte form, without 64-bit overflow |
| `LineWindow.Pump` | pkg/bridge/grpc/files.go:315-354 | The loop over any slicing of the content follows the byte form |
| `LineWindow.SendRest` | pkg/bridge/grpc/files.go:301-303 | The final flush leaves messages that concatenate to all accepted content, none empty and all but the last full |
| `WriteBody.StreamReader.constructor` | pkg/bridge/grpc/files.go:388-394 | A reader that expects the header's size |
| `WriteBody.StreamReader.ReadInto` | pkg/bridge/grpc/files.go:395-418 | Read with any buffer against its recursive form, feeding the sink |
| `ShellWords.ParseShellWords` | pkg/benchmark/swebenchpro/command.go:47-99 | The nested index loops equal a character automaton, with the same errors |
| `ShellWords.ReadWord` | pkg/benchmark/swebenchpro/command.go:56-92 | One word up to its blank |
| `ShellWords.ReadQuoted` | pkg/benchmark/swebenchpro/command.go:60-76 | One quoted piece up to its closing quote |
| `PythonList.PythonListParser.constructor` | pkg/benchmark/swebenchpro/dataset.go:223-232 | A parser at the start of its input |
| `PythonList.PythonListParser.SkipSpace` | pkg/benchmark/swebenchpro/dataset.go:353-362 | Moves over exactly the white space |
| `PythonList.PythonListParser.Take` | pkg/benchmark/swebenchpro/dataset.go:364-370 | Takes the character exactly if it is next |
| `PythonList.PythonListParser.HexRune` | pkg/benchmark/swebenchpro/dataset.go:337-351 | Reads exactly the digits of an allowed rune, or fails with the code's error |
| `PythonList.PythonListParser.ReadString` | pkg/benchmark/swebenchpro/dataset.go:278-335 | Reads one string against the recursive form, with the same errors |
| `PythonList.PythonListParser.ParseElements` | pkg/benchmark/swebenchpro/dataset.go:247-276 | The element loop with its duplicate set |
| `PythonList.PythonListParser.Finish` | pkg/benchmark/swebenchpro/dataset.go:272-276 | Only white space may follow the list |
| `PythonList.PythonListParser.ParseList` | pkg/benchmark/swebenchpro/dataset.go:233-276 | The whole parser |
| `PatchFilter.BinaryPatchSection` | pkg/benchmark/swebenchpro/evaluate.go:414-421 | True exactly when some line of the section marks it as binary |
| `PatchFilter.FindStarts` | pkg/benchmark/swebenchpro/evaluate.go:380-392 | The offsets found are exactly the section starts, in order |
| `PatchFilter.WriteText` | pkg/benchmark/swebenchpro/evaluate.go:397-411 | The section loop writes the text sections |
| `PatchFilter.StripBinaryPatchSections` | pkg/benchmark/swebenchpro/evaluate.go:376-412 | Fails exactly past the bound; otherwise preamble and text sections, in order |
| `Monitor.CpuPercent` | pkg/monitor/recorder.go:455-475 | A reported rate is within bounds, and rate times elapsed time is the counter difference |
| `Monitor.Recorder.constructor` | pkg/monitor/recorder.go:124-229 | No baselines |
| `Monitor.Recorder.Rate` | pkg/monitor/recorder.go:455-475 | The rate of one reading; the baseline moves exactly when it is reported |
| `Monitor.Recorder.DropMissing` | pkg/monitor/recorder.go:477-493 | Absences count up to the grace, restart when the runtime is back, and drop the baseline beyond it |
| `Monitor.Recorder.TakeSample` | pkg/monitor/recorder.go:351-404 | A sample succeeds exactly when all its readings do, with their rates in order; a failed one leaves exactly what the readings up to its failure did |
| `Coverage.TaskArtifact.constructor` | pkg/monitor/artifacts.go:82-93 | An empty index |
| `Coverage.TaskArtifact.AppendSample` | pkg/monitor/artifacts.go:164-202 | Accepted exactly within all bounds; the index stays the tally of exactly the written samples |
| `MuLaw.FindExponent` | pkg/audio/audio.go:287-293 | The loop stops at the highest bit of the biased magnitude |
| `MuLaw.EncodeSample` | pkg/audio/audio.go:277-296 | Sign, segment and the four bits below the highest, complemented, for every 64-bit sample |
| `MuLaw.EncodeBuffer` | pkg/audio/audio.go:230-243 | Odd or too long input is refused; otherwise every sample becomes its code word |

## Left out

- Transports (gRPC, SSH, HTTP), Docker and kubectl, the file system and JSON: calls into them are parameters or actions with any outcome.
- Real clocks, timers and context deadlines: a deadline or an ended context is an action that may come at any time; cancel functions have no effect of their own beyond the outcomes they may cause.
- SHA-256 is a function parameter of the session configuration; the model uses that equal content has an equal digest and nothing else about it.
- Files that could not be written as evidence are treated as not collected; partial files on disk are not modelled.
- The audit writer behind the SSH session is its seal and the end of its writing; record contents are not modelled.
- Cleanup inside a failed service or SSH start is one outcome, not its single steps.
- Result texts, log lines, durations and tool log paths of the runner: statuses, flags and calls are modelled, error texts are not.
- Runtime overrides and requests passed to sandbox and harness (pkg/runner/runner.go:321-385): plain copies.
- Observers around a run (internal/app/execution.go:182-239): only merges reports.
- Sorting of readings before a sample (pkg/monitor/recorder.go:359-367): the model takes readings in any order, so its results hold for the sorted one.
- Validation of readings (pkg/monitor/recorder.go:406-453) is one outcome per reading; rates are exact reals without float rounding, and a difference of times does not saturate.
- Recorder start and stop, and writing the index file: the index content is modelled, not its file.
- parseBeforeRepoSetCommand and repository path checks (pkg/benchmark/swebenchpro/command.go:10-45 and 101-130): lists of one-branch checks over the parsed words.
- Resampling and WAV reading in pkg/audio/audio.go: floating point and byte layout checks.
- Stat, ReadFile and the audit record of file procedures (pkg/bridge/grpc/files.go:205-270 and 424-449): no loop or state beyond the sinks modelled here.
- Profile validation, wiring, benchmark setup, LLM judges, prompts, speech and search clients, and credential handling.
