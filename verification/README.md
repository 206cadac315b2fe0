# Elpis state machines, modelled and proved

Elpis is a single-agent runtime. This project models the parts of it whose correctness
depends on many steps agreeing on one invariant, and proves those invariants over every run:

- `GatewayBackoff.dfy`, `GatewayLink.dfy`: the reconnecting gateway link. Generation fencing, two kinds of
  timer, saturating backoff and a writer that stays in order under synchronous re-entry.
- `ConsoleBridge.dfy`: remote console viewers, the hub, pending reactions that run in any order.
- `RunWake.dfy`: the durable one-shot wake of a run, with crashes between durable writes.
- `PersonMemory.dfy`: the person-memory markers of a history across ingest, pops, compaction, clear, restart.
- `CredentialRotation.dfy`, `RotationRuntime.dfy`: the durable two-step credential rotation and the
  single-flight surface over it.
- `ReleaseTransaction.dfy`: replacing the release-owned files together, with rollback.
- `ContextResources.dfy`: the pending, acknowledged and loaded instruction files and skills.
- `Freezing.dfy`, `ExtensionClaims.dfy`: freezing an extension's API graph, and namespace collisions.
- `CollectionPatch.dfy`, `ArchivedHistory.dfy`, `WatchCustody.dfy`: console patches, history paging, frame eviction.
- `MapConcurrent.dfy`, `ReleaseNotes.dfy`: the benchmark's worker pool, and the release-note printer.
- `Options.dfy`, `Sets.dfy`: the optional value and the set lemma shared by the others.

How the models work. Objects that the source mutates are classes; their invariants are predicates and the
methods state the new state. What the environment answers (clock, sockets, store, HTTP replies, sinks, file
system, failing calls) is an input of the operation, so that a contract says what is done with each answer; the
runs choose these inputs, and the schedules, arbitrarily. Injected code that
calls back before it returns is a `Reenter` method that performs arbitrary public calls; a `budget` field,
set to an arbitrary number at every event, only bounds how many calls one event nests, and `budget == old(budget)`
says that there were none. A parameter `owed`
names what a suspended method still has to do, so that the never-stuck invariant can be stated at every
point where injected code runs. Where processes may die between durable writes, a `safe` field says that this one
survives. Digests and JSON texts are taken to be injective.

Findings, each with its lemma or contract:

- A wake whose due check passes on the scheduler's first clock reading and fails on the agent's second is
  retired without being delivered, and the agent's pending wake dangles (`RunWake.Agent.HandleDue`, both
  directions). The scheduler refuses to update a finished row (src/store/scheduler.ts:261-265), so from then on
  every preemption throws: a waking message is queued but does not wake the loop, and no wake can be armed, until
  a restart (`RunWake.Agent.StrandedBySlip`). The durable table stays right on every run (`RunWake.Agent.Run`).
- Popping the last message keeps the person-memory markers right exactly when it is not a memory message
  (`PersonMemory.PopKeepsGoodIff`); every turn starts with another message, so the reachable pops are safe.
- After a compaction "listed or loaded, never both" holds by resource, and by display name exactly when no loaded
  resource shows the name of another that is still as on disk (`ContextResources.NamesTellApartIff`); a retargeted
  link breaks it (`ContextResources.RetargetedLinkIsNamedTwice`).
- A file that governs both the written and the resolved directory makes the search climb on, to a file that is
  nearest to neither whenever there is one (`ContextResources.SharedFileIsClimbedPast`,
  `ContextResources.SiblingLinkClimbsPast`).
- A patch reproduces the next state exactly when no field is called `order` and equal ids mean equal rows
  (`CollectionPatch.RoundTripIff`).
- The custody budget is kept exactly when the files that could not be examined fit into what the others leave
  (`WatchCustody.Custody.TakeFrame`); in general only when none with bytes is skipped
  (`WatchCustody.UnseenBytesDecide`, `WatchCustody.UnseenBytesBreakBudget`); one failing lstat, or an unreadable
  directory, breaks it (`WatchCustody.SkippedFileBreaksBudget`).
- A concurrency below one resolves at once with no results (`MapConcurrent.MapConcurrent`).

## Model

| member | source | states |
|---|---|---|
| `GatewayBackoff.CeilingMonotone` | src/gateway-link.ts:804-808 | the backoff ceiling lies between base and maximum and never decreases with the failure count |
| `GatewayBackoff.CeilingSaturates` | src/gateway-link.ts:804-808 | counting failures only up to 31 does not change any ceiling |
| `GatewayBackoff.CeilingDoubles` | src/gateway-link.ts:804-808 | the ceiling starts at the base, doubles with every failure until the maximum, and no longer changes from 31 failures on |
| `GatewayBackoff.DelayBounds` | src/gateway-link.ts:809-823 | for every jitter draw, also one out of range, the delay lies between max(1, floor(c/2)) and c |
| `GatewayBackoff.DelayEndsReached` | src/gateway-link.ts:809-823 | the low bound is reached, and the high one up to one millisecond |
| `GatewayBackoff.DelayFollowsDraw` | src/gateway-link.ts:809-823 | the delay is less than a millisecond below half the ceiling plus the drawn share of the other half, and a bad draw counts as one half |
| `GatewayLink.FailuresFrame` | src/gateway-link.ts:655-659 | changing an attempt without changing its readiness or fate leaves the failures since the last ack alone |
| `GatewayLink.FailureCounted` | src/gateway-link.ts:769-783 | failing the last pending attempt adds exactly one to the failures since the last ack |
| `GatewayLink.Fenced` | src/gateway-link.ts:439-447 | fencing a link for a stop leaves no live attempt, no controller timer and a newer generation, with only the stop report and the old attempt's release owed |
| `GatewayLink.Detached` | src/gateway-link.ts:757-783 | taking the live attempt off under a newer generation leaves only its release and the next step owed |
| `GatewayLink.TimerCleared` | src/gateway-link.ts:910-918 | clearing a released attempt's timer, whether or not the clock forgets it, leaves no attempt but the live one with a timer |
| `GatewayLink.RetryIsArmed` | src/gateway-link.ts:825-860 | arming a retry with a right delay for the state settles what was owed |
| `GatewayLink.HandshakeIsArmed` | src/gateway-link.ts:862-898 | arming the handshake timer settles what a live attempt owed |
| `GatewayLink.AttemptIsBuilt` | src/gateway-link.ts:543-556 | a new attempt under the next generation owes only its handshake timer |
| `GatewayLink.WriteIsProgress` | src/gateway-link.ts:682-723 | the outermost write, with any writes nested in its drain, only extends what was numbered and sent |
| `GatewayLink.ProgressChain` | src/gateway-link.ts:682-955 | what injected code may do while one method is suspended composes |
| `GatewayLink.Controller.Transition` | src/gateway-link.ts:943-955 | reporting a status keeps the invariant at the moment the observer runs; nothing after stop but `stopped` is reported |
| `GatewayLink.Controller.Dispose` | src/gateway-link.ts:920-933 | releasing a superseded attempt clears its timer and changes nothing else of any attempt, whatever its close handlers call |
| `GatewayLink.Controller.Stop` | src/gateway-link.ts:439-449 | no live attempt, no controller timer and no handshake timer of any attempt afterwards, and a second stop changes nothing |
| `GatewayLink.Controller.ArmControllerTimer` | src/gateway-link.ts:825-860 | an unstopped link ends with the retry timer armed with the given delay if the clock accepts it, and faulted if not |
| `GatewayLink.Controller.Fault` | src/gateway-link.ts:757-767 | a fault of the current attempt ends it and leaves the link faulted unless it was stopped meanwhile; a fault of a superseded one changes nothing |
| `GatewayLink.Controller.ScheduleAfterFailure` | src/gateway-link.ts:785-823 | backoff with exactly the drawn delay if still enrolled, enrollment polling if not, each with the retry armed; faulted exactly for an unreadable store or a refusing clock |
| `GatewayLink.Controller.Supersede` | src/gateway-link.ts:769-783 | fencing an attempt off leaves no live attempt and touches nothing else of any attempt |
| `GatewayLink.Controller.CountFailure` | src/gateway-link.ts:769-783 | the stored failure count stays min(31, failures since the last ack) |
| `GatewayLink.Controller.MarkReady` | src/gateway-link.ts:655-659 | the first validated ack resets the failure count, which stays equal to the failures since the last ack |
| `GatewayLink.Controller.AttemptFailed` | src/gateway-link.ts:769-783 | an attempt that was current is marked failed and counted once; then the link is faulted exactly for an unreadable store or a refusing clock, backs off with the delay of its draw while enrolled, and otherwise polls for enrollment, with the retry armed; a superseded attempt's failure changes nothing |
| `GatewayLink.Controller.Opened` | src/gateway-link.ts:584-605 | opening twice fails the attempt; otherwise it counts as opened and, if still current, its hello was handed to the transport; with a smooth transport and no callbacks it is handshaking |
| `GatewayLink.Controller.Message` | src/gateway-link.ts:607-669 | a first ack makes the attempt ready and resets the count; a bad message, a fatal one, or any other before the ack fails the attempt, counted and scheduled; nothing else changes without a callback |
| `GatewayLink.Controller.SendNext` | src/gateway-link.ts:700-723 | one queued frame is sent in order, and exactly that with a smooth transport and no callbacks; otherwise the drain ends because the attempt is no longer current |
| `GatewayLink.Controller.Drain` | src/gateway-link.ts:700-723 | the queue is empty when the outermost write ends, however writes nest; with a smooth transport and no callbacks exactly the queued frames were sent |
| `GatewayLink.Controller.WriteEffect` | src/gateway-link.ts:682-723 | an effect the session encodes is numbered next and queued or sent; a full queue fails the attempt; a refused effect on an attempt that stays current changes nothing |
| `GatewayLink.Controller.SocketOpen` | src/gateway-link.ts:740-747 | an open callback of a superseded attempt changes nothing; a second one on the current attempt fails it |
| `GatewayLink.Controller.SocketMessage` | src/gateway-link.ts:740-747 | a message callback of a superseded attempt changes nothing; on the current one an ending message fails it and an ack makes it ready |
| `GatewayLink.Controller.SocketEnded` | src/gateway-link.ts:740-751 | a close or error callback of a superseded attempt changes nothing; on the current one it fails the attempt, counted and scheduled |
| `GatewayLink.Controller.ArmLiveTimer` | src/gateway-link.ts:862-898 | a live attempt that is not ready keeps living with its handshake timer armed if the clock accepts it, and is faulted if not |
| `GatewayLink.Controller.Drive` | src/gateway-link.ts:451-582 | one drive builds exactly one attempt, live and connecting if the outside lets it, or parks the link in exactly the state its configuration, the two store reads and the clock call for |
| `GatewayLink.Controller.Start` | src/gateway-link.ts:433-437 | starting once drives the link by its reading; starting again or after stop changes nothing |
| `GatewayLink.Controller.FireTimer` | src/gateway-link.ts:825-898 | a callback of an older generation or a superseded attempt changes nothing; a current handshake timeout fails its attempt, counted and scheduled, and a current retry drives once as its reading calls for |
| `GatewayLink.Controller.Run` | src/gateway-link.ts:433-955 | over every run of public calls, also a stop before the start, socket callbacks and timers the link is quiescent between events |
| `GatewayLink.NeverStuck` | src/gateway-link.ts:451-582 | a started, unstopped link has exactly one of: a live attempt reported as connecting, handshaking or ready that is ready or guarded by its handshake timer; one retry timer with its state; a terminal state |
| `GatewayLink.TransportOrder` | src/gateway-link.ts:682-723 | between events nothing is queued, the frames sent on an attempt are a gap-free prefix of those numbered after hello, and all of them on the current attempt |
| `ConsoleBridge.OpenedGrows` | src/gateway-console-bridge.ts:173-222 | an open result once emitted stays in every longer log |
| `ConsoleBridge.OrderedAppend` | src/gateway-console-bridge.ts:77-94 | console output appended after its viewer's open result keeps the order of the log |
| `ConsoleBridge.ClosingAllEmptiesTheMap` | src/gateway-console-bridge.ts:337-344 | closing every mapped client and moving to a new generation leaves an empty, consistent map |
| `ConsoleBridge.CloseEach` | src/gateway-console-bridge.ts:337-343 | the first loop of a detach closes exactly the clients of the map and no other |
| `ConsoleBridge.Bridge.DetachEach` | src/gateway-console-bridge.ts:343-350 | the second loop takes each off the hub, which may call back at every removal, and leaves no detach unfinished |
| `ConsoleBridge.Bridge.DetachAll` | src/gateway-console-bridge.ts:337-344 | every client known before is closed, whatever the hub calls back while it is told |
| `ConsoleBridge.DetachLeavesNothingBehind` | src/gateway-console-bridge.ts:337-350 | the two loops together leave other suspended requests as they were |
| `ConsoleBridge.RemovalKeepsMap` | src/gateway-console-bridge.ts:328-335 | removing a client unmaps its viewer only if the viewer still maps to it |
| `ConsoleBridge.OpenLeavesNothingBehind` | src/gateway-console-bridge.ts:173-222 | an open that was suspended while its result was written leaves other suspended requests as they were and none of its own |
| `ConsoleBridge.Bridge.Remove` | src/gateway-console-bridge.ts:328-335 | the client is closed and detached, and a newer client of the viewer is kept |
| `ConsoleBridge.Bridge.Emit` | src/gateway-console-bridge.ts:261-278 | an effect the sink takes is the next one logged, and the only one unless the sink calls back; a refused one is not logged; it counts as written exactly when the sink wrote it |
| `ConsoleBridge.Bridge.HandleFrame` | src/gateway-console-bridge.ts:129-156 | every frame is handled as its kind says: open, close and snapshot with their answers, a media request by one reaction of this generation, others by nothing; nothing happens after stop |
| `ConsoleBridge.Bridge.OpenViewer` | src/gateway-console-bridge.ts:173-222 | a mapped viewer is answered with a failure; a new one is answered with success first, and its client is then in use with its attach awaited, or closed when the answer was not written or the hub threw |
| `ConsoleBridge.Bridge.CloseViewer` | src/gateway-console-bridge.ts:224-232 | the answer is success exactly for a known viewer, whose client is closed and unmapped |
| `ConsoleBridge.Bridge.ResendSnapshot` | src/gateway-console-bridge.ts:234-259 | a known viewer gets one pending reaction tied to its client and generation, with nothing emitted yet; an unknown one is answered with a failure |
| `ConsoleBridge.Bridge.Send` | src/gateway-console-bridge.ts:77-94 | a closed client is silent; an open one's output is offered once, and a client whose output was not written is closed |
| `ConsoleBridge.Bridge.Disconnect` | src/gateway-console-bridge.ts:159-164 | every client known before is closed, and everything emitted from its start on, also while the hub is told, belongs to a newer generation |
| `ConsoleBridge.Bridge.Stop` | src/gateway-console-bridge.ts:166-171 | stopped, no viewers, and nothing is emitted, not even while the hub is told |
| `ConsoleBridge.Bridge.ResolveAttach` | src/gateway-console-bridge.ts:173-222 | a settled attach emits nothing, changes nothing for an unclosed client that succeeded, and otherwise closes the client and takes it off the hub |
| `ConsoleBridge.Bridge.ResolveSnapshot` | src/gateway-console-bridge.ts:234-259 | in the current generation the snapshot is answered once with whether it was sent, a client it was not sent to goes, and one fulfilled for a replaced client is silent; nothing of an older generation is emitted |
| `ConsoleBridge.Bridge.Resolve` | src/gateway-console-bridge.ts:173-326 | a reaction of an older generation emits nothing; a current media reaction offers one result, with its outcome |
| `ConsoleBridge.Bridge.Event` | src/gateway-console-bridge.ts:129-354 | one event of any kind: new effects belong to generations current since before it, and none appear after stop |
| `ConsoleBridge.Run` | src/gateway-console-bridge.ts:129-354 | the same over any run of events |
| `ConsoleBridge.HubMatchesViewers` | src/gateway-console-bridge.ts:328-354 | with no reaction pending, the clients on the hub are exactly the unclosed ones, and those are exactly the mapped ones |
| `RunWake.EvolvesTransitive` | src/agent.ts:1651-1742 | a payload that changes at most once at every step, from armed, does so over the whole run |
| `RunWake.SettlesTransitive` | src/agent.ts:1651-1742 | if no step finishes an armed wake unsettled, no run does |
| `RunWake.Agent.Preempt` | src/agent.ts:1688-1704 | throws exactly when the pending row was already finished, changing nothing; otherwise the row is durably preempted and no wake is pending, or the process died |
| `RunWake.Agent.Arm` | src/agent.ts:1706-1742 | throws exactly when a finished wake is still pending and nothing waking is queued; otherwise a wake is armed exactly when the scheduler takes it, and is the only armed row and the pending wake; none is armed while a waking message is queued |
| `RunWake.Agent.Enqueue` | src/agent.ts:1868-1874 | the message is queued; a waking one preempts the pending wake and wakes the loop exactly when that wake is not a finished one; ambient traffic changes no wake |
| `RunWake.Agent.Notify` | src/agent.ts:1751-1809 | a due armed wake is durably fired and then delivered once; anything else changes nothing |
| `RunWake.Agent.HandleDue` | src/store/scheduler.ts:173-215 | with any second clock reading the invariant is kept; the wake is delivered if and only if that reading is not before its due time, and otherwise is finished unfired and dangles |
| `RunWake.Agent.StrandedBySlip` | src/agent.ts:1688-1704 | after such a slip a waking message is queued beside the pending wake and does not wake the loop |
| `RunWake.Agent.RetireInvalid` | src/agent.ts:1651-1686 | recovery leaves no open reserved row that is not armed, and no armed row is lost |
| `RunWake.Agent.RetireStale` | src/agent.ts:1651-1686 | only the adopted row stays armed |
| `RunWake.Agent.Boot` | src/agent.ts:1651-1686 | after recovery the pending wake is the armed row, and an armed row is adopted if there was one |
| `RunWake.Agent.Run` | src/agent.ts:1651-1875 | over every run with crashes and with any clock: at most one armed row, held by the running agent with no waking message beside it, each row changing at most once; without a slip every finished wake was preempted or fired and none dangles |
| `PersonMemory.PushKeepsGood` | src/agent.ts:3692-3709 | pushing keeps the markers right if and only if an inbound message has its author's memory before it and a memory is its author's first |
| `PersonMemory.PrefixKeepsGood` | src/agent.ts:1070-1079 | a prefix of a good history is good for its own authors |
| `PersonMemory.AuthorsAreMemories` | src/agent.ts:1070-1079 | the authors collected are exactly those with a memory message |
| `PersonMemory.PopKeepsGoodIff` | src/agent.ts:2946-2953 | popping keeps the markers right if and only if the popped message is not a memory |
| `PersonMemory.CollectAuthors` | src/agent.ts:1070-1079 | the restart loop computes exactly the authors that have a memory message |
| `PersonMemory.RefreshOne` | src/agent.ts:3771-3792 | a message is kept, right behind its author's current profile exactly when the author has none yet; a memory is dropped |
| `PersonMemory.Refresh` | src/agent.ts:3771-3792 | the compaction refresh yields good markers, each memory its author's current profile right before a message of theirs, and keeps every non-memory message in order |
| `PersonMemory.History.EnsurePersonMemory` | src/agent.ts:3663-3677 | an author gets a memory exactly once |
| `PersonMemory.History.Ingest` | src/agent.ts:2591-2595 | an inbound message is appended after its author's memory |
| `PersonMemory.History.EndTurn` | src/agent.ts:2975-2980 | an error or leak pop removes the last message and never a memory |
| `PersonMemory.History.RefreshPersonMemory` | src/agent.ts:3760-3792 | history, injected set and transcript agree after the refresh |
| `PersonMemory.History.Compact` | src/agent.ts:3760-3792 | compaction keeps the markers right and the kept messages in order |
| `PersonMemory.History.Clear` | src/agent.ts:2341-2350 | clearing forgets every author together with every message |
| `PersonMemory.History.Restart` | src/agent.ts:1070-1079 | the injected set is rebuilt from the transcript |
| `PersonMemory.History.Run` | src/agent.ts:2341-3792 | the markers are right in every reachable history |
| `CredentialRotation.LegalPrefix` | src/gateway-rotation.ts:294-326 | every prefix of a legal run is legal, so safety holds at every crash point |
| `CredentialRotation.ActivationFollowsProposal` | src/gateway-rotation.ts:294-326 | every activation post carries the last credential begun, after the proposal of the same request with another token and after the durable confirmation of that proposal |
| `CredentialRotation.RotatingIsTraced` | src/gateway-rotation.ts:294-326 | a rotating row was begun by the last begin; it counts as asked only after a proposal with the active token, and as proposed only after that was confirmed |
| `CredentialRotation.Store.BeginRotation` | src/store/gateway-resident.ts:493-521 | a fresh pending credential is begun exactly from the active phase; a rotation under way is kept as it is |
| `CredentialRotation.Store.MarkProposed` | src/store/gateway-resident.ts:543-591 | the checkpoint is written exactly for a matching reply, unless the process dies |
| `CredentialRotation.Store.ActivateRotation` | src/store/gateway-resident.ts:593-642 | the pending token becomes active only after the checkpoint |
| `CredentialRotation.Controller.Post` | src/gateway-rotation.ts:328-437 | a proposal is posted with the active token, an activation with the pending one; what is refused is what the answer or an abort causes |
| `CredentialRotation.Controller.Rotate` | src/gateway-rotation.ts:294-326 | when nothing goes wrong the rotation completes, with two posts, or one if the proposal was durable; any other ending has its cause in one of the rounds, keeps the rotation to resume, and makes at most two posts; stopped only after a stop, timeout only without |
| `CredentialRotation.Controller.Start` | src/gateway-rotation.ts:189-247 | a trigger begins only from the active phase and a resume only from the rotating one; then the run completes or fails as its rounds say |
| `CredentialRotation.RotationCompletes` | src/gateway-rotation.ts:189-326 | from any suitable row, two smooth rounds make the pending credential the active one |
| `CredentialRotation.Lifetime` | src/gateway-rotation.ts:189-326 | over any sequence of launches, crashes and resumes the history stays legal |
| `RotationRuntime.Runtime.Finish` | src/gateway-rotation-runtime.ts:155-172 | an attempt settles once, and a second finish changes nothing |
| `RotationRuntime.Runtime.Stop` | src/gateway-rotation-runtime.ts:127-133 | the open attempt settles as stopped, once, its controller is stopped, and the status stays stopped |
| `RotationRuntime.Runtime.StopCurrentController` | src/gateway-rotation-runtime.ts:135-141 | a controller is stopped at most once |
| `RotationRuntime.Runtime.Adopt` | src/gateway-rotation-runtime.ts:174-197 | a controller obtained during a stop is itself stopped |
| `RotationRuntime.Runtime.Abandon` | src/gateway-rotation-runtime.ts:206-210 | a synchronous failure settles the attempt as a state error, or as stopped after a stop, and frees the slot |
| `RotationRuntime.Runtime.Launch` | src/gateway-rotation-runtime.ts:143-212 | exactly one attempt is published whatever the factory and the controller call back; unless a stop comes in, its controller runs in the given mode, or its birth failed and the attempt with it |
| `RotationRuntime.Runtime.Trigger` | src/gateway-rotation-runtime.ts:110-125 | joins the open attempt, refuses with the status of the phase, or launches one attempt, triggering from the active phase and resuming from the rotating one |
| `RotationRuntime.Runtime.ResumeDurableRotation` | src/gateway-rotation-runtime.ts:98-108 | startup launches an attempt exactly when a rotation is durably under way |
| `RotationRuntime.Runtime.PromiseSettles` | src/gateway-rotation-runtime.ts:196-205 | a settlement gives the attempt its result and a rejection stops its controller; a late one changes no newer attempt and stops no other controller |
| `RotationRuntime.Runtime.Run` | src/gateway-rotation-runtime.ts:98-212 | over any run at most one attempt is unsettled and each settles once; stopped is final |
| `ReleaseTransaction.RenameAdvances` | src/release-sync.ts:368-371 | one rename replaces exactly the next file and keeps the other staged copies |
| `ReleaseTransaction.RestoreAdvances` | src/release-sync.ts:375-387 | one restore puts exactly that file back, or leaves it whole if it failed |
| `ReleaseTransaction.FileSystem.RestoreFile` | src/release-sync.ts:408-428 | success puts the original bytes and mode back; failure leaves the old or the new whole file, and no other file changes |
| `ReleaseTransaction.FileSystem.Prepare` | src/release-sync.ts:348-367 | staging touches no owned file, and success stages every candidate |
| `ReleaseTransaction.FileSystem.Replace` | src/release-sync.ts:368-371 | a prefix of the files is replaced when a rename fails, all when none does |
| `ReleaseTransaction.FileSystem.RollBack` | src/release-sync.ts:375-387 | a clean rollback restores every file; otherwise each file is still one of its two versions |
| `ReleaseTransaction.FileSystem.CommitCandidates` | src/release-sync.ts:340-406 | commits when no step of the replacement fails, with every file new and no staged copy left; any error but rollback-failed means every file has its original bytes and mode, and rollback-failed only when a step of the rollback failed |
| `ContextResources.NearestIsDeepest` | src/context-resources.ts:511-553 | the search finds the deepest instruction file at or above a directory, or none exists |
| `ContextResources.SharedFileIsClimbedPast` | src/context-resources.ts:511-553 | the resolved directory adds its own nearest file; if that was found already, it adds a file nearest to neither if and only if another file exists at or above it |
| `ContextResources.SiblingLinkClimbsPast` | src/context-resources.ts:511-553 | a link between sibling directories: the parent governs both, and the file at the top is found as well |
| `ContextResources.NearestAgents` | src/context-resources.ts:511-553 | the first file found is the nearest to the directory itself, or to the directory a file is in, and every file found is at or above that directory or the one the target resolves to |
| `ContextResources.SearchStartsAt` | src/context-resources.ts:511-553 | a directory is searched from itself, by kind or by what it is on disk, and anything else from the directory it is in |
| `ContextResources.DirectoryReadsItsOwn` | src/context-resources.ts:515-526 | a directory's own instruction file is the first found |
| `ContextResources.FileReadsItsDirectory` | src/context-resources.ts:515-526 | the instruction file of the directory a file is in is the first found |
| `ContextResources.Resources.BeforeFileAccess` | src/context-resources.ts:375-406 | passes exactly through governing files loaded at their current version, and hands out the first that is not |
| `ContextResources.ExploredStep` | src/context-resources.ts:327-373 | visiting a directory keeps the whole tree covered by what is done and what waits |
| `ContextResources.ApartStep` | src/context-resources.ts:327-373 | no directory is ever visited twice |
| `ContextResources.Resources.ScanDirectory` | src/context-resources.ts:348-371 | a directory's instruction file must pass and each of its folders is pushed once |
| `ContextResources.Resources.WalkTree` | src/context-resources.ts:336-372 | passing means every directory of the tree passes and neither limit is exceeded; each limit refuses only trees that exceed it |
| `ContextResources.Resources.BeforeTreeAccess` | src/context-resources.ts:327-373 | a tree access passes only when every file governing or inside the tree is loaded at its current version and the limits hold; every refusal has its reason |
| `ContextResources.PassedMeansRead` | src/context-resources.ts:327-373 | when a tree passes, every instruction file listed in it that resolves to a regular file is loaded at the text it has |
| `ContextResources.Resources.AccessUntilSettled` | src/context-resources.ts:327-422 | with unchanged files, repeated access goes through if and only if every governing file can be read and the tree is within both limits, and then after exactly one round per stale governing file; otherwise the verdict names a reason that holds |
| `ContextResources.AcknowledgeStep` | src/context-resources.ts:408-422 | acknowledging one more resource takes it from pending exactly when the versions agree |
| `ContextResources.AcknowledgedIsPending` | src/context-resources.ts:408-422 | a version loaded by acknowledgement is the pending one and was named |
| `ContextResources.Resources.Acknowledge` | src/context-resources.ts:408-422 | only the version handed out last can become loaded; a superseded one never does |
| `ContextResources.RestoredStep` | src/context-resources.ts:429-455 | a mention decides its resource by the text on disk and no other resource |
| `ContextResources.Resources.Restore` | src/context-resources.ts:429-455 | a resource mentioned is loaded exactly when its last mention is the version on disk |
| `ContextResources.SurvivorIsRestoredIff` | src/context-resources.ts:429-455 | a survivor is loaded again if and only if its file, for a skill the catalogue's, can be read and still has its text |
| `ContextResources.Resources.TakeCompactionReminder` | src/context-resources.ts:468-509 | each resource loaded before is loaded or listed, never both, each listed once |
| `ContextResources.NamesTellApartIff` | src/context-resources.ts:468-502 | by display name that holds for every list of survivors, also with superseded mentions, if and only if no loaded resource shows the name of another of its kind that is still as on disk |
| `ContextResources.RetargetedLinkIsNamedTwice` | src/context-resources.ts:375-502 | two accesses and acknowledgements around a retargeted link, then a reminder: the one name is both listed and loaded |
| `ContextResources.Resources.LoadSkillContext` | src/context-resources.ts:250-325 | refuses exactly the unacceptable requests, and provides and makes pending exactly the skills not loaded at their current version |
| `ContextResources.CheckNames` | src/context-resources.ts:251-272 | accepts exactly one to eight valid, distinct names |
| `ContextResources.CheckFiles` | src/context-resources.ts:273-301 | accepts exactly names in the catalogue with readable files within the total limit |
| `ContextResources.Resources.LoadSkills` | src/context-resources.ts:244-248 | every skill asked for ends up loaded at its current version |
| `Freezing.DenotesUnique` | src/extensions.ts:114-157 | a value of the heap unfolds to at most one tree |
| `Freezing.UnfoldedWalkIsSimple` | src/extensions.ts:114-157 | a value that unfolds to a finite tree reaches no cycle |
| `Freezing.UnfoldedNodeIsClean` | src/extensions.ts:114-157 | a value that unfolds reaches nothing forbidden |
| `Freezing.Freezer.FreezeValue` | src/extensions.ts:114-157 | with the ancestors in the seen set, succeeds with the unfolding or points at a cycle or a forbidden value, and leaves the set as it was |
| `Freezing.Freeze` | src/extensions.ts:114-157 | ends on every graph; succeeds if and only if no cycle and nothing forbidden is reachable, with a copy of the same unfolding, and otherwise names a fault that is there |
| `Freezing.ForbiddenKeysAre` | src/extensions.ts:14-22 | an object with one primitive property is refused exactly for the three prototype keys |
| `ExtensionClaims.EqualsAreTogether` | src/extensions.ts:543-546 | after sorting, claims of one namespace are adjacent |
| `ExtensionClaims.GroupFiles` | src/extensions.ts:555-559 | the files reported for a group are all claimants of its namespace |
| `ExtensionClaims.FindGroup` | src/extensions.ts:548-554 | the scan finds the whole group of a namespace |
| `ExtensionClaims.Collisions` | src/extensions.ts:547-571 | exactly the namespaces claimed twice collide, each claimant is reported once, and the rest are alone |
| `CollectionPatch.ApplyCollectionPatch` | src/console/sync.ts:25-41 | the map-filling loop lays the patch rows over the previous ones and reads them in the order sent |
| `CollectionPatch.RowsRestoredIff` | src/console/sync.ts:6-41 | the rows come back if and only if equal ids mean equal rows |
| `CollectionPatch.RoundTripIff` | src/console/sync.ts:6-41 | applying the patch yields the next state if and only if no field is `order` and its rows are consistent |
| `CollectionPatch.PatchRowsAreTheNewOnes` | src/console/sync.ts:6-23 | the patch carries exactly the rows that were not there before |
| `CollectionPatch.PatchIsLeast` | src/console/sync.ts:6-23 | no patch that rebuilds the rows omits any row this one sends |
| `CollectionPatch.FollowerKeepsUp` | src/console/sync.ts:1-41 | a client that starts with the server's rows equals the latest state after any sequence of patches |
| `ArchivedHistory.OpenStep` | src/console/history.ts:88-99 | the set of waiting think calls evolves by calls and their first answers |
| `ArchivedHistory.AnsweredOnce` | src/console/history.ts:88-99 | two marked results under one id have a new think call between them |
| `ArchivedHistory.ReadPage` | src/console/history.ts:76-102 | the loop returns the page with each entry's mark decided by the archive alone |
| `ArchivedHistory.ArchivedReader.GetPool` | src/console/history.ts:68-73 | the pool is the files in order, read once |
| `ArchivedHistory.NextPageJoins` | src/console/history.ts:76-102 | the page before the oldest id held joins on without gap or overlap, and is empty exactly when all is held |
| `ArchivedHistory.PageBounds` | src/console/history.ts:26-32 | a page holds exactly the archived entries with ids from beforeId - limit up to and without beforeId |
| `ArchivedHistory.PagesSuffice` | src/console/history.ts:76-102 | positive limits exhaust the archive after at most as many pages as messages |
| `ArchivedHistory.ArchivedReader.PageBack` | src/console/history.ts:76-102 | paging back holds the newest messages once each, in order, as many as the limits add up to; with as many pages as messages it holds the whole archive under the ids -T to -1 and there is no more |
| `WatchCustody.ListingCounts` | src/console/watch-custody.ts:63-86 | a complete listing counts the files and their bytes |
| `WatchCustody.Custody.ExistingFrames` | src/console/watch-custody.ts:63-84 | every regular file that could be examined once, oldest first; none when the directory cannot be read |
| `WatchCustody.Custody.Evict` | src/console/watch-custody.ts:86-106 | whichever deletions fail, exactly the first number of oldest frames whose trying makes room on the account is tried, and of those exactly the stuck ones stay |
| `WatchCustody.Custody.MakeRoom` | src/console/watch-custody.ts:86-106 | what stays on disk is the unexamined bytes and the counted ones, and the counted ones leave room; when deletions succeed, room is found for every legal frame by the least oldest-first prefix, within the file limit when all is examined |
| `WatchCustody.BytesLeft` | src/console/watch-custody.ts:86-106 | the bytes on disk after any number of tries are the unexamined ones plus those counted |
| `WatchCustody.Custody.TakeFrame` | src/console/watch-custody.ts:154-198 | accepted exactly with room and a successful write; an accepted frame is within budget if and only if the unexamined bytes fit into what the counted ones and the frame leave of it |
| `WatchCustody.Custody.CustodyWatchFrames` | src/console/watch-custody.ts:154-198 | at most the legal ones of the first sixteen, all of them when nothing fails; with every file examined the budget holds once one was accepted |
| `WatchCustody.SkippedFileBreaksBudget` | src/console/watch-custody.ts:63-84 | one failing lstat makes a full custody accept a frame and exceed its budget |
| `WatchCustody.UnseenBytesDecide` | src/console/watch-custody.ts:63-106 | the room test is safe for every listing and frame if and only if no bytes are unexamined |
| `WatchCustody.UnseenBytesBreakBudget` | src/console/watch-custody.ts:63-198 | for any unexamined files with bytes there is a custody holding them that accepts a frame and exceeds its budget |
| `MapConcurrent.Claim` | bench/cli.ts:428-445 | claiming hands out the next index once and keeps every claimed item with one worker |
| `MapConcurrent.Complete` | bench/cli.ts:428-445 | a settled call stores its own item's result or fails its worker |
| `MapConcurrent.InFlightAtMost` | bench/cli.ts:428-445 | no more items are claimed and unsettled than there are workers |
| `MapConcurrent.AllStored` | bench/cli.ts:428-445 | when all workers returned, every index was claimed and every result is stored |
| `MapConcurrent.Step` | bench/cli.ts:428-445 | one step of any worker keeps the invariant and shortens the work left |
| `MapConcurrent.MapConcurrent` | bench/cli.ts:428-445 | every interleaving ends; no more calls are in flight at any time than the limit; it fails exactly when some item's call does, and otherwise resolves with results in item order |
| `ReleaseNotes.ChainIsCharacterwise` | scripts/release-workflow.ts:661-668 | the chained replacements equal one character-by-character encoding |
| `ReleaseNotes.DecodeEncode` | scripts/release-workflow.ts:661-668 | decoding an encoded subject gives it back |
| `ReleaseNotes.EncodeDecode` | scripts/release-workflow.ts:661-668 | whatever decodes is the encoding of what it decodes to |
| `ReleaseNotes.EscapeIsInjective` | scripts/release-workflow.ts:661-668 | two subjects print the same only if they are the same |
| `ReleaseNotes.EscapedIsInert` | scripts/release-workflow.ts:661-668 | in a printed subject every character Markdown acts on is behind a backslash of its own, and no angle bracket or at sign is left |
| `ReleaseNotes.PlainIsUntouched` | scripts/release-workflow.ts:661-668 | a subject without such characters is printed as it is |
| `ReleaseNotes.BodyOfOne` | scripts/release-workflow.ts:651-654 | the text printed for one commit, heading and line |
| `ReleaseNotes.CountTells` | scripts/release-workflow.ts:643-650 | counting distinct abbreviations tells whether all differ |
| `ReleaseNotes.AbbreviationLength` | scripts/release-workflow.ts:642-650 | the least length from 7 up at which all abbreviations differ |
| `ReleaseNotes.Validate` | scripts/release-workflow.ts:624-641 | accepts exactly the valid, distinct commits with clean subjects |
| `ReleaseNotes.RenderReleaseNotes` | scripts/release-workflow.ts:621-659 | refuses exactly invalid commits or too long a text, and otherwise prints with the least length |
| `ReleaseNotes.BodyInjective` | scripts/release-workflow.ts:621-668 | two printed texts agree only if they show the same abbreviations and subjects line by line |

## Left out

- The main model loop, prompt assembly, logging, console servers, configuration validation, the compactor, and the network and HTTP handling are not part of this model: wiring, or single branches.
- Gateway link: socket close codes and reasons, `bufferedAmount` and frame texts; the clock, store, random source and socket factory return or throw but do not call back. Creating and serializing a frame is one step, because both check the same limit. The catch around dispatched callbacks is omitted since every injected call inside is already guarded.
- Console bridge: request ids, error bodies and media bytes; attaching and single removals on the hub do not call back (the repository's hub never does, src/console/hub.ts:1437-1447), and a removal takes effect. A hub that disconnected the bridge from within a single removal would let a close request and a failed snapshot hand one more result to the old sink; the removals of a whole detach may call back.
- Run wake: snoozing and user edits of reserved rows, and the texts of payloads; a crash falls between durable writes, never inside one.
- Person memory: a torn transcript line; appends are atomic.
- Credential rotation: HTTP bodies, timeouts and abort signals beyond "the run was cut"; the Gateway's replies are arbitrary. One controller works on the store at a time, which the runtime's single flight provides.
- Release transaction: directory syncing only succeeds or fails. A staged copy whose own write fails is left behind by the source and by the model. The computation of the candidates' texts is not modelled.
- Context resources: the four maps are two, keyed by kind and key; the interrupt's message text, of which a repeated interrupt repeats the first; a blank target, which file access lets through unchecked; discovery of the skill catalogue. A directory is taken to list each name once.
- Freezing: error texts; an object lists its own enumerable string keys in order.
- Extension loading beyond the collision loop, such as imports, migrations and activation.
- Archived history: listing and parsing of the transcript files; entries carry the message and its mark, not the rendered fields.
- Watch custody: image sniffing; a file the listing skips is skipped for any reason; a source is an image size or nothing. Ties in modification time come in any order.
- Concurrent map: the calls' own effects; a call either returns its item's result or fails.
- Release notes: subjects are sequences of Unicode characters, not UTF-16 code units.
