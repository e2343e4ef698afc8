# Verified models of the repository's protocols and algorithms

This Dafny project models the parts of the repository whose correctness does not
show in any single branch, and proves what they promise over all inputs, all runs
or all reachable states.

| module | models |
|---|---|
| `AddressWatch` | the race between the host-address snapshot, the monitor, the watcher and the kernel in the sandbox runner |
| `TenantLock`, `TenantLife` | tenant lock, cgroup leaf, gated start, cleanup and the fail-closed hold, for any number of runners of one tenant; the life of each of them |
| `Relocation`, `RelocationOrder`, `PaddedReplacement` | the dylib worklist, where its redirections end, and the padded in-place replacement |
| `MediaWire`, `MediaEndpoints`, `MediaSession`, `MediaRuns`, `MediaStub`, `MediaHistories` | the framed protocol between the media stub and its helper: bytes, the two ends as they run, their interleavings, the two ends composed as runs of those, the stub as a replacement of the library, and what its callers see over a whole life of a helper |
| `PeerConnection`, `AudioDevice` | the library behind that protocol: the pending operation, PCM guards, the capture queue |
| `Fulfillment`, `FulfillmentLaws`, `FulfillmentAudit`, `FulfillmentVerdict` | the order ledger, what its audit says of each request, and its verdict |
| `PackageGraph`, `CabalStanzas`, `CabalFields`, `PackageBoundaries` | cycle search, the Cabal dependency scanner and stanza filter, what the scanner finds, and the whole package check |
| `BuildPlan` | which units of a build plan are loaded from source |
| `Sequences`, `Wrappers`, `ByteStrings` | shared notions: sequences without repetition, optional values, bytes |
| `EvaluationSchedule`, `PairedEvaluation`, `Wilson` | the evaluation schedule, the rows its summary accepts, the paired counts and the score interval |

Code that changes state step by step is a class or a method with a loop; each such
method is proved against a function of its inputs or of the old state, and the
theorems are about those functions. The two sandbox protocols, the media session
and the capture queue are step relations (`Enabled`, `Apply`, `IsRun`, `Final`), so
that the kernel, the transport and the other processes may act between any two
steps. A few proofs use `hide` to keep definitions they do not need out of the
solver's way.

## Assumptions

- Address watch: a change after the monitor's subscription queues some event about
  the changed family; what the event says is arbitrary unless a lemma asks for
  `Truthful` steps. Reads of the two families happen at different moments.
- Tenant lock: all runners of a tenant share one state root, and so one lock, and one
  service, and so one leaf. Kills are not assumed to work (a signalled process may die now, later
  or never), process ids are not reused, only a live process can be put into the
  leaf or read its gate, and an unpopulated leaf alone can be removed.
- Relocation: initial targets lie outside the destination, the libraries they reach
  are not initial targets and lie outside it too, and different bundled names are different files
  (`Job.Separate`). Path resolution and the name hash are arbitrary functions.
  `install_name_tool` acts on every load command or rpath that matches.
- Media: what GStreamer decides is an arbitrary `Env` per call. Both ends share one
  byte order, taken to be little-endian. Transport chunking, interruption and
  failure are arbitrary.
- Build plan and package graph: sets are visited in any order; the code's sorted
  order is one of them.

## Results that correct the obvious reading

- The address snapshot can differ from the host with no unread event and no pending
  rescan; the difference then sits in the watcher's own rescan, which will condemn
  the sandbox. A change of a settled host can come to that exactly when the
  watcher's classification lets its report pass, that is when the report is an
  addition of an address that the family's snapshot holds (`ReportHidesChangeIff`;
  `OnlyTheRescanFindsAMisreportedChange` is one such run). Where all reports tell
  the truth it never happens (`TruthfulChangeIsForetold`).
- A runner that fails before it names the leaf exits through cleanup without looking
  at it, so a killed predecessor's processes can remain in the leaf
  (`EarlyFailureLeavesAPopulatedLeaf`). At such an exit the leaf is clear exactly
  when the runner named it or no killed runner has a live process in it
  (`ExitLeavesTheLeafClearIff`); once a runner has named the leaf or found none, no
  later failure leaves it populated (`LookingLeavesTheLeafClear`). The next runner that gets as far as launching still
  finds the leaf empty or stops (`LaunchingMeansPredecessorsAreGone`).
- A count of one in `replacePadded` is not a unique occurrence when the old value
  overlaps itself; it is one for every content exactly when the value does not
  (`CountOneIsUniqueIffNoOverlap`).
- With a description buffer shorter than the description the library reports a
  failure, while the stub closes its descriptor for good
  (`ShortBuffersCloseTheStub`). For every buffer size the two agree, whatever the
  library answers, exactly up to the protocol limit, and for descriptions from 65536
  bytes on (`BuffersThatAgree`). A description over the protocol limit gets -1 from
  the stub and 0 from the library (`OversizedDescriptionsDisagree`).
- A load command can end at the copy of another library, when a copy's install name
  is itself a library of the file that comes up later and is redirected elsewhere;
  and exactly then (`AtOwnCopiesIff`).
- After the capture thread failed the device, a read may still deliver, exactly if it
  was under way past its check and holds a buffer that fits, or is about to take one,
  or is about to find an empty queue that a fitting buffer can still reach
  (`FailedDeviceDeliversIff`; `ReadUnderwayMayStillDeliver` is one such run). Every
  read that starts later returns -1 and takes nothing (`FailureIsFinal`).
- Without an expected trial count `load_rows` takes the observed trials as the
  expected ones, so exactly the results of whole trials are accepted, whichever and
  however many (`WithoutACountAnyWholeTrialsPass`); with the count, exactly the
  schedule (`AcceptedAreTheSchedule`).

## Model

| member | source | states |
|---|---|---|
| AddressWatch.LinesDetermineAddresses | nix/sandbox-runner.nix:438-462 | two snapshot files are equal exactly when both families are, so `cmp` decides equality of the address sets |
| AddressWatch.StepKeepsInv | nix/sandbox-runner.nix:523-614 | every step of kernel, monitor, watcher and runner keeps the accounting invariant |
| AddressWatch.RunKeepsInv | nix/sandbox-runner.nix:510-614 | so does every run |
| AddressWatch.NoChangeIsLost | nix/sandbox-runner.nix:560-614 | in every reachable served state the deny set holds something, and each family equals it, or has an unread event, or the watcher has yet to rescan it or has already read a disagreement |
| AddressWatch.DrainedMeansExact | nix/sandbox-runner.nix:560-647 | with drained queues and an idle watcher the denied lines are exactly the host's current addresses |
| AddressWatch.TruthfulStepKeepsInv | nix/sandbox-runner.nix:560-586 | with truthful events a differing family always has a pending event that condemns the sandbox |
| AddressWatch.TruthfulChangeIsForetold | nix/sandbox-runner.nix:560-586 | hence under truthful events a family equals the snapshot, or has an unread event, or the watcher is about to classify one |
| AddressWatch.ReportHidesChangeIff | nix/sandbox-runner.nix:560-586 | a change of a settled host has a continuation in which its family is neither as snapshot, nor unread, nor still to be rescanned exactly when its report is an addition that the snapshot lists, for both families and for additions and removals |
| AddressWatch.FatalNeverBreaks | nix/sandbox-runner.nix:564-577 | while an event that condemns is next, no run of any further changes and reports reaches such a state, for either family |
| AddressWatch.MereRefreshBreaks | nix/sandbox-runner.nix:574-586 | an event that names a snapshot address is passed, and only the rescan it causes knows of the change |
| AddressWatch.UsualStart | nix/sandbox-runner.nix:595-647 | undisturbed, the runner reaches the served state with exactly its addresses denied |
| AddressWatch.OnlyTheRescanFindsAMisreportedChange | nix/sandbox-runner.nix:574-586 | a run in which nothing but the rescan knows of a change |
| AddressWatch.UndisturbedHostIsNeverCondemned | nix/sandbox-runner.nix:560-588 | while no address changes, events only re-announce and tools work, no run condemns the sandbox or ends it, unless the host has no address at all |
| AddressWatch.WatcherCondemnsIff | nix/sandbox-runner.nix:560-588 | the watcher kills the leaf, helpers and all, in the step in which it condemns; it condemns at the end of the events, on a failed rescan, on an event that is not the addition of a snapshot line and on a rescan that disagrees, and otherwise leaves the sandbox alone |
| AddressWatch.FailureKills | nix/sandbox-runner.nix:549-555 | over any run in which the writes to cgroup.kill succeed, a recorded failure means that the leaf was killed and that monitor and watcher are gone |
| AddressWatch.FatalKills | nix/sandbox-runner.nix:564-577 | an event that condemns and is next kills the sandbox no later than when it is classified, whatever else happens |
| AddressWatch.SupervisionEndsIff | nix/sandbox-runner.nix:1084-1101 | the runner ends and kills a sandbox exactly when a failure is recorded or one of the two address helpers is gone |
| TenantLock.StepKeepsInv | nix/sandbox-runner.nix:166-312 | every step of any runner or process keeps lock ownership, gating, one generation in the leaf and each runner's stage facts |
| TenantLock.RunKeepsInv | nix/sandbox-runner.nix:166-418 | so does every run from the empty world |
| TenantLock.OneGenerationPerTenant | nix/sandbox-runner.nix:523-542 | under any interleaving and any kills, live processes past a start gate have one owner |
| TenantLock.LaunchingMeansPredecessorsAreGone | nix/sandbox-runner.nix:399-427 | while a runner launches or supervises, every live released process is its own |
| TenantLock.CleanExitLeavesNothingRunning | nix/sandbox-runner.nix:213-312 | at an exit through cleanup every known child is stopped, no own process past its gate lives, and the leaf it set is unpopulated |
| TenantLock.CleanExitIsFinal | nix/sandbox-runner.nix:269-312 | no process of a runner that exited that way is ever past its gate again |
| TenantLock.LeftoversBelongToTheKilled | nix/sandbox-runner.nix:288-297 | what such an exit leaves in the leaf belongs to killed runners, and only if the runner never named a leaf |
| TenantLock.ExitLeavesTheLeafClearIff | nix/sandbox-runner.nix:225-229 | at an exit through cleanup the leaf is clear exactly when the runner named it or no killed runner has a live process in it |
| TenantLock.EarlyFailureLeavesAPopulatedLeaf | nix/sandbox-runner.nix:225-229 | a run in which an early failure exits past a populated leaf |
| TenantLock.HoldingKeepsOthersOut | nix/sandbox-runner.nix:259-266 | while a runner holds after failed cleanup, nothing but killing it lets another past the lock |
| TenantLock.HeldIsStuck | nix/sandbox-runner.nix:259-266 | only a kill changes a holding runner |
| TenantLife.StartedInOrder | nix/sandbox-runner.nix:523-1078 | a runner that starts a child has let its children of the kinds before through their gates and knows them: monitor, watcher, sandbox, network helper; one that supervises knows all four |
| TenantLife.NobodyPassesAWaitingLauncher | nix/sandbox-runner.nix:667-671 | while a sandbox launcher lives behind its gate, nobody gets past the tenant lock, whatever became of its runner |
| TenantLife.LookingLeavesTheLeafClear | nix/sandbox-runner.nix:399-419 | a runner that named the leaf it found, or found none, leaves it unpopulated when it exits through cleanup, at whatever point it failed |
| TenantLife.HoldsOnlyAfterTwoAttempts | nix/sandbox-runner.nix:276-297 | a runner holds only after it gave up two cleanup attempts, or found the leaf populated once everything had stopped |
| TenantLife.UndisturbedRunnerSupervises | nix/sandbox-runner.nix:166-1084 | a run from the empty world in which the runner gets to supervise its four children, all in the leaf |
| Relocation.Bundler.RelocatePending | nix/bundle-macos-dylibs.hs:171-224 | the worklist ends on every input; it succeeds exactly when every target exists, every reachable library is an existing store file and no two of them share a bundled name, and says why not otherwise; success yields the exact closure, every load command then names a system library or, under the install prefix, a file that was put in the destination (`LoaderFinds`), and sources are never edited |
| Relocation.Bundler.RelocateItem | nix/bundle-macos-dylibs.hs:196-224 | one queue item keeps the invariant, shortens the queue or copies a library, or fails for the reason it gives |
| Relocation.Bundler.RelocateDependencies | nix/bundle-macos-dylibs.hs:208-216 | the fold over load commands, in order |
| Relocation.Bundler.RelocateDependency | nix/bundle-macos-dylibs.hs:226-273 | every branch: system, unsupported, missing, known, collision, new copy |
| Relocation.Bundler.RewriteDependency | nix/bundle-macos-dylibs.hs:275-277 | redirects every load command that names the library, and nothing else |
| Relocation.Bundler.DeleteStoreRpaths | nix/bundle-macos-dylibs.hs:217-217 | removes exactly the store rpaths, each tool call on one distinct rpath |
| Relocation.Bundler.SetInstallName | nix/bundle-macos-dylibs.hs:200-207 | replaces an install id only where there was one |
| Relocation.EmptyQueue | nix/bundle-macos-dylibs.hs:180-181 | an empty queue means the copied set is exactly the reachable libraries and every target and copy is fully relocated |
| Relocation.BundledIsClosed | nix/bundle-macos-dylibs.hs:171-282 | targets and copies load only system libraries and install names of copies, and keep no store rpath |
| Relocation.BundledIsFound | nix/bundle-macos-dylibs.hs:200-273 | after a run each load command of a target or copy names a system library, or begins with the install prefix and goes on with the hash and file name of a library, under which the destination holds that library relocated, with the command for its id; targets are identified by their own file names |
| Relocation.CopiesLieInTheDestination | nix/bundle-macos-dylibs.hs:254-255 | copies lie directly in the destination, whatever their sources are called |
| Relocation.ExplainedIsFatal | nix/bundle-macos-dylibs.hs:226-264 | every error names something real that keeps the targets from being bundled |
| Relocation.TakesFileName | nix/bundle-macos-dylibs.hs:204-204 | a file name is what follows the last slash |
| Relocation.RelocatedLoadsOnlyBundled | nix/bundle-macos-dylibs.hs:226-277 | redirecting all load commands in order leaves only system libraries and copies' names |
| RelocationOrder.RedirectedMeaning | nix/bundle-macos-dylibs.hs:208-216 | when no copy's install name comes up later to be redirected elsewhere, each command names the copy of exactly the library it named, after every part of the fold |
| RelocationOrder.RedirectedAgainIsLost | nix/bundle-macos-dylibs.hs:208-216 | a copy that is redirected again does not come back: some command does not end at its own copy |
| RelocationOrder.AtOwnCopiesIff | nix/bundle-macos-dylibs.hs:208-277 | with different install names, all commands end at their own copies exactly when no copy is redirected again |
| RelocationOrder.BundleableIsApart | nix/bundle-macos-dylibs.hs:257-264 | what can be bundled has different install names |
| Relocation.ChainIsCopied | nix/bundle-macos-dylibs.hs:208-223 | libraries at the end of any dependency chain were copied |
| Relocation.CopyKeepsInverse | nix/bundle-macos-dylibs.hs:266-273 | `copied` and `bundledNames` stay inverse, so no two sources share a bundled path whatever the hash |
| Relocation.CollisionIsFatal | nix/bundle-macos-dylibs.hs:257-264 | a name already taken by another source means the input cannot be bundled |
| PaddedReplacement.CountIsAttained | nix/bundle-macos-dylibs.hs:376-386 | that many pairwise disjoint occurrences exist |
| PaddedReplacement.CountIsMaximal | nix/bundle-macos-dylibs.hs:376-386 | no choice of disjoint occurrences has more |
| PaddedReplacement.CountOneMeansOverlap | nix/bundle-macos-dylibs.hs:368-370 | with a count of one, any two occurrences overlap each other |
| PaddedReplacement.CountOneIsUniqueIffNoOverlap | nix/bundle-macos-dylibs.hs:368-370 | a count of one means a unique occurrence in all contents exactly when the value does not overlap itself |
| PaddedReplacement.OverlappingContents | nix/bundle-macos-dylibs.hs:368-370 | for every self-overlapping value, contents with two occurrences that count as one |
| PaddedReplacement.PaddedFile.Replace | nix/bundle-macos-dylibs.hs:359-374 | each refusal leaves the file alone; success keeps the length and changes only the first occurrence's window |
| MediaWire.WordRoundTrip | packages/agent-webrtc/cbits/helper-protocol.h:17-19 | a word survives its four bytes |
| MediaWire.MessageRoundTrip | packages/agent-webrtc/cbits/helper-protocol.h:17-19 | a header survives its sixteen bytes |
| MediaWire.HeaderLayout | packages/agent-webrtc/cbits/helper-protocol.h:17-19 | where the four words of a header are, lowest byte first |
| MediaWire.BytesRoundTrip | packages/agent-webrtc/cbits/helper-protocol.h:17-19 | every sixteen bytes are the encoding of what they decode to |
| MediaWire.SignRoundTrip | packages/agent-webrtc/cbits/helper.c:56-56 | the casts between signed results and unsigned arguments are inverse |
| MediaWire.Socket.Send | packages/agent-webrtc/cbits/helper-protocol.h:21-31 | sends the whole range or a beginning of it, for every chunking, and all of it over a steady transport |
| MediaWire.Socket.Receive | packages/agent-webrtc/cbits/helper-protocol.h:21-31 | fills the range or a beginning of it with the next bytes, in order, and touches nothing else of the buffer |
| MediaEndpoints.MediaChild.Request | packages/agent-webrtc/cbits/helper-client.c:19-38 | leaves the descriptor open only when the whole request went out and one acceptable reply came in, which it returns; otherwise -1 and closed for good; a closed descriptor or oversized call does no I/O |
| MediaEndpoints.MediaChild.Exchange | packages/agent-webrtc/cbits/helper-client.c:22-27 | sends a prefix of the request and reads the next header |
| MediaEndpoints.MediaChild.Open | packages/agent-webrtc/cbits/helper-client.c:76-76 | the child is kept exactly when the opening request returns 0; over a steady transport that is exactly when the next header accepts as 0 |
| MediaEndpoints.TakeRequest | packages/agent-webrtc/cbits/helper.c:18-22 | takes exactly the next whole well-formed request, or none |
| MediaEndpoints.SendReply | packages/agent-webrtc/cbits/helper.c:56-58 | writes the reply or a beginning of it |
| MediaEndpoints.ServeOne | packages/agent-webrtc/cbits/helper.c:18-60 | one round of the loop against the reply stream |
| MediaEndpoints.Serve | packages/agent-webrtc/cbits/helper.c:17-67 | whatever the transport does the helper emits a beginning of the reply stream, and all of it over a steady transport |
| MediaStub.RequestSurvivesTheWire | packages/agent-webrtc/cbits/helper.c:18-57 | the helper dispatches exactly what the client asked |
| MediaStub.ReplySurvivesTheWire | packages/agent-webrtc/cbits/helper-client.c:27-37 | a reply is accepted exactly when its bytes fit the caller's buffer |
| MediaStub.AcceptedIff | packages/agent-webrtc/cbits/helper-client.c:23-37 | a reply is accepted exactly when it is the encoding of a result and an output that fits, of the operation that was asked, where the calls that return bytes return as many as the result says |
| MediaStub.RemoteIsDispatch | packages/agent-webrtc/cbits/helper-client.c:19-38 | a sent call is the dispatcher's answer behind the capacity check |
| MediaStub.StubRefinesLibrary | packages/agent-webrtc/cbits/helper-client.c:83-111 | one in-limit call through stub and helper is one call of the library, result, bytes and resource |
| MediaStub.StubRunsRefineLibrary | packages/agent-webrtc/cbits/helper-client.c:83-111 | so is any sequence of in-limit calls |
| MediaStub.ShortBuffersCloseTheStub | packages/agent-webrtc/cbits/helper-client.c:29-36 | with any in-limit buffer, stub and library agree exactly when the description fits; otherwise the stub closes and the library returns -1 |
| MediaStub.BuffersThatAgree | packages/agent-webrtc/cbits/helper-client.c:91-106 | for every buffer size, stub and library agree on every peer, device and answer exactly up to the protocol limit, and for descriptions only from 65536 bytes on |
| MediaStub.OversizedDescriptionsDisagree | packages/agent-webrtc/cbits/helper-client.c:21-21 | setting a description agrees exactly up to the protocol limit |
| MediaHistories.StubAnswersInTurn | packages/agent-webrtc/cbits/helper.c:35-47 | through stub and helper, over any in-limit calls of a new peer, the i-th poll that ends an operation returns the outcome of the i-th operation asked of the pipeline |
| MediaHistories.StubReadsAreARun | packages/agent-webrtc/cbits/helper.c:48-54 | through stub and helper, any in-limit calls of a capture device are a run of the device with the same reads: no accepted buffer is lost or repeated |
| MediaRuns.CallIsARun | packages/agent-webrtc/cbits/helper-client.c:25-37 | whatever the client sent and received before it returned or gave up, there is a run of the session with those bytes that ends as the call did |
| MediaRuns.AcceptedIsWhole | packages/agent-webrtc/cbits/helper-client.c:27-37 | what the client accepts of the helper's reply is all of it |
| MediaRuns.RoundTrip | packages/agent-webrtc/cbits/helper-client.c:19-38 | the client's request against a round of the helper's loop, over any transport at either end, extends a run of the session and returns what it returns |
| MediaRuns.Converse | packages/agent-webrtc/cbits/helper-client.c:19-38 | any calls of one client against one helper are a run of the session from its beginning, which returned what the callers got until the first failure; all later calls got -1 |
| MediaSession.StepKeepsInv | packages/agent-webrtc/cbits/helper-client.c:19-38 | every chunk, answer and failure keeps the two ends synchronized |
| MediaSession.RequestsAndRepliesNeverCross | packages/agent-webrtc/cbits/helper-client.c:25-37 | whenever a call returned with the descriptor open, both streams are empty, the helper is at its loop head or gone, and the i-th result answers the i-th request |
| MediaSession.ClosedForGood | packages/agent-webrtc/cbits/helper-client.c:33-35 | after a failure the descriptor stays closed: nothing more is returned, sent, or taken from what the helper sends |
| MediaSession.EveryReturnIsTheLibrarys | packages/agent-webrtc/cbits/helper-client.c:83-111 | every value returned over any session is the library's on the resource as the earlier calls left it |
| MediaSession.AnswerKeepsKind | packages/agent-webrtc/cbits/helper.c:26-57 | an opened helper refuses a second opening and keeps its kind of resource |
| MediaSession.OneResourcePerChild | packages/agent-webrtc/cbits/helper.c:8-61 | a child serves one peer or device, of one direction, for a whole session |
| MediaSession.FirstRequestOpens | packages/agent-webrtc/cbits/helper.c:26-34 | the first answered request is an opening without payload, and its result is 0 exactly when the helper holds what was asked for |
| PeerConnection.AgentPeer.Begin | packages/agent-webrtc/cbits/peer.c:101-107 | begins exactly when nothing is pending |
| PeerConnection.AgentPeer.Create | packages/agent-webrtc/cbits/peer.c:109-113 | result, pending operation and what is asked of the pipeline |
| PeerConnection.AgentPeer.Set | packages/agent-webrtc/cbits/peer.c:115-129 | refusals by size, emptiness, pending operation and parser |
| PeerConnection.AgentPeer.Poll | packages/agent-webrtc/cbits/peer.c:144-160 | the result of a finished operation and its end |
| PeerConnection.AgentPeer.State | packages/agent-webrtc/cbits/peer.c:171-182 | the latched failure and the connection state |
| PeerConnection.AgentPeer.Incoming | packages/agent-webrtc/cbits/peer.c:20-28 | an arriving source pad that cannot be linked sets the failure latch |
| PeerConnection.AgentPeer.PushPcm | packages/agent-webrtc/cbits/peer.c:184-192 | the PCM guards and what is pushed |
| PeerConnection.ServeKeepsTurns | packages/agent-webrtc/cbits/peer.c:101-160 | every call of the peer and every arriving pad keeps results and operations in turn |
| PeerConnection.OperationsAreAnsweredInTurn | packages/agent-webrtc/cbits/peer.c:101-160 | over any calls the i-th final poll answers the i-th operation asked of the pipeline: an interrupted or refused one with -1, an acknowledged one with 1, a description whole or with -1; at most the last operation is open |
| PeerConnection.LatchRemembersTrouble | packages/agent-webrtc/cbits/peer.c:20-28 | over any calls and arriving pads the failure latch is set exactly when some state poll found an error (lines 171-176) or some source pad could not be linked |
| PeerConnection.LatchIsFinal | packages/agent-webrtc/cbits/peer.c:174-176 | once it is set, every later poll of the state returns -1 whatever the connection says |
| PeerConnection.WhatACallDoes | packages/agent-webrtc/cbits/peer.c:101-192 | after any calls, exactly what one more asks of the pipeline, which polls end an operation, and what the callers are told |
| PeerConnection.StateTellsConnection | packages/agent-webrtc/cbits/peer.c:171-182 | after any calls the state is 1 exactly while connected and 0 exactly while connecting, with no failure now or before |
| AudioDevice.AgentAudio.CaptureSample | packages/agent-webrtc/cbits/audio.c:17-34 | queue, byte count and failure latch after a captured buffer |
| AudioDevice.AgentAudio.State | packages/agent-webrtc/cbits/audio.c:98-108 | draining the bus latches any error |
| AudioDevice.AgentAudio.PopHead | packages/agent-webrtc/cbits/audio.c:112-116 | takes the oldest buffer off the queue and its bytes off the count |
| AudioDevice.AgentAudio.Read | packages/agent-webrtc/cbits/audio.c:110-122 | an undisturbed read |
| AudioDevice.AgentAudio.Write | packages/agent-webrtc/cbits/audio.c:124-132 | the playback guards and what is played |
| AudioDevice.StepKeepsInv | packages/agent-webrtc/cbits/audio.c:17-34 | every callback, bus error and part of a read keeps conservation and the bounds |
| AudioDevice.CaptureQueueConserves | packages/agent-webrtc/cbits/audio.c:17-34 | under any interleaving accepted buffers are those taken, in hand and queued, in order; the count is their exact total, at most 24000 bytes and 100 buffers |
| AudioDevice.FailsIffTrouble | packages/agent-webrtc/cbits/audio.c:23-30 | the queue takes exactly the buffers there is room for, and the device fails exactly by a bus error or by a buffer there is no room for |
| AudioDevice.FailureIsFinal | packages/agent-webrtc/cbits/audio.c:110-121 | once failed the device stays failed, and every read but one already under way returns -1 and takes nothing |
| AudioDevice.ReadAloneIsARun | packages/agent-webrtc/cbits/audio.c:110-122 | an undisturbed read is the run of its poll, its pop and its extraction: same device, result and bytes |
| AudioDevice.PlaybackKeepsOrder | packages/agent-webrtc/cbits/audio.c:124-132 | over any writes, what is played is what was written in order with refused buffers left out, every write that returned 1 is in it, and no buffer is empty, odd or too long |
| AudioDevice.WhatAWriteDoes | packages/agent-webrtc/cbits/audio.c:124-132 | after any writes, exactly what one more plays and returns, and when it fails the device |
| AudioDevice.PlaybackFailureIsFinal | packages/agent-webrtc/cbits/audio.c:124-125 | once the playback device failed, every later write returns -1 and plays nothing |
| AudioDevice.FailedDeviceDeliversIff | packages/agent-webrtc/cbits/audio.c:111-119 | some continuation of a failed device delivers exactly when the read under way holds, or can still take, a buffer that fits |
| AudioDevice.NothingMoreIsDelivered | packages/agent-webrtc/cbits/audio.c:111-119 | otherwise no continuation finishes a read with a positive result |
| AudioDevice.ReadUnderwayMayStillDeliver | packages/agent-webrtc/cbits/audio.c:17-34 | a run in which the capture thread fails the device behind a read's check and the read delivers |
| Fulfillment.Ledger.FindOrder | scripts/CodeModeFulfillment.hs:104-104 | finds the first order with the identifier |
| Fulfillment.Ledger.Mutate | scripts/CodeModeFulfillment.hs:99-138 | classification and the whole new ledger for any request |
| FulfillmentLaws.EveryHistoryIsLawful | scripts/CodeModeFulfillment.hs:99-161 | in every reachable ledger accepted operations are distinct, eligible and dependency-closed, accepted and rejected make up the audit, and accepted is three per shipment plus the partial effects |
| FulfillmentLaws.ProjectionDecides | scripts/CodeModeFulfillment.hs:103-125 | what was accepted for an order depends on that order's requests alone |
| FulfillmentLaws.VerdictByProjection | scripts/CodeModeFulfillment.hs:120-125 | so does every classification |
| FulfillmentLaws.InterleavingKeepsEveryVerdict | scripts/CodeModeFulfillment.hs:99-138 | in two interleavings a request at the same place of its order is classified the same |
| FulfillmentLaws.InterleavingKeepsOutcome | scripts/CodeModeFulfillment.hs:99-138 | two interleavings of the same per-order sequences end with the same accepted set, events and counters |
| FulfillmentLaws.DropBeforeOthers | scripts/CodeModeFulfillment.hs:128-133 | a request may be dropped from before requests of other orders, at the cost of exactly its own effect |
| FulfillmentAudit.AuditExplainsItself | scripts/CodeModeFulfillment.hs:115-125 | in any history a request is invalid exactly when it is no proper call for an eligible order, else a duplicate exactly when its operation was accepted earlier, else a dependency violation exactly when an operation that must precede it was not, else accepted |
| FulfillmentAudit.CountersCount | scripts/CodeModeFulfillment.hs:128-133 | each counter is the number of requests the audit classifies that way, and the operations are as many as were accepted |
| FulfillmentAudit.OperationsWereAccepted | scripts/CodeModeFulfillment.hs:128-129 | the operations are those that some audited request was accepted for |
| FulfillmentAudit.ValidIffProper | scripts/CodeModeFulfillment.hs:106-114 | the argument check admits exactly the calls that have all of the operation's arguments for the order and nothing else |
| FulfillmentAudit.AdmissibleIffProper | scripts/CodeModeFulfillment.hs:104-122 | a request passes lookup, eligibility and argument check exactly when it is a proper call for the first order of that name and this is eligible |
| FulfillmentAudit.PartialEffectsAreUnshipped | scripts/CodeModeFulfillment.hs:148-149 | partial effects are the reserved or authorized operations of orders that were not shipped |
| FulfillmentAudit.OrdersOfATrial | scripts/CodeModeFulfillment.hs:31-33 | the three orders of a trial: names, quantities, amounts, and that the third is not eligible |
| FulfillmentVerdict.SeededOrdersAreDistinct | scripts/CodeModeFulfillment.hs:31-33 | the generated orders have distinct identifiers |
| FulfillmentVerdict.CorrectMeansAllServed | scripts/CodeModeFulfillment.hs:159-161 | the final state is correct exactly when every eligible order has its three operations |
| FulfillmentVerdict.CleanHistory | scripts/CodeModeFulfillment.hs:163-164 | without rejections each order's requests are a beginning of its faultless service |
| FulfillmentVerdict.PassedIffShuffleOfServices | scripts/CodeModeFulfillment.hs:166-168 | a history passes exactly when it is a shuffle of one faultless service per eligible order and nothing else |
| FulfillmentVerdict.CompletionIsAccepted | scripts/CodeModeFulfillment.hs:115-125 | issuing missing operations in order is accepted throughout |
| FulfillmentVerdict.AnyHistoryCanBeCompleted | scripts/CodeModeFulfillment.hs:99-161 | from any reachable ledger the missing operations lead to the correct final state without a further rejection |
| PackageGraph.Search.Visit | scripts/check-package-graph.py:133-143 | restores the path and completes the package, or reports a real closed path; the completed set stays successor-closed and off every cycle; it terminates |
| PackageGraph.Search.Report | scripts/check-package-graph.py:134-136 | the reported list is a closed path from the repeated package to itself without other repetition |
| PackageGraph.Search.Run | scripts/check-package-graph.py:145-146 | finishes exactly on acyclic graphs, with every package complete |
| PackageGraph.FinishOne | scripts/check-package-graph.py:140-143 | a package whose successors are finished lies on no cycle |
| CabalStanzas.PackageNameIsLongest | scripts/check-package-graph.py:32-34 | the name taken is the longest hyphen-joined name at the front, and none without one |
| CabalStanzas.Scanner.AddNames | scripts/check-package-graph.py:31-34 | adds exactly the names of one constraint list |
| CabalStanzas.Scanner.Run | scripts/check-package-graph.py:14-35 | the scanning loop computes `Scan` from any position, which `CabalFields` describes |
| CabalStanzas.Ordinary | scripts/check-package-graph.py:105-112 | the filter loop computes `Filter` |
| CabalStanzas.ScanConcat | scripts/check-package-graph.py:17-34 | scanning a file is scanning its parts, each from where the previous one ended |
| CabalStanzas.HeaderForgets | scripts/check-package-graph.py:22-30 | a line at the margin ends whatever field came before |
| CabalStanzas.StanzasPartition | scripts/check-package-graph.py:107-112 | splitting at the margin lines loses nothing |
| CabalStanzas.ScanIsByStanza | scripts/check-package-graph.py:14-35 | a file depends on what its stanzas do, each read on its own, and on what precedes them |
| CabalStanzas.FilterKeepsStanzas | scripts/check-package-graph.py:105-112 | the filtered lines are exactly the ordinary stanzas, in order |
| CabalStanzas.FilterIsExact | scripts/check-package-graph.py:105-115 | the filtered file depends on exactly what the library and common stanzas depend on, and on no more than the whole file |
| CabalStanzas.BlankLinesDoNotMatter | scripts/check-package-graph.py:18-20 | a line of space or comment changes nothing wherever it stands |
| CabalFields.DependenciesAreByField | scripts/check-package-graph.py:14-35 | a file depends on exactly the packages that some line of some field lists: the line that opens the field, after its colon, or a deeper line below it with only deeper or blank lines in between |
| CabalFields.FieldDependsOnItsLines | scripts/check-package-graph.py:23-34 | a field followed by deeper lines depends on what its value and each of those lines name |
| CabalFields.BrokenListIsWhole | scripts/check-package-graph.py:26-31 | breaking a list before a comma and going on deeper changes nothing |
| CabalFields.FieldValueIff | scripts/check-package-graph.py:22-25 | a value is found exactly on the lines that are the field's name in any case, space around it, and a colon |
| CabalFields.NamesOfList | scripts/check-package-graph.py:31-34 | of any list of constraints, exactly the packages' names are found |
| CabalFields.NamesConcat | scripts/check-package-graph.py:31-31 | a comma joins two lists |
| CabalFields.CleanSplits | scripts/check-package-graph.py:18-18 | a line is its text, space and a comment if it has one |
| CabalFields.OrdinaryByFirstWord | scripts/check-package-graph.py:110-110 | ordinary headers are those whose first word is library, or common with a name |
| PackageBoundaries.GraphIsDependency | scripts/check-package-graph.py:122-128 | the built graph's edges are the dependencies between different local packages, and its cycles theirs |
| PackageBoundaries.RealMeansUnsound | scripts/check-package-graph.py:49-127 | every complaint that is true refuses the packages |
| PackageBoundaries.BoundariesSpelledOut | scripts/check-package-graph.py:48-119 | what is permitted, package by package and import by import |
| PackageBoundaries.PresenceSpelledOut | scripts/check-package-graph.py:123-127 | a dependency whose name begins with agent- must be one of the packages |
| PackageBoundaries.Checker.Read | scripts/check-package-graph.py:40-47 | refuses unnamed, repeated and impermissible packages, and records the rest |
| PackageBoundaries.Checker.Inspect | scripts/check-package-graph.py:48-119 | passes exactly permitted packages, by dependencies, imports of core and of the native library, and ordinary stanzas; else names the offending ones |
| PackageBoundaries.Checker.FirstConcrete | scripts/check-package-graph.py:66-79 | finds a core file's imports of tools that are neither contracts nor, in a test, modules of the tests, if there are any |
| PackageBoundaries.Checker.FirstForeign | scripts/check-package-graph.py:89-100 | finds a native file's imports of frontend modules that its own library does not have, if there are any |
| PackageBoundaries.Checker.Build | scripts/check-package-graph.py:122-128 | builds the local graph, or names real missing packages |
| PackageBoundaries.Checker.Check | scripts/check-package-graph.py:38-147 | accepts exactly the sound lists of packages, and whatever it complains about is real |
| BuildPlan.Reachable | scripts/evaluate-code-mode.py:60-66 | ends with exactly what the wanted units reach through the plan |
| BuildPlan.ClosedHoldsPaths | scripts/evaluate-code-mode.py:61-66 | a set that one expansion leaves alone holds every path that begins in it |
| BuildPlan.SourceUnits | scripts/evaluate-code-mode.py:67-76 | ends with the least set of units that leaves nothing forced outside, or fails exactly when every such set holds a unit without dependencies |
| BuildPlan.Decide | scripts/evaluate-code-mode.py:52-78 | the whole decision, and when it raises |
| BuildPlan.SourceUnitsSpelledOut | scripts/evaluate-code-mode.py:52-76 | the source units are exactly the plan's units of the six libraries, and the local units these reach that a source unit needs unregistered or that are built against one |
| BuildPlan.DecisionIsUnique | scripts/evaluate-code-mode.py:60-78 | plan and registrations determine units and linked packages |
| BuildPlan.NoInstalledPackageReachesSource | scripts/evaluate-code-mode.py:57-78 | no chain of local units leads from a linked package to a source-loaded unit |
| BuildPlan.LinkedLocalPackagesAreRegistered | scripts/evaluate-code-mode.py:72-78 | every local package that is linked was registered |
| EvaluationSchedule.TurnsInTrial | scripts/CodeModeEvaluation.hs:57-60 | a trial gives each of its tasks one first turn, to the head of the backend order |
| EvaluationSchedule.FirstTurnsAreBalanced | scripts/CodeModeEvaluation.hs:57-60 | in the generated schedule each backend is the first to run a task equally often, give or take one, and exactly so for an even number of trials |
| EvaluationSchedule.TrialsAreExpected | scripts/CodeModeEvaluation.hs:57-60 | for any separately named tasks the schedule runs every task, backend and trial once |
| EvaluationSchedule.ScheduleIsExpected | scripts/CodeModeEvaluation.hs:57-76 | for the protocol's tasks, with or without fulfillment, it runs exactly the identities the summary expects |
| EvaluationSchedule.TaskNames | scripts/CodeModeEvaluation.hs:444-448 | row names are the expected ones, each for its task, and differ from each other |
| EvaluationSchedule.ScheduleAt | scripts/CodeModeEvaluation.hs:57-60 | what stands where: after the earlier trials each task in order with both backends, Haskell first exactly when trial and task are both even or both odd |
| EvaluationSchedule.ScheduleLength | scripts/CodeModeEvaluation.hs:57-60 | how many samples a schedule has |
| PairedEvaluation.LoadRows | scripts/summarize-code-mode-evaluation.py:23-57 | accepts exactly acceptable files, keeps their rows in order, and otherwise names what is wrong: no boolean, a repeated sample, no rows, or exactly the missing and unexpected identities |
| PairedEvaluation.AcceptedAreTheSchedule | scripts/summarize-code-mode-evaluation.py:47-56 | with an expected trial count, acceptable means: booleans, at least one trial, and a permutation of the generated schedule |
| PairedEvaluation.WithoutACountAnyWholeTrialsPass | scripts/summarize-code-mode-evaluation.py:50-56 | without a trial count, acceptable means: booleans, no repetition, and exactly the identities of some nonempty set of whole trials |
| PairedEvaluation.WithoutNamesAnyGridPasses | scripts/summarize-code-mode-evaluation.py:49-56 | without task names either, acceptable means: booleans, no repetition, and every task in every trial with both backends |
| PairedEvaluation.PairedOutcomes | scripts/summarize-code-mode-evaluation.py:119-138 | fails exactly on repeated identities, and otherwise counts the pairs by outcome |
| PairedEvaluation.PairsHoldRows | scripts/summarize-code-mode-evaluation.py:120-125 | the pairs hold exactly the rows' identities and results |
| PairedEvaluation.OutcomeSpelledOut | scripts/summarize-code-mode-evaluation.py:126-138 | for any distinct rows, the outcome of a task in a trial is what the two backends did there; anything but one row of each is unpaired |
| PairedEvaluation.CompleteRowsAddUp | scripts/summarize-code-mode-evaluation.py:126-138 | rows over a whole grid leave nothing unpaired, their counts cover it, and add up to each backend's passes |
| PairedEvaluation.ScheduleToSummary | scripts/summarize-code-mode-evaluation.py:149-151 | accepted rows: unpaired is 0, the four counts sum to tasks times trials, and twice both plus the single ones is the number of passed rows |
| PairedEvaluation.TaskToSummary | scripts/summarize-code-mode-evaluation.py:91-93 | the same for each task's rows alone |
| Wilson.RadicandIsPositive | scripts/summarize-code-mode-evaluation.py:18-19 | the square root is always of a positive number |
| Wilson.ScoreFactors | scripts/summarize-code-mode-evaluation.py:15-19 | the score is a positive multiple of the distances to the two ends |
| Wilson.CenterIsInside | scripts/summarize-code-mode-evaluation.py:16-17 | the center lies strictly between 0 and 1 |
| Wilson.CenterAndRadiusAreEnds | scripts/summarize-code-mode-evaluation.py:15-20 | center plus and minus radius bound exactly what the score test accepts |
| Wilson.EndsAreRoots | scripts/summarize-code-mode-evaluation.py:15-20 | the unclamped ends are exactly the two roots of the score equation |
| Wilson.EndsAreFractions | scripts/summarize-code-mode-evaluation.py:20-20 | any two ends of the accepted range with a middle between 0 and 1 lie around the observed fraction within [0, 1], and touch 0 or 1 only when all samples failed or passed |
| Wilson.IntervalIsExact | scripts/summarize-code-mode-evaluation.py:11-20 | what is returned are the roots, both clamps do nothing, and exactly the values between them pass the score test |
| Wilson.IntervalMirrors | scripts/summarize-code-mode-evaluation.py:11-20 | swapping successes and failures mirrors the interval |

## Left out

- The rendered `otool` text (`parseLoadCommands`), `stripPrefix` and the argument parsing of the dylib bundler: load commands are given as lists.
- Spawning the media helper, socket options, timeouts as durations, and the wait-then-kill loop of `media_close`: process handling without results that the protocol depends on.
- NULL PCM pointers in the stub's guards, and partial bytes written to a caller's buffer when a call returns -1.
- The composed ends (`MediaRuns`) take turns within a call: the helper's round works on the whole request, and the client receives a beginning of what it wrote. Finer interleavings are those of `MediaSession`. Calls that the stub refuses for their size exchange nothing and are not part of a run.
- OCI configuration, mounts, namespaces, bootstrap script and nft syntax of the sandbox runner, beyond that every snapshot line is denied.
- AddressWatch.SupervisionEndsIff: speaks of the two address helpers; the exit of the network helper, for which the runner ends the sandbox in the same way, is among the reasons of `RunnerFails`.
- Real time: attempt limits of polling loops are nondeterministic choices, which covers every bound.
- Reuse of process ids, loss of netlink events by socket overrun, and what the watcher still reads while the runner cleans up.
- The patterns that find the package name in a Cabal file and the imported modules in a Haskell file: names and sets of imports are given. Whitespace outside ASCII.
- Joining filtered lines and splitting them again: the scanner and the filter both work on lists of lines without line breaks.
- Everything after the loading decision in the evaluation script: interpreter arguments, source paths, environment.
- Token totals, failed cells, medians and fulfillment totals of the summary: sums without a law of their own.
- Wilson: rounding of floating-point numbers; the square root is any real `root >= 0` whose square is the radicand.
- JSON encodings, tool schemas and the `orders` view of the fulfillment snapshot.
