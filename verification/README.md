# agents-js: verified models of its graph engines, run protocols and stream decoders

A Dafny model of the parts of the agents-js repository whose correctness is hardest to see, with proofs of what they promise.
`dafny verify dfyconfig.toml` checks everything. There are three groups.

**Dependency-graph engines.** The publish order (Kahn's algorithm with a sorted ready queue), the dashboard layers (peeling) and the
build-cycle check (recursive three-colour search) work on dictionaries, sets and queues. `DependencyGraph` holds one theory of finite
graphs: walks, cycles, chains and topological orders. Each engine is a method proved against it, and `EngineAgreement` puts the three
side by side.

**Concurrent run protocols.** The playground store and the meta-agent loop are transition systems: a step is the code between two awaits
or timer callbacks, and steps of any number of runs interleave freely. `*Protocol` gives the steps, `*Invariants` the inductive
invariant, `*Theorems` what holds over all runs, and a class with the source's own fields (`PlaygroundStore`, `MetaAgentLoop`) implements
each step. `PlaygroundReplay`, `PlaygroundOutcomes`, `MetaAgentTraces`, `DroidTurnTheorems` and `MemoryJournal` are the reference side: what a
run shows, emits, answers and holds, told from the steps taken and not from the state.

**Incremental decoders and the clients above them.** The NDJSON line buffer and the two SSE frame splitters equal simple functions of the
whole text; the Pi request table, the two single-prompt sessions, the Droid translator, the reconnect loop and the reference memory
provider keep what they promise over every run.

Texts are sequences of UTF-16 code units (`JsText`). Listeners and emit callbacks do not re-enter `dispatch` and do not throw, and run ids
are fresh, as the default factory's counter makes them.

## Where the code and its comments or promises differ

The model follows the code. Each of these has a lemma with an input that shows it and one with the exact condition.

- The publish order depends on the order of its input when packages share a manifest name (scripts/release-preflight.ts:177).
  `GraphOrderFreeIff` gives the exact condition for the package graph; for the published order it is sufficient, since two different
  graphs can have one least order. A duplicate or empty directory name is reported as a cycle.
- An error of one playground run is appended to whichever run is active (extras/browser-runtime/src/playground-store.ts:530-536).
- A cancel that arrives while a run's factory is pending reaches no runner, and the run is prompted all the same (lines 462-468 and
  538-566); with overlapping runs a cancel can also reach the runner of another run or none (lines 519, 546 and 580-585).
- An aborted meta-agent run does not end as cancelled if the abort makes the model or the stream reject
  (extras/browser-runtime/src/meta-agent-loop.ts:142-160, 240-257) or lands in the last permitted tool call (lines 292-296).
- A model, tool or stream that rejects with `null` or `undefined` makes the handler itself throw (lines 148, 206 and 245): the run ends
  without a terminal notification.
- The Droid session id is overwritten by each init event, though the comment says the first one is latched
  (extras/droid-acp/src/session.ts:165-168), and an earlier turn's child can settle the next turn's prompt by its exit or its late
  completion (lines 176-205).
- After a cancel, the late end of the cancelled Pi turn resolves the next prompt (extras/pi-acp/src/session.ts:134-140).
- A Pi request that reuses an id still pending leaves the earlier promise unsettled for ever (extras/pi-acp/src/pi-rpc-client.ts:221-224).
- With several deciding frames the outcome of an AG-UI turn can depend on how the network cuts the stream; a frame with the payload
  `null` is one, because reading its type throws (apps/web-ui/src/agui-run-client.ts:130-151).

## Model

| member | source | states |
|---|---|---|
| PublishOrder.ComputePublishOrder | scripts/release-preflight.ts:176-238 | An order is returned exactly when the directory names are distinct and non-empty and the package graph is acyclic; it is then the least of all topological orders, and every directory stands after those its packages list, in any of the three manifest blocks, under a scoped name only they have. Otherwise the reported names are, sorted and each as often as it was given, the directories not emitted by the greedy emission that stops at an empty name; they include every directory on a cycle or depending on one, and are exactly those unless a name is empty. |
| PublishOrder.DrainReady | scripts/release-preflight.ts:203-225 | The queue loop emits a duplicate-free list with every dependency before its dependents, each entry being the smallest one possible at its turn, and stops only when nothing more can be emitted or the empty name would be next. |
| PublishOrder.DrainedUnique | scripts/release-preflight.ts:203-225 | The package graph alone determines what is emitted, an empty directory name or a cycle included. |
| PublishOrder.Release | scripts/release-preflight.ts:216-224 | Emitting a package leaves every in-degree counting the dependencies not emitted yet, and the ready queue being the sorted, duplicate-free list of exactly the packages that have none. |
| PublishOrder.BuildEdgeTables | scripts/release-preflight.ts:177-201 | `dependents` is the exact reverse of the package graph and every in-degree is the number of distinct dependencies, however often and in however many blocks a dependency is listed. |
| PublishOrder.AddPackageEdges | scripts/release-preflight.ts:186-201 | One package adds to both tables exactly the directories its scoped entries resolve to, except its own. |
| PublishOrder.EdgeHasEntry | scripts/release-preflight.ts:93-105 | Every edge comes from a scoped name that a package of the one directory lists in its dependencies, peer dependencies or optional dependencies and under which a package of the other directory is known. |
| PublishOrder.EntryIsEdge | scripts/release-preflight.ts:186-201 | Such an entry is an edge whenever the name belongs to one directory only. |
| PublishOrder.OrderPutsDependenciesFirst | scripts/release-preflight.ts:187-225 | In every topological order of the graph a directory listed under an unambiguous name stands before the one that lists it. |
| PublishOrder.HeadIsLeastAvailable | scripts/release-preflight.ts:209-214 | The head of the sorted queue is the smallest package all of whose dependencies are out. |
| PublishOrder.DegreesStep | scripts/release-preflight.ts:217-220 | Decrementing reaches zero exactly when the emitted package was the last open dependency. |
| PublishOrder.SizeDecides | scripts/release-preflight.ts:227-237 | Comparing lengths tells exactly whether the names are distinct and everything was emitted. |
| PublishOrder.UnresolvedIsCycleSet | scripts/release-preflight.ts:227-235 | What a stuck queue leaves over is the set of packages that lie on a cycle or transitively depend on one; it is empty exactly for an acyclic graph. |
| PublishInputOrder.GraphOrderFreeIff | scripts/release-preflight.ts:177-201 | Listing the packages in another order never changes the graph if and only if every directory an ambiguous manifest name could mean is also depended on under an unambiguous one. |
| PublishInputOrder.SharedNameIsHarmful | scripts/release-preflight.ts:177 | Two packages with one manifest name in two directories and one user of that name: a harmful name, so some arrangement changes the graph. |
| PublishInputOrder.PublishBothWays | scripts/release-preflight.ts:176-238 | If the user's directory sorts between the two, listing the two packages in either order gives two different publish orders, both stated. |
| PublishInputOrder.HarmfulNameShows | scripts/release-preflight.ts:177-201 | For every harmful name there are two arrangements of the same packages, one with the edge and one without it. |
| PublishInputOrder.PublishRearranged | scripts/release-preflight.ts:176-238 | Without harmful names, two arrangements of the same packages give the same result, whatever their directory names. |
| PublishInputOrder.PublishDistinctNames | scripts/release-preflight.ts:176-238 | With distinct manifest names the result depends only on which packages there are. |
| DependencyGraph.GreedyIsLeast | scripts/release-preflight.ts:209-225 | Always taking the smallest available node yields the lexicographically least topological order. |
| DependencyGraph.LeastUnique | scripts/release-preflight.ts:209-225 | There is only one least topological order. |
| DependencyGraph.MaximalPrefixLeavesCycles | scripts/release-preflight.ts:227-231 | A topological prefix that cannot be extended leaves out exactly the nodes that reach a cycle. |
| BuildLayers.TopoLayers | scripts/build-dashboard.ts:83-102 | Layers are returned exactly when the graph is acyclic, layer i being the sorted list of the packages whose longest dependency chain has i edges, no package being left out and every listed workspace dependency in a lower layer; otherwise the remaining packages are exactly those that reach a cycle. |
| BuildLayers.ReadyIsLongest | scripts/build-dashboard.ts:90-93 | After k rounds the entries without open dependencies are those whose longest chain has k edges. |
| BuildLayers.StuckIsCycleSet | scripts/build-dashboard.ts:94-96 | If a round finds nothing, what remains is exactly the set of packages that reach a cycle. |
| BuildLayers.LayersAreFewest | scripts/build-dashboard.ts:88-101 | No numbering that puts dependencies strictly lower needs fewer layers. |
| BuildLayers.DependencyLower | scripts/build-dashboard.ts:88-101 | Every dependency sits in a strictly lower layer. |
| BuildLayers.LayerEdges | scripts/build-dashboard.ts:83-87 | An edge is a listed dependency on a package of the workspace and, with one package of the name, every such dependency is an edge. |
| BuildLayers.LayersPutDependenciesLower | scripts/build-dashboard.ts:88-101 | What a package lists and the workspace has stands in a lower layer than the package, whatever else the graph holds. |
| BuildCycles.CycleSearch.Visit | scripts/workspace-metadata.ts:504-521 | A visit ends with the task finished or met again on an edge that closes a reported trail, leaves the tasks in progress as they were, only ever adds issues that are real trails, and keeps the finish order topological but for those closing edges. |
| BuildCycles.CollectBuildCycleIssues | scripts/workspace-metadata.ts:499-528 | No issue is reported exactly when no sequence of dependsOn entries leads from a task back to itself, with the finish order as the witnessing topological order; every issue spells a trail of real edges that returns to one of its own tasks, and every closed walk takes the last edge of a reported trail. |
| BuildCycles.EveryCycleCloses | scripts/workspace-metadata.ts:504-521 | If the finish order is topological but for the closing edges and covers the graph, every closed walk takes one of them. |
| BuildCycles.CycleTrailIsCycle | scripts/workspace-metadata.ts:508-510 | Every reported trail ends in a closed walk of real dependsOn edges. |
| BuildCycles.ClosedWalkOfTasks | scripts/workspace-metadata.ts:513-520 | The closed walks of the graph are the cycles spelled by the tasks' dependsOn entries that are tasks themselves. |
| BuildCycles.AcyclicTasks | scripts/workspace-metadata.ts:499-528 | The graph is acyclic exactly when the tasks spell no cycle. |
| BuildCycles.FinishTask | scripts/workspace-metadata.ts:513-520 | A task finishes after all its dependencies, apart from those met again on a closing edge. |
| BuildTasks.CreateWorkspaceBuildTasks | scripts/workspace-metadata.ts:124-145 | The table has one task per build task name, depending on the sorted, distinct build tasks of the first-party dependencies of the last package so named; every dependency is a task of the table and never the task itself. |
| BuildTasks.FirstPartyBuildDependencies | scripts/workspace-metadata.ts:383-402 | The sorted, duplicate-free list of the build tasks of all listed packages that have one, except the package's own. |
| BuildTasks.FirstPartyIsListed | scripts/workspace-metadata.ts:383-402 | A task depends on the build task of every package listed in any of its three blocks that has one, except its own, and on nothing else. |
| BuildTasks.GeneratedTableKeepsAllEdges | scripts/workspace-metadata.ts:514-518 | On a generated table the search's test that a dependency is a task never drops an edge. |
| EngineAgreement.RunAllEngines | scripts/release-preflight.ts:176-238 | On one graph the publish order, the dashboard layers and the build-cycle check agree on whether there is a cycle, and the first two on which nodes it blocks. |
| PlaygroundReducer.TrimKeepsLast | extras/browser-runtime/src/playground-store.ts:241-242 | Dropping from the front until the cap is met leaves the last 200 events. |
| PlaygroundReducer.LastOfLast | extras/browser-runtime/src/playground-store.ts:241-242 | Appending to a trimmed log and trimming again is trimming the whole log. |
| PlaygroundInvariants.StepKeepsInv | extras/browser-runtime/src/playground-store.ts:376-586 | Whatever step comes next in any interleaving of dispatches, ticks and driver continuations: records match their logs, a running run has a driver in flight, the replay fits its source, and a timer is pending exactly during a replay. |
| PlaygroundInvariants.TickEmits | extras/browser-runtime/src/playground-store.ts:399-424 | A tick during a replay finds its source run and event and re-emits the log entry at the next position. |
| PlaygroundInvariants.ReceiveKeeps | extras/browser-runtime/src/playground-store.ts:237-246 | Live events arriving during a replay, even of the very run being replayed and past the cap, keep the replay in bounds and in order. |
| PlaygroundInvariants.EndKeeps | extras/browser-runtime/src/playground-store.ts:248-265 | After a cancel or a finalize the run concerned is not running, and records and replay are still consistent. |
| PlaygroundInvariants.EndFrame | extras/browser-runtime/src/playground-store.ts:248-265 | Cancelling or finalizing changes the status and end time of one record, and only if that run was running; otherwise it changes nothing. |
| PlaygroundTheorems.DefensiveStopsUnreachable | extras/browser-runtime/src/playground-store.ts:401-416 | In every reachable state a timer is pending exactly when a replay is on, and a pending tick will find its run and its event: neither defensive stop is ever taken. |
| PlaygroundTheorems.EventsAreLastOfLog | extras/browser-runtime/src/playground-store.ts:237-246 | In every reachable state a record holds exactly the last 200 of all events ever appended to it, and a bridged one among them came from that run's own driver. |
| PlaygroundTheorems.ReplayBufferIsSubsequence | extras/browser-runtime/src/playground-store.ts:267-297 | The replay buffer has `nextIndex` events, taken from the full log at strictly increasing positions, and is the exact prefix while the log fits the cap. |
| PlaygroundTheorems.ReplayEndsWithin200Ticks | extras/browser-runtime/src/playground-store.ts:399-429 | Whatever else happens in between, a replay that is not restarted is over after at most 200 ticks. |
| PlaygroundReplay.ReplayStarts | extras/browser-runtime/src/playground-store.ts:470-487 | A replay of a present run with events stands before the first one with a timer pending and nothing shown; without events it is over at once, and of a missing run nothing happens. |
| PlaygroundReplay.TickShowsNext | extras/browser-runtime/src/playground-store.ts:399-429 | In every reachable state of a replay a tick appends exactly the event at the next position; if the run has a later one the replay stands before it and the timer is pending again, otherwise it is over. |
| PlaygroundReplay.OtherStepsAndReplay | extras/browser-runtime/src/playground-store.ts:376-586 | A new run, a stop and a clear end the replay; every other step in between, live events included, leaves timer, position and buffer as they are. |
| PlaygroundReplay.ReplayShowsEveryEvent | extras/browser-runtime/src/playground-store.ts:399-487 | After k ticks of an undisturbed replay of n events exactly the first k have been shown and, for k below n, a timer is pending; the n-th tick ends the replay. |
| PlaygroundTheorems.StepSpendsTicks | extras/browser-runtime/src/playground-store.ts:399-429 | A tick uses up one of the remaining ticks and no step but a new replay adds any. |
| PlaygroundTheorems.ReplayLeavesRunsAlone | extras/browser-runtime/src/playground-store.ts:267-297 | Starting, ticking and stopping a replay change no run record and no log. |
| PlaygroundTheorems.NoRunIsStuck | extras/browser-runtime/src/playground-store.ts:563-585 | Once all drivers have settled no run is running and every run has an end time. |
| PlaygroundTheorems.EndedRunsStayEnded | extras/browser-runtime/src/playground-store.ts:248-265 | Over every execution a terminal status and its end time never change while the record exists, and a cleared record never comes back. |
| PlaygroundOutcomes.StartMakesRun | extras/browser-runtime/src/playground-store.ts:224-235 | A new run is running, has its identity, prompt and start time, no event and no end, and is the active one; no other record changes. |
| PlaygroundOutcomes.StatusIsFirstEnding | extras/browser-runtime/src/playground-store.ts:248-265 | Over every execution a run has the status and the end time of the first step that ends it: cancelled by a cancel while active, completed by its resolved prompt, errored by its rejected prompt or factory. |
| PlaygroundOutcomes.RunHoldsLastReceived | extras/browser-runtime/src/playground-store.ts:237-246 | Over every execution a record holds the last 200 of the events received for its run since it was started, in order. |
| PlaygroundAttribution.NotifyAppendsToItsRun | extras/browser-runtime/src/playground-store.ts:548-561 | The events bridged from one notification are all appended, in order, to the emitting run if it is active and dropped otherwise; no other record changes. |
| PlaygroundAttribution.FactoryErrorReachesRunIffActive | extras/browser-runtime/src/playground-store.ts:530-546 | The error of a failing factory is appended to the active run, if any, and to no other, so it lands in the failed run if and only if that is the active one, running or not; the failed run is errored if it was running and otherwise stays as it ended. |
| PlaygroundAttribution.PromptErrorReachesRunIffActive | extras/browser-runtime/src/playground-store.ts:573-585 | The error of a rejected prompt lands in the failed run if and only if that run is running and active; if it is running but not active, the active run receives it; if it has ended nothing is sent. |
| PlaygroundAttribution.ErrorOfOneRunShownInAnother | extras/browser-runtime/src/playground-store.ts:530-546 | Two overlapping runs: the first one's factory fails and its error shows in the second, which keeps running. |
| PlaygroundAttribution.PromptErrorOfOneRunShownInAnother | extras/browser-runtime/src/playground-store.ts:573-579 | Two overlapping runs: the first one's prompt rejects and its error shows in the second, which keeps running. |
| PlaygroundCancel.PairingBreaksIff | extras/browser-runtime/src/playground-store.ts:519-546 | The runner and the session a cancel uses stop belonging together exactly when a run starts while a runner is registered, or a factory delivers while a later run, not on that runner, holds the session. |
| PlaygroundCancel.SerialKeepsPaired | extras/browser-runtime/src/playground-store.ts:462-468 | While runs do not overlap, runner and session always belong together. |
| PlaygroundCancel.CancelDeliveredIff | extras/browser-runtime/src/playground-store.ts:462-468 | In every execution, a cancel of the active run is delivered to its runner exactly when the run is prompting and, since it was started, no prompt has settled on the runner registered at the time and the runner delivered last is its own. |
| PlaygroundCancel.SerialCancelCalls | extras/browser-runtime/src/playground-store.ts:462-468 | While runs do not overlap, a cancel makes exactly one call, on the runner of the run in flight, if that run is prompting, and none while its factory is pending or no run is in flight. |
| PlaygroundCancel.CancelBeforeFactoryIsLost | extras/browser-runtime/src/playground-store.ts:462-468 | One run alone: a cancel while its factory is pending makes no call, and the runner delivered afterwards is prompted although the run is already cancelled. |
| PlaygroundCancel.CancelLostAfterEarlierRunEnds | extras/browser-runtime/src/playground-store.ts:580-585 | Two overlapping runs with runners of their own: the earlier one ends before the later one's factory resolves, and a cancel of the later run then makes no call. |
| PlaygroundCancel.CancelLostWithSharedRunner | extras/browser-runtime/src/playground-store.ts:580-585 | Two overlapping runs on one runner: the earlier one ends, and a cancel of the later run then makes no call. |
| PlaygroundCancel.OverlappingCancelHitsOtherRunner | extras/browser-runtime/src/playground-store.ts:519-546 | Two overlapping runs: the second one's session is cancelled on the first one's runner. |
| PlaygroundStore.Store.ReplayTick | extras/browser-runtime/src/playground-store.ts:400-427 | The timer callback does one tick: it shows the next event and sets the timer again exactly if there is a later one. |
| PlaygroundStore.Store.StartLiveRun | extras/browser-runtime/src/playground-store.ts:445-460 | Starting a run ends any replay first, then adds the record and its driver. |
| PlaygroundStore.Store.CancelActiveRun | extras/browser-runtime/src/playground-store.ts:462-468 | Cancelling ends the active run if it is running and calls the registered runner, as read before the commit. |
| PlaygroundStore.Store.BeginReplay | extras/browser-runtime/src/playground-store.ts:470-487 | Starting a replay of a missing run does nothing; of an empty run, starts and stops at once; otherwise restarts from the top with one pending timer. |
| PlaygroundStore.Store.EndReplay | extras/browser-runtime/src/playground-store.ts:489-495 | Stopping clears timer, marker and buffer. |
| PlaygroundStore.Store.ClearAllSessions | extras/browser-runtime/src/playground-store.ts:497-501 | Clearing drops records and replay and leaves the drivers in flight. |
| PlaygroundStore.Store.OnFactoryResolved | extras/browser-runtime/src/playground-store.ts:538-546 | A resolved factory registers its runner and starts the prompt, whatever has become of the run. |
| PlaygroundStore.Store.OnFactoryRejected | extras/browser-runtime/src/playground-store.ts:539-545 | A rejected factory records the error, finalizes the run and settles the driver. |
| PlaygroundStore.Store.Emit | extras/browser-runtime/src/playground-store.ts:548-561 | A notification's events are received one by one, stopping as soon as its run is no longer active. |
| PlaygroundStore.Store.OnPromptResolved | extras/browser-runtime/src/playground-store.ts:563-585 | A resolved prompt completes its run only if it is still running, and releases the runner only if it is the registered one. |
| PlaygroundStore.Store.OnPromptRejected | extras/browser-runtime/src/playground-store.ts:573-585 | A rejected prompt records the error and finalizes only a run still running. |
| ToolResults.TruncateFits | extras/browser-runtime/src/meta-agent-loop.ts:35-67 | Every clipped text is within its budget, or is its budget's prefix plus the marker; a value comes back unchanged exactly when all its texts were within budget or already clipped that way. |
| ToolResults.ClipFits | extras/browser-runtime/src/meta-agent-loop.ts:40-44 | Clipping changes a text exactly when it is over its budget and not already a clipped one. |
| ToolResults.TruncateIdempotent | extras/browser-runtime/src/meta-agent-loop.ts:35-67 | Clipping a clipped result changes nothing. |
| ToolResults.NotTruncatedIsVerbatim | extras/browser-runtime/src/meta-agent-loop.ts:35-67 | A result reported as not truncated is the raw one. |
| ToolResults.TruncateShows | extras/browser-runtime/src/meta-agent-loop.ts:35-67 | The clipped value has the same hits in the same places with the same other fields; a text over its budget becomes its first 800 or 2000 characters and the marker, every other text stays; the flag is set exactly if there was one over. |
| MetaAgentInvariants.StepKeepsInv | extras/browser-runtime/src/meta-agent-loop.ts:108-304 | Whatever step comes next in any interleaving of runs and cancels: traces, decide inputs, controller entries and aborted runs keep their promises. |
| MetaAgentInvariants.AbortedRunEnds | extras/browser-runtime/src/meta-agent-loop.ts:131-270 | Whichever await an abort lands in, the next continuation ends the run without another adapter or tool call and with one or two more notifications, or none exactly on a rejection without an error object; only after a chunk the stream is closed first, and then that ends it. |
| MetaAgentTheorems.FinishedRunsHaveCompleteTraces | extras/browser-runtime/src/meta-agent-loop.ts:130-304 | A finished run emitted at most `maxToolCalls` tool notifications, then optional answer chunks, then exactly one terminal notification, the last, if and only if its promise was not rejected; if it was, only the terminal one is missing. |
| MetaAgentTheorems.RejectedIffBare | extras/browser-runtime/src/meta-agent-loop.ts:142-257 | In every execution, a run that has ended has a complete trace exactly if the await that ended it did not reject with `null` or `undefined`. |
| MetaAgentTheorems.DecideCallsSeePairs | extras/browser-runtime/src/meta-agent-loop.ts:137-224 | The i-th decide call is below the budget and sees i pairs of a tool action and its outcome, matching the notifications sent, with successful results clipped. |
| MetaAgentTraces.TraceIsAccount | extras/browser-runtime/src/meta-agent-loop.ts:130-296 | In every execution a run that is never aborted emits exactly what its settled awaits call for, in order, each decision, chunk and tool outcome with its own notification, the budget error right after the last permitted tool; and it begins exactly the tool calls decided. |
| MetaAgentTraces.LastNoteIsFixedByEndingStep | extras/browser-runtime/src/meta-agent-loop.ts:142-296 | Which step ends an un-aborted run, and that its last notification for good is a clarification exactly on a clarify action and with its prompt, the model's message exactly on an error action, an invalid action exactly on none, the end of an answer exactly on an ended or failed stream or model call, and the budget error exactly on the last permitted tool. |
| MetaAgentTraces.ChunksAreYieldedTexts | extras/browser-runtime/src/meta-agent-loop.ts:226-257 | The chunks of a run that is never aborted are the texts yielded to it, and the text for a failure, each once and in order. |
| MetaAgentTraces.StreamSeesHistory | extras/browser-runtime/src/meta-agent-loop.ts:226-233 | An answer is streamed exactly when one is decided without an abort, and the call sees all tool calls so far with their clipped results or errors and then the decision. |
| MetaAgentTheorems.SlotHoldsLatestLiveRun | extras/browser-runtime/src/meta-agent-loop.ts:119-127 | A session's controller is the un-aborted controller of its most recently started run, which is still live. |
| MetaAgentTheorems.RegistryEmptyWhenIdle | extras/browser-runtime/src/meta-agent-loop.ts:297-304 | Once all runs have finished the registry is empty. |
| MetaAgentTheorems.CancelAbortsAtMostOne | extras/browser-runtime/src/meta-agent-loop.ts:109-114 | A cancel aborts exactly the registered run of that session, or nothing, and no run record changes. |
| MetaAgentTheorems.SettlingIsLocal | extras/browser-runtime/src/meta-agent-loop.ts:297-304 | A run's continuation and cleanup leave all other runs and their controller entries alone, a successor's in the same session included. |
| MetaAgentTheorems.SupersededRunsAreNeverAborted | extras/browser-runtime/src/meta-agent-loop.ts:119-127 | Once a newer run of the session has started, no later cancel aborts the older one. |
| MetaAgentTheorems.AbortedRunsWindDown | extras/browser-runtime/src/meta-agent-loop.ts:131-270 | After its abort a run begins no further decide, tool or stream call and emits at most two more notifications. |
| MetaAgentTheorems.AbortedRunReportsCancelledIff | extras/browser-runtime/src/meta-agent-loop.ts:131-296 | In every execution, the last notification of an aborted run is `cancelled` exactly when it ended on a decision, on the end of the stream, or on a tool call that was not the last one permitted and did not reject without an error object: not when the model or the stream rejected, and not when the budget was used up. |
| MetaAgentTheorems.BareRejectionEndsSilently | extras/browser-runtime/src/meta-agent-loop.ts:200-206 | A cancelled run whose tool rejects with `undefined`, budget left: it finishes with no notification at all. |
| MetaAgentTheorems.CancelDuringLastToolCall | extras/browser-runtime/src/meta-agent-loop.ts:292-296 | With one tool call allowed, a cancel during it is followed by the budget error. |
| MetaAgentTheorems.CancelThatRejectsTheModelCall | extras/browser-runtime/src/meta-agent-loop.ts:142-160 | A model call that rejects after the cancel makes the run end as an answer. |
| MetaAgentLoop.Loop.RunPrompt | extras/browser-runtime/src/meta-agent-loop.ts:115-134 | Starting a run replaces the session's controller, aborts nothing, and enters the loop. |
| MetaAgentLoop.Loop.Abort | extras/browser-runtime/src/meta-agent-loop.ts:109-114 | Cancel aborts and unregisters the session's controller, if any. |
| MetaAgentLoop.Loop.OnDecision | extras/browser-runtime/src/meta-agent-loop.ts:161-290 | What happens after a decision, branch by branch, with the abort check first. |
| MetaAgentLoop.Loop.OnToolResult | extras/browser-runtime/src/meta-agent-loop.ts:185-199 | A tool result is recorded clipped and announced raw, then the next iteration begins. |
| MetaAgentLoop.Loop.OnChunk | extras/browser-runtime/src/meta-agent-loop.ts:228-239 | A chunk is forwarded unless the run was aborted, in which case the stream is closed and its closing awaited. |
| Splitting.JoinSplit | apps/web-ui/src/agui-run-client.ts:128-129 | Joining the pieces of a split gives back the text. |
| Splitting.SplitLeftmost | apps/web-ui/src/agui-run-client.ts:128-129 | Every piece ends at the first separator after its start. |
| Splitting.SplitUnique | apps/web-ui/src/agui-run-client.ts:128-129 | A list of such pieces is the only one with its joined text. |
| Splitting.SplitAppend | apps/web-ui/src/agui-run-client.ts:126-129 | Splitting a longer text keeps all pieces but the last and continues from the last one. |
| LineBuffers.LinesOfAppend | extras/droid-acp/src/droid-exec-client.ts:65-82 | The lines of a longer text are the lines so far followed by those of the residual with the new text. |
| LineBuffers.LineBuffer.Push | extras/droid-acp/src/droid-exec-client.ts:65-82 | A push returns the complete lines of the residual plus the chunk, one trailing CR stripped and empty lines dropped, and keeps the new residual. |
| LineBuffers.LineBuffer.Drain | extras/pi-acp/src/pi-rpc-client.ts:72-76 | Draining returns the residual and empties the buffer. |
| LineBuffers.DecodeChunks | extras/pi-acp/src/pi-rpc-client.ts:48-76 | Any sequence of chunks yields the lines and the residual of the whole text. |
| LineBuffers.FramingRoundTrip | extras/pi-acp/src/pi-rpc-client.ts:204-210 | LF-framed lines decode to themselves if and only if each is non-empty, holds no LF and does not end in CR. |
| LineBuffers.CrLfRoundTrip | extras/pi-acp/src/pi-rpc-client.ts:55-61 | CRLF-framed lines decode to themselves under every chunking, CR and LF in different chunks included, if and only if none is empty or holds an LF. |
| EventFrames.FramesOfAppend | extras/mcp-bus-bridge/src/bus-subscriber.ts:145-154 | The complete frames of a longer stream are the frames so far followed by those of the residual with the new chunk. |
| EventFrames.TextIsFramesAndResidual | extras/mcp-bus-bridge/src/bus-subscriber.ts:147-154 | Frames, blank lines and residual together are the stream: nothing is lost, doubled or reordered. |
| EventFrames.PrefixUpToFrame | apps/web-ui/src/agui-run-client.ts:127-129 | Every frame boundary is a point where the stream can be cut without a residual. |
| BusSubscriber.ConsumeSseStream | extras/mcp-bus-bridge/src/bus-subscriber.ts:104-164 | For every chunking, the events delivered are those of the data lines of the complete frames of the whole stream, once each and in order; if the stream is events written as one data line each, with comment frames in between, exactly those events. |
| BusSubscriber.DrainFrames | extras/mcp-bus-bridge/src/bus-subscriber.ts:147-154 | The index-of loop dispatches exactly the leftmost blank-line-separated frames and keeps the residual. |
| BusSubscriber.DispatchFrame | extras/mcp-bus-bridge/src/bus-subscriber.ts:166-185 | The decodable payloads of the frame's data lines, in order; empty and undecodable ones are skipped. |
| BusSubscriber.DeliveryIsMonotone | extras/mcp-bus-bridge/src/bus-subscriber.ts:131-154 | More input only adds events at the end. |
| BusSubscriber.DeliversDataLinesOfText | extras/mcp-bus-bridge/src/bus-subscriber.ts:166-185 | Splitting into frames first makes no difference: what is delivered are the data lines of the text. |
| BusSubscriber.WireRoundTrip | extras/mcp-bus-bridge/src/bus-subscriber.ts:166-185 | A stream of events written as one data line each, with comment frames in between, delivers exactly those events, each once and in order. |
| AguiRunClient.RunTurn | apps/web-ui/src/agui-run-client.ts:103-172 | If the stream has one deciding event, the turn succeeds on a finished event, fails with its message, or with the default one, on an error event, and throws on a `null` payload, for every chunking. In general the read loop ends with what the first chunk that completes a deciding frame comes to, a throw on a `null` payload before anything else; without one, with the error of a rejected read or as truncated. |
| AguiRunClient.TrackFrames | apps/web-ui/src/agui-run-client.ts:130-150 | The loop throws exactly if a frame of the chunk has the payload `null`; otherwise it remembers exactly the last terminal frame and its message. |
| AguiRunClient.TurnFollowsEvents | apps/web-ui/src/agui-run-client.ts:130-171 | For every chunking, with a frame read as the decoded rest of its first data line: one deciding event in the stream fixes the outcome, and without one the end of the stream does. |
| AguiRunClient.AgreeingTerminalsDecide | apps/web-ui/src/agui-run-client.ts:122-171 | If all deciding frames of the stream mean the same outcome, every chunking ends with it; without any, as the end of the stream says. |
| AguiRunClient.ChunkEndingAt | apps/web-ui/src/agui-run-client.ts:123-152 | For every deciding frame with no throwing one before it, some chunking ends with its outcome. |
| AguiRunClient.OutcomeChunkIndependentIff | apps/web-ui/src/agui-run-client.ts:103-171 | The outcome is the same for every chunking if and only if all deciding frames of the stream, `null` payloads included, agree or the first of them throws; one deciding frame at most is the promised case. |
| AguiRunClient.NullAfterFinish | apps/web-ui/src/agui-run-client.ts:130-149 | A finished frame followed by a `null` payload: the turn throws if both come in one chunk and succeeds if the chunk ends between them. |
| ReconnectBackoff.ReconnectDelays | extras/mcp-bus-bridge/src/bus-subscriber.ts:57-96 | The delay after each attempt is the minimum doubled, and capped, once for every failed attempt since the last established connection, and the minimum after an established one; a stream that breaks while it is read is not a failed attempt. |
| ReconnectBackoff.DelayIsCappedPower | extras/mcp-bus-bridge/src/bus-subscriber.ts:88-95 | With min at most max, j doublings give min(max, min * 2^j), which stays within the two bounds. |
| ReconnectBackoff.DelaysGrowUntilReset | extras/mcp-bus-bridge/src/bus-subscriber.ts:88-95 | Between established connections delays never decrease. |
| ReconnectBackoff.DelaySaturates | extras/mcp-bus-bridge/src/bus-subscriber.ts:94 | A positive delay reaches the maximum and stays there. |
| ReconnectBackoff.BrokenStreamsAreNoFailures | extras/mcp-bus-bridge/src/bus-subscriber.ts:131-143 | After streams that ended or broke, the minimum is still slept after the next refusal. |
| ReconnectBackoff.FailuresSince | extras/mcp-bus-bridge/src/bus-subscriber.ts:57-96 | After a connection the refusals since count, except the one going to sleep, and the connection itself if it threw. |
| ReconnectBackoff.FailuresFromStart | extras/mcp-bus-bridge/src/bus-subscriber.ts:57-96 | Before the first connection every earlier refusal counts. |
| DroidTranslator.Translator.HandleEvent | extras/droid-acp/src/translator.ts:110-225 | Every handler branch, as one step of the turn's state and the notifications it sends. |
| DroidTranslator.Translator.MarkTurnStarted | extras/droid-acp/src/translator.ts:87-91 | A new turn forgets all started calls and seen reasoning. |
| DroidTranslator.EveryUpdateFollowsItsCall | extras/droid-acp/src/translator.ts:177-225 | For every event sequence, each tool_call_update is preceded by a tool_call with the same id. |
| DroidTranslator.TurnKeepsOrder | extras/droid-acp/src/translator.ts:177-225 | The started-call set is at all times the set of ids announced so far. |
| DroidTranslator.ReasoningForwardedOnce | extras/droid-acp/src/translator.ts:159-175 | A reasoning event with text and id sends its thought chunk exactly if none with that id came before it in the turn. |
| DroidTurns.TurnSendsMeaning | extras/droid-acp/src/translator.ts:110-225 | What a turn sends, told from its events alone: cleaned messages, each reasoning id once, each call under its title, each result as failed or completed, with a call of its own only if nothing named the id before. |
| DroidTurns.TurnMirrorsResultsAndMessages | extras/droid-acp/src/translator.ts:143-225 | The updates of a turn are its tool results with an id, each as it ended, and its message chunks the cleaned assistant texts, in order and nothing else. |
| DroidTurns.OnlyThinkingIsRemoved | extras/droid-acp/src/translator.ts:259-264 | From any text made of thinking blocks, the white space after each, and text without an opening tag, exactly the blocks and that white space are removed. |
| DroidTurns.WrittenTurnIsTold | extras/droid-acp/src/droid-exec-client.ts:147-172 | A turn written as one line per event, ended by LF or CRLF, tells the client what those events mean. |
| DroidExecClient.Client.HandleStdoutChunk | extras/droid-acp/src/droid-exec-client.ts:147-152 | A chunk delivers the events of the lines it completes and reports the lines that are none. |
| DroidExecClient.Client.HandleLine | extras/droid-acp/src/droid-exec-client.ts:154-172 | A line is either delivered as one event or reported as one protocol error. |
| DroidExecClient.Client.HandleExit | extras/droid-acp/src/droid-exec-client.ts:174-182 | The exit is reported once, with a non-empty residual reported as a protocol error. |
| DroidExecClient.RunTurnStdout | extras/droid-acp/src/droid-exec-client.ts:147-172 | Decoder, parser and translator together: a turn's notifications depend on what the child wrote and not on how it was chunked. |
| DroidSessionProtocol.StepKeepsInv | extras/droid-acp/src/session.ts:78-205 | Whatever comes next of prompts, cancels, closes, events and exits of any child, current or stale: prompts are conserved and a pending prompt has its own live child. |
| DroidSessionProtocol.PromptsAreConserved | extras/droid-acp/src/session.ts:78-205 | Accepted prompts are the settled ones plus the pending one, and they settle in order, each once. |
| DroidSessionProtocol.PendingPromptHasLiveChild | extras/droid-acp/src/session.ts:185-205 | A pending prompt's own child has not exited and no cancel is pending, so the cancelled branch of the exit handler is never taken with a prompt pending. |
| DroidTurnTheorems.StepSettles | extras/droid-acp/src/session.ts:78-205 | In every run a cancel settles the pending prompt as cancelled, a completion as ended and an exit as an early exit, nothing else settles it, and with none pending only a prompt that could not be spawned settles. |
| DroidTurnTheorems.EveryTurnIsTold | extras/droid-acp/src/session.ts:160-183 | In every run the client is sent what the events heard in each turn mean, turn by turn; events heard between turns send nothing. |
| DroidSessionProtocol.ForeignExitPossibleIffStaleChild | extras/droid-acp/src/session.ts:185-205 | A pending prompt can be rejected by the exit of a child that is not its own if and only if an earlier child is still alive. |
| DroidSessionProtocol.ForeignSettlementPossibleIffStaleChildHeard | extras/droid-acp/src/session.ts:160-205 | A pending prompt can be settled by a step of a child that is not its own, a completion included, if and only if an earlier child is alive or its stdout has not been delivered to the end. |
| DroidSessionProtocol.StaleCompletionResolvesNextPrompt | extras/droid-acp/src/session.ts:176-182 | Prompt, cancel, the child exits, prompt again, then the first child's completion is delivered: the second prompt resolves as ended. |
| DroidSessionProtocol.CancelKillsOwnChild | extras/droid-acp/src/session.ts:127-145 | After a cancel with a prompt pending, that prompt's own child has been sent SIGTERM, whatever closes and foreign exits came before. |
| DroidSessionProtocol.StaleExitRejectsNextPrompt | extras/droid-acp/src/session.ts:185-205 | Prompt, cancel, prompt again, then the first child exits: the second prompt is rejected while its child lives. |
| DroidSessionProtocol.SessionIdIsLastObserved | extras/droid-acp/src/session.ts:165-168 | In every execution the remembered session id is that of the last non-empty init event received during a turn. |
| DroidSessionProtocol.FirstIdKeptIffNoOther | extras/droid-acp/src/session.ts:165-168 | The first id observed is kept throughout an execution, as the comment says, if and only if no init event with another id follows. |
| DroidSessionProtocol.NextTurnResumesLastObserved | extras/droid-acp/src/session.ts:95-101 | The next turn resumes the session observed last. |
| DroidSessionProtocol.SecondIdReplacesFirst | extras/droid-acp/src/session.ts:165-168 | Two init events with different ids in one turn: the next turn resumes the second. |
| DroidSession.Session.RunPrompt | extras/droid-acp/src/session.ts:78-119 | A prompt in flight makes the next one fail without any effect; a failing spawn settles the prompt at once. |
| DroidSession.Session.CancelPrompt | extras/droid-acp/src/session.ts:127-145 | Cancel signals the active child unless it has exited, remembers the request and resolves the pending prompt as cancelled. |
| DroidSession.Session.HandleEvent | extras/droid-acp/src/session.ts:160-183 | An event is translated by the current turn, whichever child sent it; completion resolves the pending prompt. |
| DroidSession.Session.HandleExit | extras/droid-acp/src/session.ts:185-205 | Any child's exit clears client and translator and settles the pending prompt. |
| DroidSession.Session.CloseSession | extras/droid-acp/src/session.ts:148-158 | Closing signals the active child unless it has exited and forgets it, leaving a pending prompt to the exit. |
| PiRpcProtocol.StepKeepsInv | extras/pi-acp/src/pi-rpc-client.ts:146-232 | Every promise issued is exactly one of settled, pending under one id, or orphaned. |
| PiRpcProtocol.PromisesSettleAtMostOnce | extras/pi-acp/src/pi-rpc-client.ts:159-232 | Over every run, a settled promise keeps its outcome. |
| PiRpcProtocol.StepOutcome | extras/pi-acp/src/pi-rpc-client.ts:146-232 | A promise is fulfilled or refused exactly by a successful or unsuccessful response under its id, failed exactly by its own failing write, and rejected exactly by the exit while it is pending. |
| PiRpcProtocol.RequestGetsItsResponse | extras/pi-acp/src/pi-rpc-client.ts:159-232 | A written request whose id is neither reused nor answered meanwhile is still unsettled when its response comes, and then settles as that response says. |
| PiRpcProtocol.ExitIsFinal | extras/pi-acp/src/pi-rpc-client.ts:182-220 | After the exit nothing is pending, nothing is added and nothing changes. |
| PiRpcProtocol.CollisionLosesPromise | extras/pi-acp/src/pi-rpc-client.ts:221-224 | A request that reuses an id still pending leaves the earlier promise unsettled, whatever comes later. |
| PiRpcProtocol.OrphansNeverSettle | extras/pi-acp/src/pi-rpc-client.ts:159-196 | A promise that has been replaced never settles: not by its response, not by another one, not at the exit. |
| PiRpcProtocol.ReusedIdLosesPromise | extras/pi-acp/src/pi-rpc-client.ts:221-224 | Two requests under one id, one response, then the exit: the first promise is never settled. |
| PiRpcProtocol.GeneratedIdsAreCollisionFree | extras/pi-acp/src/pi-rpc-client.ts:221 | Requests that leave the id to the client never reuse a pending one. |
| PiRpcProtocol.AllSettledIffCollisionFree | extras/pi-acp/src/pi-rpc-client.ts:182-196 | Once the child has exited, every promise ever issued has settled if and only if no request ever reused a pending id, and nothing changes after that. |
| PiRpcClient.Client.SendAndAwait | extras/pi-acp/src/pi-rpc-client.ts:217-232 | An exited client refuses; otherwise one promise is issued under the given or generated id, and a failing write settles it. |
| PiRpcClient.Client.HandleLine | extras/pi-acp/src/pi-rpc-client.ts:146-180 | A response settles the promise pending under its id, if any; every message is passed on, and a line that is none is reported. |
| PiRpcClient.Client.HandleStdoutChunk | extras/pi-acp/src/pi-rpc-client.ts:139-144 | A chunk handles exactly the messages of the lines it completes, in order, and reports the lines that are none. |
| PiRpcClient.WrittenMessagesAreRead | extras/pi-acp/src/pi-rpc-client.ts:139-180 | Messages written one a line are read as written, each once and in order, and none is reported as unreadable. |
| PiRpcClient.Client.HandleExit | extras/pi-acp/src/pi-rpc-client.ts:182-196 | The first exit drains the buffer, reports a non-empty tail and rejects all pending promises; a second one does nothing. |
| PiSessionProtocol.PromptsAreConserved | extras/pi-acp/src/session.ts:68-157 | Accepted prompts are the settled ones plus the pending one, settled ones stay settled, and after the exit nothing changes. |
| PiSessionProtocol.StepSettles | extras/pi-acp/src/session.ts:68-157 | In every run a cancel settles the pending prompt as cancelled, an end as ended and the exit as an early exit, nothing else settles it, and with none pending only a prompt that could not be sent settles. |
| PiSessionProtocol.StepKeepsInv | extras/pi-acp/src/session.ts:68-157 | Before the exit the ends still to come are the pending prompt's own and one for each cancelled prompt, less those that came between prompts. |
| PiSessionProtocol.ForeignEndPossibleIffCancelOutstanding | extras/pi-acp/src/session.ts:134-140 | A pending prompt can be resolved by the end of another turn if and only if more prompts have been cancelled so far than ends have arrived between prompts. |
| PiSessionProtocol.WithoutCancelEachEndIsItsOwn | extras/pi-acp/src/session.ts:134-140 | In an execution without cancels every prompt resolved by an end is resolved by that of its own turn. |
| PiSessionProtocol.LateAgentEndResolvesNextPrompt | extras/pi-acp/src/session.ts:104-140 | Prompt, cancel, prompt again, then the end of the first turn arrives: the second prompt resolves as ended. |
| PiSession.Session.RunPrompt | extras/pi-acp/src/session.ts:68-91 | Busy before exited before accepted; a failing send settles the prompt at once. |
| PiSession.Session.CancelPrompt | extras/pi-acp/src/session.ts:97-114 | Cancel resolves the pending prompt at once, and does nothing after the exit. |
| PiSession.Session.HandleAgentEnd | extras/pi-acp/src/session.ts:134-140 | The end of a turn resolves the pending prompt, whichever turn it belongs to. |
| PiSession.Session.HandleExit | extras/pi-acp/src/session.ts:143-157 | The exit rejects the pending prompt and is permanent. |
| MemoryStore.StepKeepsInv | examples/memory-provider-pilot/src/map-backed-provider.ts:95-163 | After every operation: at most one live record per creator and idempotency key, every id issued by a save, every revision the print of 1 + the record's effective updates. |
| MemoryStore.StoreEvolves | examples/memory-provider-pilot/src/map-backed-provider.ts:95-163 | Over every sequence of operations ids are never reused, even after a delete, owner and key never change, and update counts only grow. |
| MemoryStore.RevisionCountsUpdates | examples/memory-provider-pilot/src/map-backed-provider.ts:152 | A record's revision prints, and parses to, 1 + the number of its effective updates. |
| MemoryStore.NoLostUpdate | examples/memory-provider-pilot/src/map-backed-provider.ts:134-154 | Two effective updates of a record never succeed on the same expected revision, whatever happens in between. |
| MemoryStore.SaveIsIdempotent | examples/memory-provider-pilot/src/map-backed-provider.ts:96-106 | Saving again under a live key returns the record as it now is and changes nothing. |
| MemoryStore.OthersChangeNothing | examples/memory-provider-pilot/src/map-backed-provider.ts:165-171 | Only its creator can change or delete a record. |
| MemoryStore.NextIdIsNew | examples/memory-provider-pilot/src/map-backed-provider.ts:110 | The next id differs from all ids issued before. |
| MemoryJournal.StoreHoldsJournal | examples/memory-provider-pilot/src/map-backed-provider.ts:95-163 | After every sequence of operations the live records are exactly those saved and not deleted by their creator, and each holds the content and the metadata last given by its save or an accepted update, the time of the last accepted update, its revision, and scope, type and creation time as saved. |
| MemoryJournal.LastGivenIsLast | examples/memory-provider-pilot/src/map-backed-provider.ts:146-150 | The value last given is the one at the last position that gives one, or else the first. |
| MemoryJournal.SaveAnswers | examples/memory-provider-pilot/src/map-backed-provider.ts:95-125 | A save returns the record it made, or the one live under its key as its history now has it, and in that case changes nothing. |
| MemoryJournal.UpdateAnswers | examples/memory-provider-pilot/src/map-backed-provider.ts:127-156 | An update is refused as missing, foreign or stale, the first that applies, and otherwise returns the record its history amounts to with the update. |
| MemoryJournal.DeleteAnswers | examples/memory-provider-pilot/src/map-backed-provider.ts:158-163 | A delete is refused exactly for a live record of another creator; otherwise the record is gone. |
| Decimals.ParsePrint | examples/memory-provider-pilot/src/map-backed-provider.ts:152 | Parsing undoes printing. |
| MapBackedProvider.CloneRecord | examples/memory-provider-pilot/src/map-backed-provider.ts:174-180 | The copy has the record's value and shares no object with it. |
| MapBackedProvider.Provider.SaveMemory | examples/memory-provider-pilot/src/map-backed-provider.ts:95-125 | The object implements the store's save; what it returns is fresh and no caller's object is kept. |
| MapBackedProvider.Provider.UpdateMemory | examples/memory-provider-pilot/src/map-backed-provider.ts:127-156 | The object implements the store's update: missing id, foreign actor and stale revision refused in that order, an empty update read back, and nothing shared with the result or the error. |
| MapBackedProvider.Provider.DeleteMemory | examples/memory-provider-pilot/src/map-backed-provider.ts:158-163 | Deleting a missing record does nothing, a foreign one is refused with a scope copy, and otherwise exactly that entry goes. |
| MapBackedProvider.Provider.RefuseUpdate | examples/memory-provider-pilot/src/map-backed-provider.ts:128-136 | The checks before an update give exactly the specified error, with a copied scope. |
| MapBackedProvider.Provider.FindByKey | examples/memory-provider-pilot/src/map-backed-provider.ts:96-106 | The search finds the one entry under the actor's key, or there is none. |
| MapBackedProvider.CallerMutation | examples/memory-provider-pilot/src/map-backed-provider.ts:165-180 | A caller writing into any object it holds leaves the store as it was. |

## Left out

- Reducer cases for tab, theme and manifest drafts, and the validation gate of `APPLY_MANIFEST`: one reading settles each.
- `collectPublishOrderIssues`, and the workspace's test tasks and build outputs: a wrapper, and tables built like the build tasks.
- Process spawning, signals, sockets, fetch and readers: what they deliver, and whether a spawn, a write or a read fails, are parameters.
- JSON parsing, Ajv validation and the AG-UI bridge: arbitrary functions from a line, a decision or a notification to a result.
- `TextDecoder`: a chunk is a sequence of code units, so characters split between chunks are not modelled.
- Clocks: start, end and update times are parameters of the steps that store them.
- Re-entrant listeners, throwing emit callbacks and tool or bridge callbacks that call back into the store or the loop.
- Adapters and tools that break their declared result types, and error values other than `null` and `undefined` whose message cannot be
  read or printed.
- Telemetry, log output and the wording of error messages that carry foreign text.
- The Pi translator, `HarnessLaneManager`, `A2AClientController`, the env parsers and the JSON-RPC shim.
- Objects with inherited names: `tasks[name]` and manifest blocks are finite maps and lists without `Object.prototype`.
- Numbers above 2^53: sequence numbers, revisions and delays are unbounded, and delays are whole milliseconds.
- `null` where a type says a field is absent or a value: only absence is modelled.
- BuildLayers.TopoLayers: the error's names are stated as a set; their order in the message is not.
- DroidTurns.OnlyThinkingIsRemoved: text in which removing a block forms a new tag, or with an unclosed one, is left to the function itself.
- ReconnectBackoff.ReconnectDelays: takes how each attempt went as a list; the abort signal that ends the loop is where the list ends.
- BusSubscriber.ConsumeSseStream: an abort between two chunks is the end of the chunk list; one within a chunk still dispatches its frames, as in the code.
- Pi is assumed to end each turn it was sent once; which turn an end belongs to is an auxiliary record the session does not see.
- MetaAgentInvariants.AbortedRunEnds: a signal is aborted only by `cancel`; adapters are arbitrary and need not honour it.
- MapBackedProvider.Provider.SaveMemory: a JSON object is one mutable cell with its content as a value; nested objects inside it are not separate.
