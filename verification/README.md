# A verified model of the Trumpet task nexus

The nexus keeps two lock-protected stores, the agent registry and the task manager, and tells the
world about every change on a broadcast bus. A watchdog sweeps both stores for lost agents and
overdue tasks. Around them stand the consumers that have to agree with the stores: paged task
listings, per-task event streams, snapshots, and the command line's event tail.

**The nexus as an interleaved system** (`nexus.dfy`, `convergence.dfy`, `assignees.dfy`,
`sweep_runs.dfy`, `gaps.dfy`). Every section that holds a lock is one atomic step. A watchdog sweep
and a task submission are several steps with anything in between: other submissions, heartbeats,
updates, cancellations, artifacts. The theorems are about all runs of this system, from any empty or
restored start and for every order in which a hash map may be enumerated. The log is the state,
histories follow the state machine, agents live a regular life, and overdue tasks end within two
sweeps. Some invariants that one would like to have are false of the code, most of them because of its
gaps between locks. For each there is a concrete run that breaks it and an exact condition, an "if and
only if", for when it breaks.

**The stores as classes** (`task_manager.dfy`, `registry.dfy`, `task_facade.dfy`, `watchdog.dfy`,
`chat.dfy`, `webhooks.dfy`, `tools.dfy`, `snapshot.dfy`). Methods update maps in place and publish to
the bus. Those of the task manager and the agent registry are proved against the functions of the old
store that the interleaved system uses for the same steps (`task_store.dfy`, `agent_store.dfy`), so
these two views cannot drift apart. `Watchdog.Sweep` is the whole nested-loop pass over the real
objects, and `SweepRuns.UninterruptedSweep` says that a sweep of the interleaved system does the same.
Chat, webhooks and tools are outside the interleaved system; both registries restore through
`name_index.dfy`.

**Consumers and decoders** (`paging.dfy`, `paging_runs.dfy`, `streaming.dfy`, `utf8.dfy`, `sse.dfy`,
`http_stream.dfy`), routing (`router.dfy`, `routing_load.dfy`) and four smaller kernels
(`notifier.dfy`, `config_merge.dfy`, `protobuf.dfy`, `code_scan.dfy`).

Fresh ids and clock readings are parameters. Where a theorem needs them to be fresh or
non-decreasing, `Nexus.Enabled` or a `requires` clause says so. Enumerating a hash map gives an
arbitrary listing of its keys (`Collections.IsListing`).

## Where the code differs from what is said about it

The model follows the code.

- A comment in `src/core/task_facade.rs:47-48` says there is no window in which a task exists without
  an assignee. The assignee is set atomically, but it is chosen under another lock and may be lost by
  the time the task is created (`Gaps.SubmissionCanOrphan`,
  `Convergence.OrphansExactlyWhenFiledTooLate`).
- The comment on the stream worker in `src/grpc/service.rs:66` says that the client never misses
  state. The snapshot is taken before the worker subscribes, so a change between the two is missed.
  `Gaps.SnapshotCanMiss` is a run in which that leaves the client wrong, and
  `Streaming.ClientIsRightExactly` says which changes matter.
- The line parser's documentation in `src/cli/events.rs:60-62` says that it tolerates chunked
  transfer encoding. It does exactly where a chunk boundary falls between frames
  (`Sse.FramingInvisibleExactly`).
- `adrs/013-task-routing.md:17` promises the connected agent with the fewest active tasks. The router
  takes the first eligible one in the registry's listing order, which may be a busier one
  (`RoutingLoad.BusierAgentChosen`); `RoutingLoad.LeastLoadedAlwaysExactly` says when it never is.
- A comment in `src/core/task_manager.rs:97-99` says that overdue tasks become Failed. Overdue tasks
  that nobody has started are rejected (`Watchdog.HaltedMeans`).
- Streaming a response that has no header separator yields nothing, and splitting the same response
  yields all of it (`HttpStream.StreamedIsSplitExactly`).
- An overdue task is meant to be stopped by the sweep that finds it. A task that is picked up between
  the sweep's two locks survives that sweep (`Gaps.OneSweepCanMiss`); it is exactly such a task that
  does (`Convergence.MissedExactlyWhenPickedUp`), and the next sweep stops it
  (`Convergence.TwoSweepsSettle`).
- The event tail decodes each read by itself (`src/cli/events.rs:73`), so a character that a read cuts
  is lost (`Utf8.CutDamages`, `Utf8.UncutExactly`).
- Deregistering an agent does not end its tasks (`Assignees.DeregisteringCanStrand`). Once out of a
  sweep's reach, such a task without a deadline stays in its state until a client updates it: no
  sweep ever halts it (`Assignees.SweepsPassBy`, `Assignees.StrandedForGood`).

## Model

| member | source | states |
|---|---|---|
| Nexus.RunInvariant | src/core/task_manager.rs:113-132 | In every state of every interleaved run, the indexes agree with the maps, replaying the task channel gives the store, the bus carries the channel's events in order, and every agent's life is told by the bus. |
| Nexus.StepInvariant | src/core/watchdog.rs:75-177 | Every atomic step, the watchdog's partial phases included, keeps that invariant and only lets tasks evolve. |
| Nexus.EventLogIsState | src/core/task_manager.rs:319-347 | In every run the published task events are a legal history, their replay is exactly each task's state and artifact ids, and the bus restricted to task events is the channel. |
| Nexus.RunEvolves | src/core/task_manager.rs:188-271 | Between any two states of a run no task is lost, identity fields are fixed, histories and artifacts are only extended, terminal tasks are frozen, and Submitted is never re-entered. |
| Nexus.CreatedAsAsked | src/core/task_facade.rs:61-119 | A creation step files the submission as it was asked for and resolved, in Submitted, whatever came between its two locks. |
| Nexus.AgentLives | src/core/registry.rs:86-179 | In every run each agent's events are Registered, then strictly alternating Disconnected and Reconnected, then at most one Deregistered; the last one determines membership and status; the name index finds what a linear search finds. |
| TaskHistory.ReplayIffLegal | src/core/task_types.rs:171-199 | A log replays if and only if it is legal: each task is created once in Submitted, each change starts where the last one ended and is one of the fourteen listed edges, and artifacts arrive only while the task is live. |
| TaskHistory.TerminalIsLast | src/core/task_types.rs:156-161 | In a legal history nothing follows the event that enters a terminal state. |
| TaskStore.AcceptedExactly | src/core/task_manager.rs:188-239 | A status update is accepted if and only if the task exists and the change is one of the fourteen edges, listed as pairs; otherwise the refusal is the first that applies: no such task, no edge leaves its state, no edge leads to the new one. |
| TaskStore.EdgesLeave | src/core/task_types.rs:156-161 | The terminal states are exactly those that none of these edges leaves. |
| Convergence.OneSweepMoves | src/core/watchdog.rs:146-177 | A task overdue when a sweep begins has left Submitted when that sweep is over, and is terminal if it had left Submitted before, under every interleaving. |
| Convergence.TwoSweepsSettle | src/core/watchdog.rs:63-178 | A task overdue when a sweep begins is terminal once that sweep and a later one are complete, and from then on stays exactly as it is, under every interleaving. |
| Convergence.MissedExactlyWhenPickedUp | src/core/watchdog.rs:146-177 | Over a complete sweep in any run, a task that was overdue when it began is still live at the end if and only if the deadline scan saw it Submitted and, just before the last step, it was live and Submitted no more. |
| Convergence.MemoryInRuns | src/core/watchdog.rs:146-155 | In every state of every run the remembered list names each task once, names only tasks that exist and whose deadline was before the time the sweep began, and says Submitted of every task on it that is Submitted now. |
| Convergence.ChangedWereOverdue | src/core/watchdog.rs:146-177 | In every run, the last step of a sweep changes only tasks whose deadline was before the time at which that sweep began. |
| Convergence.FailAgentNeverErrs | src/core/watchdog.rs:102-140 | Updates for a lost agent's tasks, under one lock, are never refused, whatever happened since the agent was flipped, and publish one status event per task. |
| Convergence.FailAgentLeavesNone | src/core/watchdog.rs:102-140 | After that step none of the agent's tasks is live. |
| Convergence.OrphansExactlyWhenFiledTooLate | src/core/task_facade.rs:72-114 | "No live task belongs to a disconnected agent, except one the sweep is about to deal with" is kept by a step if and only if the step does not create a task for an agent lost since it was chosen. |
| Convergence.NoOrphansInRuns | src/core/watchdog.rs:86-140 | No state of a run up to a given one has an orphan if and only if the first has none and no such creation comes before. |
| Gaps.OneSweepCanMiss | src/core/watchdog.rs:146-177 | A complete run in which one sweep leaves a task overdue and live. |
| Gaps.SubmissionCanOrphan | src/core/task_facade.rs:72-114 | A complete run in which a checked submission creates a task for an agent that a whole sweep has meanwhile dropped. |
| Gaps.FlippedWhileFreshIffBeat | src/core/watchdog.rs:89-99 | An agent is flipped although its heartbeat is fresh if and only if it sent a heartbeat between the watchdog's two locks. |
| Gaps.FreshAgentCanBeFlipped | src/core/watchdog.rs:75-99 | A complete run in which an agent is flipped right after its heartbeat, which is within the cutoff. |
| Assignees.StrandedExactly | src/core/registry.rs:170-179 | "Every live task's assignee is registered" is kept by a step if and only if the step neither deregisters an agent with tasks in flight nor creates a task for an agent deregistered since it was chosen. |
| Assignees.RegisteredInRuns | src/core/registry.rs:170-179 | All assignees are registered in every state of a run up to a given one if and only if they are at first and no such step comes before. |
| Assignees.DeregisteringCanStrand | src/core/registry.rs:170-179 | A run in which deregistering strands a live task. |
| Assignees.SweepsPassBy | src/core/watchdog.rs:75-177 | No step of any sweep halts a stranded task without a deadline, or brings it within reach. |
| Assignees.StaysOutOfReach | src/core/watchdog.rs:63-178 | In every run such a task keeps its state and stays out of reach for as long as no client updates it and no agent is registered under its assignee's id. |
| Assignees.StrandedForGood | src/core/registry.rs:170-179 | If the assignee was ever registered, only a client's update can change the task's state. |
| Watchdog.Sweep | src/core/watchdog.rs:63-178 | An uninterrupted pass over the real stores: the agents, tasks and index afterwards are those of `SweepDone`, no update errs; the bus carries the loss of each flipped agent, once, and then the change of each halted task, once, and nothing else. |
| Watchdog.SweepChangesExactly | src/core/watchdog.rs:63-178 | Such a pass changes a task if and only if its state is not terminal and either it has a deadline before now, or its assignee is registered, Connected and has sent no heartbeat since the cutoff; exactly these agents become Disconnected. |
| Watchdog.SweepTells | src/core/watchdog.rs:114-177 | A task that such a pass changes gets one message of one part, which names its lost agent by the hyphenated lower-case id, or else says that its deadline is exceeded. |
| SweepRuns.UninterruptedSweep | src/core/watchdog.rs:63-178 | In every run of the interleaved system a sweep with no other step in between does to both stores exactly what the uninterrupted pass over the real stores does. |
| AgentStore.FlipAllTells | src/core/registry.rs:152-164 | Flipping a list of agents announces each one that was connected, once, and nothing else. |
| TaskHistory.HaltsTellAll | src/core/watchdog.rs:114-138 | A replayable log of halts names each task whose state changed, once, with its old and new state, and nothing else. |
| Watchdog.SweepMeans | src/core/watchdog.rs:63-178 | After such a pass every connected agent's heartbeat is within the timeout, no live task belongs to an agent that was flipped, and no live task is overdue. |
| Watchdog.HaltListed | src/core/watchdog.rs:102-140 | Halting tasks by states read under the same lock never errs, halts exactly those tasks and changes no other. |
| Reaper.ReapAt | src/core/watchdog.rs:114-138 | A target of a batch is updated once, from the state it has now, to what its remembered state calls for, if there is such an edge. |
| TaskManagers.TaskManager.CreateTaskWithDeadline | src/core/task_manager.rs:100-134 | The task starts in Submitted with its message as history and every argument in its field, is filed under its context and announced on both channels; the index stays in agreement. |
| TaskManagers.TaskManager.UpdateTaskStatus | src/core/task_manager.rs:188-239 | The refusals in their order, each leaving everything unchanged, or the new status with its message, published on both channels. |
| TaskManagers.TaskManager.AddTaskArtifact | src/core/task_manager.rs:247-271 | The artifact is appended before its event is published; unknown and terminal tasks are refused and unchanged. |
| TaskManagers.TaskManager.Cancel | src/core/task_manager.rs:279-286 | Cancelling is the status update to Canceled, refusals included. |
| TaskManagers.TaskManager.ListFiltered | src/core/task_manager.rs:154-177 | The answer through the context index is a full scan's: every task whose context, state and assignee are the requested ones, each once, and nothing else. |
| TaskManagers.TaskManager.TasksForAgent | src/core/task_manager.rs:291-299 | Exactly the live tasks of the agent, each once. |
| TaskManagers.TaskManager.Restore | src/core/task_manager.rs:302-313 | The store is rebuilt from the saved tasks alone, and with distinct ids the index agrees. |
| TaskStore.RestoredKeepsIndex | src/core/task_manager.rs:302-313 | Restoring distinct tasks gives an index without dangling, missing or duplicate ids. |
| TaskFacades.TaskFacade.SubmitTaskWithDeadline | src/core/task_facade.rs:61-119 | Refused if and only if the pinned agent is unknown or disconnected, and then nothing changes; otherwise one task is created as asked for, for the pinned agent, for a connected one that has every tag its metadata demands, or for nobody when there is no such agent. |
| TaskFacades.ResolvesWell | src/core/task_facade.rs:72-107 | The same about the checking and routing step alone, for every order in which the registry lists its agents. |
| TaskFacades.PromptSubmissionOrphansNone | src/core/task_facade.rs:72-114 | In the interleaved system, a submission with nothing between its two locks orphans no task. |
| Router.SelectAgentIsEligible | src/core/router.rs:34-73 | A connected pinned agent is kept; otherwise the first connected agent in listing order that has every tag demanded by the metadata is chosen; none is chosen if and only if there is none. |
| Router.TagsMean | src/core/router.rs:45-72 | The tag test passes if and only if every string in the array `required_tags` of an object of metadata is among the agent's skill tags. |
| RoutingLoad.LeastLoadedAlwaysExactly | adrs/013-task-routing.md:17 | With no pin, the chosen agent is a least loaded eligible one for every listing order if and only if all eligible agents have equally many tasks in flight. |
| RoutingLoad.LeastLoadedExactly | src/core/router.rs:34-73 | For one listing it is if and only if the first eligible agent has no more in flight than any eligible one after it. |
| RoutingLoad.BusierAgentChosen | src/core/router.rs:34-73 | A registry, a store and a listing for which a busy agent is chosen although an idle one is eligible. |
| Registries.AgentRegistry.RegisterAgent | src/core/registry.rs:86-114 | Invalid names, with the rule they break, and taken names are refused without change; otherwise the agent is connected, named and announced, and names stay unique. |
| AgentStore.NameFaultExactly | src/core/registry.rs:20-56 | A name is refused if and only if it breaks the naming rules; its length is counted in bytes. |
| Registries.AgentRegistry.BumpHeartbeat | src/core/registry.rs:127-148 | The heartbeat is refreshed; a disconnected agent is connected again, and only that is announced. |
| Registries.AgentRegistry.FlipToDisconnected | src/core/registry.rs:152-164 | Only a connected agent is flipped and announced; otherwise nothing happens. |
| Registries.AgentRegistry.DeregisterAgent | src/core/registry.rs:170-179 | The agent and its name leave together; an unknown id changes nothing. |
| Registries.AgentRegistry.FindAgentByName | src/core/registry.rs:194-197 | The index answers as a search of all agents would. |
| AgentStore.FlipAllEffect | src/core/watchdog.rs:89-99 | Flipping a list changes the status of the listed agents and nothing else. |
| Paging.ListTasks | src/grpc/service.rs:237-272 | A response is one page of the matching tasks in id order. |
| Paging.PageMeans | src/grpc/service.rs:237-272 | A page has at most 50 tasks when no size is asked for, and otherwise at most the size asked for, brought into 1 to 100; a page with a next token has exactly that many. The counts are those of the page and of all matching tasks, capped at 2^31 - 1. |
| Paging.FollowVisitsOnce | src/grpc/service.rs:237-272 | Over a fixed store, following the tokens from the empty one returns every matching task once, in id order, in max(1, ceil(n/size)) requests. |
| Paging.WalkVisitsOnce | src/grpc/service.rs:237-272 | With arbitrary changes between requests, a task that matches at every request is on exactly one page of a completed walk. |
| Paging.NeverTwice | src/grpc/service.rs:252-268 | No task is returned twice, whatever changes between requests. |
| PagingRuns.PagedVisitsOnce | src/grpc/service.rs:237-272 | When requests are answered from later and later states of a nexus, a task that matches in all of them is returned on exactly one page, as the answering state has it. |
| PagingRuns.PagedFixedStore | src/grpc/service.rs:237-272 | While the store does not change and the page size is the same, the responses together are the matching tasks in id order, in max(1, ceil(n/size)) requests. |
| PagingRuns.PagedMissesNothing | src/grpc/service.rs:237-272 | In any run, listing by context or assignee returns each task that matches at the start exactly once, whatever happens in between. |
| Paging.SortedUnique | src/grpc/service.rs:244 | Sorting by id has one result, whatever order the listing had. |
| Uuids.RenderMonotone | src/core/task_types.rs:34-38 | The hyphenated hexadecimal text of ids is ordered exactly as the ids are, and is injective, so that the cursor cuts the list where the sort put it. |
| Uuids.RenderParses | src/core/task_types.rs:34-48 | The hyphenated text of an id reads back as the id. |
| Uuids.ParsesExactly | src/core/task_types.rs:34-48 | A text is read as an id if and only if, with its digits A to F in lower case, it is the rendered id. |
| Streaming.RunStream | src/grpc/service.rs:55-114 | What the worker sends is the first `accepts` envelopes of a function of what it received. |
| Streaming.StreamIsProjection | src/grpc/service.rs:66-108 | Without lag the client gets the snapshot and then exactly one envelope per event of its task published after subscription, in bus order, however late each is handled. |
| Streaming.HandledArtifact | src/grpc/convert.rs:225-240 | An artifact event finds its artifact whenever it is handled, and always the same one. |
| Streaming.FoundIsFirst | src/grpc/convert.rs:230-235 | What is found under an id is the first artifact stored with that id, unchanged. |
| Streaming.StreamedAreStored | src/grpc/service.rs:66-108 | Every artifact that is streamed is one of the task's artifacts, unchanged. |
| Streaming.ClientIsRightExactly | src/grpc/service.rs:158-186 | With a snapshot taken before subscribing, the client's picture is right if and only if no artifact was added in the gap and the gap changed no state that a later event does not announce. |
| Gaps.SnapshotCanMiss | src/grpc/service.rs:55-72 | A run in which a task is picked up between the snapshot and the subscription, and the client is wrong although it misses no event after that. |
| Snapshots.AgentsRoundTrip | src/core/registry.rs:203-214 | Restoring a listed registry, in any map order, gives the very same agents and name index; none is skipped. |
| Snapshots.ToolsRoundTrip | src/core/tools.rs:192-204 | Restoring the listed tools gives the very same tool registry. |
| Snapshots.TasksRoundTrip | src/core/task_manager.rs:302-313 | Restoring listed tasks gives the same tasks, an agreeing index, and per context the same ids. |
| Snapshots.ChatRoundTrip | src/core/chat.rs:152-165 | Restoring gives the same conversations with the same ordered messages. |
| Snapshots.WebhooksRoundTrip | src/core/push_notifications.rs:173-183 | Restoring the flattened list gives every task its webhooks in their order. |
| Snapshots.AppState.Restart | src/server/state.rs:69-114 | A restart through a snapshot preserves all five stores and their invariants. |
| Sse.SseLineParser.FeedChunk | src/cli/events.rs:72-94 | The loop over the decoded characters of a slice of bytes does to the parser what the specification of feeding does. |
| Sse.SlicingIndependent | src/cli/events.rs:70-94 | However a stream is cut into feeds, the frames and the final parser state are those of one feed of the whole. |
| Sse.ByteSlicesParse | src/cli/events.rs:72-94 | However bytes are sliced, what is parsed is the text the slices decode to one by one; with no character cut, that is the text of the whole. |
| Utf8.UncutExactly | src/cli/events.rs:73 | Decoding slice by slice, as the parser does, gives the text of the whole if and only if no slice starts inside a character. |
| Utf8.DecodedApartExactly | src/cli/events.rs:73 | The same for two slices; a cut character always costs extra replacement characters. |
| Utf8.EncodedDecodes | src/cli/events.rs:73 | Encoded text decodes to itself, for every string. |
| Utf8.CleanIsEncoded | src/cli/events.rs:73 | Bytes that decode without a replacement character are the encoding of the text: no overlong form, surrogate or stray byte passes. |
| Utf8.CutDamages | src/cli/events.rs:73 | A two-byte letter cut in the middle becomes two replacement characters. |
| Sse.FeedIsBatch | src/cli/events.rs:70-94 | Feeding is the batch reading: split into lines, drop trailing CRs, group by blank lines, the last `event:` and `data:` of a group win. |
| Sse.PrintedParses | src/cli/events.rs:70-94 | A frame printed with trimmed one-line fields parses back to itself and leaves the parser clean. |
| Sse.TrimExactly | src/cli/events.rs:81-92 | Trimming takes all characters of the Unicode White_Space property, listed by code point, off both ends and nothing else. |
| Sse.TrimEndCrExactly | src/cli/events.rs:76-80 | All carriage returns are taken off the end of a line, and nothing else. |
| Sse.FramingInvisibleExactly | src/cli/events.rs:60-94 | A chunk boundary changes no frame, whatever text follows, if and only if the parser is between frames. |
| Sse.ChunkedParses | src/cli/events.rs:60-94 | A stream of printed events, one per chunk, parses back to exactly those events. |
| HttpStream.StreamBody | src/cli/client.rs:130-159 | The callback gets what follows the separator in the read that completes it, if anything, and then every read as it is; together that is what follows the first CRLFCRLF of all that was read. |
| HttpStream.ChunksAreBody | src/cli/client.rs:130-159 | However the reads slice a response, the callback's chunks concatenate to its body. |
| HttpStream.FoundExactly | src/cli/client.rs:193-195 | The separator, the bytes 13, 10, 13, 10, is found at a position if and only if it is there and nowhere before. |
| HttpStream.TailEvents | src/cli/client.rs:130-159 | The read loop composed with one parser gives the frames of the chunks, for any bytes. |
| HttpStream.TailedIsWhole | src/cli/client.rs:130-159 | When no read ends inside a character, as with ASCII, the frames are those of the whole body in one piece, whatever the read sizes. |
| HttpStream.TailedEvents | src/cli/client.rs:130-159 | End to end: reads that together are a header, a separator and a body of printed events, one per chunk, yield exactly those events, provided that no read cuts a character. |
| Notifier.RunToolNotifier | src/mcp/notifier.rs:36-87 | The nested receive loops do what the signal-by-signal machine does, the exits included. |
| Notifier.Coalesces | src/mcp/notifier.rs:36-87 | In every state: no send without a tool event since the previous send, sends never outnumber tool events, and every tool event taken has been followed by an attempt unless its window is open. |
| Notifier.TakesAll | src/mcp/notifier.rs:39-67 | Until it stops it takes every delivered event; it stops only on a closed bus or a failed send, and no attempt follows a failed one. |
| ConfigMerge.MergeTables | src/config/loader.rs:114-125 | The recursive loop over the overlay, in any map order, computes the merge. |
| ConfigMerge.LeafOfMerged | src/config/loader.rs:110-125 | At every path the overlay's leaf wins where the overlay says anything, and the base's shows through elsewhere. |
| ConfigMerge.TableOfMerged | src/config/loader.rs:110-125 | A path exists in the merge if and only if the overlay has it, or the base has it and the overlay does not settle it. |
| ConfigMerge.ReapplyingIsIdle | src/config/loader.rs:32-47 | Applying a layer twice changes nothing. |
| ConfigMerge.AssociativeExactly | src/config/loader.rs:24-47 | Three layers merge alike from either end if and only if nowhere a table, a non-table and a table meet, of which the first has a key that the last lacks. |
| ConfigMerge.ShinesExactly | src/config/loader.rs:110-125 | A layer changes what lies on top of it if and only if, both being tables all the way, it has a key the other lacks. |
| Protobuf.ThereAndBack | src/grpc/convert.rs:262-344 | A document of any depth comes back from protobuf as itself with its numbers made doubles, and is sent in canonical form. |
| Protobuf.NormalFixedExactly | src/grpc/convert.rs:274-298 | It comes back unchanged if and only if all its numbers were doubles. |
| Protobuf.NormalisedIsNormal | src/grpc/convert.rs:274-298 | A second trip changes nothing more. |
| Protobuf.BackAndThere | src/grpc/convert.rs:321-344 | A peer's value comes back to it unchanged if and only if it has no absent kind, no odd null and no infinity or NaN. |
| Protobuf.BackTidied | src/grpc/convert.rs:321-344 | What a peer gets back is its value with null, at every depth, for an absent kind, an odd null, an infinity or NaN, and everything else as it was. |
| Protobuf.RoundedIsNearest | src/grpc/convert.rs:281-284 | An integer becomes the nearest double, of 53 significant bits, and is kept exactly when it is one. |
| Protobuf.IntegersAreSent | src/grpc/convert.rs:281-288 | An integer is sent with its sign: below 2^53 as itself, beyond as the nearest multiple of a spacing that leaves 53 significant bits, and of two equally near as the one with an even significand. |
| Protobuf.MessageThereAndBack | src/grpc/convert.rs:67-137 | A message survives the trip, normalised, if and only if the parser reads its rendered id back; it is unchanged if and only if its metadata is absent or an object and all its numbers are doubles. |
| Protobuf.EveryMessageSurvives | src/grpc/convert.rs:67-137 | With ids read in their hyphenated form every message survives the trip, normalised. |
| Protobuf.RefusedExactly | src/grpc/convert.rs:118-137 | A peer's message is refused for an unspecified or unknown role, else for an id that does not parse, else for a part without content, and for nothing else; one without an id gets a new one. |
| CodeScan.ScanRepo | src/core/code_tools.rs:309-332 | The first page of the eligible files in walking order, the count of all, and truncation if and only if some were left out; an error if and only if the root is no directory or something visited cannot be read. |
| CodeScan.EntriesAreReached | src/core/code_tools.rs:336-444 | The eligible files are exactly those reachable without entering a hidden or deny-listed directory, each position once, in depth-first order. |
| CodeScan.CountLinesStreaming | src/core/code_tools.rs:450-476 | The streamed count is the whole file's line count, however the reads slice it. |
| CodeScan.CountsLines | src/core/code_tools.rs:93-104 | A line with its newline counts one, and what follows the last newline counts one if it is not empty. |
| Notifier.NothingLost | src/mcp/notifier.rs:70-81 | Outside an open window, also when the bus closed inside one, every tool event taken was followed by an attempt. |
| Notifier.OneEvent | src/mcp/notifier.rs:36-91 | One event and a quiet window: one attempt after a tool registration or deregistration, and none after any other event. |
| Watchdog.HaltedMeans | src/core/watchdog.rs:115-129 | A halted task goes from Submitted to Rejected and from any other live state to Failed, with exactly one message added, which gives the reason. |
| AgentStore.FindByNameIsSearch | src/core/registry.rs:194-197 | The same for any store whose index agrees: found if and only if some agent has the name, and then that one. |
| HttpStream.StreamedIsSplitExactly | src/cli/client.rs:180-190 | The streamed body is the split body if and only if the separator occurs or the response is empty. |
| Chats.ChatManager.SendMessage | src/core/chat.rs:77-113 | Sent if and only if the conversation exists and has the sender; then appended at the end and published. |
| Webhooks.PushNotificationStore.Delete | src/core/push_notifications.rs:159-170 | Reports whether the webhook was there, removes exactly it, and drops an emptied list. |
| Webhooks.WithoutConcat | src/core/push_notifications.rs:159-170 | Deleting works on each part of a list by itself, so that what stays keeps its order. |
| ToolRegistries.ToolRegistry.Register | src/core/tools.rs:112-148 | Invalid names, with the rule they break, empty descriptions and taken names are refused without change; otherwise the tool is added and announced. |
| ToolStore.ToolNameFaultExactly | src/core/tools.rs:42-91 | A tool name is refused if and only if it breaks the naming rules, spelled out by code point. |
| ToolRegistries.ToolRegistry.Deregister | src/core/tools.rs:158-168 | The tool and its name leave together; an unknown id changes nothing. |

## Left out

- TaskManager::get_mut: hands out unchecked access to a task; it has no caller, and any use would bypass every invariant.
- Locks, threads and the broadcast channel's capacity: each locked section is one step, the bus is a log, and lag appears only as a signal that some theorems exclude.
- Nexus.Next: publishes all events of a batch at once, and a stream worker subscribes between steps. In the code a subscription, or another store's event, can fall between two events of one batch; the theorems use only the log's projection to one store, or to one task, which this does not change.
- Id collisions: generated ids are fresh where a theorem says so.
- Tool events in runs: the interleaved system has them as bus traffic; the tool registry is modelled as a class of its own.
- Duplicate ids or names in a snapshot: restoring does not reject them; the round trips are about snapshots that were taken from a store.
- Watchdog.Sweep: the fallback for a timeout too large for a duration is not modelled, and a mint's timestamp is any later clock reading.
- Wire tasks: status, artifact and task conversion to protobuf, timestamps and the numeric state codes are field copies; paging is about the core tasks.
- Request parsing: the errors of malformed context ids, states and message ids in list and stream requests, beyond the message refusals of the protobuf model.
- Uuids.Parse: reads the hyphenated form in either case; the library's other spellings, without hyphens, in braces or as a URN, are not modelled.
- Status codes: the status line of a response is not parsed.
- Webhook delivery, its retries and back-off: network I/O; URL parsing is a Boolean parameter.
- Chat queries, and the facade's pass-through methods: one-branch lookups, or a store method under its lock.
- CodeScan.ScanRepo: language detection is a parameter, and names are text; a file is what its reads return.
- Environment variables, path resolution and range checks of the configuration.
- Sockets, files, signals, encryption, persistence, MessagePack, base64, tree-sitter, and the HTTP, gRPC and MCP servers.
