# A verified model of tasque2's engines

Tasque2 queues work for language-model workers. This project models the parts of it in which state
changes over time and mistakes would be silent, and proves what those parts promise over every run:
the workflow engine, the scheduler, the held document edits and the budgeted memory beneath them, the
release switch, and four smaller algorithms with real bounds.

`dafny verify dfyconfig.toml` checks everything.

## How the model is built

**The workflow engine.** `WorkflowModel` gives one run as a value (nodes, edges, round, status,
outputs, work items) and each operation as a function on it. `WorkflowEngine.Engine` is the service:
a class whose methods assign node and run fields in loops, each proved equal to its function.
Everything the engine cannot know is a parameter and arbitrary: the order in which rows come back,
the truth of `skip_when`, the items of a fan-out, the item at which a fan-out breaks, every change
that queues and workers make to work items between ticks. A history is any sequence of ticks, gate
answers, notes, pauses, resumes, cancellations and work-item changes. `WorkflowMoves` breaks an
operation into single-node moves; `WorkflowSafety` proves that each keeps the invariant `Sound`; then

- `WorkflowRuns` says what holds in every reachable state (dependencies, barriers, rewinds, statuses),
- `WorkflowTermination` that node changes end, by a measure of rounds left, fan-outs left and work left,
- `WorkflowKeys` exactly when queued work is another node's item: never an earlier round's own, and never
  at all where the keys are clash-free and the run id is fresh,
- `WorkflowProgress` that acyclic definitions never deadlock and cyclic ones never complete,
- `WorkflowRest` that every tick moves a run on or ends it unless something visible holds it up,
- `WorkflowStarts` and `WorkflowCompletion` that a definition can be completed exactly when it has no cycle
  and none of its starts fails, and `WorkflowClash` a run in which keys with colons clash,
- `WorkflowOutcomes`, `WorkflowCommands` and `WorkflowCauses` what finished work, starts, answers and commands
  leave, written out status by status, and why a run can fail.

**The scheduler.** `Schedules` takes a timing as its `next` function: the interval grid is proved to
be one, and a cron expression is assumed to be one. `Fires` is the list of instants in a window; the
loops are proved to compute it. `SchedulePolls` says what a poll does to each schedule, `ScheduleRetries` when a failed launch is tried again. Histories mix polls (in which any launch may fail, before or after its
row is written), manual fires and changes to schedules.

**Memory and held edits.** `Text` parses the `<!-- tasque:max_chars=N -->` marker as the regular
expression does, finds the first one in a document, and counts passages. `Memory` is the canonical
store with `upsert_canonical`, `edit_canonical`, `update_memory` and `archive_memory`. `Doctrine` adds
`held_conflicts`, `apply_held` and `reversed_edits` on top.

**The release switch.** `Respawn.Host` changes repositories, configuration and database step by step
as `main` does, proved equal to a function of all the answers the outside gives; the lemmas are about
that function for all answers.

**Four algorithms.** `Uploads` (packing), `Excerpt` (the budgeted excerpt), `Stream` (usage totals),
`Pool` (the shared budget of worker threads under every interleaving, and the bounded pool).

## Where the code and its description part

The model follows the code. These are proved, with the exact condition under which the promise holds and a case in which it fails:

- `validate_definition` accepts definitions that can never complete: with cycles
  (`WorkflowCompletion.CyclesAreAccepted`), and with starts that always fail, as of a fan-out whose `items`
  are no list (`WorkflowStarts.NoListNeverCompletes`). What a start meets is fixed for each node key; then
  some history completes the run exactly when no node is on a cycle and no start of a node, or of an item
  of its fan-outs, fails (`WorkflowCompletion.CompletesExactly`).
- Two nodes' work can share an idempotency key when one node's key is another's followed by a colon
  and a round number (`WorkflowKeys.KeysAgreeExactly`). Queued work is another node's item exactly when the
  run has started over and such a node had its own queued in the first round
  (`WorkflowKeys.WorkIsHandedOverExactly`); `WorkflowClash.WorkIsHandedOver` is a run in which that happens.
- Pausing and resuming a run leaves it as it was exactly if it was not going on past an open gate: one of two
  waiting gates, answered, sets the run going, and a resumed run waits for the other
  (`WorkflowCommands.PauseAndResume`).
- A fan-out takes an existing node under an item's key for that item's child. The item then has a child
  of its own, behind which everything else waits, exactly when no node had the key
  (`WorkflowRuns.FanOutListsItsChildren`, with `WorkflowRuns.NamedItemIsNoChild` as the case).
- "A launch that fails leaves no occurrence behind" holds exactly for launches that fail before their row
  is written (`Schedules.FailureLeavesARowExactly`). One can fail later: a payload whose context names the
  `context_file` `~nosuchuser/x` makes `expanduser` raise a `RuntimeError`, which `effective_context` does
  not catch (`src/tasque2/lane_context.py:45-47`), after the row is flushed. The pending row is taken for the
  fire at the next poll (`Schedules.LateFailureIsNotRetried`), which is never launched
  (`Schedules.LeftoverIsNeverLaunched`). A row stays pending in exactly this case
  (`Schedules.PendingExactlyIfItBroke`).
- "A schedule that cannot launch is left due, so it retries on the next poll": the schedule is, but the
  failed instant is tried again exactly if it left no row, stays within the misfire grace and, unless the
  policy is `all`, no later fire has come due (`ScheduleRetries.RetriedExactly`;
  `ScheduleRetries.DateRetriedExactly` for dates). Without grace a second is too late
  (`ScheduleRetries.FailedFireIsDropped`).
- `next_fire_time` is the next moment at which something is due exactly when the misfire grace is not
  negative and, with policy `all`, `max_backfill` is at least 1 (`Schedules.NextFireTimeIsNextDue`).
- A write that leaves the budget marker out inherits the budget. Written by leave to exceed it, the
  document still declares one exactly when the budget is 10 or more: `05` is put back as `5`, which the
  marker expression does not match (`Memory.SmallBudgetsAreLost`, `Memory.BudgetOfFiveIsLost`). Without
  leave such a write is refused.
- `apply_held` promises to leave a conflicting document alone. It recovers names by splitting messages
  at the first colon, so a conflicting edit is held back exactly when its document's name has no colon
  (`Doctrine.HeldBackUnlessColon`), and an edit without a conflict is held back when a conflicting one's
  name leads with its own (`Doctrine.HeldBackForAnother`). `Doctrine.ColonsAreMistaken` is a store with
  both: `n/a:b` is overwritten although it changed live, and `n/a` is held back for it.
- "Applying twice changes nothing" fails on the same store: the second time `n/a` changes. It holds on
  every store exactly for the lists `Doctrine.Steady` describes (`Doctrine.TwiceIsOnceExactly`), so for
  all lists without colons in names, or in which no name with a colon leads with another edit's name.
- Undoing held edits restores every document exactly when each edit `Doctrine.ComesBack`
  (`Doctrine.UndoRoundTripExactly`). Edits that are each `Doctrine.Undoable` always are, whatever the
  names; without colons only they are (`Doctrine.UndoRoundTrip`). An edit that adds a marker, or whose
  old text exceeds the budget it declares, is not (`Doctrine.SomeEditsAreNotUndone`).
- "Any failure, then or at the health check, resets the code and the config and restores the database":
  a release ends whole on a healthy daemon, or with everything as captured, exactly when it does not
  `Respawn.LeavesSomething` (`Respawn.ReleaseKeptOrCaptured`). What can stay is the work of the
  `pre_switch` steps and the merged configuration when a fast-forward fails after them
  (`Respawn.AStepIsLeftBehind`), and the database of a release that moves neither code nor configuration
  when its daemon stays unhealthy (`Respawn.ADatabaseIsLeftBehind`).

## Model

| member | source | states |
|---|---|---|
| Graph.Drain | src/tasque2/workflows.py:376-390 | the worklist loop of both searches ends and finds exactly the nodes reachable from its starts |
| Definitions.BeforeKeys | src/tasque2/workflows.py:787-797 | returns exactly the keys a node depends on, directly or not |
| Definitions.BackwardIsBefore | src/tasque2/workflows.py:787-797 | searching the dependency dictionary backwards from a node meets exactly the nodes before it, paths reversed |
| Definitions.Validate | src/tasque2/workflows.py:735-769 | accepts exactly the non-empty definitions with unique keys, known kinds and dependencies, and rewinds from work nodes to nodes before them; each error is raised for a real offender |
| WorkflowEngine.Engine.constructor | src/tasque2/workflows.py:113-147 | a run of an accepted definition starts as the initial run and satisfies the invariant |
| WorkflowEngine.Engine.Materialize | src/tasque2/workflows.py:265-291 | the two loops build the pending nodes and one edge per dependency, `finished` out of tolerant nodes |
| WorkflowRuns.DefinitionEdgesMembers | src/tasque2/workflows.py:280-291 | the edges of a new run are exactly the dependencies named by the definition, with their conditions |
| WorkflowEngine.Engine.Tick | src/tasque2/workflows.py:149-164 | one run's tick: sync, then start only if still active, then finalize; whole new state given and invariant kept |
| WorkflowEngine.Engine.SyncEnqueuedNodes | src/tasque2/workflows.py:293-331 | folds finished work into nodes in any row order and stops at the first node that asks for a rewind |
| WorkflowEngine.Engine.SyncNode | src/tasque2/workflows.py:297-331 | the outcome of one node's work item: succeeded, tolerated, failed, canceled, or a rewind |
| WorkflowEngine.Engine.Rewind | src/tasque2/workflows.py:333-374 | computes the cone by search, refuses in the order of the code, or resets the cone and opens the next round |
| WorkflowEngine.Engine.From | src/tasque2/workflows.py:376-390 | the adjacency loop and the search give exactly the nodes reachable over the run's edges |
| WorkflowEngine.SearchIsFrom | src/tasque2/workflows.py:376-390 | what a search from one node finds is that node's cone, within the run's nodes |
| WorkflowEngine.Engine.StartReadyNodes | src/tasque2/workflows.py:392-413 | starts every pending node whose dependencies are met when its turn comes, also those an earlier start unlocked |
| WorkflowEngine.Engine.DependenciesSatisfied | src/tasque2/workflows.py:611-621 | true exactly when every edge into the node has its condition met |
| WorkflowEngine.Engine.StartNode | src/tasque2/workflows.py:415-467 | the start of a node by kind, skips and start errors included |
| WorkflowEngine.Engine.EnqueueWorkNode | src/tasque2/workflows.py:469-510 | the node holds the item keyed by run, node and round, and is enqueued |
| WorkflowEngine.Engine.CreateWorkItem | src/tasque2/work/repository.py:46-74 | an existing idempotency key keeps its row; a new one gets a fresh live item |
| WorkflowEngine.Engine.ExpandFanOut | src/tasque2/workflows.py:512-567 | children and their edges, or failure for a non-list or at the item that cannot be built |
| WorkflowEngine.Engine.AddChildren | src/tasque2/workflows.py:522-557 | the expansion loop: each child looked up or appended, and listed |
| WorkflowEngine.Engine.CompleteJoin | src/tasque2/workflows.py:569-576 | the join succeeds with what its edges collect |
| WorkflowEngine.Engine.FinalizeIfDone | src/tasque2/workflows.py:623-632 | failed if a node failed, else completed with all outputs if all nodes are done, else unchanged |
| WorkflowEngine.Engine.AnswerGate | src/tasque2/workflows.py:166-184 | taken exactly for a gate of that key that waits in an unfinished run; the three refusals are told apart and leave the run unchanged |
| WorkflowEngine.Engine.AddGateNote | src/tasque2/workflows.py:194-208 | taken exactly for a waiting gate of that key; adds one note and nothing else |
| WorkflowEngine.Engine.PauseRun | src/tasque2/workflows.py:219-223 | pauses an unfinished run and leaves a finished one |
| WorkflowEngine.Engine.ResumeRun | src/tasque2/workflows.py:230-236 | a paused run becomes awaiting_input exactly when a gate waits, else active |
| WorkflowEngine.Engine.CancelRun | src/tasque2/workflows.py:243-257 | cancels an unfinished run and exactly its nodes that had not ended |
| WorkflowMoves.OpMoves | src/tasque2/workflows.py:149-164 | every operation is a list of single-node moves with the same result |
| WorkflowSafety.PutKeepsDependencies | src/tasque2/workflows.py:611-621 | changing one node that was not done keeps every edge condition of started nodes |
| WorkflowSafety.ResetKeepsSound | src/tasque2/workflows.py:359-368 | resetting a cone closed under edges and free of fan-out children keeps the invariant |
| WorkflowSafety.GrantedCone | src/tasque2/workflows.py:339-348 | a rewind that is not refused has such a cone, contains the node that asked, and has a round left |
| WorkflowSafety.ExpansionKeepsSound | src/tasque2/workflows.py:522-560 | growing the graph by a fan-out's children keeps the invariant |
| WorkflowSafety.NewChildIsWired | src/tasque2/workflows.py:541-556 | each added child waits for its fan-out and everything behind the fan-out waits for the child |
| WorkflowSafety.MoveKeepsSound | src/tasque2/workflows.py:293-634 | every move of the engine or of a command keeps the invariant |
| WorkflowRuns.EveryRunIsSound | src/tasque2/workflows.py:149-634 | the invariant holds in every reachable state of an accepted definition |
| WorkflowRuns.DependenciesHoldInEveryRun | src/tasque2/workflows.py:392-413 | in every reachable state a node that has started has every dependency met, also along edges fan-out added and after rewinds |
| WorkflowRuns.FanOutIsABarrier | src/tasque2/workflows.py:543-556 | nothing behind a fan-out has started, and no join has closed, while a child is not done, or has failed where failures are not tolerated |
| WorkflowRuns.RewindTargetIsAlwaysBefore | src/tasque2/workflows.py:762-769 | for an accepted definition, in every state moves lead to and so in the middle of a tick too, a rewind's target is before its node: the search over keys and the search over edges agree |
| WorkflowRuns.NeverRefusedAsNotBefore | src/tasque2/workflows.py:343-344 | no node of such a run ever fails for that reason |
| WorkflowRuns.RewindIsExact | src/tasque2/workflows.py:359-368 | a granted rewind clears exactly the nodes reachable from its target, leaves all others untouched, adds one round, and awaits input exactly when a gate still waits |
| WorkflowRuns.OutputsOfNodes | src/tasque2/workflows.py:629 | a completed run's outputs map every node key to its output, and only node keys |
| WorkflowRuns.StatusMeansWhatItSays | src/tasque2/workflows.py:623-634 | in every reachable state: awaiting_input has a waiting gate, completed has all nodes done and all outputs, failed exactly when a node failed, canceled has every node ended |
| WorkflowRuns.FinalStatusIsFinal | src/tasque2/workflows.py:149-263 | after a final status no history changes the status, the graph, the outputs, or anything of a node but its notes, which only grow |
| WorkflowRuns.JoinCollectsItsDependencies | src/tasque2/workflows.py:570-576 | a join's output has, under each dependency's key, that dependency's output, and nothing else |
| WorkflowRuns.FanOutListsItsChildren | src/tasque2/workflows.py:523-559 | after expansion over n items the output lists n ids, the k-th naming the node keyed for item k; that node is a new pending child with its item's place, wired between the fan-out and what follows, exactly when no node had the key |
| WorkflowRuns.NamedItemIsNoChild | src/tasque2/workflows.py:526-529 | a definition that names `f.0` itself: expanding `f` over one item adds no node and no edge |
| WorkflowTermination.MoveMeasures | src/tasque2/workflows.py:293-634 | every move lowers (rounds left, unexpanded fan-outs, work left) or changes no node's status; starts and finished work always lower it |
| WorkflowTermination.OpMeasures | src/tasque2/workflows.py:149-263 | the same for every operation, and the round never passes 20 |
| WorkflowTermination.NodeChangesEnd | src/tasque2/workflows.py:149-164 | in every endless history there is a moment after which no node's status changes |
| WorkflowKeys.KeysAgreeExactly | src/tasque2/workflows.py:492 | when two idempotency keys of a run are equal: the same node and round, or one node's key is the other's with a round number |
| WorkflowKeys.KeysWithColonsCanClash | src/tasque2/workflows.py:492 | the second round of `plan` and the first of `plan:1` share a key |
| WorkflowClash.WorkIsHandedOver | src/tasque2/work/repository.py:46-49 | an accepted definition and a history of its run in which a rewound node holds another node's live work item |
| WorkflowKeys.NoColonsNoClash | src/tasque2/workflows.py:525 | definitions whose keys have no colon never clash, fan-out children included |
| WorkflowKeys.KeyIsTakenExactly | src/tasque2/workflows.py:480-492 | the key a pending node's work would get is taken exactly when the run has started over and a node, whose key is this one's with the round's number, had its work queued in the first round |
| WorkflowKeys.WorkIsHandedOverExactly | src/tasque2/work/repository.py:46-49 | in every run with a fresh id, definitions with clashing keys included, queued work is an existing item exactly in that case and a new one in every other |
| WorkflowKeys.PendingKeyIsFree | src/tasque2/workflows.py:480-492 | where no node's key is another's with a round number, the key a pending node's work would get is not taken |
| WorkflowKeys.EnqueuedWorkIsNew | src/tasque2/workflows.py:480-502 | in every run with clash-free keys and a fresh run id, work queued for a node is a new item that no node and no earlier round ever had |
| WorkflowKeys.KeysAreUsedOnce | src/tasque2/workflows.py:480-502 | no two enqueues of such a run use the same key, so a node is enqueued at most once a round |
| WorkflowProgress.FewerAncestors | src/tasque2/workflows.py:787-797 | without cycles a dependency has strictly fewer nodes before it than its dependent |
| WorkflowProgress.MoveKeepsRanked | src/tasque2/workflows.py:541-556 | fan-out expansion and every other move keep the graph free of cycles |
| WorkflowProgress.NoDeadlock | src/tasque2/workflows.py:392-413 | an acyclic run that is not over, not paused and has no failed or canceled node is all done, or has enqueued work, a waiting gate, or a node ready to start |
| WorkflowProgress.CyclesNeverComplete | src/tasque2/workflows.py:735-769 | a node on a cycle never starts, whatever happens, and its run never completes |
| WorkflowCompletion.CyclesAreAccepted | src/tasque2/workflows.py:758-761 | a definition whose one node depends on itself is accepted |
| WorkflowOutcomes.SyncFolds | src/tasque2/workflows.py:297-331 | syncing an enqueued node whose work asks for no rewind: succeeded with text and flag iff its item succeeded, tolerated iff a dead letter on a tolerant node, failed iff a dead letter on another, canceled iff canceled, unchanged iff live; nothing else of the run changes |
| WorkflowOutcomes.SyncGoesBack | src/tasque2/workflows.py:310-312 | work that asks for a rewind: the node succeeds and the run goes back, or the node fails with the refusal's reason |
| WorkflowOutcomes.RewindRefusedExactly | src/tasque2/workflows.py:343-348 | a rewind is granted exactly if its node comes after the target, no fan-out child does, and a round is left |
| WorkflowOutcomes.FinishedWorkIsFolded | src/tasque2/workflows.py:293-331 | in every state moves lead to, an enqueued node has its item and is folded as above |
| WorkflowOutcomes.SyncAllFolds | src/tasque2/workflows.py:293-331 | a pass without a rewind folds every enqueued node whose row comes back, in whatever order, and leaves all others |
| WorkflowOutcomes.DeadLetterFailsTheRun | src/tasque2/workflows.py:313-321 | a tick without a rewind fails the run if a dead letter is on a node that does not tolerate it |
| WorkflowOutcomes.StartLeadsTo | src/tasque2/workflows.py:415-467 | what starting a node leads to by kind, skip and error: which status, which output, which key, and whether the run awaits input |
| WorkflowOutcomes.StartKeepsStartable | src/tasque2/workflows.py:398-402 | starting a node, fan-out expansion included, leaves every other ready node ready |
| WorkflowOutcomes.EveryReadyNodeStarts | src/tasque2/workflows.py:392-413 | a pass over pending nodes starts every node that was ready when it began |
| WorkflowCommands.AnswerIsStored | src/tasque2/workflows.py:178-183 | an answer is stored with the gate's notes, sets a waiting run going, leaves a paused one paused, and changes no other node |
| WorkflowCommands.NoteIsKept | src/tasque2/workflows.py:204-208 | a note goes after the earlier ones and nothing else changes |
| WorkflowCommands.NotesGoWithTheAnswer | src/tasque2/workflows.py:181 | notes typed while a gate waits go with its answer in the order they were typed |
| WorkflowCommands.RefusedIsNothing | src/tasque2/workflows.py:173-179 | an answer or note to no waiting gate, and an answer to a finished run, change nothing |
| WorkflowCommands.PauseTakesEffect | src/tasque2/workflows.py:219-223 | a run that is not over becomes paused, and nothing else of it changes |
| WorkflowCommands.ResumeTakesEffect | src/tasque2/workflows.py:230-236 | a paused run awaits input exactly when a gate waits, else is active; another run is left |
| WorkflowCommands.CancelTakesEffect | src/tasque2/workflows.py:243-257 | a run that is not over is canceled, with exactly its nodes that had not ended |
| WorkflowCommands.PausedRunsStandStill | src/tasque2/workflows.py:151-153 | ticks change nothing of a paused run |
| WorkflowCommands.PauseAndResume | src/tasque2/workflows.py:219-241 | pausing and resuming undo each other exactly if the run was not going on past an open gate |
| WorkflowCommands.AwaitingInputStartsNothing | src/tasque2/workflows.py:157-160 | while a run awaits input a tick without a rewind starts nothing |
| WorkflowCauses.FailsOnlyForARefusedRewind | src/tasque2/workflows.py:313-358 | over every history in which starts go well and dead letters fall on tolerant nodes, the run fails only for a rewind across a fan-out's children or past the last round |
| WorkflowCauses.NeverFailsWithoutRewinds | src/tasque2/workflows.py:623-626 | so a run of a definition without rewinds never fails |
| WorkflowStarts.OpHolds | src/tasque2/workflows.py:398-413 | every operation keeps that a node whose start fails gets nowhere and that an expanded fan-out has a node for each item |
| WorkflowStarts.FailingStartsNeverComplete | src/tasque2/workflows.py:398-413 | no history completes a run in which the start of a node of the definition, or of an item of its fan-outs, fails |
| WorkflowStarts.NoListNeverCompletes | src/tasque2/workflows.py:515-521 | a fan-out whose items are no list is accepted, has no cycle, and never completes |
| WorkflowCompletion.ExpandKeepsClean | src/tasque2/workflows.py:522-560 | a fan-out whose items all start well expands well, and so do its children start |
| WorkflowCompletion.CompletesExactly | src/tasque2/workflows.py:149-164 | whatever the starts meet, fixed by node key, some history completes a run of an accepted definition exactly when it has no cycle and none of its starts fails |
| WorkflowRest.TickMovesOrEnds | src/tasque2/workflows.py:149-164 | a tick of an active run that nothing holds up completes it or lowers the measure |
| WorkflowRest.EveryTickMovesOrEnds | src/tasque2/workflows.py:149-164 | in every reachable active state without live work, waiting gate or canceled node, a tick changes a node or completes the run |
| WorkflowRest.RunsComeToRest | src/tasque2/workflows.py:149-164 | every endless history reaches a moment from which each tick of an active run completes it or finds live work, a waiting gate or a canceled node |
| Schedules.IntervalNextIsFirst | src/tasque2/schedules.py:245-248 | the interval formula gives the first point of the grid after a moment |
| Schedules.IntervalTimes | src/tasque2/schedules.py:503-510 | the loop yields, in order, exactly the grid points in (start, end] |
| Schedules.IntervalFiresOnGrid | src/tasque2/schedules.py:503-510 | an interval schedule fires exactly at its anchor plus k intervals, k at least 1 |
| Schedules.FiresAreExact | src/tasque2/schedules.py:218-231 | the fires listed for a window are exactly the instants in it at which the schedule fires |
| Schedules.FiresAscend | src/tasque2/schedules.py:503-532 | fires are listed in strictly rising order |
| Schedules.FiresSplit | src/tasque2/schedules.py:194-216 | polling anywhere inside a window loses no fire and repeats none |
| Schedules.NextFireTimeIsNextDue | src/tasque2/schedules.py:238-250 | after an evaluation nothing is due before the next fire time, and something is due then exactly when grace and backfill allow |
| Schedules.Scheduler.CronTimes | src/tasque2/schedules.py:523-532 | the loop over the expression's next function lists exactly the fires in the window |
| Schedules.Scheduler.DueTimesOf | src/tasque2/schedules.py:218-236 | due times by type: a date once, otherwise fires within grace, cut by the catch-up policy |
| Schedules.Scheduler.EnqueueOccurrence | src/tasque2/schedules.py:252-303 | one attempt: nothing if the instant has its row, else a skipped, enqueued or left-over row, or an error before any row |
| Schedules.Scheduler.LaunchAll | src/tasque2/schedules.py:206-213 | launches due times in turn until one raises, counting the enqueued ones |
| Schedules.Scheduler.PollDueSchedules | src/tasque2/schedules.py:194-216 | every enabled schedule polled, a raising one left due, and the result counts the occurrences enqueued |
| Schedules.Scheduler.FireScheduleNow | src/tasque2/schedules.py:179-192 | fires past the gate unless the instant has its occurrence, which it reports |
| Schedules.Scheduler.EnableSchedule | src/tasque2/schedules.py:81-96 | enables a disabled schedule, from now on if asked, and leaves an enabled one |
| Schedules.NoInstantFiresTwice | src/tasque2/schedules.py:252-303 | over every history no schedule has two occurrences for one instant, and none is ever removed |
| Schedules.FailureLeavesARowExactly | src/tasque2/schedules.py:252-303 | a failed launch leaves an occurrence behind exactly when it broke after its row was written; then the next attempt does nothing, otherwise it is the first attempt over again |
| Schedules.PendingExactlyIfItBroke | src/tasque2/schedules.py:322-331 | after every history each row is as the launch of the operation that wrote it left it, pending exactly when that launch broke late, skipped exactly when a poll's gate skipped it |
| Schedules.LeftoverIsNeverLaunched | src/tasque2/schedules.py:262-265 | over every history a pending row stays pending and remains its instant's only occurrence |
| Schedules.LateFailureIsNotRetried | src/tasque2/schedules.py:205-214 | a schedule polled under a launch that breaks late and then again: nothing is launched and it counts as evaluated |
| SchedulePolls.NewRowsAreRight | src/tasque2/schedules.py:200-213 | every row a poll adds is of a schedule enabled at the poll, for an instant at which it fires after its last evaluation, not after now and within its grace, or for its date |
| SchedulePolls.DisabledIsLeftAlone | src/tasque2/schedules.py:201-203 | a disabled schedule keeps its row as it is and gets no occurrence |
| SchedulePolls.RaisesExactly | src/tasque2/schedules.py:206-213 | launching due times raises exactly if some instant without a row has a launch that fails |
| SchedulePolls.EvaluatedExactly | src/tasque2/schedules.py:205-214 | an enabled schedule counts as evaluated at now exactly if none of the launches it owes fails, and then each instant it owes has its row |
| SchedulePolls.DueExactly | src/tasque2/schedules.py:218-236 | which fires of the window are due: the last within grace, or from the first on as far as the backfill goes |
| SchedulePolls.SettingsTouchOne | src/tasque2/schedules.py:81-104 | a change of settings touches its own schedule and no occurrence |
| SchedulePolls.EnabledFromNowOn | src/tasque2/schedules.py:81-96 | a schedule enabled from now on owes nothing until it next fires; enabled as it was it owes what it missed |
| SchedulePolls.NewTimingStartsNow | src/tasque2/schedules.py:163-165 | a new cadence owes nothing until it next fires |
| ScheduleRetries.StillDueExactly | src/tasque2/schedules.py:218-236 | an instant due at one poll and not evaluated is due at the next exactly if it stays within the grace and, unless all is caught up, no later fire replaces it; what is then due before it was due before it |
| ScheduleRetries.RetriedExactly | src/tasque2/schedules.py:205-214 | a launch that failed at one poll is made again at the next exactly if it left no row and its instant stays due |
| ScheduleRetries.DateRetriedExactly | src/tasque2/schedules.py:222-226 | a date's failed launch is made again exactly if it left no row |
| ScheduleRetries.FailedFireIsDropped | src/tasque2/schedules.py:233-235 | a schedule without grace: a fire that failed before writing its row is dropped by a poll one second later, which counts as an evaluation |
| Schedules.EveryFireExactlyOnce | src/tasque2/schedules.py:194-236 | with policy all, no grace and room for the backlog while enabled, each fire between creation and the last successful poll has exactly one occurrence, polls that failed half way included, pending exactly when its launch broke late |
| Text.WrittenMarker | src/tasque2/memory/service.py:434 | a marker line as written is read back, digits and all, exactly when its number has two digits or more |
| Text.ParseStops | src/tasque2/memory/service.py:19 | a marker at the front of a text stays the same marker whatever follows, and one that more text completes reaches into that text |
| Text.MarkerOpensOnce | src/tasque2/memory/service.py:636 | a marker opens at its first character and nowhere else, and ends with its closing bracket, so no two overlap |
| Text.BudgetIsFirstMarker | src/tasque2/memory/service.py:57-62 | a document declares a budget exactly when its marker list is not empty |
| Text.SameMarkersSameBudget | src/tasque2/memory/service.py:319-324 | documents with the same marker list declare the same budget |
| Text.BudgetBound | src/tasque2/memory/service.py:19 | a declared budget is below ten million |
| Text.AppendedMarkerDeclares | src/tasque2/memory/service.py:431-435 | a document without a marker, given one back, declares that budget exactly when it is at least 10 |
| Text.Occurrences | src/tasque2/memory/service.py:626-632 | counts every position at which the passage starts, overlapping ones included |
| Memory.KeepsDeclaring | src/tasque2/memory/service.py:431-440 | after any accepted write a document that declared a budget of 10 or more declares one, its own if the text named none |
| Memory.AcceptedFits | src/tasque2/memory/service.py:431-440 | whatever the document declared before, a write accepted without leave fits the budget it ends up declaring, which is then 10 or more |
| Memory.SmallBudgetsAreLost | src/tasque2/memory/service.py:433-440 | by leave, an inherited budget survives exactly when it is at least 10; without leave a write under a smaller one is refused |
| Memory.BudgetOfFiveIsLost | src/tasque2/memory/service.py:433-435 | a document that declares 5, and a write that ends its budget |
| Memory.AcceptedExactly | src/tasque2/memory/service.py:431-440 | a write is accepted exactly by leave or within the budget it declares or inherits, and refused with that size and limit |
| Memory.EditAcceptedExactly | src/tasque2/memory/service.py:300-335 | an edit is accepted exactly if its passage starts at one place and the text it leaves is not blank, keeps the markers and fits |
| Memory.EditIsStored | src/tasque2/memory/service.py:316-335 | an accepted edit makes its document read as the accepted text and no other, and archives the row it replaces with its text; a refused one changes nothing |
| Memory.ReplaceKeepsHistory | src/tasque2/memory/service.py:260-275 | a write adds one row, archives the live one under it with its text kept, and changes no other |
| Memory.UpdateIsStored | src/tasque2/memory/service.py:354-362 | an accepted update stores its text, under its budget for a canonical row and as given for another, and changes nothing else |
| Memory.ReplaceReads | src/tasque2/memory/service.py:253-275 | a write makes its document read as the text, touches no other, and keeps one live row per document |
| Memory.ArchiveReads | src/tasque2/memory/service.py:337-343 | archiving a live row removes its document and no other, and keeps one live row per document |
| Memory.UpdateReads | src/tasque2/memory/service.py:345-362 | an update in place changes what its own document reads and no other |
| Memory.EditChangesOnePlace | src/tasque2/memory/service.py:300-335 | an accepted edit replaces the one position at which the old passage starts and nothing else, keeps the marker list and budget of a document that has one, and fits |
| Memory.ApplyRatchets | src/tasque2/memory/service.py:237-374 | an operation ends a budget of 10 or more exactly when it archives the document or forces a smaller budget onto it; each other write without leave fits |
| Memory.BudgetsRatchet | src/tasque2/memory/service.py:418-440 | the same over every history: each later version declares a budget, and without leave to go over it each fits |
| Memory.MemoryService.UpsertCanonical | src/tasque2/memory/service.py:237-282 | replaces the live row and archives it under the new one, or refuses unchanged; the invariant of one live row is kept |
| Memory.MemoryService.EditCanonical | src/tasque2/memory/service.py:284-335 | the checks in the order of the code; an accepted text is stored and read, other documents read as before, and every refusal leaves the store unchanged |
| Memory.MemoryService.ArchiveMemory | src/tasque2/memory/service.py:337-343 | archives exactly that row |
| Memory.MemoryService.UpdateMemory | src/tasque2/memory/service.py:345-374 | rewrites the row in place, under its budget if it is canonical, or refuses unchanged |
| Doctrine.HeldConflicts | src/tasque2/ops/doctrine.py:202-215 | one complaint per conflicting edit, in order, whose first parts are the blocked names |
| Doctrine.ApplyHeldEdits | src/tasque2/ops/doctrine.py:218-259 | the store after the loop and the status reported for each edit |
| Doctrine.LandEdit | src/tasque2/ops/doctrine.py:229-258 | one edit past the conflict check: retired, unchanged, created, applied or refused for its size |
| Doctrine.StatusTells | src/tasque2/ops/doctrine.py:230-258 | the status of an edit that lands tells what became of its document: unchanged, retired, created, refused for its size, or applied with which text |
| Doctrine.ReportIsTrue | src/tasque2/ops/doctrine.py:224-259 | for distinct documents the report of each edit is conflict exactly where it was held back, else the status for the text the document had |
| Doctrine.BlockedIsConflict | src/tasque2/ops/doctrine.py:222-228 | for distinct documents without colons exactly the conflicting edits are held back |
| Doctrine.HeldBackUnlessColon | src/tasque2/ops/doctrine.py:222 | a conflicting edit is held back exactly when its document's name has no colon |
| Doctrine.HeldBackForAnother | src/tasque2/ops/doctrine.py:222-228 | an edit without a conflict is held back exactly when a conflicting edit's name, up to its first colon, is its own |
| Doctrine.ColonDefeatsTheGuard | src/tasque2/ops/doctrine.py:222-228 | an edit of a document with a colon in its name lands in every list, whatever the document reads |
| Doctrine.ApplyHeldExactly | src/tasque2/ops/doctrine.py:218-259 | for any distinct documents: one whose name is held back keeps its text, every other reads as its edit lands |
| Doctrine.ApplyHeldReads | src/tasque2/ops/doctrine.py:218-259 | without colons in names each document reads as the outcome of its own edit, documents no edit names as before |
| Doctrine.ForeignTextIsKept | src/tasque2/ops/doctrine.py:213-228 | a document that reads neither as before nor as after the change is left as it is exactly when its name has no colon or landing the edit would not change it |
| Doctrine.LandedTwice | src/tasque2/ops/doctrine.py:238-257 | landing an edit twice on a document leaves what landing it once leaves, also when a marker was appended |
| Doctrine.ApplyingTwiceChangesNothing | src/tasque2/ops/doctrine.py:218-220 | applying a steady list twice leaves every document of any store as applying it once does |
| Doctrine.TwiceIsOnceExactly | src/tasque2/ops/doctrine.py:218-220 | twice is once on every store exactly for steady lists, a condition on the edits alone |
| Doctrine.ApartIsSteady | src/tasque2/ops/doctrine.py:222 | a list is steady when no name with a colon leads with another edit's name |
| Doctrine.ColonsAreMistaken | src/tasque2/ops/doctrine.py:218-228 | a store and two edits: a document changed live is overwritten, one without a conflict is held back, and the second application changes it |
| Doctrine.UndoRestoresExactly | src/tasque2/ops/doctrine.py:262-264 | for one document, edit and reverse restore the text exactly when the edit is undoable |
| Doctrine.SomeEditsAreNotUndone | src/tasque2/ops/doctrine.py:262-264 | two edits that are not undoable: one adds a marker, the other's old text exceeds its own budget |
| Doctrine.UndoRoundTripExactly | src/tasque2/ops/doctrine.py:262-264 | for any distinct documents a list of edits and its reverse restore every document of the store exactly when each edit comes back, a condition on the edits alone |
| Doctrine.UndoRoundTrip | src/tasque2/ops/doctrine.py:262-264 | lists of undoable edits are undone whatever the names; without colons in names only they are |
| Respawn.Host.SwitchRepos | src/tasque2/daemon/respawn.py:167-177 | fast-forwards all repositories, or fails with every head where it was |
| Respawn.Host.PrepareRelease | src/tasque2/daemon/respawn.py:281-311 | plan, snapshot, steps and config merge, each of which may fail, and the restore after a failure |
| Respawn.Host.SwitchAndApply | src/tasque2/daemon/respawn.py:312-348 | the switch and the release's own steps, undone together if one fails |
| Respawn.Host.UndoSwitch | src/tasque2/daemon/respawn.py:318-329 | code, config and database go to the given captured values |
| Respawn.Host.PushSwitched | src/tasque2/daemon/respawn.py:363-372 | pushes exactly the switched repositories that ask for it, in order |
| Respawn.Host.RunSwitch | src/tasque2/daemon/respawn.py:278-381 | the whole run as a function of the answers: each world a daemon was started on, what was pushed, what it reports |
| Respawn.MovedComesBack | src/tasque2/daemon/respawn.py:173-174 | resetting the repositories that may have moved brings back every head |
| Respawn.SwitchKeptOrUndone | src/tasque2/daemon/respawn.py:331-359 | once the code switched, the run ends on new code, config and database with a healthy daemon, or with each back at its captured value before the previous code starts |
| Respawn.StepsExactly | src/tasque2/daemon/respawn.py:296-302 | steps run in turn until the first that fails, whose database is the one left |
| Respawn.PreparationExactly | src/tasque2/daemon/respawn.py:286-313 | a release gets to the switch exactly if plan, snapshot, every step and the config merge succeed, and with which database and config |
| Respawn.PushesExactly | src/tasque2/daemon/respawn.py:363-372 | what is pushed: nothing unless switched, applied and healthy; then every entry that asks for it, in the request's order |
| Respawn.PushedExactly | src/tasque2/daemon/respawn.py:363-372 | a repository is pushed exactly if an entry that asks for it names it and the switch was kept by a healthy daemon |
| Respawn.PlainRestart | src/tasque2/daemon/respawn.py:350-361 | a restart with nothing to switch starts one daemon on what was there and pushes nothing |
| Respawn.PushOnlyWhatWasKept | src/tasque2/daemon/respawn.py:363-372 | whatever is pushed was switched, asked for, applied, and run by a healthy daemon that was started once |
| Respawn.FailedPreparationChangesNothing | src/tasque2/daemon/respawn.py:288-313 | a release that fails before the switch leaves code, config and database as captured |
| Respawn.LateSwitchFailure | src/tasque2/daemon/respawn.py:346-359 | a fast-forward failing after preparation starts old code on what the preparation left, unless the daemon stays unhealthy and a config branch was merged |
| Respawn.EndsAfterSwitch | src/tasque2/daemon/respawn.py:331-361 | where a release ends whose fast-forwards, if any, succeeded: on the new world or as captured |
| Respawn.ReleaseKeptOrCaptured | src/tasque2/daemon/respawn.py:22-26 | every release is kept whole by a healthy daemon, or all is as captured when the last daemon starts, exactly when nothing is left behind |
| Respawn.AStepIsLeftBehind | src/tasque2/daemon/respawn.py:346-361 | a release whose fast-forward fails after a step changed the database: that database stays, healthy or not |
| Respawn.ADatabaseIsLeftBehind | src/tasque2/daemon/respawn.py:353-361 | a release of neither code nor config under an unhealthy daemon: its database stays |
| Uploads.FitOneMessage | src/tasque2/discord/uploads.py:89-137 | the loop fills one message as the packing function says |
| Uploads.BatchUploads | src/tasque2/discord/uploads.py:35-58 | ends; each attachment is sent once or dropped with one note; every message is within its limits and the next one's first file would not have fitted; the extra branch is unreachable |
| Uploads.PackAccounts | src/tasque2/discord/uploads.py:100-137 | one message's sent, dropped and deferred files are the attachments, each once, and each for its reason |
| Uploads.PackKeepsOrder | src/tasque2/discord/uploads.py:100-137 | a message sends and defers files in the order they were attached, and notes exactly those it sends smaller |
| Uploads.SendableExactly | src/tasque2/discord/uploads.py:106-126 | a file can be sent exactly if it is under the cap, or re-encodes to be, and then as which file |
| Uploads.FirstGoesFirst | src/tasque2/discord/uploads.py:100-137 | the first file never waits, so every message makes progress |
| Uploads.BatchFits | src/tasque2/discord/uploads.py:127-136 | a message has at most ten files and, when the file cap is within the request cap, fits the request cap |
| Uploads.SentOrDropped | src/tasque2/discord/uploads.py:104-120 | no sendable file is dropped and no unsendable one is sent |
| Excerpt.Choose | src/tasque2/memory/excerpt.py:46-55 | whatever the order of scores, the first section stays, each section is kept exactly if at its turn it fits with those kept before, the charge is within the budget or the first section, and nothing left out would still have fitted |
| Excerpt.AssembledShows | src/tasque2/memory/excerpt.py:57-66 | the excerpt's text by positions: the kept sections, each once and stripped, in document order, a blank line between neighbours, the marker where sections are missing and after the last if it is not the document's |
| Excerpt.PiecesAreCovered | src/tasque2/memory/excerpt.py:51-66 | the joins and markers between kept sections never exceed what the choice was charged |
| Excerpt.AssembledLength | src/tasque2/memory/excerpt.py:57-66 | an excerpt is at most the charge, one marker and its blank line long |
| Excerpt.KeptInOrder | src/tasque2/memory/excerpt.py:59-63 | the excerpt shows exactly the kept sections, each once, in document order |
| Excerpt.AssembleLoop | src/tasque2/memory/excerpt.py:57-66 | the loop over kept sections builds the excerpt's text |
| Excerpt.SelectRelevantExcerpt | src/tasque2/memory/excerpt.py:18-66 | trims exactly when the text is over budget; several sections are chosen in turn and shown by position, a single one is cut at the budget and marked; the result is at most the larger of budget and first section, plus one marker and two characters |
| Stream.LargestIsMaximum | src/tasque2/providers/stream.py:218-223 | a message's total for a field bounds every report and is one of them, or zero |
| Stream.OrderAndRepeatsDoNotMatter | src/tasque2/providers/stream.py:203-223 | totals and message count depend only on which events occur, not on their order or repetition |
| Stream.Raise | src/tasque2/providers/stream.py:218-223 | one report raises each field to the larger value and leaves fields it does not report |
| Stream.AggregateUsage | src/tasque2/providers/stream.py:83-148 | each total is the sum over distinct message ids of the largest report, and the count is the number of ids |
| Pool.StepBalances | src/tasque2/daemon/pool.py:50-64 | each worker step keeps tokens left, held and spent adding up, and lowers what remains to be done |
| Pool.EveryInterleavingBalances | src/tasque2/daemon/pool.py:42-68 | under every interleaving the balance is `max_items`, no token is owed, and at most `max_items` runs are counted |
| Pool.DrainReturnsWhatItSpent | src/tasque2/daemon/pool.py:66-68 | once every worker has returned, the sum of their counts is `max_items` less the tokens left |
| Pool.EveryWorkerStops | src/tasque2/daemon/pool.py:48-64 | no interleaving goes on for ever |
| Pool.WorkPool.InFlightCount | src/tasque2/daemon/pool.py:81-83 | counts the unfinished futures |
| Pool.WorkPool.Reap | src/tasque2/daemon/pool.py:93-106 | keeps exactly the unfinished futures and returns how many finished ones ran work |
| Pool.WorkPool.Dispatch | src/tasque2/daemon/pool.py:108-121 | never more unfinished futures than the concurrency, and as many as asked for unless it is reached |

## Left out

- Pool.EveryWorkerStops: shows that no endless schedule of steps exists, for any choice of claims; that the operating system schedules a runnable thread is assumed.
- Pool.WorkPool.Dispatch: covers one dispatcher, with workers finishing between the pool's own steps; two dispatchers at once, the executor and its shutdown are not part of this model.
- Schedules.EveryFireExactlyOnce: "enough backfill" is stated as each poll's backlog fitting `max_backfill`; `all` with less room drops fires, as the code does.
- Respawn.SwitchKeptOrUndone: git resets, daemon stops and snapshot restores are taken to succeed, and a failed config merge to leave its head in place.
- Excerpt.SelectRelevantExcerpt: takes the sections and their order by score as given, in any order; `_split_sections`, token overlap and floating-point scores are not modelled, nor is a negative budget.
- Stream.AggregateUsage: assistant usage only; Codex turns, tool calls, texts, models, errors and subagent counts are not modelled.
- Text.AppendedMarkerDeclares: `\d` is modelled for ASCII digits, which is what the service itself writes.
- Doctrine.ApplyHeldReads: is about plain namespaces, as edits read from the config repository have, and names without colons; `Doctrine.ApplyHeldExactly` is about all.
- WorkflowCompletion.CompletesExactly: what a start meets is fixed by node key for the whole run; items or references read from another node's output are covered for each value they keep, not as they vary with what workers return.
- ScheduleRetries.RetriedExactly: is about two polls in a row; manual fires and changes of the schedule in between are covered by the history lemmas only.
- Schedules.LeftoverIsNeverLaunched: a failed manual fire, too, is taken to leave its row; whether its caller then rolls its session back is not part of this model.
- Definitions.Validate: a node without a key, bad gate choices and bad note labels are not modelled, nor their refusals.
- WorkflowEngine.Engine.constructor: the refusals of an unknown or disabled definition are not modelled.
- WorkflowEngine.Engine.Tick: ticks one run; several runs share only the item table, whose changes by others are the environment's, and the count of changed runs is not modelled.
- WorkflowEngine.Engine.Rewind: the cancel requests for the cone's unfinished work are left to the environment, which may do anything to work items.
- WorkflowEngine.Engine.PauseRun: pausing the run's queued items is left to the environment likewise.
- WorkflowEngine.Engine.ResumeRun: resuming them is, too.
- WorkflowEngine.Engine.CancelRun: so are the cancel requests for the run's items.
- Work queue, runner and retries: work items change as the environment pleases between ticks, except that rows stay and the run's own keys are not used by others; so the effects of pausing, resuming and canceling on queued items are not stated, nor is a node whose item row is deleted.
- Template rendering, `_output_reference` paths, contract merging, node deadlines, gate choices and note labels: outputs, references and choices are opaque.
- Texts of failure reasons and events: reasons are an enumeration.
- Database sessions, events, telemetry, Discord, the command line, the MCP server and files.
- Cron expressions and time zones: a cron timing is any function giving the first fire after an instant with none between; instants are whole microseconds, and a dedupe key is its schedule and instant.
- Creating, deleting and re-validating schedules, unsupported schedule types and policies, `max_active_runs`.
- Memory rows other than canonical ones, kinds, tags, pins, times to live, indexes, embeddings, search and pruning.
- `export_doctrine`, `apply_doctrine`, dry runs, and how edits are read from git.
- What happens inside `merge_config`, log rotation, health polling, branch deletion, the installed dependencies, an old daemon that never exits, and the recorded results.
- Image re-encoding: whether and how far a file shrinks is given with it; temporary files are not modelled.
