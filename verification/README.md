# Verified core of the swarm orchestrator

A Dafny model of the parts of the orchestrator that carry its guarantees, with proofs of those
guarantees. Each area has a specification as functions on values, classes and methods that work as the
program does (fields updated in place, loops, early returns) and are proved against it, and lemmas about
every input, every run or every crash point. The modules `SupervisorAdmission`, `RunStoreReading`,
`RunStoreOutcomes`, `DirectiveOutcomes`, `PlanMeaning`, `StoredZipLayout`, `StoredZipReading`, `WriterOutcomes`,
`PolicyOutcomes`, `PortfolioOrder` and `PortfolioMeaning` say what the operations mean without the functions that
specify them: in terms of inputs, fields, bytes and histories, with all limits as numbers.

- **Sharded supervisor** (`SupervisorModel`, `SupervisorInvariant`, `SupervisorSteps`,
  `SupervisorLockSteps`, `SupervisorTheorems`, `SupervisorProgress`, `SupervisorAdmission`, `Supervisor`). A
  transition system whose steps are the stretches of code between two suspension points; granted but not yet
  resumed requests are phases of their own, so the circuit can open, a signal can fire and close can run in
  between. The class performs the same steps with the loops of the program and is always in a reachable state.
- **Run store** (`RunStoreModel`, `RunStoreFiles`, `RunStoreProjection`, `RunStoreSteps`,
  `RunStoreTheorems`, `RunStoreWriters`, `RunStoreReading`, `RunStoreOutcomes`, `RunStore`). Journal, checkpoint,
  snapshot, outbox cursor and event file. An operation is a list of durable writes; a fault may stop it at any
  of them and may tear an append. Any number of stores work on one run, one operation at a time.
- **Directive log** (`DirectiveLog`, `DirectiveLogProofs`, `DirectiveOutcomes`, `DirectiveStore`), on bytes, with appends cut short
  anywhere.
- **Plan graph** (`TaskRefresh`, `DependencyGraph`, `TaskDepths`, `PlanValidation`, `PlanMeaning`, `DepthLimit`).
- **CRC-32 and stored ZIP** (`Iteration`, `Crc32`, `ByteValues`, `StoredZip`, `StoredZipProofs`, `StoredZipLayout`,
  `StoredZipReading`), following
  PKWARE APPNOTE.TXT sections 4.3.7, 4.3.12, 4.3.16 and 4.4.7 and section 8 of RFC 1952.
- **Bounded writer** (`WriterModel`, `WriterProofs`, `WriterOutcomes`, `BoundedWriter`).
- **Truncation** (`Truncation`), **policy ledger** (`PolicyLedger`, `PolicyLedgerProofs`,
  `PolicyLedgerTheorems`, `PolicyLedgerRuns`, `PolicyOutcomes`, `PolicyStore`), **skill portfolio**
  (`SkillPortfolio`, `PortfolioOrder`, `PortfolioIndex`, `PortfolioRestore`, `PortfolioProofs`, `PortfolioMeaning`).
- `Wrappers` holds the option and result types.

## Where the code does not do what its documentation says

- The repository's README promises that the journal can be replayed after an interruption anywhere. A
  compaction stopped between writing its checkpoint and emptying a journal that no longer starts at
  sequence 1 leaves a journal that no later operation accepts (`src/runtime/run-transition-journal.ts:123-135`).
  `RunStoreTheorems.SecondCompactionCanBreak` gives such a run, `ReadableUnless` says exactly when it happens and
  `UnreadableForever` that it is final. The first compaction of a run is safe. A torn journal append is
  refused as well; that is documented as failing closed.

## Other findings

- A store remembers a revision as a guard against writing over a state it has not seen. `compactTransitions`
  moves that revision forward without returning the state (`src/store.ts:310`), so afterwards the guard no
  longer does this: `RunStoreWriters.StaleStoreCommits` is such a run of two stores, `CompactThenCommit` says
  that it works for every store, and `CommitSawCurrent` that this is the only way: a commit replaces what its
  store has last seen exactly if the remembered revision was not last moved by a compaction that found a newer
  one. The revision that the caller names is compared in any case (`NoLostUpdate`).
- The number in the marker of a truncated text is too small by one for each of the two cuts that would split a
  surrogate pair, and right otherwise (`Truncation.CountIsRight`, `CountCanBeShort`).
- The policy ledger is written without the checks that it must pass when it is read. After more than 1,000,000
  rollbacks, or with a version of more than 512 skills or 2,000 runs, all of it counts as empty
  (`PolicyLedgerRuns.RollbackLimitLosesLedger`, `BigCandidateLosesLedger`); `RunRefines` says exactly which runs
  keep it. The configured history is at most 2,000 runs, so only the number of skills matters in practice.
- The check of the index of a stored portfolio takes one empty name for no skills (`PortfolioProofs.IndexIsTrue`,
  `EmptyNamePasses`). A restore that fails keeps the portfolios before the bad one.
- A depth limit of nine or more has no effect on which plans are accepted, because ranks fall strictly towards the
  leaves and somebody must report to every team; eight has (`DepthLimit.NineIsIdle`, `EightIsNot`). The default
  is twelve, and the schema for plans leaves out three of the ranks for leads.

## Model

| member | source | states |
|---|---|---|
| `SupervisorTheorems.RunIsSafe` | src/backend/app-server-supervisor.ts:144-188 | in every state of every interleaving of arrivals, grants, backend answers, aborts, close and timeouts the whole invariant holds: counters are exact sums over the live requests, queues hold exactly the suspended requests, circuit, locks and lifecycle agree |
| `SupervisorTheorems.ShardBounds` | src/backend/app-server-supervisor.ts:144-188 | inflight stays within maxInflight, admitted within maxInflight + maxQueue, inflight plus waiters within admitted, and nobody waits for a permit while one is free |
| `SupervisorTheorems.DeadBranches` | src/backend/app-server-supervisor.ts:298-330 | the queue-full branch of the permit queue is never taken and neither release loop ever skips an aborted waiter |
| `SupervisorTheorems.CircuitIsConsistent` | src/backend/app-server-supervisor.ts:241-274 | openedAt is set iff the failure threshold is reached; the half-open flag is set iff exactly one live request is the probe; under an open circuit nothing but that probe waits for a permit |
| `SupervisorTheorems.LockIsExclusive` | src/backend/app-server-supervisor.ts:339-362 | a lock entry exists iff some request uses it, and at most one request is between grant and release of one thread's lock |
| `SupervisorTheorems.LockIsFair` | src/backend/app-server-supervisor.ts:364-393 | once a later request of a thread has been given the lock, no earlier one still waits: non-aborted requests get it in arrival order |
| `SupervisorTheorems.LockTableBound` | src/backend/app-server-supervisor.ts:74-78 | the lock table is no larger than the live requests, and those never exceed shardCount * (maxInflight + maxQueue) |
| `SupervisorProgress.NoDeadlock` | src/backend/app-server-supervisor.ts:160-187 | while any request is live some request can take a step of its own: locks and permits never deadlock |
| `SupervisorProgress.ProgressUsesWork` | src/backend/app-server-supervisor.ts:160-187 | every such step strictly decreases one measure, so no order of them goes on for ever |
| `SupervisorProgress.WorkIsBounded` | src/backend/app-server-supervisor.ts:144-188 | over any run the requests take at most seven steps per arrival |
| `SupervisorProgress.AlwaysDrains` | src/backend/app-server-supervisor.ts:402-423 | from every safe state the live requests can finish by themselves within the remaining work, leaving every shard idle |
| `SupervisorProgress.CloseCompletes` | src/backend/app-server-supervisor.ts:195-204 | a close that waits is released as drained, not as timed out, once the requests have returned |
| `SupervisorProgress.ClosedToNewcomers` | src/backend/app-server-supervisor.ts:195-199 | after close no permit queue and no lock queue holds anybody, and no arrival changes anything |
| `SupervisorProgress.ShutdownIsSafe` | src/backend/app-server-supervisor.ts:201-239 | a backend is shut down at most once, only by a close that has stopped waiting, and under live requests only if that close reports the timeout; a close without timeout leaves all requests done and all backends shut down |
| `SupervisorAdmission.AdmissionIs` | src/backend/app-server-supervisor.ts:145-161 | in every reachable state an arrival adds a request iff the supervisor is open, the signal has not fired, the shard has admitted fewer than maxInflight + maxQueue, and its circuit is closed, or open for at least the cooldown with no live probe; the request is a probe iff the circuit is open; otherwise nothing changes |
| `SupervisorAdmission.CircuitFollowsRun` | src/backend/app-server-supervisor.ts:258-274 | along every run a shard's circuit is open iff its backend has failed the threshold number of times since its last success, and then since the last of these failures; other failures do not count |
| `SupervisorAdmission.ResumeIs` | src/backend/app-server-supervisor.ts:163-170 | with the lock a request gives up iff the supervisor closes, its signal fired, or the circuit is open and it is no probe; else it gets a permit iff fewer than maxInflight are out, and else queues last |
| `SupervisorAdmission.PermitQueueMoves` | src/backend/app-server-supervisor.ts:298-337 | in every step a permit queue stays, gets a newcomer at its end, loses its first request to a permit, loses one to its signal, or is turned away as a whole: permits are given in order |
| `SupervisorAdmission.AbortIs` | src/backend/app-server-supervisor.ts:301-306 | a signal is remembered in every phase, takes its request out of any queue and touches no other |
| `SupervisorAdmission.ResumeCloseIs` | src/backend/app-server-supervisor.ts:206-222 | when the wait of close is over, drained or not, every backend is shut down once and every running start is marked |
| `SupervisorAdmission.StartupIs` | src/backend/app-server-supervisor.ts:276-289 | a start that succeeds leaves a backend, shut down at once if that was asked for; one that fails leaves none |
| `SupervisorAdmission.BeginIs` | src/backend/app-server-supervisor.ts:276-289 | a request with a permit finds a backend or a start in progress, unless starting throws |
| `Supervisor.RefusalIs` | src/backend/app-server-supervisor.ts:145-157 | each refusal reason is given iff its check is the first that fails |
| `SupervisorSteps.QueueNeverOverflows` | src/backend/app-server-supervisor.ts:308-316 | a request that resumes with the lock while all permits are out finds room in the permit queue |
| `SupervisorSteps.ResumeKeeps` | src/backend/app-server-supervisor.ts:163-170 | resuming with the lock, even after the circuit opened or close ran in between, keeps the invariant |
| `SupervisorSteps.SettleKeeps` | src/backend/app-server-supervisor.ts:173-181 | the end of a backend call (success, health failure that may open the circuit, other failure) with the permit hand-off keeps the invariant |
| `SupervisorLockSteps.UnwindKeeps` | src/backend/app-server-supervisor.ts:355-361 | handing the thread lock on and dropping the entry with its last user keeps the invariant |
| `SupervisorLockSteps.FinishKeeps` | src/backend/app-server-supervisor.ts:183-187 | the final bookkeeping of a request keeps the invariant and wakes a waiting close exactly when all shards are idle |
| `SupervisorLockSteps.ArriveKeeps` | src/backend/app-server-supervisor.ts:145-161 | admission, refusals included, keeps the invariant |
| `SupervisorLockSteps.AbortKeeps` | src/backend/app-server-supervisor.ts:301-306 | a signal that fires in any phase keeps the invariant |
| `SupervisorLockSteps.CloseKeeps` | src/backend/app-server-supervisor.ts:195-212 | emptying all queues at once keeps the invariant |
| `Supervisor.AppServerSupervisor.Arrive` | src/backend/app-server-supervisor.ts:145-161 | the admission code takes the step of the transition system, the object stays in a reachable state, and the refusal is the first check that fails, in order |
| `Supervisor.AppServerSupervisor.AuthorizeCircuit` | src/backend/app-server-supervisor.ts:241-251 | the circuit verdict, and the half-open flag set exactly for an admitted probe |
| `Supervisor.AppServerSupervisor.EnterThreadLock` | src/backend/app-server-supervisor.ts:344-381 | takes a free lock or the last place of its queue, counting the user either way |
| `Supervisor.AppServerSupervisor.Resume` | src/backend/app-server-supervisor.ts:163-170 | re-check and permit request refine the step of the transition system |
| `Supervisor.AppServerSupervisor.AcquirePermit` | src/backend/app-server-supervisor.ts:291-318 | permit, place in the queue, or refusal, with the whole new state |
| `Supervisor.AppServerSupervisor.Begin` | src/backend/app-server-supervisor.ts:171-173 | a missing backend is being started once, by whoever comes first |
| `Supervisor.AppServerSupervisor.RecordFailure` | src/backend/app-server-supervisor.ts:263-274 | one more failure; at the threshold the circuit opens and every waiter is turned away |
| `Supervisor.AppServerSupervisor.RejectWaiters` | src/backend/app-server-supervisor.ts:332-337 | the loop turns away exactly the requests of this shard's queue |
| `Supervisor.AppServerSupervisor.ReleasePermit` | src/backend/app-server-supervisor.ts:320-330 | the loop hands the permit to the first waiter whose signal has not fired, or gives it back |
| `Supervisor.AppServerSupervisor.Settle` | src/backend/app-server-supervisor.ts:173-181 | bookkeeping, then permit: the order of the source refines one step |
| `Supervisor.AppServerSupervisor.ReleaseThreadLock` | src/backend/app-server-supervisor.ts:384-393 | the loop hands the lock to the first live waiter, or unlocks |
| `Supervisor.AppServerSupervisor.Unwind` | src/backend/app-server-supervisor.ts:355-361 | lock release and user count refine one step |
| `Supervisor.AppServerSupervisor.Finish` | src/backend/app-server-supervisor.ts:183-187 | probe flag, admitted count and drain notification refine one step |
| `Supervisor.AppServerSupervisor.RemoveWaiter` | src/backend/app-server-supervisor.ts:302-303 | search and splice remove the first occurrence and nothing else |
| `Supervisor.AppServerSupervisor.Abort` | src/backend/app-server-supervisor.ts:301-306 | a request in a queue leaves it at once; any other only remembers |
| `Supervisor.AppServerSupervisor.RejectAllThreadWaiters` | src/backend/app-server-supervisor.ts:199 | whatever the order of the map, every lock queue is emptied and exactly its requests are refused |
| `Supervisor.AppServerSupervisor.Close` | src/backend/app-server-supervisor.ts:195-222 | the loops of close, one queue after the other, refine one step that empties them all |
| `Supervisor.AppServerSupervisor.ResumeClose` | src/backend/app-server-supervisor.ts:206-219 | after the wait every backend is shut down or marked for it, and the timeout is reported |
| `Supervisor.AppServerSupervisor.CloseShardBackend` | src/backend/app-server-supervisor.ts:224-239 | shutdown happens once; one that is starting is shut down when it is up |
| `Supervisor.AppServerSupervisor.Startup` | src/backend/app-server-supervisor.ts:276-289 | the end of a backend start refines one step |
| `Supervisor.QueuesAreTurnedAway` | src/backend/app-server-supervisor.ts:198-199 | emptying the permit queues and then the lock queues turns every queued request away in the way its own phase demands |
| `RunStoreTheorems.RunIsSafe` | src/store.ts:230-333 | over every interleaving of commit, load and compact by any number of stores, each stopped at any write, journal, checkpoint, snapshot, cursor and event file stay consistent with the history of journalled records, which only grows |
| `RunStoreTheorems.LoadRecovers` | src/store.ts:314-333 | from every reachable state an uninterrupted load returns exactly the last durably journalled state iff the journal is readable, and then every effect of every transition is on disk exactly once |
| `RunStoreTheorems.StoppedLoadIsHarmless` | src/store.ts:314-333 | a load that crashes anywhere changes neither whether nor what the next load returns |
| `RunStoreTheorems.CommitIsExact` | src/store.ts:234-281 | a commit succeeds iff the caller and the store both name the revision of the last durable state (and the input is well-formed) and no fault stops its first two writes; it adds one record with the transition id, revisions, state and effects of the input, numbered next, chained to the record before and sealed |
| `RunStoreTheorems.RevisionsAreUnique` | src/runtime/run-transition-journal.ts:257-268 | committed revisions rise by exactly 1, so a revision names one durable state |
| `RunStoreTheorems.NoLostUpdate` | src/store.ts:254-262 | a commit that succeeds replaces the one durable state whose revision its caller names, never a newer one; which states a store has been given is the subject of CommitSawCurrent |
| `RunStoreWriters.CommitSawCurrent` | src/store.ts:254-262 | in every reachable state of any number of stores: a commit that is journalled replaces the very state its store was last given or wrote iff the revision the store remembers was not last moved by a compaction that found a newer one |
| `RunStoreWriters.CompactThenCommit` | src/store.ts:284-312 | whatever a loaded store has been given, nothing included, after its compaction a commit that names the current revision succeeds |
| `RunStoreWriters.StaleStoreCommits` | src/store.ts:284-312 | a concrete run of two stores: the first holds the first state, the second commits the next one, the first compacts and then commits over a state it was never given |
| `RunStoreWriters.WatchedRunIsSafe` | src/store.ts:230-333 | over every run the remembered revision of a store is that of the state it was last given, or a later one that a compaction put there |
| `RunStoreTheorems.LoadThenCommit` | src/store.ts:234-333 | after a load the next revision can always be committed |
| `RunStoreTheorems.EventsAreGenuine` | src/runtime/run-transition-journal.ts:159-188 | in every reachable state no event id is twice among the parseable lines, and every event has the id made from the key of an effect of a journalled transition, that transition's revision and id, and the effect's own body |
| `RunStoreTheorems.CompactProjects` | src/store.ts:284-312 | a compaction that returns has every effect on disk exactly once, an empty journal, and the last state in the snapshot |
| `RunStoreTheorems.NothingIsDiscarded` | src/runtime/run-transition-journal.ts:190-194 | no record leaves the journal file before all its effects are on disk |
| `RunStoreTheorems.ReadableUnless` | src/runtime/run-transition-journal.ts:104-157 | a readable journal becomes unreadable iff a fault tears the append of a record, or stops a compaction between checkpoint and emptying while the journal no longer starts at sequence 1 |
| `RunStoreTheorems.UnreadableForever` | src/runtime/run-transition-journal.ts:114-138 | an unreadable journal makes every later load, commit and compaction of every store fail without changing a file |
| `RunStoreTheorems.SecondCompactionCanBreak` | src/runtime/run-transition-journal.ts:123-135 | a concrete run (commit, compact, commit, compact stopped between its last two writes) after which no load ever succeeds, although two transitions were journalled: the recovery promised for every crash point fails here |
| `RunStoreOutcomes.CommitRefusalIs` | src/store.ts:234-271 | the reason of a refused commit is the first check that fails, with all limits on effects as numbers, and then nothing changes |
| `RunStoreOutcomes.CommitLeaves` | src/store.ts:264-281 | a successful commit has appended its record and put the new state and head into the snapshot |
| `RunStoreOutcomes.LoadLeaves` | src/store.ts:323-333 | a load that returns has the state it returns in the snapshot |
| `RunStoreOutcomes.CompactLeaves` | src/store.ts:284-312 | without a fault a compaction succeeds iff the store is loaded and the journal readable; it leaves the last state in the snapshot, its head and revision in the checkpoint, and an empty journal |
| `RunStoreOutcomes.SecondLoadWritesNothing` | src/runtime/run-transition-journal.ts:159-188 | a second load right after a first one writes nothing at all |
| `RunStoreReading.ReadSucceeds` | src/runtime/run-transition-journal.ts:104-157 | on any disk, tampered with or not, reading succeeds iff the journal ends in a newline, every record is numbered, chained, sealed and within its limits, and the checkpoint and the head asked for are there |
| `RunStoreReading.ReadGives` | src/runtime/run-transition-journal.ts:142-157 | what is read is the end of the journal after the head asked for, or exactly the records above the checkpoint |
| `RunStoreSteps.CommitKeeps` | src/store.ts:234-281 | a commit stopped by any fault: what is journalled, what the store remembers, whether the journal stays readable |
| `RunStoreSteps.LoadKeeps` | src/store.ts:314-333 | a load stopped by any fault keeps everything but snapshot, cursor and events, and those consistent |
| `RunStoreSteps.CompactKeeps` | src/store.ts:284-312 | a compaction stopped by any fault, and exactly when it leaves the journal readable |
| `RunStoreProjection.ProjectionKeeps` | src/runtime/run-transition-journal.ts:159-188 | a projection stopped at any write adds no event twice and passes none over; uninterrupted it puts every effect on disk |
| `RunStoreFiles.SuffixIs` | src/runtime/run-transition-journal.ts:104-157 | reading the journal gives exactly the records above the snapshot, or above the checkpoint |
| `RunStoreFiles.UnhealthyIsUnreadable` | src/runtime/run-transition-journal.ts:114-138 | a torn journal, or one that starts neither at 1 nor just above the checkpoint, is refused |
| `RunStore.AtomicRunStore.ReadSuffix` | src/runtime/run-transition-journal.ts:104-157 | chain check, checkpoint filter and head search in loops, with every error case |
| `RunStore.AtomicRunStore.PersistedEventIds` | src/store.ts:1076-1089 | the ids of all parseable lines, a last line without newline included |
| `RunStore.AtomicRunStore.ProjectEffect` | src/runtime/run-transition-journal.ts:167-185 | event unless present, then cursor; nothing if the cursor is past it; stops at a failing write |
| `RunStore.AtomicRunStore.ProjectOutbox` | src/runtime/run-transition-journal.ts:159-188 | the nested loops perform exactly the writes of the projection up to the fault |
| `RunStore.AtomicRunStore.CommitTransition` | src/store.ts:234-281 | checks, journal, snapshot and swallowed projection failure: new files, new memory and result are those of the specified commit under any fault |
| `RunStore.AtomicRunStore.Load` | src/store.ts:314-333 | the same for load |
| `RunStore.AtomicRunStore.CompactTransitions` | src/store.ts:284-312 | the same for compaction |
| `RunStore.RunDirectory.Write` | src/store.ts:524-533 | one durable write: whole, or torn as the fault says |
| `RunStore.CompactShape` | src/store.ts:298-309 | where a fault can stop a compaction and what is on disk then |
| `DirectiveLogProofs.CutRecordIsRepaired` | src/store.ts:805-822 | after an append cut short at any byte the repair leaves exactly the complete records: the old ones, or all if only the newline is missing |
| `DirectiveLogProofs.RepairAgrees` | src/store.ts:654-678 | for every file, repair changes what reading returns (errors included) iff it drops a last line that is JSON but no directive of this run |
| `DirectiveLogProofs.RepairEndsLines` | src/store.ts:805-822 | a repaired log ends in a newline or is empty, and repairing it again changes nothing |
| `DirectiveLogProofs.CutRecordReads` | src/store.ts:606 | a log with any number of bytes of one more record reads as before, until the record is complete |
| `DirectiveLogProofs.AppendIs` | src/store.ts:586-610 | exactly when an append returns and exactly when it adds its directive, crash or no crash |
| `DirectiveLogProofs.AppendIsIdempotent` | src/store.ts:594-602 | a returned append has its request in the log, and repeating it adds nothing |
| `DirectiveLogProofs.StepIs` | src/store.ts:586-642 | every operation leaves the log readable and adds at most the one directive it was given |
| `DirectiveLogProofs.RunIsSafe` | src/store.ts:586-678 | over every run with crashes and retries the log reads, its ids are distinct, and no directive disappears or moves |
| `DirectiveLogProofs.ClosedLogIsFrozen` | src/store.ts:590-592 | between the closing of the gate and the next attempt to open it no directive is added |
| `DirectiveOutcomes.SplitIs` | src/store.ts:657-658 | a text is its complete lines, each with its newline, and a rest, and no line has a newline in it |
| `DirectiveOutcomes.ReadIs` | src/store.ts:654-678 | a text reads as a list of directives iff its non-blank lines, an open last one that is no JSON aside, are these in order and no two share an id |
| `DirectiveOutcomes.LatestIs` | src/store.ts:677 | the last directives up to the limit, in order |
| `DirectiveOutcomes.AppendMeans` | src/store.ts:586-610 | the reason of a refused append is the first check that fails; a request with equal id, run, text, source and scope is answered as done; a new one is in the log iff its record got there in full |
| `DirectiveOutcomes.SetGateMeans` | src/store.ts:612-642 | the gate marker moves iff nothing crashes, and the directives stay |
| `DirectiveStore.CommandLog.ReadDirectives` | src/store.ts:654-678 | the loop over lines returns the last directives, or the first error |
| `DirectiveStore.CommandLog.RepairTruncatedTail` | src/store.ts:805-822 | the search for the last newline and the two outcomes, on bytes |
| `DirectiveStore.CommandLog.AppendDirective` | src/store.ts:586-610 | gate, repair, duplicate search, limit and append refine the specified append under any crash |
| `DirectiveStore.CommandLog.OpenGate` | src/store.ts:612-624 | repair and read, then the marker is removed |
| `DirectiveStore.CommandLog.CloseGate` | src/store.ts:626-642 | repair and read, then the marker is written |
| `DirectiveStore.FailuresStay` | src/store.ts:667-676 | a line that cannot be read makes the whole log unreadable for that reason |
| `TaskRefresh.TaskTable.RefreshTaskStates` | src/dag.ts:500-531 | the loop ends, and whatever the order of the records the result is the one specified state: blocked iff a path of waiting tasks reaches a missing or dead one, otherwise ready iff all dependencies are accepted or it was ready, everything else unchanged |
| `TaskRefresh.TaskTable.RefreshTask` | src/dag.ts:504-529 | one turn of the loop either finds the task settled or uses up some of a finite weight |
| `TaskRefresh.RefreshMeans` | src/dag.ts:500-531 | status by status: only planned, ready and retry_wait tasks change; one with a missing dependency, or one that ends failed, blocked or cancelled, is blocked with the right error; otherwise one whose dependencies end accepted is ready; all else is unchanged |
| `TaskRefresh.SettledIsRefreshed` | src/dag.ts:500-531 | any settled state reached from the start is that one state: independence of the iteration order |
| `TaskRefresh.RefreshedIsLeastFixpoint` | src/dag.ts:500-531 | the result is a fixpoint of the rules and blocks only what every fixpoint blocks |
| `TaskRefresh.DoomArrives` | src/dag.ts:507-522 | in every fixpoint a path to a missing or dead dependency ends in a blocked task |
| `TaskRefresh.RefreshIsIdempotent` | src/dag.ts:500-531 | refreshing again changes nothing |
| `TaskRefresh.ReadyMeansAccepted` | src/dag.ts:523-528 | a task becomes ready only over accepted dependencies |
| `TaskDepths.TaskDepthSearch` | src/dag.ts:194-216 | the search reports a cycle iff there is one; its path is a genuine cycle; otherwise every task has its depth |
| `TaskDepths.DepthSearch.Visit` | src/dag.ts:198-215 | one recursive visit with its stack, sets and depth memo |
| `DependencyGraph.DepthIsUnique` | src/dag.ts:207-213 | the depth is determined by the graph alone |
| `DependencyGraph.DepthBoundsPaths` | src/dag.ts:207-213 | no dependency chain is longer than the depth says |
| `DependencyGraph.DepthIsReached` | src/dag.ts:207-213 | some dependency chain is exactly that long |
| `DependencyGraph.DepthsExcludeCycles` | src/dag.ts:199-202 | depths for all tasks exclude cycles |
| `DependencyGraph.StackClosesCycle` | src/dag.ts:199-202 | the reported slice of the stack is a genuine cycle |
| `PlanValidation.ValidatePlan` | src/dag.ts:22-216 | a plan is accepted iff the earlier checks pass and its task graph has no cycle, and otherwise the reason is the first check that fails; a reported cycle is a genuine one |
| `PlanMeaning.PlanIsAcceptedByRules` | src/dag.ts:22-216 | all checks together, told by the lists of teams and tasks alone: unique ids, one root, superiors of higher rank, reporting lines within the depth limit, assignees below their lead, dependencies without repeats that exist, between one report (two without a task) and the maximum per team, and no line of dependencies that returns to its start |
| `PlanMeaning.RanksFall` | src/organization.ts:192-204 | the eleven ranks from the top down |
| `PlanValidation.ComputeTeamDepths` | src/dag.ts:542-566 | depths of all teams, or a genuine parent cycle, or a missing team |
| `PlanValidation.RankedTeamsHaveDepths` | src/dag.ts:73-82 | after the rank rule neither error of the depth computation can occur |
| `PlanValidation.RankBoundsDepth` | src/organization.ts:192-204 | a team is at most as deep as the rank of its lead, hence at most 10 |
| `PlanValidation.RanksKeepTeamsShallow` | src/dag.ts:82-88 | after the rank rule no team is deeper than ten, so a limit of ten or more never rejects |
| `DepthLimit.NineIsIdle` | src/dag.ts:82-88 | a plan that passes all other checks is never too deep for a limit of nine or more |
| `DepthLimit.EightIsNot` | src/dag.ts:82-88 | a plan of ten teams in line that passes all other checks and that a limit of eight rejects, so nine is the least limit without effect |
| `PlanValidation.TeamCountBound` | src/dag.ts:175-192 | an accepted plan has at most 2 * (teams owning a direct task) - 1 teams, hence at most 2 * |tasks| - 1 |
| `Crc32.CrcIsSerial` | src/artifact-production/zip.ts:3-14 | the byte-wise CRC equals the bit-serial reflected CRC with polynomial 0xedb88320 (section 8 of RFC 1952) on every byte string |
| `Crc32.CheckValue` | src/artifact-production/zip.ts:3-14 | the published check value: the digits 1 to 9 have checksum 0xcbf43926 |
| `Crc32.TableStep` | src/artifact-production/zip.ts:12 | one table look-up does the work of eight bit steps |
| `Crc32.BuildTable` | src/artifact-production/zip.ts:3-8 | the nested loops fill the table of the byte-wise CRC |
| `Crc32.ComputeCrc` | src/artifact-production/actual-preview.ts:24-28 | the table-driven loop computes that CRC |
| `Crc32.BurstChangesCrc` | src/artifact-production/actual-preview.ts:116-117 | equal-length strings that differ, and only inside four consecutive bytes, have different CRCs |
| `Crc32.FourStepsInjective` | src/artifact-production/zip.ts:10-14 | four byte steps from one register tell all four-byte strings apart |
| `StoredZip.CreateDeterministicZip` | src/artifact-production/zip.ts:33-56 | the loop builds exactly the archive of the accepted entries, or fails at the first unsafe, duplicate or unencodable one |
| `StoredZip.ReadNextEntry` | src/artifact-production/actual-preview.ts:108-119 | one turn of the reader with every rejection in order |
| `StoredZip.ReadStoredZip` | src/artifact-production/actual-preview.ts:103-123 | the reader loop computes the specified reading |
| `StoredZipProofs.RoundTrip` | src/artifact-production/actual-preview.ts:103-123 | reading a written archive gives back the entries, names and bytes in order, and otherwise exactly the limit that was exceeded |
| `StoredZipLayout.EndRecordIs` | src/artifact-production/zip.ts:53-55 | the last 22 bytes are an end record with the number of entries and without comment; its directory offset and size add up to its own place, and walking that many central records from the offset ends there |
| `StoredZipLayout.LocalIs` | src/artifact-production/zip.ts:43-46 | every field of every local record, its name and its data, at the place that the lengths of the records before give |
| `StoredZipLayout.CentralIs` | src/artifact-production/zip.ts:48-50 | every field of every central record, with the place of its local record |
| `StoredZipReading.ReadIsExact` | src/artifact-production/actual-preview.ts:103-123 | on any bytes the reader returns a list of entries iff the input is at most 16 MiB and begins with their records (stored, bounded, no data descriptor, safe distinct names, right checksums), 1 to 128 of them, followed by something else |
| `StoredZipReading.EntryIs` | src/artifact-production/actual-preview.ts:107-119 | one record is read iff all checks pass, and otherwise the first that fails is the reason |
| `StoredZipProofs.CentralPointsToLocal` | src/artifact-production/zip.ts:48-51 | each central record's offset points at the local header with the same name, size and CRC |
| `StoredZipProofs.DamageIsDetected` | src/artifact-production/actual-preview.ts:116-117 | damage within four consecutive bytes of an entry's data always makes the reader fail, with the checksum error within its limits |
| `WriterProofs.RunIsSafe` | src/backend/app-server-client.ts:76-183 | over every run: sent followed by queue is accepted minus cancelled in order, byte count exact and both caps kept, nothing waits on a free stream; what was sent stays; nothing is sent after close; a message whose cancel returned true is never sent |
| `WriterOutcomes.WriteIs` | src/backend/app-server-client.ts:101-131 | the answer of a write is the first thing wrong, or passed on, or queued under the next number, with the queue, the bytes and what was sent |
| `WriterOutcomes.FlushIs` | src/backend/app-server-client.ts:151-173 | handing over goes on in order up to the first reply that is not plain acceptance; a full stream has taken its message, a failing one has not and closes the writer |
| `WriterOutcomes.DrainIs` | src/backend/app-server-client.ts:81-89 | when the stream drains the writer hands over from its queue |
| `WriterOutcomes.CancelIs` | src/backend/app-server-client.ts:175-182 | cancelling works iff the message still waits, and takes out that one |
| `WriterOutcomes.CloseIs` | src/backend/app-server-client.ts:133-140 | closing empties the queue and waits for nothing; closing again does nothing |
| `WriterProofs.NextKeeps` | src/backend/app-server-client.ts:76-183 | one call or drain event keeps all of that |
| `WriterProofs.FlushKeeps` | src/backend/app-server-client.ts:151-157 | flushing moves the queue over in order until the stream is full or fails |
| `WriterProofs.CancelKeeps` | src/backend/app-server-client.ts:175-182 | cancelling takes out exactly one accepted message and its bytes |
| `WriterProofs.KeptWithout` | src/backend/app-server-client.ts:175-182 | the messages kept after one more cancellation are those kept before, without that one |
| `WriterProofs.NeverStuck` | src/backend/app-server-client.ts:81-89 | an open writer with a queue waits for exactly one drain event, which sends its first message unless the stream fails |
| `BoundedWriter.BoundedStdioWriter.Write` | src/backend/app-server-client.ts:101-131 | checks in order; passed on, queued or refused, with the whole new state |
| `BoundedWriter.BoundedStdioWriter.Send` | src/backend/app-server-client.ts:159-173 | hand-over; a failing stream closes the writer, a full one registers the listener |
| `BoundedWriter.BoundedStdioWriter.Flush` | src/backend/app-server-client.ts:151-157 | the loop computes the specified flush |
| `BoundedWriter.BoundedStdioWriter.OnDrain` | src/backend/app-server-client.ts:81-89 | the drain listener |
| `BoundedWriter.BoundedStdioWriter.Cancel` | src/backend/app-server-client.ts:175-182 | true iff the message still waited, and then it is gone |
| `BoundedWriter.BoundedStdioWriter.Close` | src/backend/app-server-client.ts:133-140 | queue, count and listener are dropped, once |
| `Truncation.Truncate` | src/util.ts:100-123 | after three passes the printed count is the least fixpoint: exactly what the text loses if head, marker and tail fill the limit; and the result is head, marker and tail, or a safe prefix |
| `Truncation.TruncatedIsOne` | src/util.ts:100-123 | text and limit determine the result; it is the text iff that fits, and a beginning of it up to a limit of 58 |
| `Truncation.MarkerSays` | src/util.ts:107-116 | the text of the marker, and the number in it reads as the count |
| `Truncation.SharesAre` | src/util.ts:117-119 | the head gets three fifths of the room, rounded up, and the tail the rest |
| `Truncation.DigitsSettle` | src/util.ts:109-115 | the number of digits settles at the second pass |
| `Truncation.FitsTheLimit` | src/util.ts:100-123 | the result is never longer than asked for |
| `Truncation.StaysWellFormed` | src/util.ts:125-143 | well-formed UTF-16 stays well-formed: no surrogate pair is split |
| `Truncation.CountIsRight` | src/util.ts:116-122 | when the marker fits, the result is the two cuts around it and the text loses the printed number and one unit more for each cut that would split a surrogate pair; the number is right iff neither does |
| `Truncation.CountCanBeShort` | src/util.ts:125-135 | a well-formed text of 200 units whose truncation to 100 prints 160 and loses 162 |
| `Truncation.SafePrefix` | src/util.ts:125-129 | a prefix within the limit |
| `Truncation.SafeSuffix` | src/util.ts:131-135 | a suffix within the limit |
| `PolicyLedgerTheorems.Refines` | src/improvement.ts:190-264 | with increasing times the ledger refines a bounded undo stack: promotion pushes, rollback pops to the version active before, a full ledger loses only the bottom (and exactly when), the active version is the top |
| `PolicyLedgerTheorems.RunIsSafe` | src/improvement.ts:190-264 | over every run with increasing evaluation times the ledger keeps its invariant: ordered, at most 24 versions, the active one on top of the stack |
| `PolicyLedgerTheorems.ReadsBack` | src/improvement.ts:546-570 | a written ledger is read back iff every version is sound and there were at most 1,000,000 rollbacks; otherwise it counts as empty |
| `PolicyLedgerRuns.RunRefines` | src/improvement.ts:190-264 | along every run the ledger reads back as written exactly as long as all recorded candidates are sound and at most 1,000,000 rollbacks took effect; as long as that is so its stack is the fold of the pushes and pops, less the bottoms a full ledger lost, with the active version on top |
| `PolicyLedgerRuns.StoredStays` | src/improvement.ts:546-605 | one operation leaves a ledger that reads back iff a candidate it records is sound and a rollback that takes effect stays within the limit |
| `PolicyLedgerRuns.RollbackLimitLosesLedger` | src/improvement.ts:546-554 | a ledger of two versions after its 1,000,000th rollback: the next one is written, not read back, and the evaluation after it starts from nothing |
| `PolicyLedgerRuns.BigCandidateLosesLedger` | src/improvement.ts:572-588 | a candidate with 513 skills is promoted and written, and then the whole ledger counts as empty |
| `PolicyOutcomes.EvaluationIs` | src/improvement.ts:190-233 | what an evaluation reports and leaves, version by version: collecting, stable, rejected or promoted, who is superseded, what is recorded and what a full ledger drops |
| `PolicyOutcomes.RollbackIs` | src/improvement.ts:235-264 | a rollback takes the active version back, activates the newest superseded one or the baseline, counts itself and leaves the rest; under the baseline it does nothing |
| `PolicyOutcomes.ReadIs` | src/improvement.ts:546-605 | any stored ledger, however it came about, is read iff it keeps all limits, has distinct ids and exactly the named version active; otherwise it counts as none |
| `PolicyLedgerTheorems.VerdictsAreFinal` | src/improvement.ts:205-222 | a rejected or rolled-back version keeps that status for as long as it is retained |
| `PolicyLedgerTheorems.TrimKeeps` | src/improvement.ts:531-544 | trimming keeps order, active version and stack up to its bottom |
| `PolicyLedgerProofs.TrimDropsOldest` | src/improvement.ts:531-544 | two sorts and a slice drop exactly the oldest version that is not active |
| `PolicyLedgerProofs.SortNewestFirst` | src/improvement.ts:536-541 | the ranking puts the active version first and the others newest first |
| `PolicyLedgerTheorems.RollbackRefines` | src/improvement.ts:235-264 | rollback pops, and reinstates the version below or the baseline |
| `PolicyStore.LearningPolicyStore.EvaluateAndPromote` | src/improvement.ts:190-233 | the loop over versions and all four outcomes |
| `PolicyStore.LearningPolicyStore.RollBack` | src/improvement.ts:235-264 | rollback on the stored ledger, and when it changes anything |
| `SkillPortfolio.PlanPortfolio` | src/capabilities.ts:667-693 | primary round and fill loop compute the specified plan |
| `SkillPortfolio.PlanIsMaximal` | src/capabilities.ts:667-693 | each skill has one owner that chose it, both caps hold, the first round is kept, and every chosen skill left over is blocked by a full owner or a full task |
| `PortfolioOrder.BestComeFirst` | src/capabilities.ts:685-693 | for every strict total order: a place given out in the second round went to the best; no chosen candidate comes before the one that got it if its skill stayed unused, or is the one given out, and its owner has room or is the one that got it |
| `SkillPortfolio.PrimariesAreBest` | src/capabilities.ts:679-683 | each lane's first skill is the best of its choice: whatever it ranks higher is the first skill of an earlier lane |
| `SkillPortfolio.EveryLaneIsServed` | src/capabilities.ts:679-683 | a lane gets a skill of its own unless all it chose went to others or the task is full |
| `SkillPortfolio.AssignKeeps` | src/capabilities.ts:669-677 | one assignment keeps caps and single ownership |
| `PortfolioRestore.SkillPortfolioParticipants` | src/harness.ts:422-471 | worker, manager and one participant per validator, with their hints |
| `PortfolioMeaning.ParticipantsAre` | src/harness.ts:422-471 | every participant with owner, role and hint by name |
| `PortfolioMeaning.ResolveIs` | src/capabilities.ts:768-817 | the hint counts if it names a specialist for the role, then the guess, then the first one for the role in the department, then the first for the role |
| `PortfolioMeaning.SelectIs` | src/capabilities.ts:562-600 | the choice of a participant has exactly the known, eligible and relevant skills of a beginning of its order, all of it unless the choice is full |
| `PortfolioMeaning.AcceptableIs` | src/harness.ts:107-161 | what a stored portfolio must be like to be taken over, in full: pinned skills, roles, specialists, limits, no owner and no skill twice, index and identity |
| `PortfolioMeaning.BuiltIs` | src/harness.ts:384-404 | what planning stores: one assignment per participant in order with its specialist and skills, and the skills in use sorted by name |
| `PortfolioMeaning.AvoidedIsTheRest` | src/capabilities.ts:702-709 | characters counted as avoided and characters assigned make up those chosen; the difference is never negative |
| `PortfolioRestore.Resolve` | src/capabilities.ts:768-817 | the specialist found always has the role asked for |
| `PortfolioRestore.CheckAssignments` | src/harness.ts:125-158 | the loops accept exactly sound, duplicate-free assignments |
| `PortfolioRestore.CapabilityHarness.Restore` | src/harness.ts:94-168 | succeeds iff a state of the current policy is given and all its portfolios are acceptable and of distinct tasks; what was held before is gone in any case, and after a failure exactly the portfolios before the first bad one are held |
| `PortfolioRestore.CapabilityHarness.CheckPortfolio` | src/harness.ts:107-164 | the checks of one portfolio in order |
| `PortfolioIndex.SameIndexIs` | src/harness.ts:159 | comparing sorted lists joined with NUL finds, among names without NUL, exactly the lists with the same names equally often, except that one empty name passes for none |
| `PortfolioProofs.IndexIsTrue` | src/harness.ts:159-161 | an accepted index names exactly the skills that the assignments hold iff none of its names has a NUL and it is not one empty name for no skills |
| `PortfolioProofs.EmptyNamePasses` | src/harness.ts:159-161 | an accepted portfolio without skills is accepted as well with one empty name as its index |
| `PortfolioProofs.BuildSucceeds` | src/harness.ts:329-344 | under a valid configuration planning succeeds iff the task id is valid and the roles have specialists |
| `PortfolioProofs.BuiltIsAcceptable` | src/harness.ts:384-420 | every portfolio that planning stores is acceptable to restore under the same configuration and catalogue |

## Left out

- Supervisor: promises, timers and micro-task order are reduced to the steps between suspension points; the drain timeout and the end of a backend start or call are free steps of the environment; starting a backend and waiting for it are one phase with the call; a signal shared by several requests is a sequence of single aborts; hashing of thread keys is any function; error texts are not modelled.
- Supervisor: `health` and `info` only copy fields.
- Run store: JSON text, SHA-256 and timestamps are parameters (the digest of a record and the id of an effect are arbitrary functions, and nothing about collisions is assumed); checksums of state and snapshot are therefore taken as matching what was written.
- Run store: one generation and one manifest; the state lock is mutual exclusion of whole operations; `save` after the first one, legacy import and plain `appendEvent` do not occur.
- Run store: replacing a file is atomic; whether a failed replacement has already happened is part of the fault.
- Directive log: JSON is a codec of which only this is assumed: a directive reads back, its text has no line break, no strict prefix of it is JSON, and a carriage return at the end of a line does not matter. Byte offsets assume that earlier lines are valid UTF-8. The queued events that go with directives are not modelled, nor is the list of applied ids.
- Plan validation: field and text checks, fixed vocabularies and references to requirements are one flag per team and task; the normalisation of priorities and the sorting of `readyTasks` are omitted.
- ZIP: entries given as strings are their bytes; names read back are decoded byte by byte, which agrees with UTF-8 for every name that is accepted.
- Bounded writer: the stream's answers are an arbitrary script; a stream that calls back into the writer while it is being written to is not modelled.
- Truncation: the share of the head is computed with whole numbers where the program uses a double; both round to the same number.
- Policy ledger: how a proposal is computed is arbitrary; samples and scores are not carried along, only how many runs and skills a version rests on; the size limit of the policy file and the lock around an operation are not modelled.
- Skill portfolio: schema version and safe-integer checks are part of the shape of an identity and of the types; ranking, relevance and the classification of texts are arbitrary functions, and so is the order of candidates; lanes are numbered instead of looked up by owner name, which is the same because owner names are checked to be distinct; owner names are parsed already.
- `Mutex` in `src/util.ts` is the thread lock of the supervisor without keys and would add only easy members.
- Strings stand for sequences of UTF-16 code units wherever a length is compared.
- Prompts, rendering, previews, configuration ranges and the command line.
