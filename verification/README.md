# Module lifecycle, dependency, licence and clone checks: a verified model

The repository manages modules of an application: it installs, upgrades, rolls back and removes
them, resolves and orders their dependencies, checks licence expressions and looks for duplicated
code. This project models the parts of it that are hard to get right and proves what they promise.

**The lifecycle execution protocol.** An executor takes an expiring lease per module, checks an
idempotency record under it, runs commands while a second goroutine renews the lease, records an
outcome and then releases the lease or hands it to a watcher when a cancelled command will not stop.

- `LeaseTable` is the lock table under any number of executors and operators. Reading the clock and
  committing a statement are separate steps. Lease safety is proved over every run.
- `SqlLock` refines the three-statement database acquire to the one-step acquire; `MemoryStore` and
  `DbStore` are the two stores as classes, tied to the same row functions.
- `ExecutionProtocol` is the whole protocol as a state machine: executions, watchers, the run table. A lock is
  acquired in one step or by the database's statements, which `ProtocolStatements` ties to `SqlLock`. Commands
  never overlap and recorded outcomes are final in every run in which no active execution loses its row;
  `LapsedOverlap` shows a run that overlaps after one did.
- `LeaseContinuity` is the timing of one lock's holder, from its grant over hand-over and watcher to its release,
  with the exact condition under which the row stays live. `TimedRuns` puts it beside the protocol: if the timing
  fits the TTL no lease lapses, so nothing is assumed of the leases any more. `LapsingRuns` shows that
  the condition is exact for the protocol too. `RenewalChannel` is the goroutine pair of one command.
- `ExecutorPath`, `ItemCourse` and `Executor` are the executor's own control flow, method by method. Every call
  it makes is logged; `ItemCourse` gives the possible logs of an item call by call, each of them a path of
  `ExecutorPath`. `LoggedRuns` interleaves any number of such logs with watchers, renewal goroutines
  and the environment over the shared tables and shows every such run to be a run of `ExecutionProtocol`, so
  the protocol's theorems speak about this code. `CommandPolicy` and `CommandTrace` give the command lists and what it
  means to run each command at its first occurrence.
- `LifecycleService` answers requests and executes plans, with the rollback of a failed replacement; `Planner`,
  `ReplacementPlans`, `VersionConstraints` and `IdempotencyKeys` are what it plans and checks with.
  `PlanExecution` says what the executions of a plan are, `UnrecordedSuccess` and `RepeatedMigration` when a command can run
  twice in one.

**Dependencies.** `DependencySort` (over the generic walk of `DepthFirst`) orders modules,
`RegistryKernel` propagates disabled modules, `ModuleListings` says in which orders that works,
`Resolver` (with `ModuleIndex`) resolves exact versions, `VersionPolicy` compares the versions that `VersionParsing` reads
and checks constraints.

**Licences.** `LicenseExpression` is the evaluator over tokens, `LicenseSemantics` proves it against the
grammar of SPDX licence expressions (SPDX 2.3 Annex D.4).

**Clones.** `CloneWindows`, `ClonePositions`, `CloneMerge` and `CloneDetection` follow the duplicate
detector from windows to merged blocks.

What the code computes by functions is also stated without them, field by field or on the texts themselves, in the
lemmas whose names end in `Meaning`.

Shared values, orders and version texts are in `Outcomes`, `LifecycleTypes`, `Ordering`, `Trimming` and `VersionPattern`.

## Where a promise needs a condition

- A lock's row stays live, by the strict comparison with which both stores test it, exactly if the times add up to less
  than the TTL: `LeaseContinuity.CommandHeldIff` for a running command, `LeaseContinuity.LateHeldIff` up to a late
  release, `LeaseContinuity.HeldIffFits` for the whole tenure. The watcher starts a ticker of its own and its renewals are not
  bounded by the remaining lease, so a TTL that is enough for the command need not be enough for its watcher
  (`LeaseContinuity.HandOverGap`). An interval left unset is one minute for every TTL above a second,
  which is not enough up to two minutes (`LeaseContinuity.UnsetIntervalHeld`). No lease lapses in the protocol exactly if the timing fits
  (`LapsingRuns.NeverLapsesIffFits`); if one does, commands can overlap (`LapsedOverlap.OverlappingRun`).
- The renewal loop's freedom from deadlock rests on `Renew` handing back an acquired lock, which both stores do
  (`RenewalChannel.UnacquiredRenewalDeadlocks` shows what happens otherwise).
- A required source module whose id is empty can hide a disabled dependency, because the empty id doubles as "none
  found". What a given source makes of it depends on the order in which modules and dependencies are listed: for each
  source and disabled set the reasons are the least fixpoint exactly when no module is left without a reason while it
  requires one with a reason (`RegistryKernel.CoversIffNothingHidden`). Over all orders, and over the disabled sets that the
  environment can name, which never hold the empty id, the exact condition can be read off the modules
  (`ModuleListings.AlwaysCoversIffHarmless`); `ModuleListings.DisabledModuleIsMissed` is an input that fails.
- Idempotency keys separate their parts with colons and exclude colons neither in ids nor in versions. Two different
  modules share a key of one action exactly when one id goes on behind a colon with what the other's version
  starts with (`IdempotencyKeys.KeysEqualIff`), so it takes a colon in an id and a colon in another module's version.
  Versions that pass package validation have none (`IdempotencyKeys.PackagedModulesHaveTheirOwnKeys`). The protocol asks that
  a key name its module.
- A command whose success could not be recorded counts as failed (`Executor.LifecycleExecutor.FinishCommandAttempt`) and is
  not remembered, so a rollback with the same text runs it again. Each command is recorded as succeeded at most once in an
  execution (`PlanExecution.RecordedOnce`), but run to success at most once exactly under the condition of
  `UnrecordedSuccess.RunsOnceIffNothingShared`, which can be checked on the plan. `RepeatedMigration` is a removal that passes
  every check and whose migration can run twice.
- In-memory and database stores differ: the in-memory one restarts a run recorded as succeeded and creates a run
  on completion, the database one does neither.

## Model

| member | source | states |
|---|---|---|
| LeaseTable.StepKeepsInv | app/modulecatalog/lifecycle_memory_store.go:30-83 | Every lock statement, with a clock value read earlier, keeps: each row matches the grant of its run key, and each current lease is carried by its row |
| LeaseTable.LeaseSafety | app/modulecatalog/lifecycle_db_lock.go:17-100 | In every interleaving, a lease granted by time i and still current at time j was carried by its row at every moment between, and nobody else was granted that key in between |
| LeaseTable.LossPersists | app/modulecatalog/lifecycle_db_lock.go:61-100 | A run key that has lost its row never gets it back |
| LeaseTable.SupersededIsHarmless | app/modulecatalog/lifecycle_db_lock.go:61-100 | A superseded holder's later renewals and releases change no row |
| LeaseTable.CleanUpSparesCurrentLeases | app/modulecatalog/admin_lock_release.go:55-112 | The operator's clean-up never removes or changes the row of a current lease, even with a stale clock value |
| LeaseTable.GrantsPersist | app/modulecatalog/lifecycle_db_lock.go:27-100 | A granted run key stays granted for the same lock key, and a released one stays released, through every run |
| MemoryStore.MemoryLifecycleStore.Acquire | app/modulecatalog/lifecycle_memory_store.go:30-49 | One critical section: refuses a blank key or owner, otherwise the rows after are those of the atomic acquire, and the answer says whether the key was free at the captured time; an acquired lock is the asker's own and expires after the TTL asked for, or a minute |
| MemoryStore.MemoryLifecycleStore.Renew | app/modulecatalog/lifecycle_memory_store.go:51-70 | Succeeds exactly for the row's own owner and run key; the lock handed back is still marked acquired |
| MemoryStore.MemoryLifecycleStore.Release | app/modulecatalog/lifecycle_memory_store.go:72-83 | Deletes the row only for its own owner and run key |
| MemoryStore.MemoryLifecycleStore.SuccessfulRunExists | app/modulecatalog/lifecycle_memory_store.go:85-91 | True exactly for runs recorded succeeded or reconciliation_required |
| MemoryStore.MemoryLifecycleStore.BeginRun | app/modulecatalog/lifecycle_memory_store.go:93-100 | Writes the run as running, whatever was there |
| MemoryStore.MemoryLifecycleStore.CompleteRun | app/modulecatalog/lifecycle_memory_store.go:102-112 | Sets the outcome of one run, creating it if need be, and leaves every other run alone |
| MemoryStore.MemoryLifecycleStore.RecordStep | app/modulecatalog/lifecycle_memory_store.go:114-137 | Each other attempt keeps its record; this attempt's takes the outcome of the report, and its times where it has them; a new attempt is appended |
| MemoryStore.RecordingKeepsAttemptsUnique | app/modulecatalog/lifecycle_memory_store.go:114-137 | Recording keeps one record per attempt, touches no other attempt's record, merges this one's field by field and grows the log exactly for a new attempt |
| DbStore.DBLifecycleStore.Renew | app/modulecatalog/lifecycle_db_lock.go:61-86 | The conditional update: succeeds exactly for the row's own owner and run key and hands back an acquired lock |
| DbStore.DBLifecycleStore.Release | app/modulecatalog/lifecycle_db_lock.go:88-100 | The conditional delete |
| DbStore.DBLifecycleStore.BeginRun | app/modulecatalog/lifecycle_db_repository.go:31-71 | Begins or restarts a run exactly unless it is recorded succeeded |
| DbStore.DBLifecycleStore.CompleteRun | app/modulecatalog/lifecycle_db_repository.go:73-86 | Updates an existing run and creates none |
| DbStore.DBLifecycleStore.FindStaleLocks | app/modulecatalog/admin_lock_release.go:38-49 | Exactly the rows expired by now, of one key or of all, each once, the one that expired first at the front |
| DbStore.DBLifecycleStore.LockObservedStaleRows | app/modulecatalog/admin_lock_release.go:87-112 | Keeps exactly the observed rows that are unchanged and still expired |
| DbStore.DBLifecycleStore.DeleteObservedStaleLocks | app/modulecatalog/admin_lock_release.go:55-85 | Deletes exactly those rows, reports each once, deletes nothing when the gate refuses, and touches no live lease |
| SqlLock.StatementRefinesAtomicStep | app/modulecatalog/lifecycle_db_lock.go:27-59 | Each single SQL statement is one step of the atomic lock table or leaves it alone |
| SqlLock.SqlRunIsLeaseRun | app/modulecatalog/lifecycle_db_lock.go:17-59 | Every interleaving of UPDATE, INSERT and SELECT is a run of the atomic lock table |
| SqlLock.AcquiredHasOneCommitPoint | app/modulecatalog/lifecycle_db_lock.go:27-59 | An acquired answer has a commit point where the row was free at the captured time and the resulting row is that of the in-memory acquire |
| SqlLock.GrantPointIsUnique | app/modulecatalog/lifecycle_db_lock.go:27-59 | That commit point is the only one of its run key |
| SqlLock.NotAcquiredNeverHeld | app/modulecatalog/lifecycle_db_lock.go:45-59 | A not-acquired answer without error saw a row live at the captured time, and such a call never became a holder |
| SqlLock.SqlLeaseSafety | app/modulecatalog/lifecycle_db_lock.go:17-100 | Lease safety for the three-statement acquire |
| ExecutionProtocol.OneActivePerModule | app/modulecatalog/lifecycle_executor.go:57-106 | In every state that keeps the invariant at most one execution per module holds its row, late runners included |
| ExecutionProtocol.StepKeepsSystemInv | app/modulecatalog/lifecycle_executor.go:57-142 | Every move of every execution, watcher, operator and clock that takes no active execution's row keeps the protocol's invariant: each active execution holds its row |
| ExecutionProtocol.CommandsNeverOverlap | app/modulecatalog/lifecycle_executor.go:57-142 | In every run in which no active execution loses its row, runners for one module never overlap across executors, including a runner only a watcher waits for, whether locks are acquired in one step or by the database's three statements |
| ExecutionProtocol.RecordedOutcomeIsFinal | app/modulecatalog/lifecycle_executor.go:81-126 | In every such run, a key recorded succeeded or reconciliation_required stays so, and no execution of it is past the idempotency check |
| ExecutionProtocol.TakeoverNeedsLapse | app/modulecatalog/lifecycle_db_lock.go:27-43 | An acquire or a clean-up takes the row of an active execution only after its lease has run out |
| ExecutionProtocol.NoLapseIsSafe | app/modulecatalog/lifecycle_executor.go:57-142 | So a run in which no lease lapses is a run in which no active execution loses its row |
| ExecutionProtocol.OverlapNeedsTakeover | app/modulecatalog/lifecycle_executor.go:57-142 | In every run whatsoever, runners of one module overlap only after a step that took an active execution's row |
| LapsedOverlap.LapseCanOverlap | app/modulecatalog/lifecycle_db_lock.go:27-59 | From every state with a runner whose row is free, two runners of the module can be reached |
| LapsedOverlap.OverlappingRun | app/modulecatalog/lifecycle_executor.go:57-106 | A run from the empty table in which two commands of one module run at once, after such a takeover |
| ProtocolStatements.StatementIsSqlStatement | app/modulecatalog/lifecycle_db_lock.go:27-59 | The UPDATE, INSERT and SELECT of the protocol are the statements of SqlLock: same lock table after them, the execution waits where the call does and holds the lock exactly when the call acquired it |
| RenewalChannel.StepKeepsInv | app/modulecatalog/lifecycle_command_executor.go:60-154 | What every step of caller, runner, renewal goroutine and context keeps: at most one value sent, non-nil, and received from the channel in order |
| RenewalChannel.OneValueThenSilence | app/modulecatalog/lifecycle_command_executor.go:60-134 | When the call has returned, exactly one non-nil value was sent and received, and no renewal commits afterwards |
| RenewalChannel.NilExactlyOnCleanFinish | app/modulecatalog/lifecycle_command_executor.go:156-164 | The result is nil exactly when the runner returned nil, the context had not ended and renewal stopped only through cancellation; still-running exactly when the runner was not heard |
| RenewalChannel.OutcomeOfCall | app/modulecatalog/lifecycle_command_executor.go:60-95 | In every interleaving the outcome of a call that returned is the joined error of runner, renewal and context if the runner was heard, and still-running otherwise |
| RenewalChannel.ResultErrorMeaning | app/modulecatalog/lifecycle_command_executor.go:156-164 | The joined error has exactly the causes of runner and context, and those of the renewal unless it was cancelled; it is nil exactly if there is nothing to join |
| RenewalChannel.JoiningCanReturn | app/modulecatalog/lifecycle_command_executor.go:73-83 | Once the caller waits for the renewal goroutine, that goroutine alone brings it to return in two steps |
| RenewalChannel.CallCanReturn | app/modulecatalog/lifecycle_command_executor.go:60-95 | No deadlock: from every reachable state the call can return, even if the runner never ends |
| RenewalChannel.UnacquiredRenewalDeadlocks | app/modulecatalog/lifecycle_command_executor.go:109-114 | With a store whose renewal drops the acquired mark, a run reaches a state in which the caller waits for ever |
| RenewalChannel.StuckForever | app/modulecatalog/lifecycle_command_executor.go:109-114 | That state is never left |
| LeaseContinuity.LockRenewTimeout | app/modulecatalog/lifecycle_execution_policy.go:40-53 | A renewal's deadline never lies after the expiry, and it is refused exactly when the lease has run out |
| LeaseContinuity.RenewalsNeverLate | app/modulecatalog/lifecycle_command_executor.go:120-134 | Whatever the timing, a renewal of the command's goroutine commits no later than the expiry it extends, provided that the store keeps to the deadline; the watcher's renewals have no such bound |
| LeaseContinuity.CommandHeldIff | app/modulecatalog/lifecycle_command_executor.go:60-134 | A running command's row is live, as the stores test it, at every moment of every error-free history if and only if two intervals and the tick delay are less than the TTL |
| LeaseContinuity.BetweenHeldIff | app/modulecatalog/lifecycle_executor.go:57-106 | From the grant and from a command's end to the next renewal or release: exactly when that time too is less |
| LeaseContinuity.LateHeldIff | app/modulecatalog/lifecycle_command_executor.go:173-214 | From giving up a command, over the hand-over and the watcher's renewals, to the late release: if and only if three intervals, two delays, the hand-over and the longer of an interval and the completion are less than the TTL |
| LeaseContinuity.HeldIffFits | app/modulecatalog/lifecycle_executor.go:57-142 | The whole tenure of a lock, from its grant to its release |
| LeaseContinuity.HandOverGap | app/modulecatalog/lifecycle_command_executor.go:173-214 | A TTL that keeps the row of every running command live and lets it run out under the watcher, with no error reported |
| TimedRuns.StepKeepsTimedInv | app/modulecatalog/lifecycle_executor.go:57-142 | In the protocol with every holder's timing, each step keeps: every active execution's grant runs from its row's last write, and that is no older than its stage allows |
| TimedRuns.TimedRunNeverLapses | app/modulecatalog/lifecycle_executor.go:57-142 | If the timing fits the TTL, no lease lapses in any timed run and no active execution loses its row |
| TimedRuns.TimedCommandsAreSafe | app/modulecatalog/lifecycle_executor.go:57-142 | So in every timed run commands of one module never overlap and recorded outcomes are final, with nothing assumed of the leases |
| LapsingRuns.HistoryIsTimed | app/modulecatalog/lifecycle_executor.go:57-142 | Every history of a single holder with prompt renewals is that of an execution in some timed run of the protocol |
| LapsingRuns.NeverLapsesIffFits | app/modulecatalog/lifecycle_executor.go:57-142 | No lease lapses in any timed run, with any number of executions, if and only if the timing fits the TTL |
| LeaseContinuity.ConfiguredIntervalFits | app/modulecatalog/lifecycle_execution_policy.go:23-38 | Exactly which configured values keep the interval within the TTL |
| LeaseContinuity.UnsetIntervalHeld | app/modulecatalog/lifecycle_execution_policy.go:30-38 | With the interval unset: exactly which TTLs and delays keep a running command's row live; none up to two minutes does, an odd one of at most a second without any delay aside |
| LeaseContinuity.DefaultsHeld | app/modulecatalog/lifecycle_execution_policy.go:23-38 | With the default TTL and interval: exactly which delays a running command allows, and which times the whole tenure |
| CommandPolicy.NormalizeLifecycleCommands | app/modulecatalog/lifecycle_command_policy.go:27-44 | The commands of a line are the texts of its parts between the &&s, in their order: each without the blanks around it, without the artisan prefixes in their order, and again without blanks; exactly the parts that leave nothing have none |
| CommandPolicy.NormalizedMeaning | app/modulecatalog/lifecycle_command_policy.go:27-44 | A list is the normalised one if and only if it is made that way: a strictly increasing choice of parts, with the text of each and none left out |
| CommandPolicy.ValidateCommandMeaning | app/modulecatalog/lifecycle_command_policy.go:17-65 | A command may run if and only if its first word is one of the seven allowed ones, or it is blank, and it is not the word "manual" in any case, alone or before a blank; and the error of each other one |
| Trimming.TrimSpaceMeaning | app/modulecatalog/lifecycle_command_policy.go:28 | Trimming takes away exactly the blanks around a text |
| CommandPolicy.SplitThenJoin | app/modulecatalog/lifecycle_command_policy.go:32 | Splitting at && loses nothing |
| CommandPolicy.NormalizedCommandsAreClean | app/modulecatalog/lifecycle_command_policy.go:27-44 | Every normalised command is non-empty, trimmed and free of && |
| CommandPolicy.FirstInvalidLifecycleCommand | app/modulecatalog/lifecycle_command_policy.go:8-25 | No error exactly when every command may run; otherwise the first one that may not, with its own error |
| LoggedRuns.LogStepIsProtocolStep | app/modulecatalog/lifecycle_executor.go:57-142 | Simulation: over the shared tables, each next logged call of any executor or watcher, each statement of an acquire, each step of a renewal goroutine while its command runs and each environment step is one action of the execution protocol that leads to the same state |
| LoggedRuns.SameTakeover | app/modulecatalog/lifecycle_db_lock.go:27-59 | The action takes an active execution's row exactly when the log shows a grant or a clean-up that does |
| LoggedRuns.LoggedRunIsExecutionRun | app/modulecatalog/lifecycle_executor.go:57-142 | Every run of interleaved executor logs, watchers and renewal goroutines is a run of the execution protocol |
| LoggedRuns.LoggedCommandsNeverOverlap | app/modulecatalog/lifecycle_executor.go:57-142 | In every such run in which nobody who has the lock loses its row, the logs of two calls for one module never both show a started command that has not ended |
| LoggedRuns.LoggedOutcomeIsFinal | app/modulecatalog/lifecycle_executor.go:81-126 | In every such run, once succeeded or reconciliation_required is recorded for a key it stays recorded, and no executor logs another command start for that key |
| LoggedRuns.NoLapseIsLogged | app/modulecatalog/lifecycle_executor.go:57-142 | A run of the logs in which no lease lapses is such a run |
| LoggedRuns.CourseCanBeLogged | app/modulecatalog/lifecycle_executor.go:57-142 | The next call of any course that an item takes is enabled exactly when its answer agrees with the shared tables |
| ExecutorPath.LockDisposedExactlyOnce | app/modulecatalog/lifecycle_executor.go:74-79 | When executeItem has returned, a granted lock has been released once or handed over once, not both, and a release is the last call made |
| ExecutorPath.HandOverIffReconciliation | app/modulecatalog/lifecycle_executor.go:128-142 | The lock is handed over exactly when recording reconciliation_required for the run is attempted |
| ExecutorPath.StoredIffHandedOverAndWritten | app/modulecatalog/lifecycle_executor.go:128-142 | reconciliation_required is stored by the item exactly when the lock is handed over and the recording did not fail |
| ExecutorPath.CommandsAreGuarded | app/modulecatalog/lifecycle_executor.go:81-106 | A command starts only after the run record was read as not blocking and the run was begun, while the lock is held |
| ExecutorPath.BegunRunIsFinished | app/modulecatalog/lifecycle_executor.go:128-156 | For a run that was begun, recording an outcome is attempted before executeItem returns; the recording itself may fail |
| ExecutorPath.PassedCommandsRan | app/modulecatalog/lifecycle_command_attempt.go:79-92 | A command recorded as succeeded was started and ended well in the same item |
| ExecutorPath.WatcherReleasesAtMostOnce | app/modulecatalog/lifecycle_command_executor.go:173-204 | A watcher releases the lock at most once, and only after the late completion is recorded |
| ExecutorPath.OrphanKeepsTheLock | app/modulecatalog/lifecycle_command_executor.go:193-199 | A watcher that lost the lease never releases it |
| ItemCourse.CourseIsPath | app/modulecatalog/lifecycle_executor.go:57-142 | Every course of calls that an item can take, given call by call, is a protocol path with the lock disposed of, and it ends with a late runner exactly on a still-running error |
| ItemCourse.CourseTrace | app/modulecatalog/lifecycle_command_executor.go:47-58 | In every course the recorded successes are the first new commands of a prefix of the lists; what else ran to success is at most the one command behind them, whose success was not recorded |
| Executor.LifecycleExecutor.Renew | app/modulecatalog/lifecycle_db_lock.go:61-86 | What a renewal may answer: the same lease still acquired, or an error; `LoggedRuns.Truthful` ties success to the row |
| Executor.LifecycleExecutor.RunCommandWithRenewal | app/modulecatalog/lifecycle_command_executor.go:60-95 | The answer is one that the two goroutines can give: for some error of the runner, of renewal and of the context it is what the join makes of them, or a still-running error with the renewed lock |
| Executor.ReturnedCallAnswers | app/modulecatalog/lifecycle_command_executor.go:60-95 | Every call that returns in the channel model, in every interleaving, gives such an answer |
| Executor.LifecycleExecutor.StartCommandAttempt | app/modulecatalog/lifecycle_command_attempt.go:36-57 | The lease is renewed before the command; any failure before it leaves no runner behind |
| Executor.LifecycleExecutor.FinishCommandAttempt | app/modulecatalog/lifecycle_command_attempt.go:79-92 | A recording error joins the command's error without hiding a late runner, and turns a success into a failure |
| Executor.LifecycleExecutor.RunCommand | app/modulecatalog/lifecycle_command_attempt.go:27-34 | Nil exactly when the success was recorded, and then the calls were: recorded as running, lease renewed, run, recorded as succeeded; otherwise one of the failing courses |
| Executor.LifecycleExecutor.RunCommands | app/modulecatalog/lifecycle_command_executor.go:47-58 | Runs exactly the commands not executed before, at their first occurrence, up to the first failure, and remembers them |
| Executor.LifecycleExecutor.FinishFailure | app/modulecatalog/lifecycle_executor.go:128-142 | Outcome, then state, then hand-over: the lock stays with a watcher exactly when the runner may still be running |
| Executor.LifecycleExecutor.FinishSuccess | app/modulecatalog/lifecycle_executor.go:144-156 | State, then outcome: success exactly when both could be recorded; an unrecorded state makes the recorded outcome failed |
| Executor.LifecycleExecutor.FailValidation | app/modulecatalog/lifecycle_executor.go:158-173 | Begins the run, records the step, the outcome and the state, and runs no command |
| Executor.LifecycleExecutor.ValidateItemCommands | app/modulecatalog/lifecycle_executor.go:197-208 | No error exactly when every command of the check and of the command line may run |
| Executor.LifecycleExecutor.PreflightItem | app/modulecatalog/lifecycle_executor.go:108-126 | Skips a recorded run, refuses invalid commands, goes on only with commands that may all run |
| Executor.LifecycleExecutor.ExecuteMutation | app/modulecatalog/lifecycle_executor.go:95-106 | Check, then command, then the outcome: the recorded successes are the first new commands of a prefix of both lists, the whole of them on success |
| Executor.LifecycleExecutor.ExecuteGated | app/modulecatalog/lifecycle_executor.go:84-92 | Behind the security gate, which is asked exactly if it has to be and has not let an item end well before, and then refuses or opens to the mutation and returns its error; an unset module id turns the item's status to failed |
| Executor.LifecycleExecutor.ExecuteItem | app/modulecatalog/lifecycle_executor.go:57-93 | On every path the calls are one of the courses of the item, so a protocol path that ends with the lock released or handed over; the commands remembered are those of the prefix recorded as succeeded. The answer follows from the calls: blocked and skipped exactly when the lock manager named a holder, with the holder in its text; skipped exactly when the run record bars the run; succeeded on every other end without an error; otherwise the status of the error |
| PlanExecution.AnswerFitsCalls | app/modulecatalog/lifecycle_executor.go:57-156 | An item that the lock manager, the run record or the gate refuses before its commands has failed and is not skipped, and an outcome that was stored is the status reported |
| LifecycleTypes.ErrorStatusMeaning | app/modulecatalog/lifecycle_execution_policy.go:11-21 | An error needs reconciliation if and only if a still-running error is somewhere in it, asks for an operator if and only if a manual one is and no still-running one, and is an ordinary failure otherwise |
| PlanExecution.CommandsNeedTheGate | app/modulecatalog/lifecycle_executor.go:181-195 | In a gated execution a command starts only after the gate has opened, for its own item or for an earlier one that succeeded |
| Executor.LifecycleExecutor.WatchLateRunner | app/modulecatalog/lifecycle_command_executor.go:173-214 | For every sequence of ticks and runner end: records and releases, or stops unreleased after recording the lost lease, or still watches |
| Executor.WatchIsPath | app/modulecatalog/lifecycle_command_executor.go:173-214 | After an item that handed its lock over, the watcher's calls carry the protocol path on: to the release after the late completion, to an unreleased lock after the lost lease, or it still watches |
| CommandTrace.FirstNewMeaning | app/modulecatalog/lifecycle_command_executor.go:47-58 | The trace has no command twice, exactly the new ones, in order of first occurrence |
| LifecycleService.ExecuteLifecyclePlan | app/modulecatalog/lifecycle_service.go:183-220 | Items run in plan order, each only after all earlier ones ended succeeded or skipped, and the results are theirs in that order; a disabled item is skipped with its reason, a dry run only plans; the gate is asked until an item has succeeded; the recorded successes, rollback included, are duplicate-free and the first occurrences in the executed items' lists |
| PlanExecution.ResultsMeaning | app/modulecatalog/lifecycle_service.go:193-217 | What is reported for each planned item: the result of its own run, or skipped with the reason why it is disabled, or planned |
| PlanExecution.EnabledItemsMeaning | app/modulecatalog/lifecycle_service.go:193-217 | The items that run are exactly the enabled ones, in plan order |
| PlanExecution.RecordedOnce | app/modulecatalog/lifecycle_command_executor.go:47-58 | Over all items of an execution, the rollback included, each command is recorded as succeeded at most once, at its first occurrence |
| UnrecordedSuccess.RunsOnceIffNothingShared | app/modulecatalog/lifecycle_service.go:222-246 | For every plan: every execution runs each command to success at most once, recorded or not, if and only if the plan has no rollback, or one whose commands may not all run, or no enabled item at or after the rollback point, whose commands may all run, has a command in common with it |
| RepeatedMigration.MigrateCanRunTwice | app/modulecatalog/lifecycle_command_attempt.go:79-92 | A removal with the same command as cutover and as rollback has an execution that runs it to success twice |
| RepeatedMigration.MigrateIsAccepted | app/modulecatalog/lifecycle_service.go:154-181 | That removal passes every check before the execution: version constraints, replacement plan, end of support and batch |
| LifecycleService.RollbackReplacement | app/modulecatalog/lifecycle_service.go:222-246 | The rollback is attempted once, exactly when the failing item is at or after the rollback point and no runner may still be running; its error is joined |
| LifecycleService.RunItem | app/modulecatalog/lifecycle_service.go:208-216 | One item keeps: the commands remembered are those recorded as succeeded, and its calls are a course of the item |
| LifecycleService.ValidateBatch | app/modulecatalog/lifecycle_planner.go:123-148 | Accepts exactly when every enabled item's commands may run |
| LifecycleService.RollbackStartsAtCutover | app/modulecatalog/lifecycle_planner.go:86-117 | In a replacement removal the rollback point is the cutover item |
| LifecycleService.RemovalFailure | app/modulecatalog/lifecycle_service.go:193-246 | A failed replacement removal rolls back exactly when the cutover was reached and no runner may still be running |
| LifecycleService.Execute | app/modulecatalog/lifecycle_service.go:154-181 | Exactly which requests are refused before anything runs: a bad action, a missing owner or reason, a version constraint that fails, a request that cannot be planned, a batch with a command that may not run; for the others all of the above, for the plan that the request asks for |
| DependencySort.Sorter.VisitModule | app/modules/dependencies.go:46-72 | The recursive closure is the abstract depth-first walk; it ends because each nested call marks one more module |
| DependencySort.SortModulesByDependencies | app/modules/dependencies.go:32-80 | Fails exactly on repeated ids, naming one, or a cycle among present modules; otherwise a permutation with every present dependency first; a list already in order is returned unchanged |
| DependencySort.DependencyOrderIsIrrelevant | app/modules/dependencies.go:56-60 | The order in which modules list their dependencies does not matter to the sequence |
| DependencySort.OrderedListHasNoCycle | app/modules/dependencies.go:32-80 | A list already in dependency order has no cycle |
| DependencySort.DetectDependencyCycle | app/modules/dependencies.go:82-85 | Reports exactly repeated ids or a cycle |
| DepthFirst.VisitAllDecidesCycles | app/modules/dependencies.go:46-80 | The walk fails exactly when the graph has a cycle; otherwise it lists each node once, after all its successors |
| DepthFirst.OrderedRootsAreKept | app/modules/dependencies.go:73-80 | Roots already in order are listed unchanged |
| RegistryKernel.ReasonsCoverUnavailable | app/modules/registry_kernel.go:100-140 | A source module has a reason exactly when it is disabled or reaches a disabled source module through required dependencies, unless an empty id stands between two other modules |
| RegistryKernel.CoversIffNothingHidden | app/modules/registry_kernel.go:100-140 | For every source and every disabled set: the reasons cover exactly the unavailable modules if and only if no module is left without a reason while it requires one that has a reason |
| ModuleListings.AlwaysCoversIffHarmless | app/modules/registry_kernel.go:100-140 | For distinct ids: in every order of modules and dependencies and for every disabled set without the empty id the reasons cover the unavailable modules, if and only if no source module is required by the one with the empty id while a third module requires the empty id |
| ModuleListings.DisabledModuleIsMissed | app/modules/registry_kernel.go:100-140 | An input that fails: x is disabled, the module with the empty id requires x, and a, which requires the empty id, gets no reason |
| RegistryKernel.ReasonTable.FirstDisabledDependency | app/modules/registry_kernel.go:133-140 | The first required dependency with a reason |
| RegistryKernel.ReasonTable.PropagateDependencyReasons | app/modules/registry_kernel.go:118-131 | One pass over the modules, and whether it changed anything |
| RegistryKernel.PropagateDisabledReasons | app/modules/registry_kernel.go:100-106 | The loop reaches the fixpoint within one pass more than there are distinct ids |
| RegistryKernel.ReasonTexts | app/modules/registry_kernel.go:108-131 | A reason names what disabled the module: the configuration if its id is in the set, else a required dependency that has a reason itself |
| RegistryKernel.ExcludeModules | app/modules/registry_kernel.go:82-90 | Keeps exactly the modules not banned, in their order |
| RegistryKernel.NewRegistryKernel | app/modules/registry_kernel.go:17-32 | The registered and lifecycle lists are permutations with dependencies first whenever ids are distinct and there is no cycle, else as given; the active list is the registered one without the modules that have a reason |
| RegistryKernel.ActiveIsClosed | app/modules/registry_kernel.go:142-150 | The active modules are exactly the available ones, and the required dependencies of an active module that exist are active |
| Planner.OrderedStates | app/modulecatalog/lifecycle_planner.go:150-166 | All states in order or reversed, or the one named: the first match going forward, the last in reverse |
| Planner.FilteredState | app/modulecatalog/lifecycle_planner.go:168-183 | Found exactly when a state has the id; first or last match |
| Planner.PlanWholeRegistry | app/modulecatalog/lifecycle_planner.go:51-67 | Every module exactly once, each with the action, command, check, key and state that it has to have; for an acyclic registry with distinct ids, dependencies come first in install and upgrade and last in rollback and uninstall |
| Planner.NewPlanItemMeaning | app/modulecatalog/lifecycle_planner.go:189-197 | An item carries the requested action, the module's own install, upgrade, rollback or uninstall text as its command, the module's check, and the key made of action, id and version; and these decide it |
| Planner.StateOfMeaning | app/modules/registry_kernel.go:152-161 | A state is disabled exactly if the module has a reason, and gives that reason |
| IdempotencyKeys.IdempotencyKeyNamesItsModule | app/modulecatalog/lifecycle_planner.go:232-236 | If the versions have no colon, or the ids have none, a key determines action, module and version |
| IdempotencyKeys.ColonMakesKeysCollide | app/modulecatalog/lifecycle_planner.go:232-236 | An id that goes on behind a colon shares its key with the shorter id at the version that starts with the rest |
| IdempotencyKeys.KeysEqualIff | app/modulecatalog/lifecycle_planner.go:232-236 | For the planner's actions: two keys are equal if and only if the actions are, and either id and version are too or one id is the other, a colon and some text with which, and a colon, the other's version begins before its own |
| IdempotencyKeys.PackagedModulesHaveTheirOwnKeys | app/modules/package.go:109-120 | Among modules whose versions pass package validation, whatever their ids, keys are equal only for the same action, module and version |
| Planner.PlannedActions | app/modulecatalog/lifecycle_planner.go:96-117 | Every item of a replacement has one of the fixed actions that the key theorems are about |
| Planner.ReplacementLifecycleItems | app/modulecatalog/lifecycle_planner.go:96-117 | One item per forward command in order, with the action, command and key of each field by field, and the index of the one cutover |
| Planner.ReplacementRemovalPlan | app/modulecatalog/lifecycle_planner.go:69-94 | Planned exactly when the replacement plan is valid, removal is allowed by now or by emergency, and the target is listed: target install, forward commands, removal, with the rollback armed from the cutover |
| Planner.PlanLifecycle | app/modulecatalog/lifecycle_planner.go:51-67 | Exactly which requests are planned, and the plan of each: the items of all states in order or reversed, or of the one named, or the replacement removal around it; every item field by field |
| Planner.PlanIsAsAsked | app/modulecatalog/lifecycle_planner.go:51-117 | Each item of a plan has the requested action and the module's own command, check and key; a replacement removal installs the target, runs the five forward commands of the replacement and removes the module, with the rollback command armed from the cutover on |
| ReplacementPlans.Validate | app/modules/replacement.go:68-82 | Accepts exactly a plan bound to the module with a version text, an end of support after the announcement, the five phases in order and pinned commands |
| ReplacementPlans.MayRemoveMeaning | app/modules/replacement.go:68-155 | A removal is allowed if and only if, field by field, the plan is the module's own, its removal version is a release, its end of support lies behind the announcement and is reached or an emergency is approved, its phases are the five in order, and each of the six commands is not blank and has its digest on record |
| ReplacementPlans.ValidatePhases | app/modules/replacement.go:84-95 | True exactly for the five phases in their order |
| ReplacementPlans.ValidateCommandHashes | app/modules/replacement.go:97-108 | True exactly when no command is blank and the six recorded digests are theirs |
| ReplacementPlans.OwnHashesPin | app/modules/replacement.go:118-130 | A plan that records the digests it computes itself is pinned if and only if none of its commands is blank |
| ReplacementPlans.RecordPinsCommands | app/modules/replacement.go:97-108 | Two removals allowed under one record of digests have commands with equal digests |
| VersionParsing.ParseLifecycleVersion | app/modulecatalog/lifecycle_version_policy.go:145-167 | The parsing loop computes the numbers of a version, and an error for every other text |
| VersionParsing.ParsedMeaning | app/modulecatalog/lifecycle_version_policy.go:145-167 | A text parses to a sequence of numbers if and only if, blanks and a leading 'v' aside and up to the first '+', it has no dash and its parts between the dots are those numbers in decimals, each below 2 to the power 63, or blank for zero |
| VersionPolicy.EqualizeVersionParts | app/modulecatalog/lifecycle_version_policy.go:134-143 | Both sequences padded with zeros to the longer length |
| VersionPolicy.CompareVersions | app/modulecatalog/lifecycle_version_policy.go:113-132 | The comparison loop computes the comparison of the parsed versions, errors first |
| VersionPolicy.CompareIsLexicographic | app/modulecatalog/lifecycle_version_policy.go:113-132 | The comparison is lexicographic order on zero-extended number sequences, in both directions |
| VersionPolicy.CompareIsTotalPreorder | app/modulecatalog/lifecycle_version_policy.go:113-132 | A total preorder, transitive across three different lengths |
| VersionPolicy.ZerosAtEnd | app/modulecatalog/lifecycle_version_policy.go:134-143 | Zeros at the end of a version make no difference |
| VersionPolicy.VersionSatisfies | app/modulecatalog/lifecycle_version_policy.go:54-87 | A constraint list is satisfied if and only if it is blank, or it has parts and the version fits each; an error exactly if it has no parts or one cannot be compared while all before it fit |
| VersionPolicy.SingleMeaning | app/modulecatalog/lifecycle_version_policy.go:77-111 | One part: answered if and only if version and target can be read, and fitting if and only if the version is not below the target for ">=", not above it for "<=", above it for ">", below it for "<", and the same for "=" and for no operator |
| VersionPolicy.SatisfiesMeaning | app/modulecatalog/lifecycle_version_policy.go:54-75 | All parts together, the parts being the texts between commas and white space |
| VersionPolicy.SatisfyingVersionsAreConvex | app/modulecatalog/lifecycle_version_policy.go:54-87 | Between two versions that satisfy a constraint list every parsable version satisfies it |
| VersionConstraints.ValidateVersionConstraints | app/modulecatalog/lifecycle_version_policy.go:12-52 | No error exactly when every required dependency of every state is listed in a version that fits; otherwise exactly the failing module and dependency pairs |
| VersionConstraints.ConstraintsMeanMet | app/modulecatalog/lifecycle_version_policy.go:12-52 | With distinct ids that is so if and only if each required dependency is met by a listed module of its id whose version fits every part of its constraint |
| ModuleIndex.EqualDependenciesMeaning | app/moduleadmission/resolver.go:121-135 | equalDependencies implies equal multisets, and is equality as multisets when ids are distinct |
| ModuleIndex.AgreementMeaning | app/moduleadmission/resolver.go:43-49 | A present source lets an entry through only if the last source under the entry's key says the same of id, version, import path, module path and dependencies, or no source has its key or id; for distinct dependency ids exactly if |
| VersionPattern.VersionTextMeaning | app/moduleadmission/contracts.go:12 | The version patterns accept exactly three numbers between dots, behind an optional 'v', with an optional suffix of letters, digits, dots and dashes behind one of the separators |
| Resolver.BuildIndex | app/moduleadmission/resolver.go:10-19 | The index and source lookups, last entry winning; what they look up is stated on the lists |
| Resolver.IndexMeaning | app/moduleadmission/resolver.go:9-49 | The entry under a key is the last one listed with it, the exact versions are those of the pattern, and the entries that agree are those that the sources let through |
| Resolver.Selection.Visit | app/moduleadmission/resolver.go:23-67 | One visit keeps the walk's invariant and settles the reference, or its error is true of the closure |
| Resolver.Selection.SelectAll | app/moduleadmission/resolver.go:68-72 | After the loop every request is settled, or the error is true of the closure |
| Resolver.DependencyOrdered | app/moduleadmission/resolver.go:137-173 | The second walk lists the selection in post-order, or fails on a cycle |
| Resolver.Resolve | app/moduleadmission/resolver.go:9-94 | Succeeds exactly when the closure of the requests exists with exact versions, matching sources, one version per id and no cycle; returns exactly that closure, required dependencies first, every entry one of the index that agrees with the sources; an error names an inexact version, a conflict, a cycle, a missing entry or a disagreeing source of the closure |
| Resolver.RefusalIsRight | app/moduleadmission/resolver.go:26-67 | Each such error is a reason why the closure is not admissible |
| Resolver.RequestOrderIsIrrelevant | app/moduleadmission/resolver.go:9-94 | Neither the outcome nor the sequence depends on order or repetition in the requests |
| Ordering.LessMeaning | app/moduleadmission/resolver.go:78-83 | The order of texts: decided by the first character that differs, and a text comes before its continuations |
| LicenseExpression.SplitTopLevelLoop | scripts/license_policy_rules.py:60-73 | The loop computes the split at depth zero |
| LicenseExpression.StripParenthesesLoop | scripts/license_policy_rules.py:76-88 | The loop strips exactly the pairs that enclose everything |
| LicenseExpression.StripMeaning | scripts/license_policy_rules.py:76-88 | For every token list: stripping takes away pairs that enclose everything, from the outside in, until the first and the last token are no such pair |
| LicenseExpression.SpacedMeaning | scripts/license_policy_rules.py:104 | The id of a licence is its tokens with one blank between any two |
| LicenseExpression.AllowedIffNoFindings | scripts/license_policy_rules.py:91-106 | For every token list, balanced or not: allowed exactly when there are no findings |
| LicenseExpression.VerdictOneLevel | scripts/license_policy_rules.py:91-106 | OR is some operand, AND is every operand, a leaf is its licence, for every token list |
| LicenseExpression.WideningKeepsAllowed | scripts/license_policy_rules.py:91-106 | Widening the allowed set never turns an allowed expression into a refused one |
| LicenseSemantics.SplitOperands | scripts/license_policy_rules.py:60-73 | Splitting a printed expression at its own operator gives its operands |
| LicenseSemantics.StripGivesCore | scripts/license_policy_rules.py:76-88 | Stripping a printed expression gives its inside |
| LicenseSemantics.EvaluateMeetsGrammar | scripts/license_policy_rules.py:91-106 | For every expression printed with at least the needed parentheses the verdict is its truth value, AND binding tighter than OR (SPDX 2.3 Annex D.4.5), and the findings are the refusals that explain it |
| LicenseSemantics.PrintThenEvaluate | scripts/license_policy_rules.py:91-106 | Every expression tree can be printed, and evaluating the print gives the tree's value |
| CloneWindows.MakeCloneWindow | scripts/module-governance-baseline/clone.go:59-78 | A window's lines, line numbers, length and digest are those of its eight lines |
| CloneWindows.TextLengthMeaning | scripts/module-governance-baseline/clone.go:59-66 | The length of some lines is the sum of the lengths of their texts |
| CloneWindows.CollectCloneWindows | scripts/module-governance-baseline/clone.go:44-57 | Exactly the windows of eight lines and at least eighty characters, each under its own digest |
| CloneWindows.OverlapsWindow | scripts/module-governance-baseline/clone.go:127-134 | Whether some chosen window overlaps |
| CloneWindows.NonOverlappingWindows | scripts/module-governance-baseline/clone.go:110-125 | Chosen windows do not overlap; every dropped one overlaps a chosen one that does not come after it |
| CloneWindows.SelectionIsLeftmost | scripts/module-governance-baseline/clone.go:110-134 | In terms of lines: no two chosen windows share one, they are in order of path and line, and each window left out begins on a line of a chosen one that starts above it |
| CloneWindows.SelectionKeepsAPair | scripts/module-governance-baseline/clone.go:83-88 | At least two windows are chosen exactly when two of the windows do not overlap |
| ClonePositions.LastPlaces | scripts/module-governance-baseline/clone.go:168-172 | The formatted index is the number in exactly ten decimal places |
| ClonePositions.LaterStartHasGreaterKey | scripts/module-governance-baseline/clone.go:160-172 | A group that starts later in the same first file has a greater position key |
| CloneMerge.GroupPositionKey | scripts/module-governance-baseline/clone.go:160-166 | The loop computes the position key |
| CloneMerge.BelowIsLater | scripts/module-governance-baseline/clone.go:136-139 | After sorting, a group lying below another one comes behind it |
| CloneMerge.AdjacentGroupIndex | scripts/module-governance-baseline/clone.go:174-193 | The first unused adjacent group, or none |
| CloneMerge.ExtendCloneGroup | scripts/module-governance-baseline/clone.go:195-203 | Extending in place grows every location by one line with its exact length |
| CloneMerge.GrowGroup | scripts/module-governance-baseline/clone.go:147-154 | The inner loop follows a chain of groups one line apart until nothing unused continues it |
| CloneMerge.MergeAdjacentGroups | scripts/module-governance-baseline/clone.go:136-158 | Every block is a real clone; every group goes into exactly one block though the loop never marks its own start as used; no group continues a block |
| CloneMerge.CloneGroupBlock | scripts/module-governance-baseline/clone.go:205-215 | A block reports its group's locations in order and the first location's length |
| CloneMerge.GrownIsReal | scripts/module-governance-baseline/clone.go:195-215 | All locations of a merged block are equal line for line, and its size is the exact length of the run at every location |
| CloneDetection.BuildGroups | scripts/module-governance-baseline/clone.go:80-88 | One group for each duplicated content |
| CloneDetection.DetectClones | scripts/module-governance-baseline/clone.go:36-42 | A block is reported exactly when some content is duplicated on different lines; every duplicated content is in exactly one block, with the leftmost choice among all its windows as locations |

## Left out

- ExecutionProtocol.CommandsNeverOverlap: assumes that no active execution loses its row, because a runner cannot be stopped when its lease is lost; `TimedRuns.TimedRunNeverLapses` derives that from a timing that fits the TTL.
- ExecutionProtocol.RecordedOutcomeIsFinal: assumes the same, and that an idempotency key names its module.
- LeaseContinuity.RenewalsNeverLate: a store's renewal is taken to be done by the deadline of its context or to fail. The in-memory store does not look at its context, so a renewal there could commit later; nothing is promised then.
- LeaseContinuity.HeldIffFits: speaks of histories in which no renewal reports an error, and takes as bounds the times that the code does not limit: between the commands (the security gate included), of the hand-over and of a late completion.
- TimedRuns.TimedRunNeverLapses: a renewal before a command may fail, the goroutine's may be cancelled, the watcher's does not fail: after that the watcher stops and the lease is given up with the runner at work.
- Executor.LifecycleExecutor.ExecuteItem: stores, runner and gate answer nondeterministically; that a runner's or a store's own error is never a still-running error is taken from the error type being private to the package.
- Executor.LifecycleExecutor.WatchLateRunner: takes the finite sequence of events the watcher has seen so far, so it says nothing about a watcher that waits for ever.
- RenewalChannel.CallCanReturn: a return is always possible within six steps; that the scheduler takes those steps is not modelled.
- SqlLock.StatementRefinesAtomicStep: each SQL statement is atomic, and one that reports an error had no effect; a write whose reply was lost is not modelled.
- CloneMerge.MergeAdjacentGroups: needs line indexes below ten to the power ten, the width of the position key; longer files would break its order.
- CloneDetection.DetectClones: the final sort of the blocks, the sample texts and the count of duplicated lines are not modelled; the digest is taken as injective.
- Resolver.Resolve: two dependency lists that repeat an id are compared by a stable sort, where the source's sort is not stable, so for such lists its answer is not modelled; ids and versions are taken as trimmed, and the index as normalised (exact versions only); digests and JSON of the result are not modelled.
- ReplacementPlans.Validate: the digest of a command text is a parameter, and each refusal is one "no" without its message.
- VersionConstraints.ValidateVersionConstraints: an error is the module and the dependency it is about, without its message.
- ModuleListings.AlwaysCoversIffHarmless: the "only if" half needs distinct ids; for repeated ids `RegistryKernel.CoversIffNothingHidden` is the exact statement.
- UnrecordedSuccess.RunsOnceIffNothingShared: counts the commands that ended while executeItem waited for them; a late runner ends after its execution's last command.
- LoggedRuns.LogStepIsProtocolStep: a renewal that reports an error had no effect; other failing calls may have had one.
- DbStore.DBLifecycleStore.DeleteObservedStaleLocks: a clean-up transaction is one atomic step after its rows are locked.
- Time is one monotone clock shared by all executors; timestamp precision and clock skew are not modelled.
- Sorting by a comparator is modelled as a stable sort; the theorems that need a unique result prove that the keys are distinct, except for the dependencies that `ModuleIndex.EqualDependencies` compares.
- The contents of state records, step outputs and their truncation, and `UpsertState` beyond the fact that it is called and may fail.
- The security gate's approvals and re-authentication: the gate runs the mutation and returns its error, or refuses.
- The licence tokenizer (tokens are taken to carry no outer white space) and everything in the policy script beyond splitting, stripping and evaluating; normalising source lines before clone detection.
- White space is the six ASCII space characters and case folding is ASCII; command texts are compared as characters.
- Migrations, seeders, list queries, HTTP handlers, the admission pipeline around resolution and the web front end.
