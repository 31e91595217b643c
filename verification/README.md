# Verified model of n8n's execution lifecycle and the stateful parts around it

This project models the parts of n8n's backend whose correctness does not show in any single function, and
proves what they keep over every input, every run and every interleaving. `dafny verify dfyconfig.toml`
checks all of it.

| file | models |
|---|---|
| `ResumeProtocol.dfy` | resuming a waiting parent: children, timers and retries race on the parent's row |
| `WaitTracking.dfy` | the timer table of `WaitTracker` across polls, starts and leadership terms, and `withRetry` |
| `ActiveExecutions.dfy` | the table of active executions, settle-once promises and concurrency slots, as a step system |
| `ExecutionTable.dfy` | the same as an object with mutable fields, each method proved to take its step; shutdown |
| `CredentialTypes.dfy` | `getParentTypes`, which appends to the list it iterates over |
| `CredentialsOverwrites.dfy` | overwrite resolution with its partial memo, persistence and application |
| `CredentialRepair.dfy` | `replaceInvalidCredentials` with its two caches |
| `Webhooks.dfy`, `WebhookRaces.dfy` | webhook registration with rollback, and the same database accesses interleaved |
| `ActivationQueue.dfy` | the activation retry queue, its backoff and its timers |
| `Deadlines.dfy` | soft deadlines of nested workflows and the hard stop of resumed runs |
| `Deduplication.dfy`, `NodeGroups.dfy` | item deduplication and node group validation |
| `Basics.dfy` | small notions shared by the others |

Two kinds of model are used. Code that interleaves at `await` becomes a step system: a `State`, a `Step`, a
predicate `Enabled` and a function `Apply`; a run is any legal sequence of steps, and the theorems quantify over
all of them. Code that updates an object in place becomes a class whose methods are proved against functions or
steps. Fields called history in the comments (`origin`, `readIn`, `touched`, `patchedIn`, the log of resumes)
only record what happened; no step looks at them.

## What the proofs say about the code

Where a promise of the code or its comments does not hold in general, the model keeps the code as it is, shows an
input or a run on which the promise fails, and proves the exact condition under which it holds.

- *Resuming on old input.* No wait is ever resumed twice. But the compare-and-set looks at the status only, so a
  party that read the row during an earlier wait can end a later one on the earlier stack (`LateCompareAndSet`),
  and a child's late patch can put the earlier stack back (`LatePatch`). A waiting parent is safe from this exactly
  when no copy of its row from before the wait is still held or was written back
  (`FreshExactlyWhenNothingHeldOver`).
- *Resuming without a result.* A child that finishes before its parent waits skips its patch, yet can end the wait
  without its result (`EarlyChild`). A winner that carried output or an error is sure to resume the parent on some
  child's output or error exactly when the parent has a stack to patch and no child with a result stands past its
  patch, holding or about to read a stack that shows none (`CarriedExactly`).
- *Timers across leadership terms.* `stopTracking` disarms timers and keeps their entries, and a poll skips
  executions that have an entry. After regaining leadership such an execution is not resumed by this process
  for as long as nothing else starts or stops it (`LostExactly`, `TermTracksExactly`). Likewise an execution
  that was resumed by other means and waits again keeps its first timer, which then ends the second wait early
  (`EarlyTimer`); no timer ends a wait early exactly when none left from before is due earlier
  (`NeverEarlyExactly`).
- *The concurrency limit.* `ConcurrencyQueue.remove` returns capacity the removed call never held and lets the next
  call in as well; the limit survives exactly when nobody else was throttled (`RemoveKeepsLimitExactly`), and a run
  that exceeds it exists for every limit (`OverAdmission`).
- *Slots lost for good.* A run is marked `waiting` in memory while it still goes on, before its promise is resolved.
  Stopping it in between deletes its entry and so loses its slot (`StopWhileTurningWaiting`); so does a resume that
  finds the row `waiting` and registers over the open entry (`ResumeBeforeFinalize`). Over every run the slots that
  are never returned are exactly those of limited executions whose open entry some step displaced
  (`SlotConservation`, `NoSlotLostExactly`).
- *Webhook ownership.* The insert is guarded by the primary key, but refreshing an own row is a check followed by an
  unguarded update. Ownership is safe until the next removal exactly when no registration stands between the two
  with its row gone or taken (`OwnersSafeExactly`, with a run in `StolenKey`). A removal deletes by key, so of two
  overlapping removals the slower one can delete another workflow's new row (`RobbedKey`); removals stay with their
  own rows exactly as long as nobody inserts a key that another workflow's removal has found (`FindsHoldExactly`).
- *Credential repair.* The caches are invisible exactly when no unresolvable id is used with two names
  (`CachesInvisibleExactly`). Even when they show, a second pass changes nothing.
- *Node groups.* The test for an earlier group treats an empty group name as no group, so a node of an unnamed group
  may be listed again; acceptance is characterised exactly, and for named groups it is disjointness.
- *Deadlines.* With a maximum of zero or less the main process applies no limit at all, whereas sub-workflows read
  it as "no maximum"; the two formulas agree exactly when the maximum is positive or no timeout is requested.
- *Activation retries.* A retry that fails after its entry was removed makes its own error handler throw, and one that
  overlaps a re-queueing arms a second timer (`OverlappingRetry`); the single-timer property is proved with its exact
  condition.
- *Shutdown.* Once every entry is cancelled the table drains, whatever else goes on, as long as no add in flight
  registers and no entry turns to waiting; these two are exactly the steps that spoil it (`DrainStep`). `removeAll`
  follows `disable`, which makes it return at once, so it takes no part in the model.

## Model

| member | source | states |
|---|---|---|
| ResumeProtocol.OneResumePerWaitStep | packages/cli/src/active-executions.ts:112-141 | every database access by anybody keeps: resumes belong to different waits, and a wait that is still on has none |
| ResumeProtocol.ResultsThatShow | packages/cli/src/workflow-helpers.ts:447-449 | a result is worth a patch exactly if it is an output or an error |
| ResumeProtocol.PatchShows | packages/cli/src/workflow-helpers.ts:460-486 | a child's patch keeps the node of the first stack entry and the rest of the stack, and leaves that child's output, or its error with a link to the child, in the first entry |
| ResumeProtocol.PatchTraced | packages/cli/src/workflow-helpers.ts:467-481 | an output leaves error and link as they were, an error leaves the data |
| ResumeProtocol.RowOkStep | packages/cli/src/workflow-helpers.ts:442-487 | after any step the row's stack is that of some wait but for the data of its first entry, and a waiting row that a child has written to shows some child's result, also when updates were lost |
| ResumeProtocol.BystanderOk | packages/cli/src/wait-tracker.ts:191-226 | what one party does to the row does not upset what another has read |
| ResumeProtocol.MoverOk | packages/cli/src/wait-tracker.ts:235-249 | a party that reads, writes, fails or retries holds a copy as good as the row it read |
| ResumeProtocol.ConsistentStep | packages/cli/src/wait-tracker.ts:120-226 | all of that is kept by every step of every interleaving |
| ResumeProtocol.RunKeeps | packages/cli/src/wait-tracker.ts:120-226 | and therefore by every run |
| ResumeProtocol.ResumeSafety | packages/cli/src/wait-tracker.ts:191-226 | from the start, over every run: no wait is resumed twice, a resumed stack differs from a wait's stack in its first entry only, a child that patched and re-read during the wait resumes the parent on some child's result, and so does every winner with a result if each wait begins with a stack and with nobody past its patch who would resume it without one |
| ResumeProtocol.TracedStep | packages/cli/src/workflow-helpers.ts:442-487 | every step keeps: in the row, in every held copy and in every resumed stack the first entry has the wait's node, and its data and its error with link are the wait's own or some child's |
| ResumeProtocol.ResumesAreTraced | packages/cli/src/workflow-helpers.ts:442-487 | over every run, whatever the parent is resumed with is made of its wait's stack and of children's results in that way |
| ResumeProtocol.LaterAttemptsRefused | packages/cli/src/wait-tracker.ts:154-168 | once a wait was resumed every further compare-and-set of that wait is refused, changes nothing, and ends its party without a retry |
| ResumeProtocol.RunLogsThisWait | packages/cli/src/active-executions.ts:127-136 | whatever happens within one wait adds only resumes of that wait, one for each party that starts the parent |
| ResumeProtocol.OneStarterPerWait | packages/cli/src/active-executions.ts:112-141 | any number of children, timers and retries within one wait start the parent at most once, and not at all if it was not waiting |
| ResumeProtocol.AgentsEnd | packages/cli/src/wait-tracker.ts:235-249 | each step of a party uses up a finite budget that nobody else touches |
| ResumeProtocol.BudgetBoundsSteps | packages/cli/src/wait-tracker.ts:201-219 | over every run a party's steps and its budget at the end add up to no more than its budget at the start |
| ResumeProtocol.AttemptsEnd | packages/cli/src/wait-tracker.ts:191-226 | in every run every attempt ends: a child makes at most 12 database accesses, a timer at most 2 |
| ResumeProtocol.AllAttemptsUsed | packages/cli/src/wait-tracker.ts:201-219 | the bound is met by a run in which the parent goes on waiting |
| ResumeProtocol.RetriesExactly | packages/cli/src/wait-tracker.ts:240-248 | a failed access leaves the row alone, and its half is tried again unless it was the last of three attempts or the error is not worth it |
| ResumeProtocol.CommittedDespiteError | packages/cli/src/wait-tracker.ts:154-168 | an error seen after a write does not undo it |
| ResumeProtocol.PatchesExactly | packages/cli/src/workflow-helpers.ts:447-465 | a child goes on to patch if and only if it has a result and reads a waiting parent with a stack, and else goes on to start it |
| ResumeProtocol.ResumeIsWritten | packages/cli/src/active-executions.ts:119-131 | a successful compare-and-set leaves the resumed stack in the row; whoever reads a finished parent gives up |
| ResumeProtocol.ParentWritesRow | packages/cli/src/executions/execution-persistence.ts:134-163 | a run that ends writes its status, and its stack if it waits |
| ResumeProtocol.EndedStaysEnded | packages/cli/src/wait-tracker.ts:130-135 | a parent that has ended is never resumed again, in any run |
| ResumeProtocol.NothingHeldOverStays | packages/cli/src/wait-tracker.ts:120-168 | with no copy held over from before the wait, whoever ends the wait does so on a copy from this wait |
| ResumeProtocol.StaleCopyEndsWait | packages/cli/src/active-executions.ts:119-131 | any copy held over can end the wait on an earlier wait's stack |
| ResumeProtocol.FreshExactlyWhenNothingHeldOver | packages/cli/src/active-executions.ts:119-136 | exact condition: every continuation resumes the present wait's stack if and only if nothing is held over |
| ResumeProtocol.FreshResume | packages/cli/src/workflow-helpers.ts:426-487 | then the resumed stack is that of this wait with at most its first entry changed, and carries some child's result if the winner's patch arrived in this wait, or if the winner had a result and nobody stood past its patch without one |
| ResumeProtocol.CarriesStep | packages/cli/src/workflow-helpers.ts:442-487 | as long as the parent waits, every step keeps: there is a stack, and no child with a result past its patch holds or is about to read one without a child's result |
| ResumeProtocol.CarriedInRun | packages/cli/src/wait-tracker.ts:191-226 | over every run whose waits begin so, every winner with a result resumes the parent on some child's output or error |
| ResumeProtocol.AgentEndsWithoutResult | packages/cli/src/wait-tracker.ts:120-168 | any child with a result past its patch that holds, or can still read, a stack without one can end the wait on it |
| ResumeProtocol.CarriedExactly | packages/cli/src/workflow-helpers.ts:426-487 | exact condition: every continuation of the wait in which a party with output or an error wins resumes on some child's output or error if and only if there is a stack to patch and no such child |
| ResumeProtocol.LateCompareAndSet | packages/cli/src/active-executions.ts:127-131 | a run of two timers in which the second wait is ended on the first wait's stack |
| ResumeProtocol.LatePatch | packages/cli/src/workflow-helpers.ts:451-486 | a run in which a late patch puts the first wait's stack back and the second wait is ended on it |
| ResumeProtocol.EarlyChild | packages/cli/src/workflow-helpers.ts:456-458 | a run in which a child finishes before its parent waits and ends the wait without its result |
| WaitTracking.TrackAllPolled | packages/cli/src/wait-tracker.ts:82-110 | a poll adds one timer, due when its row says, for each listed execution without an entry, and disturbs nothing else |
| WaitTracking.PollTracksExactly | packages/cli/src/wait-tracker.ts:98-109 | a poll leaves all its executions with a timer that will fire if and only if none of them had an entry whose timer is gone |
| WaitTracking.StaleStep | packages/cli/src/wait-tracker.ts:252-261 | stepping down after having polled makes every entry stale; no other step makes any |
| WaitTracking.TermTracksExactly | packages/cli/src/wait-tracker.ts:70-110 | every poll of the rest of a term gives all its executions a timer if and only if the term began without stale entries |
| WaitTracking.LostNeverFires | packages/cli/src/wait-tracker.ts:98-118 | over every run of polls, takeovers and other executions' steps, a stale execution without a left-over timer is never started |
| WaitTracking.LostExactly | packages/cli/src/wait-tracker.ts:62-118 | exact condition: some run left to itself starts the execution if and only if it is not a stale entry without a left-over timer |
| WaitTracking.LostAcrossTerms | packages/cli/src/wait-tracker.ts:70-80 | polling, stepping down and taking over again loses a single waiting execution |
| WaitTracking.StopDisarms | packages/cli/src/wait-tracker.ts:112-118 | stopping disarms the timer on record and no other and removes that entry and no other |
| WaitTracking.StartKeepsTimers | packages/cli/src/wait-tracker.ts:104-122 | starting leaves every timer armed; a fired timer alone is spent |
| WaitTracking.StepDownExactly | packages/cli/src/wait-tracker.ts:252-261 | stepping down disarms exactly the timers on record and keeps every entry |
| WaitTracking.NoTimerNeverFires | packages/cli/src/wait-tracker.ts:98-122 | over every run that does not poll it, an execution without a timer is not started |
| WaitTracking.StoppedExactly | packages/cli/src/wait-tracker.ts:112-118 | a stopped execution is started by a timer, in some run that does not poll it again, if and only if another timer was left over; a later poll makes it startable again |
| WaitTracking.TimersNotEarly | packages/cli/src/wait-tracker.ts:100-108 | if no execution changes the instant it waits for, no timer of any run is due before it |
| WaitTracking.OnTimeNeverEarly | packages/cli/src/wait-tracker.ts:98-109 | over every run whose polls list the execution with one instant, timers due at or after it stay so |
| WaitTracking.NeverEarlyExactly | packages/cli/src/wait-tracker.ts:98-109 | exact condition, for one execution whatever the others do: no run starts it by a timer due before the instant it waits for if and only if no timer armed now is due before that instant |
| WaitTracking.EarlyTimer | packages/cli/src/wait-tracker.ts:100-108 | an execution that waits again until later keeps its earlier timer |
| WaitTracking.WaitTracker.constructor | packages/cli/src/wait-tracker.ts:41-46 | the tracker begins empty |
| WaitTracking.WaitTracker.StartTracking | packages/cli/src/wait-tracker.ts:71-80 | taking over sets the main timer |
| WaitTracking.WaitTracker.GetWaitingExecutions | packages/cli/src/wait-tracker.ts:96-109 | the loop takes exactly the poll step |
| WaitTracking.WaitTracker.StopWaiting | packages/cli/src/wait-tracker.ts:112-118 | the execution's entry goes and its timer is disarmed, every other live entry stays live |
| WaitTracking.WaitTracker.Start | packages/cli/src/wait-tracker.ts:120-122 | the entry goes, whatever timer it had stays armed |
| WaitTracking.WaitTracker.FireTimer | packages/cli/src/wait-tracker.ts:104-106 | the fired timer is spent and its execution loses its entry |
| WaitTracking.WaitTracker.StopTracking | packages/cli/src/wait-tracker.ts:252-261 | every timer on record is disarmed and every entry is left stale |
| WaitTracking.WaitTracker.WithRetry | packages/cli/src/wait-tracker.ts:235-249 | all attempts but the last failed and were worth retrying, the last succeeded or was the last allowed or not worth retrying; total sleep in closed form |
| ActiveExecutions.ReserveConserves | packages/cli/src/concurrency/concurrency-queue.ts:21-32 | a reservation, throttled or not, keeps capacity, held slots and throttled calls adding up to the limit |
| ActiveExecutions.ReleaseConserves | packages/cli/src/concurrency/concurrency-capacity-reservation.ts:23-36 | so does returning a slot, which admits the next throttled call |
| ActiveExecutions.RemoveQueuedConserves | packages/cli/src/concurrency/concurrency-queue.ts:44-54 | and so does taking a throttled call out |
| ActiveExecutions.SlotsConservedStep | packages/cli/src/active-executions.ts:68-179 | every step keeps the sum, and every queued token is a distinct throttled call |
| ActiveExecutions.AdmitsStep | packages/cli/src/concurrency/concurrency-queue.ts:21-42 | all steps but a removal keep: calls are throttled only when capacity is used up |
| ActiveExecutions.RemoveKeepsLimitExactly | packages/cli/src/concurrency/concurrency-queue.ts:44-74 | removing a throttled call keeps the limit if and only if nobody else was throttled |
| ActiveExecutions.OverAdmission | packages/cli/src/executions/execution.service.ts:636-640 | for every limit a run of reservations and one removal that exceeds it |
| ActiveExecutions.ReserveAdmitsExactly | packages/cli/src/concurrency/concurrency-queue.ts:21-32 | a call is let in at once unless it is limited, the limit is in force and no capacity is left; else it queues up last |
| ActiveExecutions.FailedAddReturnsSlot | packages/cli/src/active-executions.ts:138-141 | a failed call's slot goes to the first in the queue, or back to the capacity |
| ActiveExecutions.NoOvertakingStep | packages/cli/src/concurrency/concurrency-queue.ts:38-74 | after any step, whoever was behind a call that is still throttled is throttled behind it, or was dropped |
| ActiveExecutions.NoOvertaking | packages/cli/src/concurrency/concurrency-queue.ts:38-74 | over every run throttled calls are let in first come, first served |
| ActiveExecutions.RemoveDropsExactly | packages/cli/src/concurrency/concurrency-queue.ts:44-54 | a removal drops the first throttled call of the execution and no other |
| ActiveExecutions.NobodyAdmittedAfterDisable | packages/cli/src/active-executions.ts:327-331 | once disabled for shutdown, no run lets a throttled call in |
| ActiveExecutions.TableStep | packages/cli/src/active-executions.ts:143-238 | entries come by registration and go by stopping a waiting one or cleaning up an ended record, and by no other step |
| ActiveExecutions.NewRecord | packages/cli/src/active-executions.ts:145-156 | records come into being by registration only, open and running |
| ActiveExecutions.InvStep | packages/cli/src/active-executions.ts:62-310 | every step, without exception, keeps: slots add up, entries belong to their execution, only settled records are cleaned up |
| ActiveExecutions.RunKeepsInv | packages/cli/src/active-executions.ts:62-310 | so it holds in every state that any run reaches |
| ActiveExecutions.SlotConservation | packages/cli/src/active-executions.ts:68-174 | over every run: the limit splits exactly into capacity, held slots and throttled calls, and the slots are held by exactly the adds in flight, the unsettled entries, the settled records due for cleanup and the limited records that some step displaced while open |
| ActiveExecutions.HoldersSplit | packages/cli/src/active-executions.ts:158-174 | every held slot will be returned or is lost, and not both |
| ActiveExecutions.NoSlotLostExactly | packages/cli/src/active-executions.ts:68-238 | every held slot will be returned if and only if no step of the run displaced an open entry of a limited execution |
| ActiveExecutions.LimitHolds | packages/cli/src/concurrency/concurrency-control.service.ts:173-188 | without removals from the queue no run exceeds the limit |
| ActiveExecutions.RecordStep | packages/cli/src/active-executions.ts:145-174 | no step changes a record's execution, start time or outcome; it is cleaned once, by its own cleanup, after it settled |
| ActiveExecutions.FirstSettlementWins | packages/cli/src/active-executions.ts:211-260 | over every run the first settlement is the outcome, and a cleaned record is never cleaned again nor holds a slot |
| ActiveExecutions.EndReturnsTheSlotExactly | packages/cli/src/active-executions.ts:158-260 | finalizing or stopping, whatever the status, leaves the record due for a cleanup that gives its slot up, with this outcome unless it was settled before, if and only if it is not stopped while waiting and open |
| ActiveExecutions.CleanupIsExact | packages/cli/src/active-executions.ts:158-174 | cleanup of a waiting record changes no entry; of any other it removes its execution's entry and response mode, which is another record's exactly when that one was registered over it |
| ActiveExecutions.EntryLeavesExactly | packages/cli/src/active-executions.ts:158-238 | an entry leaves if and only if it is stopped while waiting or an ended record of its execution is cleaned up |
| ActiveExecutions.EntryKeepsItsOrigin | packages/cli/src/active-executions.ts:145-174 | over any number of waits and resumes without such a step an entry survives with its start time, and with its response promise unless one is attached |
| ActiveExecutions.RegisterStarts | packages/cli/src/active-executions.ts:143-156 | a registered call is its execution's running entry, started now and without response promise unless it resumes one |
| ActiveExecutions.StatusIsFound | packages/cli/src/active-executions.ts:308-314 | a status set is found until it is set again, or the execution is resumed or leaves |
| ActiveExecutions.AttachedIsFound | packages/cli/src/active-executions.ts:189-194 | a response promise attached is found after any number of waits and resumes |
| ActiveExecutions.ResponseModeStep | packages/cli/src/active-executions.ts:316-322 | a response mode is set by its own call and goes exactly when an entry of its execution would |
| ActiveExecutions.StrandsExactly | packages/cli/src/active-executions.ts:143-238 | a step strands exactly the open entry it displaces: one stopped while it says waiting, one registered over, or one whose execution has another, ended record that is cleaned up |
| ActiveExecutions.StrandedInRun | packages/cli/src/active-executions.ts:143-260 | over every run the stranded records are exactly those that some step displaced |
| ActiveExecutions.StrandedForEver | packages/cli/src/active-executions.ts:158-174 | a stranded record keeps its slot in every continuation |
| ActiveExecutions.StopWhileTurningWaiting | packages/core/src/execution-engine/node-execution-context/base-execute-context.ts:112-117 | a run that strands a slot by a stop between the status and the promise |
| ActiveExecutions.ResumeBeforeFinalize | packages/cli/src/active-executions.ts:127-156 | a run that strands a slot by a resume that registers over the open entry |
| ExecutionTable.StuckExactly | packages/cli/src/active-executions.ts:308-310 | an entry gets beyond every cleanup exactly when a status other than waiting is set on it after it was cleaned up while waiting |
| ExecutionTable.StopMakesLeave | packages/cli/src/active-executions.ts:211-238 | a stopped execution is gone, or settled with its cleanup due, unless it is stuck; no other entry is affected |
| ExecutionTable.StopAllMakesLeave | packages/cli/src/active-executions.ts:334-342 | so is every execution after the cancelling pass, in any order |
| ExecutionTable.DrainStep | packages/cli/src/active-executions.ts:346-357 | with all entries leaving, a step of whatever else goes on keeps them so if and only if no add in flight registers and no entry turns to waiting by it, and then changes the due cleanups only by running one and brings no entry back |
| ExecutionTable.DrainRun | packages/cli/src/active-executions.ts:346-357 | over every run of such steps the due cleanups are those not run yet, and the table is empty once all have |
| ExecutionTable.AllDone | packages/cli/src/active-executions.ts:158-174 | every entry left has its cleanup due |
| ExecutionTable.Executions.constructor | packages/cli/src/active-executions.ts:44-57 | the table begins empty with all capacity free |
| ExecutionTable.Executions.AdmitNext | packages/cli/src/concurrency/concurrency-queue.ts:64-74 | the first throttled call goes on, so that nobody overtakes |
| ExecutionTable.Executions.Release | packages/cli/src/concurrency/concurrency-control.service.ts:183-188 | a slot is returned and passed on unless the queue is disabled or the mode has none |
| ExecutionTable.Executions.ReserveCapacity | packages/cli/src/active-executions.ts:104-117 | takes exactly the reservation step; the call goes on if and only if it was admitted |
| ExecutionTable.Executions.AbandonAdd | packages/cli/src/active-executions.ts:127-141 | takes exactly the failure step, returning the slot |
| ExecutionTable.Executions.EnterIntoTable | packages/cli/src/active-executions.ts:143-156 | takes exactly the registration step, inheriting start time and response promise |
| ExecutionTable.Executions.FinalizeExecution | packages/cli/src/active-executions.ts:241-260 | settles a known execution with its run data unless settled, ignores others |
| ExecutionTable.Executions.StopExecution | packages/cli/src/active-executions.ts:211-238 | removes a waiting entry, rejects any other unless settled, ignores unknown ones |
| ExecutionTable.Executions.RunCleanup | packages/cli/src/active-executions.ts:158-174 | takes exactly the cleanup step |
| ExecutionTable.Executions.SetExecutionStatus | packages/cli/src/active-executions.ts:308-310 | takes exactly the status step, while the run goes on; fails for unknown executions |
| ExecutionTable.Executions.AttachResponsePromise | packages/cli/src/active-executions.ts:189-194 | takes exactly the attaching step; fails for unknown executions |
| ExecutionTable.Executions.FindThrottled | packages/cli/src/concurrency/concurrency-queue.ts:44-45 | finds the first throttled call of the execution |
| ExecutionTable.Executions.RemoveThrottled | packages/cli/src/concurrency/concurrency-queue.ts:44-54 | takes exactly the removal step when there is such a call, otherwise changes nothing |
| ExecutionTable.Executions.CancelAll | packages/cli/src/active-executions.ts:325-342 | after the cancelling pass all entries left are leaving if and only if none was stuck before, and no entry is new |
| ExecutionTable.Executions.CleanRecord | packages/cli/src/active-executions.ts:164-165 | the record is marked and its slot passed on |
| ExecutionTable.Executions.Perform | packages/cli/src/active-executions.ts:62-310 | each step of the step system is taken by the method that does it |
| ExecutionTable.Executions.Drain | packages/cli/src/active-executions.ts:346-357 | whatever steps the server takes while the loop sleeps, with the due cleanups among them and neither spoiling kind, the loop ends with an empty table |
| CredentialTypes.WorkOff | packages/cli/src/credential-types.ts:33-35 | looking at a list entry costs more than everything it appends, in a measure recursive over the hierarchy |
| CredentialTypes.ProgressContinues | packages/cli/src/credential-types.ts:33-35 | each iteration keeps the loop's invariant and lowers the work left |
| CredentialTypes.ProgressEnds | packages/cli/src/credential-types.ts:33-37 | when the loop ends the list holds exactly the strict ancestors |
| CredentialTypes.AncestorsFromExtends | packages/cli/src/credential-types.ts:27-31 | the ancestors of a type are all the types it extends and theirs, and nothing else |
| CredentialTypes.GetParentTypes | packages/cli/src/credential-types.ts:26-38 | terminates on every acyclic hierarchy; the result is, as a set, the strict ancestors, and on a chain its first occurrences are the chain, nearest first |
| CredentialsOverwrites.FoldIsNearest | packages/cli/src/credentials-overwrites.ts:209-222 | reversing, filtering and folding lets the first listed type that sets a field decide it |
| CredentialsOverwrites.FirstOccurrencesDecide | packages/cli/src/credentials-overwrites.ts:211-212 | types listed again have no further say |
| CredentialsOverwrites.OwnOverParents | packages/cli/src/credentials-overwrites.ts:195-206 | what getOverwrites returns keeps the type's own fields and, on a chain, merges an unbroken stretch of ancestors |
| CredentialsOverwrites.PartialMergesAgree | packages/cli/src/credentials-overwrites.ts:177-222 | on a chain a lookup over any partly merged table equals the lookup over the raw one |
| CredentialsOverwrites.MergedFieldsReach | packages/cli/src/credentials-overwrites.ts:195-221 | for any acyclic hierarchy a partly merged table shows exactly the fields that the type or an ancestor sets |
| CredentialsOverwrites.PersistAndReload | packages/cli/src/credentials-overwrites.ts:56-125 | on a chain, resolving the saved mutated table again leaves every lookup unchanged |
| CredentialsOverwrites.PersistAndReloadFields | packages/cli/src/credentials-overwrites.ts:56-125 | with several parents the reload shows the same fields and keeps each type's own values |
| CredentialsOverwrites.AppliedIsStable | packages/cli/src/credentials-overwrites.ts:139-175 | applying overwrites again changes nothing, and no stored value is ever replaced |
| CredentialsOverwrites.EmptyFieldsAreFilled | packages/cli/src/credentials-overwrites.ts:165-174 | an absent, `null` or empty field takes its overwrite, any other stored value stays, and no other field appears |
| CredentialsOverwrites.SkipListedExactly | packages/cli/src/credentials-overwrites.ts:150-163 | a skip-listed credential is left alone exactly if some overwritten field has a differing value of its own |
| CredentialsOverwrites.Overwrites.constructor | packages/cli/src/credentials-overwrites.ts:102-106 | an instance begins with an empty table and an empty memo |
| CredentialsOverwrites.Overwrites.GetOverwrites | packages/cli/src/credentials-overwrites.ts:177-207 | a result, memoised or not, is a merge for its type, and the whole merge if nothing on its line was resolved before; only the line is marked; none is given for a known type only if the table has no entry for it |
| CredentialsOverwrites.Overwrites.InheritOverwrites | packages/cli/src/credentials-overwrites.ts:195-198 | the loop collects what the parents contribute |
| CredentialsOverwrites.OwnOverWhole | packages/cli/src/credentials-overwrites.ts:195-206 | own fields over the whole merge of the line above give the whole merge |
| CredentialsOverwrites.WholeOneMore | packages/cli/src/credentials-overwrites.ts:108-114 | storing a key's answer keeps the whole merges stored before it |
| CredentialsOverwrites.Overwrites.SetPlainData | packages/cli/src/credentials-overwrites.ts:102-115 | in any key order the table ends up partly merged from the one handed in; on chains every key that comes before all keys it shares a type with ends up with its whole merge stored |
| CredentialsOverwrites.Overwrites.StoreKey | packages/cli/src/credentials-overwrites.ts:108-114 | one iteration of that loop |
| CredentialsOverwrites.Overwrites.ResolveKey | packages/cli/src/credentials-overwrites.ts:109-109 | such a key is answered with its whole merge |
| CredentialsOverwrites.Overwrites.Get | packages/cli/src/credentials-overwrites.ts:209-222 | whatever the memo stored, on a chain every field is decided by the nearest ancestor in the raw table; with several parents the fields are exactly those reached and own values win; undefined exactly when no entry exists |
| CredentialsOverwrites.AppliedFillsEmpty | packages/cli/src/credentials-overwrites.ts:139-175 | field by field: an empty field takes its overwrite, and a skip-listed credential with a differing stored value is left alone |
| CredentialsOverwrites.Overwrites.ApplyOverwrite | packages/cli/src/credentials-overwrites.ts:139-175 | no stored value is replaced, every new field is set by the type or an ancestor, and on a chain the empty fields take what the nearest ancestor in the raw table sets unless a skip-listed credential was customised |
| CredentialsOverwrites.Overwrites.FillEmpty | packages/cli/src/credentials-overwrites.ts:165-174 | the loop fills exactly the empty fields |
| CredentialsOverwrites.Overwrites.SaveAndLoad | packages/cli/src/credentials-overwrites.ts:117-125 | a second instance that loads the saved table decides every field as the first raw table did |
| CredentialRepair.RepairNamed | packages/cli/src/workflow-helpers.ts:292-325 | a reference without an id gets the answer that the earlier references determine, and the name cache stays exact |
| CredentialRepair.RepairIdentified | packages/cli/src/workflow-helpers.ts:327-376 | likewise for a reference with an id and the id cache |
| CredentialRepair.RepairSlot | packages/cli/src/workflow-helpers.ts:284-376 | one reference extends the repaired prefix |
| CredentialRepair.RepairSlots | packages/cli/src/workflow-helpers.ts:282-376 | so do all references of a node |
| CredentialRepair.RepairNode | packages/cli/src/workflow-helpers.ts:278-377 | disabled nodes are skipped, no reference is added or lost |
| CredentialRepair.ReplaceInvalidCredentials | packages/cli/src/workflow-helpers.ts:264-380 | the nodes' references become, in place and in order, the repaired ones; disabled nodes are untouched |
| CredentialRepair.FirstDanglingKey | packages/cli/src/workflow-helpers.ts:368-370 | what the id cache remembers for an id without a row is the first reference that nothing resolved |
| CredentialRepair.CachesInvisibleExactly | packages/cli/src/workflow-helpers.ts:271-375 | every reference is repaired as on its own, up to the spelling of a missing id, if and only if no unresolvable id is used with two names |
| CredentialRepair.CachesCanShow | packages/cli/src/workflow-helpers.ts:368-375 | a reference that would have resolved by its name keeps the earlier unresolvable one |
| CredentialRepair.IdsAreReal | packages/cli/src/workflow-helpers.ts:292-375 | an id in the result was there before or belongs to a row of that type |
| CredentialRepair.RepairIsComplete | packages/cli/src/workflow-helpers.ts:299-366 | what is left without an existing row has a name that no single row of its type in the project bears |
| CredentialRepair.ExistingRowsAreKept | packages/cli/src/workflow-helpers.ts:284-349 | a reference to an existing row of its type keeps its id and takes the row's name; absent and managed ones stay |
| CredentialRepair.OnlyRowIsFound | packages/cli/src/workflow-helpers.ts:299-366 | a reference whose id leads nowhere, or without one, becomes the only row of its type in the project with its name, unless the id cache forestalls it |
| CredentialRepair.NothingIsInvented | packages/cli/src/workflow-helpers.ts:315-375 | what cannot be repaired keeps its id, or its name without one |
| CredentialRepair.BareNameMetAgain | packages/cli/src/workflow-helpers.ts:315-323 | an unresolved bare name stays the first time and gets a null id when met again |
| CredentialRepair.SecondPassChangesNothing | packages/cli/src/workflow-helpers.ts:264-380 | repairing the repaired references changes nothing, for every input |
| Webhooks.WebhookStore.StoreWebhook | packages/cli/src/webhooks/webhook.service.ts:152-187 | inserts, refreshes an own row or refuses; other workflows' rows stay |
| Webhooks.WebhookStore.ClearWebhooks | packages/cli/src/active-workflow-manager.ts:238-275 | either nothing is deleted or exactly the workflow's rows are |
| Webhooks.NormaliseDropsSlashes | packages/cli/src/active-workflow-manager.ts:169-174 | exactly a leading and a trailing slash are lost |
| Webhooks.SameKeyExactly | packages/cli/src/active-workflow-manager.ts:162-174 | two webhooks share a key if and only if they share method and normalised path |
| Webhooks.PresentExactly | packages/cli/src/webhooks/webhook.service.ts:158-176 | while the list is worked off, a key has a row exactly if it had one before or an earlier webhook inserted it |
| Webhooks.EveryWebhookHasItsRow | packages/cli/src/active-workflow-manager.ts:156-187 | outside start-up, without an error, every webhook that no later one repeats has exactly its own row |
| Webhooks.WebhookStore.RegisterOne | packages/cli/src/active-workflow-manager.ts:181-187 | the error, if any, is the one the rows and faults call for, and the webhook's own row is stored accordingly |
| Webhooks.WebhookStore.RegisterAll | packages/cli/src/active-workflow-manager.ts:156-223 | goes on to the first error that is not a failed query at start-up |
| Webhooks.WebhookStore.AddWebhooks | packages/cli/src/active-workflow-manager.ts:138-232 | fails if and only if something fatal happens to a webhook, with the error of the first, a failed query reported as a taken path; other workflows' rows are intact in every case; a failure with a successful rollback leaves no row of the workflow; on success every key has the row of the last webhook that stored one, with that webhook's node |
| WebhookRaces.ChecksHoldKeepsOwners | packages/cli/src/webhooks/webhook.service.ts:152-177 | while every pending refresh still finds its own row, no key changes hands before the next removal |
| WebhookRaces.BrokenCheckSteals | packages/cli/src/webhooks/webhook.service.ts:158-177 | a refresh whose row is gone or taken can end up on another workflow's row |
| WebhookRaces.OwnersSafeExactly | packages/cli/src/webhooks/webhook.service.ts:152-177 | ownership is safe until the next removal if and only if every pending refresh still finds its own row |
| WebhookRaces.DeleteKeepsChecksExactly | packages/cli/src/webhooks/webhook.service.ts:193-213 | a removal keeps that if and only if it deletes no row a registration has just checked |
| WebhookRaces.KeysChangeHandsOnlyWhenFree | packages/cli/src/active-workflow-manager.ts:156-223 | over every run in which removals spare checked rows, a key passes to another workflow only after it was removed |
| WebhookRaces.StolenKey | packages/cli/src/webhooks/webhook.service.ts:152-213 | from an empty table, a run in which a refresh takes over a key that another workflow has registered meanwhile |
| WebhookRaces.FindsHoldExactly | packages/cli/src/webhooks/webhook.service.ts:193-213 | removals go on deleting only their own rows if and only if no step inserts a key that another workflow's removal has found |
| WebhookRaces.RowsAreSafe | packages/cli/src/webhooks/webhook.service.ts:152-213 | over every run that keeps registrations and removals apart, no row of another workflow is taken or deleted |
| WebhookRaces.RowsChangeOnlyBy | packages/cli/src/webhooks/webhook.service.ts:152-213 | rows come by inserts of free keys, go by deletes of found keys and change owner by updates only |
| WebhookRaces.UndisturbedStore | packages/cli/src/webhooks/webhook.service.ts:152-177 | a registration nobody disturbs ends with the key its own, or refused because another workflow has it |
| WebhookRaces.UndisturbedRemoval | packages/cli/src/webhooks/webhook.service.ts:193-213 | a removal nobody disturbs deletes every row of its workflow and no other |
| WebhookRaces.RobbedKey | packages/cli/src/webhooks/webhook.service.ts:193-213 | from an empty table, a run in which the slower of two removals deletes another workflow's new row |
| ActivationQueue.BackoffClosedForm | packages/cli/src/active-workflow-manager.ts:828-845 | after any failures the delay is the initial one doubled once per failure that is not an isolate error, up to a day |
| ActivationQueue.BackoffInMilliseconds | packages/cli/src/constants.ts:90-91 | the first delay is 1000 ms, an isolate error leaves it, any other doubles it up to 86 400 000 ms |
| ActivationQueue.RearmKeepsOneTimerExactly | packages/cli/src/active-workflow-manager.ts:844-845 | arming another timer keeps one timer per workflow if and only if the recorded one is no longer armed |
| ActivationQueue.OneMoreFailure | packages/cli/src/active-workflow-manager.ts:828-831 | one more failure moves the delay along the closed form |
| ActivationQueue.Activations.Rearm | packages/cli/src/active-workflow-manager.ts:844-845 | the entry records the new timer and the delay that its failures call for |
| ActivationQueue.Activations.RemoveQueued | packages/cli/src/active-workflow-manager.ts:869-874 | the workflow's entry and recorded timer go, so no timer of it is left |
| ActivationQueue.Activations.AddQueued | packages/cli/src/active-workflow-manager.ts:854-863 | the workflow starts over with 1000 ms and one new timer in place of the recorded one; other entries and timers stay |
| ActivationQueue.Activations.Fire | packages/cli/src/active-workflow-manager.ts:819-825 | a fired timer is spent |
| ActivationQueue.Activations.RetryFailed | packages/cli/src/active-workflow-manager.ts:826-846 | the next timer follows the closed form; a single timer remains if and only if none was armed for the entry meanwhile; without an entry the handler fails |
| ActivationQueue.OverlappingRetry | packages/cli/src/active-workflow-manager.ts:824-863 | queueing a workflow again while its retry is under way, which then fails, leaves two armed timers |
| ActivationQueue.Activations.RetrySucceeded | packages/cli/src/active-workflow-manager.ts:660-661 | no entry and no timer of the workflow is left |
| ActivationQueue.Activations.RemoveAll | packages/cli/src/active-workflow-manager.ts:879-883 | no entry and no timer is left |
| Deadlines.NestedDeadlineIsMinimum | packages/cli/src/workflow-execute-additional-data.ts:270-282 | for awaited calls of any depth the deadline in force is the earliest of the root's and every own deadline |
| Deadlines.DeeperIsNotLater | packages/cli/src/workflow-execute-additional-data.ts:270-282 | going deeper never moves the deadline out, and below a detached call nothing above it matters |
| Deadlines.DetachedStartsAfresh | packages/cli/src/workflow-execute-additional-data.ts:275-277 | below a detached call its own deadline is in force |
| Deadlines.OwnDeadlineExactly | packages/cli/src/workflow-execute-additional-data.ts:237-265 | the requested timeout in seconds from the start, cut by a positive maximum only; none if none is requested |
| Deadlines.ArmTimeouts | packages/cli/src/workflow-runner.ts:346-459 | the main process agrees with the sub-workflow formula exactly when the maximum is positive or no timeout is requested; a resumed run stops at the later of now and its original start plus the limit, and not after the soft deadline exactly when it did not start in the future and set-up took no longer than the limit |
| Deduplication.BuildLookup | packages/core/src/data-deduplication-service.ts:68-72 | the lookup knows exactly the occurring keys, each at its last position |
| Deduplication.OneRepresentativeEach | packages/core/src/data-deduplication-service.ts:74-84 | if the deduplicator partitions the keys, the outputs take exactly the last occurrence of each distinct key, once |
| Deduplication.CheckProcessedItemsAndRecord | packages/core/src/data-deduplication-service.ts:59-85 | both outputs hold, in the deduplicator's order, the last item of each of its keys |
| NodeGroups.OneMoreMember | packages/cli/src/workflow-helpers.ts:168-175 | the lookup of an earlier group decides exactly whether one more membership is acceptable |
| NodeGroups.NamedGroupsAreDisjoint | packages/cli/src/workflow-helpers.ts:141-145 | with named groups, acceptance means distinct names, known ids and no id listed twice |
| NodeGroups.ValidateGroup | packages/cli/src/workflow-helpers.ts:161-176 | passes a group exactly with all its ids known and still exclusive, and records them; otherwise names the first membership that is unknown or listed again |
| NodeGroups.ValidateWorkflowNodeGroups | packages/cli/src/workflow-helpers.ts:146-178 | no error if and only if the groups are acceptable, and each error is justified by the groups |

## Left out

- The table and the row are modelled side by side: which registrations the row's compare-and-set lets through is not carried over into the step system of the table, whose runs include all of them.
- WaitTracking.WaitTracker.StartTracking: the poll it begins awaits its query and is a step of its own, taken by `GetWaitingExecutions`.
- CredentialRepair.RepairIdentified: a details object without any `id` property takes this path in the source with the text `undefined` as its cache key and an unconstrained query whose answer is up to the database library; such references are not represented.
- CredentialTypes.GetParentTypes: takes a rank as evidence that the hierarchy has no cycle, because the source recurses without end on a cyclic one; the hierarchy known by name and the loaded one are taken to agree.
- The order between sibling parents, which `getOverwrites` and `get` rank oppositely; only the set of fields and a type's own values are stated for several parents.
- The value `undefined` inside a fields object and object identity of nested JSON values in the customisation test of `applyOverwrite`.
- Deduplication.CheckProcessedItemsAndRecord: assumes that the deduplicator returns each key it was given once, since that component is a plug-in; object keys that JavaScript orders as integers only affect the order in which keys are handed over.
- Names such as `__proto__` used as cache keys in `replaceInvalidCredentials`, and sharing of one reference object between nodes.
- Webhooks.WebhookStore.AddWebhooks: takes the failures of the database and of external services as inputs; dynamic paths with a webhook id, the webhook cache and the restriction to some nodes are not modelled.
- Evaluation runs hold no slot; the test runner's own evaluation queue, which the concurrency service sets up lazily, is not modelled.
- ExecutionTable.Executions.Drain: an add in flight that registers after the cancelling pass enters an execution that nobody cancels, and the loop waits for it to end by itself; that it does, and `shutdown` without `cancelAll`, are not modelled.
- The response promise is carried along but its rejection is not modelled; neither are HTTP streaming and telemetry.
- Deadlines.ArmTimeouts: takes two clock readings in order; a clock that is set back between them is not considered.
- Timers fire in any order and at any time after they are armed; that a timer waits for its delay is recorded as its due instant only.
- A database transaction is one step, and storage, serialisation and encryption of execution data are values.
- Node and credential descriptors, HTTP wiring, licences, configuration and command line parts, which would only add easy members.
