# Verified models of TG-SignPulse's stateful cores

TG-SignPulse schedules Telegram sign-in tasks for many accounts. This project models the parts of it that keep
state over time, recover from failure, or walk structures, and proves what they promise: over every input, every
interleaving, and every reachable state. `dafny verify dfyconfig.toml` checks everything.

Code that updates fields, tables or files in place is a class here (`StagedTree`, `AccountService`,
`InMemoryRateLimiter`, `Outbox`, `Breaker`, `Scheduler`, `Database`, `Cleanups`), with the loops of the source;
its methods are proved against functions of the old state, and the properties are proved about those functions.
Concurrent protocols are state machines whose events are the atomic steps: one SQL transaction, one locked file
update, one turn of the event loop. Time is a real number of seconds (microseconds as integers in `RangeWindows`).

| files | component |
|---|---|
| `FileTree`, `PathOrder`, `StagedChange`, `StagedTree` | a file tree, the order of sorted paths, the rollback bookkeeping, and the staged primitives |
| `TaskConfig`, `FirstOccurrences`, `AccountFiles`, `AccountPhases`, `FinishedChange`, `AccountOutcomes`, `AccountLifecycle`, `AccountWitnesses` | renaming or deleting an account |
| `RateLimitTables`, `RateLimiter`, `RateLimitRuns`, `RateLimitOrder`, `RateLimitAnswers`, `Filtering` | the sliding-window rate limiter |
| `NotificationOutbox`, `DeliveryProtocol`, `DeliverySpacing`, `DeliveryDoubt` | the notification outbox |
| `VisualLadder` | the ladder of visual AI requests |
| `FlowGraph`, `TaskInspection`, `GraphSearch` | traversals of shared, possibly cyclic flow graphs |
| `CircuitBreaker`, `BreakerProtocol`, `BreakerAnswers` | the proxy circuit breaker of many processes |
| `RangeWindows`, `JobSync`, `JobSyncLaws`, `OneShotJobs` | range windows, the scheduler's job set, and its one-shot jobs |
| `TaskStore`, `MigrationRuns` | optimistic locking, migration and its rollback |
| `DeferredCleanup` | deferred cleanup tasks |
| `SemanticEvaluation`, `ClickTargets`, `Text` | the Wilson bound, the click-target parser, `str.strip` |

## What the proofs show

**Account changes.** A tree maps paths to nodes. Every primitive (snapshot, move, write, recursive delete) may raise,
and may then have done any part of its work (`StagedChange.Torn`). `AccountLifecycle.AccountService.Apply` is the whole
transaction: it is rejected exactly if the account is busy, the change is impossible, or the plan is stale; whatever
raises afterwards, the account store and the tree are restored; and a run that ends has produced exactly the specified
tree, with every other path unchanged. What that tree means is proved of it apart from how it is computed: after a
rename every task, session, avatar and history record of the old account is the new one's, and after a deletion each
shared task has passed to the next account listed (`AccountOutcomes.RenameOutcome`, `DeleteOutcome`). The heart is
`StagedChange.Orderly`: a snapshot may be taken after files below it were edited, because every change is already
accounted for by a deeper snapshot or lies below a created path. Without faults an accepted change runs to its end
**if and only if** `FullySmooth` holds. Findings:

- `rmdir` of an empty account directory takes no snapshot. A rollback restores everything except that one directory, and
  a deletion whose store update fails loses it exactly if it was empty (`AccountWitnesses.DeleteAndFail`).
- Renaming an account to `config.json` fails the validation exactly if the account has a task directory, since that then
  looks like a task configuration (`FinishedChange.ValidationExact`, `AccountWitnesses.RenameToConfigJson`).
- Deleting an account one of whose task directories holds another of its configurations raises exactly if that one is
  listed after the directory's own `config.json`: paths are handled in sorted order, and the inner file is gone by then.
  With an inner directory `sub` this is decided by `sub < "config.json"` (`AccountWitnesses.DeleteNested`).
- A history file whose bytes are no JSON makes a rename raise; any JSON, even a bare number, is migrated.
- Closing the client may drop or rewrite session files first, completely or in part, so the tree that is restored is the
  one after closing.

**Rate limiter.** Every verdict equals that of a plain log of accepted times (`RateLimitRuns.LimiterRefinesLog`). The
sliding window is safe over all runs if and only if a block lasts at least as long as the window
(`RateLimitRuns.WindowSafetyExactly`). The sweep is invisible because every window is at most 3600 seconds
(`SweepSafe`); the clock never goes back and a scope's limits are fixed. Over every run the ordered table lists the buckets
by their latest hits, so what a full limiter forgets was hit before anything it keeps, apart from the current bucket and
blocked ones (`RateLimitOrder`). A retry time is honest: a hit made no sooner is accepted, one made a second sooner is not,
and hits during a block do not prolong it (`RateLimitAnswers`).

**Outbox.** A receipt is sent at most once per attempt and attempted at most once per explicit confirmation that it was
not delivered, under every interleaving. Two sends of one receipt with no reconciliation between them are more than the
retention period apart as long as no receipt is reconciled while somebody delivers it. That discipline is necessary: after
any disciplined run, one effective reconciliation keeps every disciplined continuation spaced exactly if its receipt is
idle (`DeliverySpacing.ReconcileExactly`), whichever way the operator decides and whether or not the live delivery has
sent. The shortest failure needs neither expiry nor a second receipt: a denied claim is claimed again, and both send.
A receipt is called failed exactly if the provider certainly did not take the request. One left in doubt is kept, unknown,
until somebody reconciles it, exactly if nobody else is delivering it (`DeliveryDoubt.DoubtKeptExactly`).

**Visual ladder.** The nested retry loops terminate by a lexicographic measure, make at most attempts plus rungs plus
one requests, never go back up, and change a parameter only in answer to a response that asks for it. The first request
carries exactly the requested parameters, and the rungs are exactly the levels between it and the bare request.

**Flow graphs.** The traversal yields every node of every reachable graph exactly once. The searches of the chat model
ignore branches, so the two answers to "does this task need updates?" can differ; they reach the same graphs exactly
if every branch is covered by sub-graphs, and they agree on every question exactly if the search comes to every item.
Which items need updates is stated by what they wait for and by their action numbers.

**Circuit breaker.** After the third failure no check that starts later answers "available" unless a success was
recorded since, even though a stale half-open write can undo a success (`StaleWriteUndoesSuccess`). The stored failure
count stays right exactly if no result is recorded between the two halves of a read (`RecordingExactly`). Then a read
answers "available" exactly below three failures; a tripped proxy answers "not available" exactly until the cooldown after
the latest failure is over; and no check reads more than 41 times (`BreakerAnswers`).

**Scheduler.** Windows partition time, and a compensation falls strictly after now and no later than the window's end.
With readable triggers a synchronisation leaves the sign jobs of exactly the active tasks, whatever jobs there were, if
and only if no active task shares its identifier with an inactive one; one job for each of them if and only if also the
active identifiers are distinct; and it is idempotent if and only if no such shared identifier can be scheduled
(`JobSyncLaws`). The identifiers do collide: `a-b`/`c` and `a`/`b-c` share one, and then a synchronisation deletes the job
of the enabled task wherever the disabled one stands in the list. Converting a delay removes the pending one-shot jobs of
exactly the pairs whose names it claims: `account-task-` is a prefix of theirs. That is another task of the same account
whose name extends this one by a dash, or any task of an account called `account-task`. A synchronisation keeps a pending
one-shot job exactly if the names of some enabled range task, as stored, claim it; so padding on any side of a stored name
loses the task's own one-shot job (`OneShotJobs`). An active range task with an identifier of its own runs at its range
start, any other at its sign time, and a time that cannot be read leaves an existing job alone (`JobSyncLaws.TaskFires`).

**Migration, cleanup, evaluation, parsing.** Revisions count successful updates, a row holds what its last one wrote, a
migration leaves every listed task with its listed configuration and every other row alone, it is refused exactly if an
insertion meets an identifier in use, and a rollback deletes exactly the untouched rows of its run. A superseded cleanup
never unregisters a newer one, the Wilson bound is the smaller root of its quadratic, and splitting undoes joining for each
of the nine separators.

## Model

| member | source | states |
|---|---|---|
| AccountLifecycle.AccountService.Apply | backend/services/account_lifecycle.py:265-483 | rejected without effect exactly if the account is busy, the change is refused or the plan is stale; otherwise it finishes with exactly the specified tree and account store, everything of the account now being the new one's or gone, or restores both; without faults it finishes exactly if `FullySmooth` |
| AccountLifecycle.AcceptedIsFresh | backend/services/account_lifecycle.py:281-289 | an accepted plan saw the same files with the same content and the same profile |
| AccountLifecycle.AccountService.Undo | backend/services/account_lifecycle.py:408-432 | the exception handler restores the tree staging began with, up to one empty directory, and the profile |
| AccountLifecycle.AccountService.Run | backend/services/account_lifecycle.py:320-407 | the guarded part, from stopping the monitors on, leaves a stage from which the original can be recovered wherever it raises, with the client closed, half closed or not at all |
| AccountLifecycle.AccountService.UpdateStore | backend/utils/tg_session.py:220-250 | the profile moves to the new name or disappears, nobody else's profile changes, and a failure after the table was touched is possible |
| AccountLifecycle.AccountService.RestoreStore | backend/services/account_lifecycle.py:425-430 | whatever a store update, finished or not, did to the profiles is undone: the table is the one before |
| AccountLifecycle.RestoredTree | backend/services/account_lifecycle.py:362-371 | only the empty account directory that was removed without a snapshot can be missing after a rollback |
| AccountWitnesses.DeleteAndFail | backend/services/account_lifecycle.py:362-371 | a deletion whose store update fails loses the account's directory exactly if it was empty |
| AccountWitnesses.DeleteNested | backend/services/account_lifecycle.py:85-119 | a deletion with a configuration nested in a task directory finishes exactly if the inner path is listed first |
| AccountWitnesses.RenameToConfigJson | backend/services/account_lifecycle.py:242-255 | renaming to `config.json` finishes exactly if the account has no task directory |
| PathOrder.SiblingOrder | backend/services/account_lifecycle.py:88 | in sorted paths, what lies below one entry of a directory comes before another entry exactly if the entries' names do |
| AccountLifecycle.InventoryUnaffected | backend/services/account_lifecycle.py:327-332 | closing the client first changes only the account's session files, so configurations and history are inventoried alike |
| AccountLifecycle.Forward | backend/services/account_lifecycle.py:332-389 | sidecars, configurations, the account's directory and the history are handled in turn, each area left alone by the other phases |
| AccountOutcomes.RenameOutcome | backend/services/account_lifecycle.py:320-407 | in the tree of a finished rename every task of the old account is the new one's and otherwise as it was, its sidecars and history records are found under the new name, and foreign tasks are untouched |
| AccountOutcomes.DeleteOutcome | backend/services/account_lifecycle.py:320-407 | in the tree of a finished deletion the account's own tasks, sidecars and, if wished, history are gone, shared tasks have passed to the next account, and everything else is as it was |
| StagedTree.StagedTree.Snapshot | backend/services/account_lifecycle.py:303-310 | a snapshot is taken once per path, and keeps every original recoverable |
| StagedTree.StagedTree.Erase | backend/services/account_lifecycle.py:341-350 | removal after a snapshot: done or half done, the original stays recoverable; done, exactly the subtree is gone |
| StagedTree.StagedTree.Move | backend/services/account_lifecycle.py:312-318 | a move refuses an existing destination, announces it before renaming, and moves exactly the subtree |
| StagedTree.StagedTree.Rewrite | backend/services/account_lifecycle.py:359-361 | an edit in place of a file that is snapshotted itself or through its directory |
| StagedTree.StagedTree.WriteCreated | backend/services/account_lifecycle.py:384-386 | a write to a destination this change created |
| StagedTree.StagedTree.RemoveEmpty | backend/services/account_lifecycle.py:367-368 | the one removal without a snapshot, on an empty directory only |
| StagedTree.StagedTree.RemoveCreated | backend/services/account_lifecycle.py:409-413 | undoing in reverse order removes everything below created paths and nothing else |
| StagedTree.StagedTree.Rollback | backend/services/account_lifecycle.py:408-424 | restoring snapshots parents first, ties in any order, gives back every original node outside `pruned` |
| StagedTree.RestoreStep | backend/services/account_lifecycle.py:415-424 | one restored snapshot changes exactly its subtree, and nothing can be in its way |
| StagedTree.RollbackStep | backend/services/account_lifecycle.py:414-424 | what deeper snapshots still have to restore is not disturbed by restoring a shallower one first |
| StagedChange.SnapshotStep | backend/services/account_lifecycle.py:303-310 | a snapshot taken after files below it were edited loses no original |
| StagedChange.TornStep | backend/services/account_lifecycle.py:320-407 | a primitive that raises anywhere in its work leaves every original recoverable |
| StagedChange.DoneStep | backend/services/account_lifecycle.py:312-350 | completed removals, moves and writes keep the invariant that later snapshots need |
| StagedChange.EditStep | backend/services/account_lifecycle.py:344-361 | an edited configuration is accounted for by the snapshot of its task directory or of itself |
| StagedChange.CreateStep | backend/services/account_lifecycle.py:312-318 | announcing a destination before it exists keeps every original recoverable |
| StagedChange.PruneStep | backend/services/account_lifecycle.py:367-368 | removing an empty directory costs that directory only |
| StagedChange.DeepestExists | backend/services/account_lifecycle.py:414-417 | a covered path has a deepest covering snapshot |
| AccountPhases.MoveSidecars | backend/services/account_lifecycle.py:332-340 | session and avatar files move to the new name and keep their content; all else stays |
| AccountPhases.EraseFiles | backend/services/account_lifecycle.py:332-343 | exactly the listed files disappear |
| AccountPhases.RewriteConfigs | backend/services/account_lifecycle.py:344-361 | in sorted order every inventoried configuration is rewritten, or its task directory removed; all else stays; a deletion gets through exactly if nested configurations come first |
| AccountFiles.NestedStillThere | backend/services/account_lifecycle.py:344-361 | the next configuration in order still exists exactly if no directory removed before held it |
| AccountPhases.RetireDirectory | backend/services/account_lifecycle.py:362-371 | the account's own directory is moved, pruned or removed |
| AccountPhases.MigrateHistory | backend/services/account_lifecycle.py:372-389 | history files move and their entries name the new account; only bytes that are no JSON raise |
| AccountPhases.RebuildIndex | backend/services/sign_task_history_index.py:371-434 | only the history index changes, and a failure to write it never fails the account change |
| FinishedChange.ChangeApplied | backend/services/account_lifecycle.py:328-389 | the phases together give at every path of the tree exactly what the operation specifies |
| FinishedChange.NoReferenceRemains | backend/services/account_lifecycle.py:242-255 | after all steps no configuration anywhere refers to the old account, unless the renamed directory itself reads as one |
| FinishedChange.ValidationPasses | backend/services/account_lifecycle.py:242-255 | so the validation cannot raise then |
| FinishedChange.ValidationExact | backend/services/account_lifecycle.py:242-255 | it raises exactly if the account's own directory exists, is renamed to `config.json`, and is no readable configuration |
| FinishedChange.InventoryIsInventory | backend/services/account_lifecycle.py:85-119 | the inventory lists task configurations only, and an owned one lies in a directory of its own |
| AccountFiles.SidecarPlan | backend/services/account_lifecycle.py:332-340 | no sidecar and no destination of one gets in another's way |
| AccountFiles.HistoryPlan | backend/services/account_lifecycle.py:122-127 | no history file and no destination of one gets in another's way |
| AccountFiles.SuffixDetermines | backend/services/account_lifecycle.py:85-119 | no file name is a sidecar of one account with two different suffixes |
| TaskConfig.ApplyAccountRename | backend/services/sign_task_config_build.py:264-294 | the loop computes the renamed configuration and reports exactly whether it differs |
| TaskConfig.RenameConfigLaw | backend/services/sign_task_config_build.py:264-294 | an account that is the old name becomes the new one and any other stays; the new list names the new account exactly if the old one named either, every other account exactly if it did before; enabled and the rest stay; no reference to the old name is left |
| TaskConfig.DropAccountLaw | backend/services/account_lifecycle.py:353-360 | the deleted account is no longer named and every other one still is; the first other one listed inherits its task, and only a task without an heir is disabled; the rest stays |
| TaskConfig.RenameHistoryLaw | backend/services/account_lifecycle.py:372-389 | the entries of the old account name the new one, all others and the text of all of them stay, and none is lost or moved |
| TaskConfig.HistoryKeyRoundTrip | backend/services/sign_task_history_io.py:20-58 | decoding a history key gives the name back |
| TaskConfig.HistoryOwnerUnique | backend/services/sign_task_history_io.py:20-35 | no history file can be claimed by two accounts |
| FirstOccurrences.FoldKeepsFirst | backend/services/sign_task_config_build.py:280-293 | deduplicating from the left is keeping the first occurrences in order |
| FileTree.MoveTreeAt | backend/services/account_lifecycle.py:312-318 | what a rename leaves at every path |
| RateLimiter.InMemoryRateLimiter.Hit | backend/core/rate_limit.py:119-171 | the loops compute the table function of the hit, whose verdicts and order the laws below describe |
| RateLimiter.InMemoryRateLimiter.SweepExpired | backend/core/rate_limit.py:72-83 | the three loops forget stale attempts, expired blocks and buckets unknown to both |
| RateLimiter.InMemoryRateLimiter.PruneCapacity | backend/core/rate_limit.py:85-117 | the two eviction phases compute the pruned tables |
| RateLimiter.InMemoryRateLimiter.DiscardLatestAttempt | backend/core/rate_limit.py:54-63 | the latest attempt goes, and the bucket's deque with its last one |
| RateLimiter.InMemoryRateLimiter.Reset | backend/core/rate_limit.py:47-52 | a bucket disappears from all three tables |
| RateLimitTables.EvictLaw | backend/core/rate_limit.py:93-117 | a phase reaches its target unless only protected buckets are left, and touches no survivor |
| RateLimitTables.PrunedLaw | backend/core/rate_limit.py:85-117 | pruning keeps the current bucket, makes room, and evicts a blocked bucket only when blocked ones and the current one fill the table |
| RateLimitTables.SweptLaw | backend/core/rate_limit.py:72-83 | after a sweep the ordered table lists exactly the buckets with attempts or a block |
| RateLimitTables.SweepSpares | backend/core/rate_limit.py:72-83 | a bucket survives the sweep, as it was, exactly if it was tried within the last hour or is still blocked |
| RateLimitTables.HitBounded | backend/core/rate_limit.py:119-142 | the table never exceeds its capacity, and the side tables never outgrow it |
| RateLimitRuns.LimiterRefinesLog | backend/core/rate_limit.py:119-171 | after any run, a hit's verdict is the one of a plain log of accepted times |
| RateLimitRuns.WindowSafety | backend/core/rate_limit.py:119-171 | no interval as long as the window holds more accepted hits than allowed |
| RateLimitRuns.WindowSafetyExactly | backend/core/rate_limit_middleware.py:34-95 | that holds over every run exactly when a block lasts at least as long as the window |
| RateLimitRuns.SqueezeBreaksWindow | backend/core/rate_limit.py:158-171 | a shorter block lets one hit too many into a window |
| RateLimitRuns.TrimNeverFires | backend/core/rate_limit.py:153-160 | the trim to the limit plus two is never needed |
| RateLimitRuns.SweptCarries | backend/core/rate_limit.py:72-83 | the sweep drops only what no later decision can see |
| RateLimitRuns.RunKeepsInvariant | backend/core/rate_limit.py:31-171 | tables and logs stay in step over every run of hits, resets and discards |
| RateLimitRuns.DiscardKeeps | backend/core/rate_limit.py:54-63 | discarding takes the latest accepted hit out of the log |
| RateLimitOrder.LeastRecentFirst | backend/core/rate_limit.py:132-142 | after every run the ordered table lists its buckets by their latest hits, the most recent one last |
| RateLimitOrder.ForgetsLeastRecent | backend/core/rate_limit.py:85-142 | a bucket that a hit makes the limiter forget for want of room was last hit before every one it keeps, except the current bucket and blocked ones |
| RateLimitOrder.PrunedLowest | backend/core/rate_limit.py:85-117 | pruning drops from the front of any order: first what is not blocked, then blocked buckets |
| RateLimitOrder.PrunedAmount | backend/core/rate_limit.py:85-117 | a full table is pruned to nine tenths of its capacity, unless blocked buckets and the current one fill more, and no further |
| RateLimitOrder.SweepsRegularly | backend/core/rate_limit.py:132-136 | every 256th hit since the last reset sweeps |
| RateLimitOrder.RegularSweepForgets | backend/core/rate_limit.py:72-136 | after such a hit no bucket is left that was not tried within the last hour and is not blocked |
| RateLimitAnswers.AcceptedExactly | backend/core/rate_limit.py:144-171 | after any run a hit is accepted exactly if no block is running and the hit accepted the limit's number of places before it has left the window |
| RateLimitAnswers.RetryAfterHonest | backend/core/rate_limit.py:144-171 | a hit made no sooner than the retry time given is accepted, one made a whole second too soon is rejected |
| RateLimitAnswers.BlockNotProlonged | backend/core/rate_limit.py:144-152 | hits during a block are rejected, leave its end where it is and count for nothing |
| RateLimitAnswers.BlockStarts | backend/core/rate_limit.py:158-171 | a rejection that no running block explains starts one of the rule's length |
| RateLimitAnswers.CeilLaw | backend/core/rate_limit.py:146 | the rounding of the retry time yields the smallest integer not below it |
| NotificationOutbox.Outbox.Enqueue | backend/services/notification_outbox.py:125-175 | validation, deduplication, retention and capacity, with nothing evicted when the table is full |
| NotificationOutbox.Outbox.Deliver | backend/services/notification_outbox.py:197-243 | an undisturbed delivery sends exactly if the receipt was pending and counts the attempt; then the receipt is sent exactly if the send returned, failed exactly if the request was never sent or refused with a status below 500, and unknown in every other case, a cancelled send included |
| NotificationOutbox.ReconciledLaw | backend/services/notification_outbox.py:245-275 | the operator's word counts exactly if unambiguous, about a stored receipt, and no denial of a confirmed send; it decides that receipt's state, and attempts never change |
| NotificationOutbox.SentIsFinal | backend/services/notification_outbox.py:245-275 | a confirmed send stays confirmed whatever the operator says |
| NotificationOutbox.EnqueueBounded | backend/services/notification_outbox.py:143-174 | which result an offered receipt has and what it stores; at most the configured number of receipts, exactly the settled ones past retention are dropped, and pending or unknown ones never |
| NotificationOutbox.AcceptableLaw | backend/services/notification_outbox.py:125-142 | a receipt is acceptable exactly if it is pending, unattempted, and none of its eight texts is longer than 256 |
| NotificationOutbox.RecordedLaw | backend/services/notification_outbox.py:223-243 | the final update never makes a receipt pending and changes no attempt |
| NotificationOutbox.FinalStateLaw | backend/services/notification_outbox.py:214-243 | sent means taken, failed certainly not taken, unknown in doubt |
| NotificationOutbox.ErrorCodeLaw | backend/services/notification_outbox.py:223-243 | the error code is empty, the name of the error, or the status in decimal digits |
| DeliveryProtocol.AtMostOnce | backend/services/notification_outbox.py:125-275 | sends never exceed attempts, and attempts never exceed one plus the confirmed non-deliveries |
| DeliveryProtocol.AtMostOnceEver | backend/services/notification_outbox.py:125-275 | the same for evicted receipts, and the bound on the table |
| DeliveryProtocol.StepSound | backend/services/notification_outbox.py:125-275 | every transaction, send, crash and cancellation keeps the counts |
| DeliverySpacing.SendsSpaced | backend/services/notification_outbox.py:143-174 | two sends of one receipt without a reconciliation between them are more than the retention period apart if no live delivery is reconciled |
| DeliverySpacing.ReconcileExactly | backend/services/notification_outbox.py:125-275 | after a disciplined run, a reconciliation keeps all disciplined continuations spaced exactly if the receipt is idle |
| DeliverySpacing.RacingReconcileBreaksSpacing | backend/services/notification_outbox.py:210-275 | otherwise not, for every retention period and every capacity |
| DeliveryDoubt.DoubtKeptExactly | backend/services/notification_outbox.py:143-275 | after a delivery ends in doubt its receipt stays stored and unknown through everything but a reconciliation, exactly if nobody else is delivering it |
| DeliveryDoubt.DoubtKept | backend/services/notification_outbox.py:143-275 | so in every run in which only idle receipts are reconciled |
| VisualLadder.BuildLaw | tg_signer/ai_tools.py:1075-1156 | the first rung carries the requested JSON mode, effort, token budget and temperature; every rung carries a wanted part of them at a level of its own, from the strictest down to the bare request |
| VisualLadder.LevelsComplete | tg_signer/ai_tools.py:1116-1156 | the ladder has a rung at a level exactly if the requested parameters make it a wanted one |
| VisualLadder.AfterFailure | tg_signer/ai_tools.py:1281-1361 | each remedy is applied in order and a bounded number of times, and an error is passed on only without one |
| VisualLadder.RunLadder | tg_signer/ai_tools.py:1268-1406 | bounded requests, no return to an earlier rung, every changed parameter answers a response, and the last response decides the outcome |
| VisualLadder.RunVisualCompletion | tg_signer/ai_tools.py:1250-1406 | a whole request makes at most seven more requests than attempts, and its first request carries the requested parameters |
| VisualLadder.SwapUniform | tg_signer/ai_tools.py:1285-1312 | swapping the token key hits every rung or none |
| VisualLadder.BudgetUniform | tg_signer/ai_tools.py:1370-1384 | relaxing the budget keeps it equal on all rungs |
| FlowGraph.IterGraph | backend/services/sign_task_config_inspect.py:16-46 | depth-first traversal terminates on cyclic graphs and adds exactly the newly reachable graphs and each of their nodes once |
| FlowGraph.IterTargets | backend/services/sign_task_config_inspect.py:39-46 | the sub-graph and the branches of a node, sharing the visited set |
| FlowGraph.TraversedBoth | backend/services/sign_task_config_inspect.py:49-90 | two traversals sharing the visited set are one traversal of all their targets |
| FlowGraph.ReachableSet | backend/services/sign_task_config_inspect.py:16-46 | the visited set is exactly the reachable set |
| TaskInspection.IterChatActions | backend/services/sign_task_config_inspect.py:49-90 | every action, step and reachable node of a task exactly once |
| TaskInspection.TaskRequiresUpdates | backend/services/sign_task_config_inspect.py:93-164 | false exactly if the chats are a list and no item needs updates |
| TaskInspection.NeedsUpdatesExactly | backend/services/sign_task_config_inspect.py:106-163 | an item needs updates exactly if its type is wait_event in any case, it waits for a reply, its action is one of 3 to 8, or it is a reactive plugin; a key "action" decides alone |
| TaskInspection.TaskHasKeywordMonitor | backend/services/sign_task_config_inspect.py:167-193 | true exactly if some item is a keyword monitor |
| GraphSearch.Search | tg_signer/config.py:847-870 | the early-exit search finds a wanted node or has looked at everything newly reachable |
| GraphSearch.SearchFresh | tg_signer/config.py:938-974 | true exactly if a wanted node is reachable through sub-graphs |
| GraphSearch.ChatRequires | tg_signer/config.py:807-936 | the answer over steps, actions or a flow graph, whichever the chat has |
| GraphSearch.SearchWithinInspection | tg_signer/config.py:938-974 | what the search finds, the inspection finds too |
| GraphSearch.BranchesMissed | tg_signer/config.py:938-974 | a wanted node behind a branch is found by the inspection only |
| GraphSearch.SearchReachesAllExactly | tg_signer/config.py:938-974 | both reach the same graphs exactly if every branch is covered by sub-graphs |
| GraphSearch.AnswersAgreeExactly | tg_signer/config.py:938-974 | the answers agree, whatever is wanted, exactly if the search comes to every item the inspection comes to |
| GraphSearch.SearchAgreesIfCovered | backend/services/sign_task_config_inspect.py:93-164 | covered branches are enough for the two answers to agree |
| CircuitBreaker.Breaker.ReadState | backend/services/proxy_circuit_breaker.py:124-142 | the read half of `get_state`: half-open, with a write still pending, exactly if the entry is tripped and its cooldown is over; otherwise the stored state |
| CircuitBreaker.Breaker.RecordFailure | backend/services/proxy_circuit_breaker.py:158-178 | one failure more in the shared entry |
| CircuitBreaker.FailuresLaw | backend/services/proxy_circuit_breaker.py:158-192 | after a success, or at first, exactly the third failure in a row trips the proxy, each later one again at its own time |
| BreakerProtocol.StepSound | backend/services/proxy_circuit_breaker.py:124-244 | entries stay consistent with their counts and never count fewer failures than matter |
| BreakerProtocol.ClosedUntilSuccess | backend/services/proxy_circuit_breaker.py:206-244 | a check started after the third failure is positive only after a success recorded since |
| BreakerProtocol.SingleFlight | backend/services/proxy_circuit_breaker.py:213-233 | at most one check probes at a time |
| BreakerProtocol.CountExact | backend/services/proxy_circuit_breaker.py:124-192 | the stored count is exact if no result is recorded between the halves of a read |
| BreakerProtocol.RecordingExactly | backend/services/proxy_circuit_breaker.py:124-192 | from an exact state, recording a result leaves every following write-back right exactly if no check is between its halves |
| BreakerProtocol.StaleWriteUndoesSuccess | backend/services/proxy_circuit_breaker.py:137-141 | a late write can make a proxy half-open right after a success |
| BreakerAnswers.AvailableExactly | backend/services/proxy_circuit_breaker.py:206-212 | in an undisturbed run a read answers "available" exactly with fewer than three failures since the latest success |
| BreakerAnswers.ClosedWhileCooling | backend/services/proxy_circuit_breaker.py:124-142 | in any run a read of a tripped proxy answers "not available" exactly until the cooldown after the latest failure is over |
| BreakerAnswers.ProbeDecides | backend/services/proxy_circuit_breaker.py:213-233 | an undisturbed check after the cooldown answers what its probe finds; success clears the proxy, failure trips it anew |
| BreakerAnswers.AnswersInTime | backend/services/proxy_circuit_breaker.py:234-244 | in any run a check reads the state at most 41 times before it answers |
| BreakerAnswers.WaitsForTheProbe | backend/services/proxy_circuit_breaker.py:234-244 | while the proxy stays half-open a waiting check goes on polling and gives up exactly at its 41st read |
| RangeWindows.WindowLaw | backend/scheduler/__init__.py:110-144 | a window lasts at most a day, runs from the start to the end time, and holds the moment exactly if its clock time is in range |
| RangeWindows.WindowOutside | backend/scheduler/__init__.py:110-144 | for a moment out of range the window is the one that begins on the same day, still to come or over |
| RangeWindows.WindowOfMember | backend/scheduler/__init__.py:110-144 | every moment of a window computes the same window |
| RangeWindows.WindowsPartition | backend/scheduler/__init__.py:110-144 | two windows that hold their own moments are equal or disjoint |
| RangeWindows.Compensation | backend/scheduler/__init__.py:147-227 | a compensation exists exactly if the clock is in range, no one-shot job is pending and no success was recorded since the window began; it lies after now and not after the window's end |
| RangeWindows.OncePerWindow | backend/scheduler/__init__.py:202-217 | a successful run in a window ends compensation for the rest of it |
| RangeWindows.RegularDelay | backend/scheduler/__init__.py:292-297 | a late trigger never pushes the run past the end of its window, and after that end there is no delay |
| JobSync.Scheduler.SyncJobs | backend/scheduler/__init__.py:542-730 | without the lock all sign jobs go; with it the loops compute the synchronised jobs |
| JobSync.Scheduler.ConvertDelay | backend/scheduler/__init__.py:311-347 | exactly one one-shot job with the task's prefix is left, and no other job changes |
| JobSyncLaws.SignEntry | backend/scheduler/__init__.py:590-716 | what becomes of any sign job, for every job set and task list: trigger replaced, kept, created or removed |
| JobSyncLaws.ActiveTasksExactly | backend/scheduler/__init__.py:590-716 | with readable triggers the sign jobs are always those of the active tasks exactly if no active task shares its identifier with an inactive one |
| JobSyncLaws.OneJobEachExactly | backend/scheduler/__init__.py:590-716 | there is always one job per active task exactly if, besides, the active identifiers are distinct |
| JobSyncLaws.SignJobsWithin | backend/scheduler/__init__.py:612-715 | a sign job left over belongs to an active task |
| JobSyncLaws.ClashAlternates | backend/scheduler/__init__.py:612-647 | with a shared identifier one synchronisation creates the job and the next one deletes it |
| JobSyncLaws.OtherJobsKept | backend/scheduler/__init__.py:717-730 | other jobs survive, except one-shot jobs no enabled range task owns |
| JobSyncLaws.SyncIdempotentExactly | backend/scheduler/__init__.py:590-730 | synchronising twice is synchronising once, for every job set, exactly if no schedulable active task shares its identifier with an inactive one |
| JobSyncLaws.IdsCollide | backend/scheduler/__init__.py:612 | different names with the same identifier |
| JobSyncLaws.CollidingTasksClash | backend/scheduler/__init__.py:612-647 | tasks of different accounts with such names: the enabled one loses its job wherever the disabled one is listed |
| JobSyncLaws.TaskFires | backend/scheduler/__init__.py:612-647 | after a synchronisation an active task with an identifier of its own runs at its range start or sign time; an existing job keeps what it does, and its time if the stated one cannot be read |
| OneShotJobs.PrefixMatchesExactly | backend/scheduler/__init__.py:314-325 | the prefix test on identifiers holds exactly if the one pair of names claims the other |
| OneShotJobs.ClaimsWithinAccount | backend/scheduler/__init__.py:314-325 | within an account a task claims exactly itself and the tasks whose name extends its own by a dash |
| OneShotJobs.DashlessApart | backend/scheduler/__init__.py:314-325 | names without dashes claim only themselves |
| OneShotJobs.ConversionRemovesExactly | backend/scheduler/__init__.py:311-347 | a conversion removes another pending one-shot job exactly if it claims its names, and changes no other job |
| OneShotJobs.ConversionRemovesSibling | backend/scheduler/__init__.py:311-347 | so a task named `task-rest` of the same account loses its pending job |
| OneShotJobs.ConversionRemovesStranger | backend/scheduler/__init__.py:311-347 | and so does every task of the account named `account-task` |
| OneShotJobs.OneShotKeptExactly | backend/scheduler/__init__.py:718-730 | a synchronisation keeps a pending one-shot job exactly if an enabled range task claims it with its stored names |
| OneShotJobs.OwnClaimExactly | backend/scheduler/__init__.py:718-730 | stored names claim their stripped form exactly if stripping changes neither |
| OneShotJobs.OwnOneShotKeptExactly | backend/scheduler/__init__.py:718-730 | so a task keeps its own pending job exactly if its stored names carry no padding, or another task happens to claim it |
| TaskStore.Database.CasUpdate | backend/models/sign_task.py:84-106 | the conditional update wins exactly if identifier and revision match; then that row holds the given configuration under the next revision, and nothing else changes |
| TaskStore.Database.RunMigration | tools/migrate_json_to_orm.py:72-134 | the loop computes the migrated tables; a refused identifier undoes the whole transaction |
| TaskStore.MigrationLaw | tools/migrate_json_to_orm.py:72-134 | a completed migration stores the last listed configuration of every listed task under a revision that counts the changes, lists the inserted rows as its items, and leaves every other row alone |
| TaskStore.RefusedExactly | tools/migrate_json_to_orm.py:72-134 | it is refused exactly if one of its insertions meets a row of its identifier |
| TaskStore.Database.RollbackMigration | tools/migrate_json_to_orm.py:145-173 | the loop deletes the unmodified rows of the run and reports how many |
| MigrationRuns.RevisionCountsUpdates | backend/models/sign_task.py:84-106 | the revision of a migrated row is one plus its successful updates |
| MigrationRuns.ConfigIsLastWritten | backend/models/sign_task.py:84-106 | after any run a row holds what its last successful update or its insertion wrote |
| MigrationRuns.MigrationDelivers | tools/migrate_json_to_orm.py:72-134 | after any run a migration that completes leaves each task listed once with its listed configuration, and unlisted rows as they were |
| MigrationRuns.RollbackExact | tools/migrate_json_to_orm.py:145-173 | a rollback deletes exactly the rows its run inserted and nobody updated since |
| MigrationRuns.OneWinnerPerRevision | backend/models/sign_task.py:84-106 | no two updates with the same expected revision win on the same row |
| MigrationRuns.StepKeepsSound | tools/migrate_json_to_orm.py:72-134 | every item of a completed run has its row, inserted by that run |
| DeferredCleanup.Cleanups.ScheduleDeferredCleanup | tg_signer/async_utils.py:33-70 | the old task of the key is cancelled and the new one registered |
| DeferredCleanup.Cleanups.Finish | tg_signer/async_utils.py:56-63 | the end of a task: target, registration, and identity check |
| DeferredCleanup.OneSleeperPerKey | tg_signer/async_utils.py:33-70 | at most one uncancelled sleeper per key, the registered and latest one |
| DeferredCleanup.OnlySelfUnregisters | tg_signer/async_utils.py:61-63 | a superseded task never unregisters a newer one |
| DeferredCleanup.ActiveTargetsKept | tg_signer/async_utils.py:56-60 | a target goes only when the latest task wakes up while the key is inactive |
| DeferredCleanup.LatestCleansUp | tg_signer/async_utils.py:56-63 | and then it does go |
| SemanticEvaluation.WilsonLaw | scripts/evaluate_semantic.py:7-21 | the bound is the smaller root of its quadratic, between 0 and the observed rate, so the clamp is a no-op |
| SemanticEvaluation.EvaluateRows | scripts/evaluate_semantic.py:24-67 | the counts are those of the accepted rows, the rows taken for a success without being one, and the rows classified as expected; the bound is always defined for accepted rows and never exceeds the precision |
| SemanticEvaluation.CountsShare | scripts/evaluate_semantic.py:44-53 | no accepted row is both dangerous and correct |
| ClickTargets.Parse | tg_signer/compat.py:245-329 | every returned target is non-empty and trimmed |
| ClickTargets.ListLaw | tg_signer/compat.py:263-264 | a list yields exactly its non-blank items, stripped and in order |
| ClickTargets.DictLaw | tg_signer/compat.py:265-280 | the known key that comes first in the fixed order decides, wherever it stands, and no known key yields nothing |
| ClickTargets.TextYieldsTarget | tg_signer/compat.py:282-329 | a text with some content always yields a target |
| ClickTargets.SplitLaw | tg_signer/compat.py:300-329 | a text is split at the first separator that leaves several targets, a number only at a strong one |
| ClickTargets.WholeExactly | tg_signer/compat.py:300-329 | it stays whole exactly if it is a button or no separator that counts leaves several targets |
| ClickTargets.ParseUndoesJoin | tg_signer/compat.py:300-327 | two or more targets survive being joined by any of the nine separators, if they hold neither it nor one tried before it |
| ClickTargets.JoinUndoesSplit | tg_signer/compat.py:308-327 | joining the pieces of a split gives the text back |

## Left out

- AccountLifecycle.AccountService.Apply: whether the account is busy and which names count as printable are parameters, the length limit of names is left out; it assumes that the four directories (tasks, sessions, avatars, history) are disjoint, that name lists are lists or absent, and that no primitive of the rollback itself fails; the staging directory, monitors, scheduler jobs and in-memory tables updated after the commit are not modelled, and a file holds a configuration, a history, another JSON value or bytes that are no JSON.
- AccountLifecycle.AccountService.UpdateStore: the account store is a map of its own, not a file of the tree, and the rotation of storage identifiers is not modelled.
- TaskConfig.HistoryKeyRoundTrip: for names as validated on creation, so without slashes and not blank; the replacement key `default` is not modelled.
- RateLimitRuns.WindowSafety: for buckets that are not evicted for capacity; an eviction forgets the log, as in the source.
- RateLimiter.InMemoryRateLimiter.Hit: the times stored in the ordered table are never read and are not modelled.
- DeliverySpacing.ReconcileExactly: for the half that fails it takes one more receipt, short enough to be enqueued and not stored, to make a settled one expire.
- DeliveryDoubt.DoubtKeptExactly: likewise one more receipt to offer, for the half that fails.
- NotificationOutbox.Outbox.Enqueue: SQLite, its schema and the queries that only list receipts are replaced by a map.
- VisualLadder.RunLadder: the classifiers of errors are arbitrary; delays, timeouts and logging are left out.
- TaskInspection.IterChatActions: action objects that are no dictionaries are left out, and graphs are named by identity in a closed store.
- GraphSearch.ChatRequires: which single steps, actions and nodes are wanted is arbitrary; the three tests differ slightly in the source.
- BreakerProtocol.ClosedUntilSuccess: lock timeouts, corrupt state files, `_set_state` and `clear` are left out.
- RangeWindows.WindowLaw: a fixed UTC offset; daylight-saving changes are left out.
- JobSync.Scheduler.SyncJobs: next run times, adaptive and compensation overrides, the backup job and the expansion of wildcard tasks are left out; they do not change which sign jobs exist.
- JobSync.Scheduler.ConvertDelay: the decimal timestamp in the identifier is a parameter.
- TaskStore.Database.RunMigration: scanning the directories, the derived columns and timestamps are left out.
- SemanticEvaluation.WilsonLaw: exact reals and a given square root instead of floating point, for a non-negative quantile.
- ClickTargets.Parse: the JSON decoder, the comparison with existing buttons and the pattern for thousands separators are parameters; decoding is only required to shrink the text.
- Cryptography, plugin management, HTTP routes, the frontend and Pydantic validation: mostly library behaviour.
- `SignConfigV2.to_current`, `FloodBackoffManager`, setting clamps and numbering tables: they would add easy members only.
- Text classifiers based on marker lists or regular expressions: uninterpreted predicates.
