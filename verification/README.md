# AIMEE: verified models of its protocols

AIMEE is a team of AI employees behind an API (`apps/api`), a web client, a desktop shell
(`apps/desktop`) and shared packages. Most of its correctness rests on a few concurrent protocols
between the API, its database, providers that fail ambiguously, and renderers that may crash. These
Dafny modules model those protocols step by step and prove what they keep over every run.

| module | what it models |
|---|---|
| `ModelPolicy` | how a model-policy patch is resolved, and what the platform and workspace routes keep true of every workspace |
| `ModelPolicySaga` | the workspace route's provider calls, database commit and compensating calls |
| `ThreadSends` | sends under a client nonce, group follow-ups, executor transitions, superseded runs |
| `RetryNonces` | operator retries of a failed run under an idempotency key |
| `ControlLease`, `ComputerControl` | control of a computer: take, support take, release, expiry, stop and boot; the leased screen |
| `UpdateState`, `UpdateController` | the desktop updater's reducer and its controller, interleaved at every await |
| `ServerSwitch` | changing the desktop shell's server: open, write, commit or undo |
| `HandshakeHeaders`, `HandshakeBoundary` | the incremental search for the end of an upgrade response's head, and the filter of its lines |
| `MessagePages` | message pages and loading a whole thread |
| `Base64Url`, `WorkspaceCursor`, `WorkspaceList` | the fleet list's cursor text and its keyset paging |
| `Credentials` | default credentials and their secrets |

Where the code changes state, the module has a class whose fields are that state and whose methods
follow the code's segments between awaits or its statements. Their contracts tie the new
state to a function on values (`Apply`, `Step`, `After`, `Connect`), and the lemmas about that
function cover whole runs. In the route methods, `Interfere` (or `Pause`) stands for an await: there
any number of other requests' writes happen. Clocks and the answers of providers, reads and writes
are given to a route, and a log (`Logs`) records every write and whether the route sent it: an instant
of a call is an earlier log, and what a route did is `Own` of its log.

## What the proofs found

Where the code falls short of a promise there is a lemma with a run in which it does, and one with
the exact condition.

- "The user holds control iff a lease is set" is not true as it stands: an expiry first takes the
  holder away and keeps the lease id until its provider call is done
  (`ControlLease.ExpiryLeavesALeaseUnheld`). The invariant proved is the exact one: the holder is the
  user iff a lease is set that no expiry has claimed.
- A boot decides whether to keep the user's control from a row it read earlier. Control released
  meanwhile is given back without a lease (`ControlLease.BootReturnsReleasedControl`), and control
  taken or still held is dropped by a boot that had seen none (`ControlLease.BootDropsLiveControl`).
  `ControlLease.AlwaysExactly` shows which writes can break the invariant, and that no others do.
- A stop whose statements fail between its claim and its `try`, whose claim is lost, or whose error mark is
  rejected leaves the computer suspending, where nothing modelled here can move it again
  (`FailedReadStrandsTheComputer`, `AbandonedSuspendingIsForever`). So does a refused stop that had read
  suspending (`RefusedStopsStrandTheComputer`). `ComputerControl.Computer.StopComputer` says exactly when.
- A takeover that fails after its schedule, because the event cannot be appended, or whose undoing fails, tells its
  caller of a failure and leaves it in control, a support operator with an active session
  (`ComputerControl.FailedTakeoverLeavesItsLease`, `FailedSupportTakeoverLeavesBoth`).
- A stop that is refused restores the state it had read, so it can mark a computer running that another
  stop has just stopped (`RefusedStopRevivesAStoppedComputer`); it leaves the rows as they were exactly if it
  had read the state at its claim (`RefusalRestoresExactly`).
- A client that loses the race for control is told the winner's lease whatever bot that is for
  (`ComputerControl.LostRaceTellsAnothersLease`); `ToldAnothersLeaseExactly` says that nobody else is.
- A support release reads the session after the computer, so a session whose lease was granted in
  between is closed while its lease stays (`ComputerControl.ReleaseClosesANewerSession`);
  `ReleaseLeavesALeaseExactly` is the exact condition.
- A sender whose commit took effect can still be told of a failure: its acknowledgement and its
  second lookup are lost in one outage (`ThreadSends.OutageHidesTheReceipt`). `ThreadSends.SendSucceeds` says
  exactly when a lost commit is thrown over.
- Answering an old run after a newer send leaves two queued runs of one bot in one thread
  (`ThreadSends.ResumingAnOldRunDuplicates`). `ThreadSends.AlwaysUniqueExactly` gives the exact condition over
  whole histories, and `AlwaysNewestExactly` the one for every queued run being its bot's newest.
- `ThreadSends.FirstRunAgrees`: the caller that commits and one that replays are told the same first run
  exactly when no run of the batch is before its first in creation time and row id.
- `RetryNonces.SameTimestampDefeatsTheGuard`: the retry guard needs timestamps that strictly advance.
- `WorkspaceCursor.QuotedIdIsRejected`: an id within the 200-character guard whose own cursor the route
  rejects, because its escaped form outgrows 500 characters; `CursorRoundTrip` gives the exact bound, and
  `WorkspaceList.FollowListsAll` which tables a client can list to the end.
- The platform route takes no policy lease. `NewInheritorMissesTheDefault`, `NewModelLosesItsEntry` and
  `OlderPlanMissesTheDefault` are overlaps of the two routes that leave a workspace off the default or a
  model missing from its catalog; the `Stale…Exactly` lemmas of `ModelPolicy` say exactly which overlaps do.
- A policy commit that took effect although it was rejected is followed by undoing calls that set every
  called key apart (`ModelPolicySaga.ExitSettles`).
- `ModelPolicy.PatchesCompose`: two patches in a row equal one, except exactly when inheritance is turned
  on and then off without naming a model.
- `ServerSwitch.HistorySynced`: the setup file and memory differ exactly when the last save that changed
  something was kept without being written, or its rollback failed. "Kept" is documented for the first
  run; the code keeps the new window whenever there is no live previous one.
- packages/contracts/src/desktop.ts:20 says the percentage is only set while downloading; the reducer
  also sets it to 100 when ready. The model follows the code.

## Assumptions

- A database transaction commits as a whole or has no effect. A rejected write may have been taken in
  `ModelPolicySaga` (the commit), `ThreadSends`, `RetryNonces` and `ComputerControl`; elsewhere, and
  for a stop's last write, it has had no effect. `(threadId, clientNonce)` is unique on
  messages, and a thread's message `seq` is unique and comes from a counter.
- Every write to a run strictly advances its `updatedAt`.
- Lease ids, secret ids and row ids are fresh.
- The model-policy lease keeps two updates of one workspace apart; the keys of one workspace are
  distinct; a rejected provider call takes effect, if at all, when it fails.
- The desktop's clock is positive and does not go back. Destroying a window runs its `closed` handler
  at once, and `openAppOnce` has no other open under way. Choosing the session of a window does not
  reject: its awaits are caught (apps/desktop/src/main.ts:141-172).
- Other requests during an await write only what the module's `Write` (or `Action`) datatype lists.

## Model

| member | source | states |
|---|---|---|
| ModelPolicySaga.ManagedWorkspace.UpdateOpenRouterLimit | apps/api/src/brandwell-management.ts:1132-1140 | a rejected PATCH may or may not have taken effect |
| ModelPolicySaga.ManagedWorkspace.ApplyLimits | apps/api/src/brandwell-management.ts:1129-1142 | calls go out in order until a renewal or a call fails; each was answered as given, the attempts include the failing one, and the limits are exactly what those calls did |
| ModelPolicySaga.ManagedWorkspace.ChangeLimit | apps/api/src/brandwell-management.ts:1131-1141 | the call for the next target, and what it did |
| ModelPolicySaga.ManagedWorkspace.RollBack | apps/api/src/brandwell-management.ts:1143-1152 | exactly one call per attempted key, in any order, with the limit that was stored; the limits are exactly what those calls did, and it tells whether one was rejected |
| ModelPolicySaga.ManagedWorkspace.MarkModelPolicyProviderError | apps/api/src/brandwell-management.ts:2651-2668 | best effort: nothing but the recorded error changes |
| ModelPolicySaga.ManagedWorkspace.LimitTargets | apps/api/src/brandwell-management.ts:1116-1118 | exactly the credentials whose stored limit is not the new one |
| ModelPolicySaga.ManagedWorkspace.Compensate | apps/api/src/brandwell-management.ts:1142-1168 | the undoing calls are made, and an error recorded at most if one was rejected |
| ModelPolicySaga.ManagedWorkspace.UndoAttempts | apps/api/src/brandwell-management.ts:1142-1152 | the undoing calls of exactly the attempted targets |
| ModelPolicySaga.ManagedWorkspace.TargetsOf | apps/api/src/brandwell-management.ts:1116-1128 | refused exactly for an unlinked key or without a way to change limits; otherwise each credential whose limit changes, once |
| ModelPolicySaga.ManagedWorkspace.ChangeEverywhere | apps/api/src/brandwell-management.ts:1116-1277 | provider first, then the rows, and back again: the number of calls, what each did, what was written, and the reply by which of renewals, changes, undoing calls and transaction failed |
| ModelPolicySaga.ManagedWorkspace.UpdateModelPolicy | apps/api/src/brandwell-management.ts:1014-1277 | the whole route: which requests it refuses without a call, and with which status, and otherwise the exit and the reply that its answers determine |
| ModelPolicySaga.CommitRowsIsCommitPlan | apps/api/src/brandwell-management.ts:1173-1216 | the transaction's rows are the plan's policy for master and sidekicks, each keeping its provider |
| ModelPolicySaga.ReplyTells | apps/api/src/brandwell-management.ts:1116-1277 | what a caller may conclude: `Updated`, the plan is stored; `LimitsRejected`, the rows are the old ones and every key called for agrees with them; `NeedsReconciliation`, exactly if a renewal or change failed and so did an undoing call; `NotSaved`, the transaction alone failed |
| ModelPolicySaga.ProviderAfter | apps/api/src/brandwell-management.ts:1129-1152 | for each key: untouched if not attempted, the new limit after a saved update that changes it, the stored one again after any other whose undoing call was accepted |
| ModelPolicySaga.StopsAtFirstFailure | apps/api/src/brandwell-management.ts:1129-1142 | the attempts end with the first target whose renewal or change fails, which is among them; without one all are made |
| ModelPolicySaga.ExitSettles | apps/api/src/brandwell-management.ts:1116-1277 | an exit leaves the keys it did not attempt as they were and the attempted ones agreeing, but for a rejected undoing call or a lost commit, which leaves all of them apart whose undoing went through |
| ModelPolicySaga.KeySettles | apps/api/src/brandwell-management.ts:1116-1277 | the same for one key, from the calls made for it |
| ModelPolicySaga.UnsettledHoldOldOrNew | apps/api/src/brandwell-management.ts:1132-1152 | a key that agreed before has the old limit or the new one after any exit |
| ModelPolicySaga.DisagreementIsBlamed | apps/api/src/brandwell-management.ts:1116-1277 | over any sequence of updates a key disagrees only because in its last update its undoing call was made and rejected or the commit lost, or it always did |
| ModelPolicySaga.AgreementSurvives | apps/api/src/brandwell-management.ts:1116-1277 | provider and stored limits still agree after any sequence of updates whose undoing calls were all accepted and whose commits were not lost |
| ModelPolicy.BuiltInDefaultIsValid | packages/brandwell/src/platform-model-default.ts:4 | the built-in default is a well-formed model id |
| ModelPolicy.ModelIdForm | apps/api/src/brandwell-management.ts:2776 | a model id has one slash, 1 to 100 characters on either side, and no leading punctuation |
| ModelPolicy.ModelIdOf | apps/api/src/brandwell-management.ts:2776 | every vendor and name over the allowed characters make a model id |
| ModelPolicy.StringArrayKeepsNames | apps/api/src/brandwell-management.ts:2594-2597 | stored fallbacks lose exactly their empty strings |
| ModelPolicy.PatchesCompose | apps/api/src/brandwell-management.ts:2612-2638 | resolving two patches in turn equals resolving one merged patch, except exactly when inheritance is ended without naming a model |
| ModelPolicy.PatchReproduces | apps/api/src/brandwell-management.ts:2612-2638 | patching any policy with every setting of another gives that other one, each setting in its own field; an empty patch only refreshes an inherited default |
| ModelPolicy.PreferredModelEndsInheritance | apps/api/src/brandwell-management.ts:2617-2624 | naming a preferred model ends inheritance unless the patch asks for it, and that model is stored |
| ModelPolicy.NamesComeFrom | apps/api/src/brandwell-management.ts:2612-2638 | a resolved policy names only models of the patch, the default, or the current policy |
| ModelPolicy.ComputerEntryPresent | apps/api/src/brandwell-management.ts:1045-1111 | once every model was validated each named one has a catalog entry, so the second validation is never reached |
| ModelPolicy.PlanIsBounded | apps/api/src/brandwell-management.ts:2779-2804 | a plan's monthly limit is positive and at most the cap, its warning and daily limits at most the monthly one, and an inheriting plan is on the default |
| ModelPolicy.AcceptedExactly | apps/api/src/brandwell-management.ts:1025-1115 | a request is accepted exactly if the limits are kept, the provider supports every model named anew, and a named computer model takes images |
| ModelPolicy.PlannedCatalog | apps/api/src/brandwell-management.ts:1045-1083 | a plan's catalog has the valid known entries and the provider's answer for every model validated now, and nothing else |
| ModelPolicy.PlanIsSound | apps/api/src/brandwell-management.ts:1044-1115 | a plan is closed under its catalog exactly when the names it ends up with are well formed |
| ModelPolicy.PlanIsClosed | apps/api/src/brandwell-management.ts:1045-1115 | every accepted update is closed under its catalog, whatever the old catalog held |
| ModelPolicy.CommitEndsDrift | apps/api/src/brandwell-management.ts:2391-2409 | after a workspace update the drifting sidekicks are exactly those of another provider |
| ModelPolicy.MatchIsEquality | apps/api/src/brandwell-management.ts:2391-2409 | policies that match over one catalog are equal |
| ModelPolicy.WorkspaceTakesEffect | apps/api/src/brandwell-management.ts:1173-1216 | an accepted workspace request stores its plan on master and sidekicks, and touches no other workspace |
| ModelPolicy.PlatformTakesEffect | apps/api/src/brandwell-management.ts:143-244 | an accepted platform request moves the default and exactly the inheriting workspaces |
| ModelPolicy.DefaultDriftExactly | apps/api/src/brandwell-management.ts:185-205 | a platform update ends drift of the default and the catalog and no other, and never adds any |
| ModelPolicy.StaleCatalogExactly | apps/api/src/brandwell-management.ts:169-196 | an update from a catalog read earlier keeps the policy closed exactly when that catalog covers its other models |
| ModelPolicy.StaleDefaultExactly | apps/api/src/brandwell-management.ts:169-197 | inheriting workspaces follow the new default exactly when none began to inherit after they were read |
| ModelPolicy.StalePlanExactly | apps/api/src/brandwell-management.ts:1043-1044 | a plan made under an older default keeps the workspace on the default exactly when it does not inherit or the default is unchanged |
| ModelPolicy.NewInheritorMissesTheDefault | apps/api/src/brandwell-management.ts:169-197 | a run of both routes: a workspace that begins to inherit after the platform route has read stays on the old default |
| ModelPolicy.NewModelLosesItsEntry | apps/api/src/brandwell-management.ts:169-196 | a run of both routes: a model added after the platform route has read loses its catalog entry |
| ModelPolicy.OlderPlanMissesTheDefault | apps/api/src/brandwell-management.ts:1043-1044 | a run of both routes: a plan made before a platform update puts the workspace back on the old default |
| ModelPolicy.CommitDefaultKeepsSound | apps/api/src/brandwell-management.ts:185-205 | the platform update keeps a workspace closed, bounded and free of new drift |
| ModelPolicy.PlatformKeepsInvariant | apps/api/src/brandwell-management.ts:143-244 | the platform route keeps the invariant of all workspaces |
| ModelPolicy.WorkspaceKeepsInvariant | apps/api/src/brandwell-management.ts:1014-1277 | the workspace route keeps the invariant of all workspaces |
| ModelPolicy.EveryRun | apps/api/src/brandwell-management.ts:143-244 | after any sequence of both routes every policy is closed and bounded, inheriting workspaces are on the default, and only sidekicks of another provider drift |
| ThreadSends.SendSupersedes | apps/api/src/thread-target.ts:168-191 | after a send the queued runs of its bots in its thread are exactly the new ones, one per bot in order with its own queued task; each superseded run and its task are cancelled and nothing else changes |
| ThreadSends.FollowUpQueuesWhenIdle | apps/api/src/router.ts:1007-1036 | a follow-up queues a run of the first bot exactly when no run of the thread is queued, leased or running |
| ThreadSends.BatchStable | apps/api/src/thread-target.ts:127-132 | the runs a message created never change as a set |
| ThreadSends.ApplyKeyed | apps/api/src/thread-target.ts:504-510 | every write keeps one message per nonce and thread, with increasing seq |
| ThreadSends.ApplyLinked | apps/api/src/thread-target.ts:585-610 | every write keeps each run with its own task and a message of its thread |
| ThreadSends.ApplyExtends | apps/api/src/thread-target.ts:480-634 | no write changes an older message, a run's identity, or the runs of an older message |
| ThreadSends.SendKeepsNewest | apps/api/src/thread-target.ts:584-618 | a send keeps: every queued run is its bot's newest in its thread |
| ThreadSends.FollowUpKeepsNewest | apps/api/src/router.ts:993-1051 | so does a group follow-up, which only queues on an idle thread |
| ThreadSends.ExecutorKeepsNewestExactly | packages/core/src/run-state.ts:12-21 | an executor transition keeps it exactly when a run returning to the queue is its bot's newest |
| ThreadSends.ApplyKeepsNewestExactly | packages/core/src/run-state.ts:12-21 | any write keeps it exactly when it does not return an older run to the queue |
| ThreadSends.AlwaysNewestExactly | packages/core/src/run-state.ts:12-21 | over any history every queued run is its bot's newest at every instant exactly when no run goes back to queued behind a newer one |
| ThreadSends.SendKeepsUnique | apps/api/src/thread-target.ts:584-618 | a send keeps: no bot has two queued runs in one thread |
| ThreadSends.FollowUpKeepsUnique | apps/api/src/router.ts:993-1051 | so does a group follow-up |
| ThreadSends.ExecutorKeepsUniqueExactly | packages/core/src/run-state.ts:12-21 | an executor transition keeps it exactly when a run returning to the queue finds no other queued run of its bot in the thread |
| ThreadSends.ApplyKeepsUniqueExactly | packages/core/src/run-state.ts:12-21 | the same for any write |
| ThreadSends.AlwaysUniqueExactly | packages/core/src/run-state.ts:12-21 | over any history no bot ever has two queued runs in one thread exactly when every run going back to queued finds none of its bot there |
| ThreadSends.CancelledStays | packages/core/src/run-state.ts:12-21 | a cancelled run and its cancelled task are never written again |
| ThreadSends.ResumingAnOldRunDuplicates | packages/db/src/events.ts:429-438 | a run that answers after a newer send leaves two queued runs of one bot |
| ThreadSends.RunKeepsInvariant | apps/api/src/thread-target.ts:480-634 | over any history messages stay keyed by nonce, runs stay linked to one task and message each, and nothing a caller was told is lost |
| ThreadSends.EveryRun | apps/api/src/thread-target.ts:461-648 | from nothing: at most one message per nonce; and exactly which histories keep queued runs unique, and newest, at every instant |
| ThreadSends.OneReceipt | apps/api/src/thread-target.ts:134-166 | any two callers that succeed under one nonce, at any times, are told the same seq and the same set of runs |
| ThreadSends.ReceiptStable | apps/api/src/thread-target.ts:127-155 | a receipt once readable stays readable |
| ThreadSends.ApplyAnswered | apps/api/src/thread-target.ts:584-612 | a message under a nonce always has runs |
| ThreadSends.TakenIffReceipt | apps/api/src/thread-target.ts:127-141 | a nonce is taken exactly when it has a receipt |
| ThreadSends.CommitLeavesAReceipt | apps/api/src/thread-target.ts:480-634 | after a transaction that took effect or was refused for its nonce there is a receipt, and an acknowledged one is told it |
| ThreadSends.CommitMust | packages/db/src/transaction-retry.ts:15-25 | the send is written exactly when the first attempt that does not conflict reaches its commit and the nonce is free then; acknowledged, lost or not committed accordingly |
| ThreadSends.AcknowledgedTells | apps/api/src/thread-target.ts:157-166 | an acknowledged send is told its own message, exactly the runs it created, and the run of its first bot |
| ThreadSends.LookupTells | apps/api/src/thread-target.ts:127-155 | a lookup tells the message under the nonce, all of its runs, and the least of them by creation time and id; nothing only if there are none |
| ThreadSends.SendIsTrue | apps/api/src/thread-target.ts:477-478 | a success tells the receipt that was found or committed, and it is true; under a nonce that has one a call succeeds exactly if its first lookup answers; and if both lookups answer, exactly if there is one at the end |
| ThreadSends.SendSucceeds | apps/api/src/thread-target.ts:636-641 | a call must succeed when its lookups and the first of its three attempts that does not conflict answer, or that attempt alone was lost under a nonce; a lost commit is thrown over exactly without a nonce or with a rejecting second lookup |
| ThreadSends.OutageHidesTheReceipt | apps/api/src/thread-target.ts:636-640 | a call that commits, loses the acknowledgement and the second lookup, and throws over its own receipt |
| ThreadSends.FirstRunAgrees | apps/api/src/thread-target.ts:127-166 | the receipts of the committing and of a replaying caller name the same first run exactly when no run of the batch is before its first in creation time and id |
| ThreadSends.ThreadStore.ReplayExistingSend | apps/api/src/thread-target.ts:134-155 | unless a read rejects, finds the receipt of an earlier send exactly if there is one, with the least run by creation time and id first |
| ThreadSends.ThreadStore.LeastRun | apps/api/src/thread-target.ts:127-132 | the first run in the order of creation time and id |
| ThreadSends.ThreadStore.CancelSupersededQueuedRuns | apps/api/src/thread-target.ts:168-191 | cancels exactly the queued runs of the given bots in the thread besides the kept ones, with their tasks |
| ThreadSends.ThreadStore.CommitSend | apps/api/src/thread-target.ts:480-634 | refused without effect exactly when the nonce is taken; otherwise its loop and cancellation add up to the send's effect and the receipt of its own runs, the first bot's first |
| ThreadSends.ThreadStore.CommitWithRetry | packages/db/src/transaction-retry.ts:15-25 | only conflicts are tried again, at most three times; the call writes its send once, or nothing, as the deciding attempt and the nonce decide |
| ThreadSends.ThreadStore.SendNew | apps/api/src/thread-target.ts:480-648 | the call after a lookup that found nothing |
| ThreadSends.ThreadStore.CommitOnce | apps/api/src/thread-target.ts:480-634 | one attempt that reaches its commit |
| ThreadSends.ThreadStore.SendThreadMessage | apps/api/src/thread-target.ts:461-648 | a caller among any others: its lookups, the one transaction it writes or none, and its answer, for every way lookups and attempts end |
| RetryNonces.FiresIffUnwritten | apps/api/src/brandwell-management.ts:1448-1449 | the status and timestamp guard matches exactly when the run is unwritten since it was read |
| RetryNonces.ResetRequeues | apps/api/src/brandwell-management.ts:1448-1474 | a reset whose version is current leaves run and task queued, keeps every earlier nonce, and adds its own with one audit row; any other changes nothing |
| RetryNonces.FailureBetweenRequeues | apps/api/src/brandwell-management.ts:1447-1474 | over every history the executor fails the run between any two resets that fire |
| RetryNonces.AcceptedWasSo | apps/api/src/brandwell-management.ts:1475-1510 | an accepted retry tells the status the run had at an instant of the call, with its nonce recorded; unless it is a replay, run and task were queued then by its own reset |
| RetryNonces.RetryMust | apps/api/src/brandwell-management.ts:1440-1446 | what a request answers by the run it reads: not found, a replay, not retryable, or its transaction |
| RetryNonces.ResetMust | apps/api/src/brandwell-management.ts:1446-1510 | a sent transaction re-queues exactly if the run is still failed with the timestamp that was read; what is answered for each way it and the second read end |
| RetryNonces.ApplyKeepsInvariant | apps/api/src/brandwell-management.ts:1447-1474 | every write keeps nonces distinct and equal to those of the audit rows, in order |
| RetryNonces.ApplyGrows | apps/api/src/brandwell-management.ts:1447-1474 | nonces and audit rows are never removed |
| RetryNonces.OneAuditPerRequeue | apps/api/src/brandwell-management.ts:1461-1473 | there is one audit row per re-queue |
| RetryNonces.NonceRequeuesOnce | apps/api/src/brandwell-management.ts:1440-1489 | no two re-queues happen under one nonce |
| RetryNonces.EveryRun | apps/api/src/brandwell-management.ts:1440-1489 | over every interleaving: distinct nonces, audits that match them, one per re-queue, each nonce at most once |
| RetryNonces.SameTimestampDefeatsTheGuard | apps/api/src/brandwell-management.ts:1448-1449 | without strictly advancing timestamps one nonce can re-queue twice |
| RetryNonces.OneFreshResponse | apps/api/src/brandwell-management.ts:1505-1510 | at most one request re-queues under a nonce |
| RetryNonces.ResponseTells | apps/api/src/brandwell-management.ts:1440-1510 | a request re-queues at most once, and then its nonce and audit row stay; only one that did says `replayed: false`, or hides it behind a failed dispatch or a lost transaction; `replayed: true` is true; a recorded nonce is only replayed |
| RetryNonces.ResetStays | apps/api/src/brandwell-management.ts:1447-1474 | a reset that fired stays in the audit rows and among the nonces |
| RetryNonces.RetryRoute.WriteReset | apps/api/src/brandwell-management.ts:1448-1473 | the statements add up to one re-queue |
| RetryNonces.RetryRoute.ResetAndAnswer | apps/api/src/brandwell-management.ts:1446-1509 | the transaction fires exactly if its guard holds then, and what is answered either way |
| RetryNonces.RetryRoute.ReadAgain | apps/api/src/brandwell-management.ts:1484-1488 | a request that lost the race is answered by the row it reads again |
| RetryNonces.RetryRoute.Dispatch | apps/api/src/brandwell-management.ts:1490-1510 | the worker of a queued run is woken, or its failure told |
| RetryNonces.RetryRoute.ResetRun | apps/api/src/brandwell-management.ts:1447-1474 | the transaction re-queues run and task with one audit row exactly when its guard holds, or changes nothing |
| RetryNonces.RetryRoute.Retry | apps/api/src/brandwell-management.ts:1418-1510 | one request among any others: which of its answers each state and each failure leads to, and that a failed run under a new nonce is re-queued unless the guard fails |
| ControlLease.ApplyKeepsInvariant | apps/api/src/router.ts:1131-1398 | every write keeps: the user holds control iff an unclaimed lease is set, ids are never reused, a stop's claim keeps the computer suspending; the exceptions are exactly a boot that hands back lost control and a late error mark on another stop's claim |
| ControlLease.AlwaysExactly | apps/api/src/router.ts:1131-1398 | over any run the invariant holds at every instant exactly when neither of those two writes happens |
| ControlLease.ExpiryLeavesALeaseUnheld | packages/adapters/src/computer-control.ts:125-143 | a run from a fresh computer: a lease is set while nobody holds control |
| ControlLease.RefusedStopsStrandTheComputer | apps/api/src/router.ts:1131-1167 | a run from a fresh computer: a stop that had read suspending restores it, and the computer is stuck |
| ControlLease.FailedReadStrandsTheComputer | apps/api/src/router.ts:1151-1170 | a run from a fresh computer: a statement that throws between a stop's claim and its `try` leaves it stuck |
| ControlLease.RefusedStopRevivesAStoppedComputer | apps/api/src/router.ts:1159-1167 | a run from a fresh computer: a stop that had read running marks the computer running that another stop has just stopped |
| ControlLease.RefusalRestoresExactly | apps/api/src/router.ts:1136-1167 | a claim and its refusal leave the rows as they were exactly if the state read is the state at the claim |
| ControlLease.BootDropsLiveControl | packages/adapters/src/computer-lifecycle.ts:116-147 | a run from a fresh computer: a boot that does not keep control ends a lease the user still holds |
| ControlLease.LateFailureBreaksAClaim | apps/api/src/router.ts:1189-1196 | a run from a fresh computer: the error mark of a stop whose last write was lost hits the claim of the next stop |
| ControlLease.BootReturnsReleasedControl | packages/adapters/src/computer-lifecycle.ts:116-147 | a run from a fresh computer: control released during a boot is given back without a lease |
| ControlLease.GrantsExactly | apps/api/src/router.ts:1288-1309 | a lease appears only by a grant, on a running computer with none |
| ControlLease.LeavesExactly | apps/api/src/router.ts:1177-1188 | a lease leaves only through a write naming it, a stop's last write, or a boot that keeps no control |
| ControlLease.ApplyEvolves | packages/db/src/events.ts:644-664 | a lease keeps its bot and run until it leaves and never returns; sessions keep their operator and lease |
| ControlLease.HeldThroughout | apps/api/src/computer-screen-session.ts:25-40 | a lease seen before and after was in the row all the time between |
| ControlLease.LeftSessionsStayDead | apps/api/src/brandwell-support.ts:371-374 | a session whose lease has left never matches the row again |
| ControlLease.ClaimShutsOut | apps/api/src/router.ts:1136-1150 | while a stop has its claim no other write grants control or changes the computer's state |
| ControlLease.AbandonedSuspendingIsForever | apps/api/src/router.ts:1159-1163 | a computer left suspending with no stop under way stays so, but for a late error mark |
| ControlLease.RunKeepsInvariant | apps/api/src/router.ts:1131-1398 | the invariant and the life of every lease over any run of writes that keep control |
| ControlLease.EveryRun | apps/api/src/router.ts:1131-1398 | from a running computer nobody controls, a run keeps the invariant at every instant exactly when every write keeps control |
| ControlLease.RecordedEvolves | apps/api/src/router.ts:1131-1398 | every state of a recorded run keeps the invariant, and the later ones evolve from the earlier |
| ControlLease.SessionsKept | apps/api/src/brandwell-support.ts:361-374 | a session keeps its operator and lease, and what has ended stays as it ended |
| ControlLease.RecordedIsARun | apps/api/src/router.ts:1131-1398 | what the handlers record is a run from a fresh computer in which every write keeps control |
| ControlLease.NoGrantDuringStop | apps/api/src/router.ts:1136-1188 | no run of others' writes between a stop's claim and its last write grants a lease |
| ControlLease.ExecutionLeaseFate | apps/api/src/computer-status.ts:6-20 | an execution lease blocks a takeover exactly if it has not run out or its run is active, and no run waits for the takeover; the later deletion agrees with that test |
| ComputerControl.Computer.ExpireComputerControl | packages/adapters/src/computer-control.ts:99-156 | an expiry writes nothing but the claim and the clearing of the lease it names, says it cleared it only when it did, and without a failure ends a lease that has run out for good |
| ComputerControl.Computer.ExpireStale | apps/api/src/router.ts:1250-1253 | only the lease that was read is claimed and cleared |
| ComputerControl.Computer.TakeOver | apps/api/src/router.ts:1212-1352 | answered at once, or it ends leases, the active one of another bot first, stops only if something failed, and then writes and answers exactly as its grant, its failures and the rows decide |
| ComputerControl.ToldAnothersLeaseExactly | apps/api/src/router.ts:1288-1352 | a granted takeover tells a lease that the user holds at an instant of the call, and another bot's exactly if its own grant lost to one |
| ComputerControl.FailedTakeoverLeavesItsLease | apps/api/src/router.ts:1288-1349 | a failed takeover leaves the user in control exactly when the grant was taken but rejected, the schedule and its undoing both failed, or the event could not be appended |
| ComputerControl.WinnerMust | apps/api/src/router.ts:1288-1352 | a grant that matches is answered `Granted` exactly if it, its schedule and its event all succeed, and is undone exactly if the schedule fails and the undoing is not rejected |
| ComputerControl.GrantedKeepsItsLease | apps/api/src/router.ts:1326-1352 | a caller told that it has control did not take it back, and holds it at the end unless another request ended it; one that took it back is told of a failure |
| ComputerControl.LoserMust | apps/api/src/router.ts:1256-1325 | what is answered when no grant is sent, or one that does not match: the active lease in the row, a conflict, or a failure |
| ComputerControl.RejectedAppendLeavesControl | apps/api/src/router.ts:1341-1349 | a run from a fresh computer: the caller who was told of a failure holds control |
| ComputerControl.LostRaceTellsAnothersLease | apps/api/src/router.ts:1310-1325 | a run from a fresh computer: bot 1's caller is told the lease of bot 2 |
| ComputerControl.Computer.MakeRoom | apps/api/src/router.ts:1229-1253 | before its grant a takeover only ends leases, the active one of another bot first, and stops only if something failed |
| ComputerControl.Computer.Displace | apps/api/src/router.ts:1229-1249 | taking over from another bot clears exactly the lease that was read, unless the revoke or the write fails |
| ComputerControl.Computer.GrantControl | apps/api/src/router.ts:1256-1349 | all of a grant: sent for this bot unless blocked, won exactly on a running computer without a lease, undone exactly if its schedule fails and the undoing is taken, and what the caller is told |
| ComputerControl.Computer.ClaimControl | apps/api/src/router.ts:1288-1309 | a new lease for the bot, counted exactly if the computer was running without a lease |
| ComputerControl.Computer.Settle | apps/api/src/router.ts:1326-1349 | after the grant: the lease is cleared exactly when the schedule fails and the undoing write is taken |
| ComputerControl.Computer.JoinWinner | apps/api/src/router.ts:1310-1325 | the loser is told the lease active in the row it reads, at an instant after its grant |
| ComputerControl.Computer.ReleaseControl | apps/api/src/router.ts:1353-1398 | answered without effect exactly when the caller has no active control; otherwise it throws exactly when the revoke or the write does, and the lease is gone for good exactly when the write was taken |
| ComputerControl.Computer.StopComputer | apps/api/src/router.ts:1131-1202 | the claim is sent exactly when no other bot is using the computer and it is not rejected, and takes exactly a computer not suspending; what it writes last, what it answers and the state it leaves, with no lease granted in between |
| ComputerControl.Computer.EndStop | apps/api/src/router.ts:1151-1201 | the last write of a stop with its claim, its answer and the state it leaves, suspending exactly if it was stranded or restores suspending |
| ComputerControl.StopMust | apps/api/src/router.ts:1131-1202 | done exactly if nothing failed and no other run was active, a conflict exactly if one was and the state was restored; the last write, and when the computer is left suspending or in error |
| ComputerControl.Computer.TakeSupportControl | apps/api/src/brandwell-support.ts:108-274 | while somebody has control exactly the operator's own active session is replayed; otherwise it writes and answers as its grant, its failures and the rows decide |
| ComputerControl.Computer.Replay | apps/api/src/brandwell-support.ts:127-148 | the operator's active session of the lease that was read, at an instant of the call, or a refusal |
| ComputerControl.FailedSupportTakeoverLeavesBoth | apps/api/src/brandwell-support.ts:183-270 | a failed support takeover leaves lease and active session together, exactly when it does not undo them |
| ComputerControl.SupportMust | apps/api/src/brandwell-support.ts:150-274 | all answers and writes of a support grant, by what was in the row and what failed |
| ComputerControl.SupportGrantedKeepsItsLease | apps/api/src/brandwell-support.ts:243-274 | an operator told that it has control did not take it back; one that did is told of a failure and has no active session |
| ComputerControl.ReplayTells | apps/api/src/brandwell-support.ts:127-148 | only an active session of this operator for this lease is replayed |
| ComputerControl.Computer.GrantSupport | apps/api/src/brandwell-support.ts:150-274 | all of a support grant: lease and session appear in one write and go in one |
| ComputerControl.Computer.SettleSupport | apps/api/src/brandwell-support.ts:243-270 | after the transaction: lease and session go together exactly when the schedule fails and the undoing is taken |
| ComputerControl.Computer.FindSession | apps/api/src/brandwell-support.ts:128-136 | an active session of this operator for this lease, or there is none |
| ComputerControl.Computer.LatestSession | apps/api/src/brandwell-support.ts:361-370 | the operator's latest active session, or the operator has none |
| ComputerControl.Computer.ReleaseSupportControl | apps/api/src/brandwell-support.ts:351-424 | which session it finds, whether it clears and closes, and its answer, for every failure; an answered release has closed its session |
| ComputerControl.Computer.GiveBack | apps/api/src/brandwell-support.ts:376-424 | the clearing write names the request's bot; the session is closed exactly if that write matched |
| ComputerControl.Computer.CloseSupportSession | apps/api/src/brandwell-support.ts:511-526 | the session is closed unless the write is rejected |
| ComputerControl.ReleaseLeavesALeaseExactly | apps/api/src/brandwell-support.ts:351-424 | an answered release says `replayed` exactly if the lease was not in the row it read, and leaves the lease in the row exactly if it was granted after that and nobody ended it |
| ComputerControl.LatestExactly | apps/api/src/brandwell-support.ts:361-369 | the latest active session of the operator, or there is none |
| ComputerControl.ReleaseFinds | apps/api/src/brandwell-support.ts:360-370 | a release gives back the operator's latest active session |
| ComputerControl.ReleaseMust | apps/api/src/brandwell-support.ts:371-424 | the clearing write with the holder it leaves, the closing of the session exactly if it matched, and the answer |
| ComputerControl.ReleaseClosesANewerSession | apps/api/src/brandwell-support.ts:360-374 | a run from a fresh computer: the session is closed while its lease stays |
| ComputerControl.Computer.ConnectLeasedComputerScreen | apps/api/src/computer-screen-session.ts:11-49 | an interactive screen is handed on exactly if at an instant of the call after connecting the row authorized that token and bot, and after that the session was active; every other outcome, a thrown check included, closes and then revokes |
| ComputerControl.Computer.CheckLease | apps/api/src/computer-screen-session.ts:23-41 | lets through exactly what the row at one instant and the session at a later one allow, and throws exactly when a read it needs does |
| ComputerControl.AuthorizedWasHeldThroughout | apps/api/src/computer-screen-session.ts:23-41 | a token in the row before the call and let through by the check was held all the time between, by that bot, with the computer running and the lease not run out at the check, and its session still active after that |
| UpdateState.RoundedPercent | apps/desktop/src/auto-update.ts:160-168 | the nearest whole percentage, between 0 and 100 |
| UpdateState.VersionShown | apps/desktop/src/auto-update.ts:137-176 | an offer or a download carries the version of its event, and no other event brings one |
| UpdateState.FailureShown | apps/desktop/src/auto-update.ts:177-220 | only a check that finds no release freezes the install, and only a user is told of an outage |
| UpdateState.ReduceKeepsCoherent | apps/desktop/src/auto-update.ts:124-221 | percent is set exactly in downloading and ready, offers carry a version: kept by every event except exactly a download start without an offer |
| UpdateState.ReadyIsSticky | apps/desktop/src/auto-update.ts:169-218 | a ready update is left only by a failed install, for error |
| UpdateController.DesktopUpdateController.PushEvent | apps/desktop/src/auto-update.ts:301-306 | the state is reduced, and a settling event forgets the user's request |
| UpdateController.DesktopUpdateController.Check | apps/desktop/src/auto-update.ts:371-400 | the first segment of a check is the step `CallCheck` |
| UpdateController.DesktopUpdateController.ResumeCheck | apps/desktop/src/auto-update.ts:401-406 | asks the feed exactly when the second test passes |
| UpdateController.DesktopUpdateController.FinishCheck | apps/desktop/src/auto-update.ts:405-416 | a failed call is reported only while idle or checking: the step `CheckSettled` |
| UpdateController.DesktopUpdateController.Download | apps/desktop/src/auto-update.ts:419-433 | the first segment of a download is the step `CallDownload` |
| UpdateController.DesktopUpdateController.ResumeDownload | apps/desktop/src/auto-update.ts:434-437 | the download starts exactly when the offer is still there |
| UpdateController.DesktopUpdateController.FinishDownload | apps/desktop/src/auto-update.ts:436-447 | a failed download is reported only while downloading: the step `DownloadSettled` |
| UpdateController.DesktopUpdateController.Install | apps/desktop/src/auto-update.ts:450-452 | the first segment of an install is the step `CallInstall` |
| UpdateController.DesktopUpdateController.ResumeInstall | apps/desktop/src/auto-update.ts:453-458 | quits exactly when no install has started and one starts now |
| UpdateController.DesktopUpdateController.QuitAndInstallThrew | apps/desktop/src/auto-update.ts:459-467 | an install may start again, and its failure is reported: the step `QuitThrew` |
| UpdateController.DesktopUpdateController.LoadFinished | apps/desktop/src/auto-update.ts:312-366 | everything awaiting the load resumes with its outcome |
| UpdateController.DesktopUpdateController.Listen | apps/desktop/src/auto-update.ts:319-355 | each updater event is the step `Emit` |
| UpdateController.StepIsPush | apps/desktop/src/auto-update.ts:301-306 | outside a check's start the visible state changes only by one reduced event |
| UpdateController.CheckStartsExactly | apps/desktop/src/auto-update.ts:371-400 | what the first test of a check starts, and that exactly a requested check thaws a frozen install |
| UpdateController.AsksExactly | apps/desktop/src/auto-update.ts:401-406 | a resumed check with a loaded updater asks the feed exactly when it is due, whoever started it |
| UpdateController.FirstCheckAsks | apps/desktop/src/auto-update.ts:371-406 | from construction the first check of a supported install asks the feed exactly once, background or not |
| UpdateController.DownloadStartsExactly | apps/desktop/src/auto-update.ts:419-433 | a download loads the updater exactly for an offer, as a request of the user |
| UpdateController.DownloadsExactly | apps/desktop/src/auto-update.ts:434-437 | it downloads exactly if the offer is still there |
| UpdateController.InstallsExactly | apps/desktop/src/auto-update.ts:450-458 | a ready update is installed by the first call that finds the updater loaded |
| UpdateController.LoadReaches | apps/desktop/src/auto-update.ts:312-366 | the load's outcome reaches every check, download and install that waits for it |
| UpdateController.FindingsShown | apps/desktop/src/auto-update.ts:320-340 | a found or downloaded update is shown with its version |
| UpdateController.FailuresShown | apps/desktop/src/auto-update.ts:349-468 | which failures are shown, and that they answer the pending request |
| UpdateController.InstallFrame | apps/desktop/src/auto-update.ts:450-469 | an install starts once and ends only when quitAndInstall throws |
| UpdateController.StepSound | apps/desktop/src/auto-update.ts:280-470 | every segment keeps the renderer's state coherent and an unsupported install as it began |
| UpdateController.ReadyExit | apps/desktop/src/auto-update.ts:450-469 | in every segment ready is left only when quitAndInstall throws |
| UpdateController.AskedOnlyWhenNothingIsOffered | apps/desktop/src/auto-update.ts:229-241 | the feed is never asked over an offer, a download or a ready update |
| UpdateController.AdvanceRateLimited | apps/desktop/src/auto-update.ts:386-406 | each segment keeps feed calls a minute apart between thaws, although events may change the phase between the two tests |
| UpdateController.AdvanceUserThaws | apps/desktop/src/auto-update.ts:388-399 | a frozen controller thaws only after a user asked since it froze |
| UpdateController.AskedSinceFrozen | apps/desktop/src/auto-update.ts:371-399 | what counts as asked: a user has asked for a check and the install has not frozen since |
| UpdateController.AdvanceKeepsInvariant | apps/desktop/src/auto-update.ts:280-470 | every segment keeps all of the above, and at most one quit is under way |
| UpdateController.RunKeepsInvariant | apps/desktop/src/auto-update.ts:280-470 | all of it over any interleaving |
| UpdateController.EveryRun | apps/desktop/src/auto-update.ts:280-470 | from construction: coherent states, spaced feed calls, thaws by users only, at most one quit at a time, unsupported installs unchanged |
| UpdateController.UnsupportedRun | apps/desktop/src/auto-update.ts:308-310 | where updates are unsupported the feed is never asked |
| ServerSwitch.SyncExactly | apps/desktop/src/main.ts:1019-1090 | after one save disk and memory agree exactly as its outcome says, and only success or a kept connection changes memory |
| ServerSwitch.ShownAfter | apps/desktop/src/main.ts:1019-1090 | setup, address, window and page after a save, for each answer |
| ServerSwitch.HistorySynced | apps/desktop/src/main.ts:1019-1090 | over any history they differ exactly when the last save that changed something split them |
| ServerSwitch.Desktop.WriteSetup | apps/desktop/src/setup-store.ts:22-40 | the file is replaced whole or not at all, whichever step fails, and no temporary file stays |
| ServerSwitch.Desktop.ClearSetup | apps/desktop/src/setup-store.ts:42-45 | the file goes, or stays as it was |
| ServerSwitch.Desktop.OpenAppOnce | apps/desktop/src/main.ts:788-816 | success keeps the previous window pending; failure changes nothing but showing setup |
| ServerSwitch.Desktop.SetupWindowClosed | apps/desktop/src/main.ts:589-593 | closing setup brings a connected window back on screen |
| ServerSwitch.Desktop.ShowSetupWindow | apps/desktop/src/main.ts:599-614 | setup is shown and the app window hidden |
| ServerSwitch.Desktop.CommitPendingAppSwitch | apps/desktop/src/main.ts:818-823 | only the previous window goes |
| ServerSwitch.Desktop.AbandonPendingAppSwitch | apps/desktop/src/main.ts:829-851 | window, setup and address are restored exactly when the previous window is still there, and something is on screen |
| ServerSwitch.Desktop.RollbackSetupFile | apps/desktop/src/main.ts:874-882 | the previous setup is back on disk unless that write fails |
| ServerSwitch.Desktop.RecoverFromCrashedSave | apps/desktop/src/main.ts:884-907 | setup and address are the old ones, the crashed window is gone, setup is shown |
| ServerSwitch.Desktop.SetupSave | apps/desktop/src/main.ts:1019-1090 | all or nothing on disk, in memory, in address and windows, for every failure and crash; a second save meanwhile changes nothing |
| ServerSwitch.Desktop.PersistSwitch | apps/desktop/src/main.ts:1051-1086 | the write and what follows it, with setup closed by the user or not |
| ServerSwitch.Desktop.CommitSwitch | apps/desktop/src/main.ts:1058-1075 | a crash at any of the three checks restores the old setup |
| HandshakeBoundary.TailSuffices | apps/web/vite.config.ts:117-121 | searching three tail bytes and the chunk finds a terminator exactly when the whole stream has one |
| HandshakeBoundary.DeliveredGrows | apps/web/vite.config.ts:129-131 | later bytes are only appended to what was delivered |
| HandshakeBoundary.IndexOfTerminator | apps/web/vite.config.ts:118 | the first terminator or none |
| HandshakeBoundary.HandshakeForwarder.StripSensitiveHandshakeHeaders | apps/web/src/screen-proxy.ts:155-169 | null exactly without a terminator; otherwise the filtered head and every later byte |
| HandshakeBoundary.DeliveredHead | apps/web/src/screen-proxy.ts:155-169 | the browser finds the end of the head where the proxy put it, and before it exactly the status line and the lines that are not sensitive, in order |
| HandshakeHeaders.JoinLines | apps/web/src/screen-proxy.ts:158 | joining the lines of a head gives it back |
| HandshakeHeaders.LinesOfJoin | apps/web/src/screen-proxy.ts:158-166 | splitting joined lines gives them back |
| HandshakeHeaders.FilteredHeadReadsBack | apps/web/src/screen-proxy.ts:158-166 | the lines of a filtered head are exactly the kept ones, and no sensitive line is among them |
| HandshakeHeaders.SensitiveExactly | apps/web/src/screen-proxy.ts:11-18 | a line is withheld exactly if its name, without spaces around it and in any mix of cases, is one of six |
| HandshakeHeaders.KeepInOrder | apps/web/src/screen-proxy.ts:159-164 | the lines that stay, stay in order |
| HandshakeHeaders.EndsFirstExactly | apps/web/src/screen-proxy.ts:156-158 | a head holds no terminator of its own exactly when only its first line may be empty |
| HandshakeHeaders.FilteredHeadEndsFirst | apps/web/src/screen-proxy.ts:155-169 | removing lines never makes a terminator appear before the end |
| HandshakeBoundary.HandshakeForwarder.OnData | apps/web/vite.config.ts:109-132 | the phase after a chunk depends on all bytes received, and what was written is the filtered stream or nothing |
| HandshakeBoundary.ForwardHandshake | apps/web/vite.config.ts:106-133 | for every chunking: the filtered stream, or nothing |
| HandshakeBoundary.ListeningExactly | apps/web/vite.config.ts:109-121 | still listening exactly while there is no terminator and no more than 65536 bytes |
| HandshakeBoundary.CompletingChunkForwards | apps/web/vite.config.ts:117-131 | the chunk that completes a small enough head hands it on |
| HandshakeBoundary.ForwardedExactly | apps/web/vite.config.ts:109-132 | a head is handed on exactly when the bytes up to its completing chunk are within the limit |
| HandshakeBoundary.ChunkingIsInvisible | apps/web/vite.config.ts:106-133 | two chunkings that get through deliver the same bytes |
| MessagePages.LoadMessagePage | apps/api/src/thread-message-pages.ts:6-58 | the newest rows before the cursor with a cursor exactly when more remain, or the window around a resolved target |
| MessagePages.FindByIdExactly | apps/api/src/thread-message-pages.ts:15-21 | an id resolves to the `seq` of its first row, or there is none |
| MessagePages.TargetExactly | apps/api/src/thread-message-pages.ts:13-22 | a `seq` wins over an id, an empty id counts as none, and a known id resolves to its row |
| MessagePages.PageBeforeExactly | apps/api/src/thread-message-pages.ts:43-58 | the newest of them, as many as fit, with a cursor exactly when more remain |
| MessagePages.LoadWindow | apps/api/src/thread-message-pages.ts:22-40 | consecutive rows around the target, every row from the window's start to the target among them, and every later one of the window unless the page is full, with a cursor exactly when older rows exist |
| MessagePages.WindowIsSlice | apps/api/src/thread-message-pages.ts:22-30 | the window's rows are consecutive rows of the thread |
| MessagePages.AroundContainsTarget | apps/api/src/thread-message-pages.ts:22-40 | a page around an existing message contains it and every row up to half a page before it, nothing further away than half a page, and is full unless it has all of those |
| MessagePages.ChainIsOlder | apps/api/src/thread-message-pages.ts:43-58 | following the cursors yields exactly the strictly older rows |
| MessagePages.AroundThenChain | apps/api/src/thread-message-pages.ts:31-58 | from an around-page they yield exactly the rows before its first |
| MessagePages.OlderUnaffected | apps/api/src/thread-message-pages.ts:43-50 | appended messages do not change what is older than a cursor |
| MessagePages.LoadAllMessages | apps/api/src/thread-message-pages.ts:60-73 | every message of the first load's table exactly once and in order, while the table grows |
| Base64Url.EncodeForm | apps/api/src/brandwell-management.ts:2447-2452 | only the url-safe alphabet, of the exact unpadded length |
| Base64Url.RoundTrip | apps/api/src/brandwell-management.ts:2417-2452 | decode undoes encode (section 5 of RFC 4648) |
| Base64Url.KnownTexts | apps/api/src/brandwell-management.ts:2447-2452 | vectors of section 10 of RFC 4648, and one with both characters of the URL alphabet |
| WorkspaceCursor.IsoRoundTrip | apps/api/src/brandwell-management.ts:2432-2435 | an instant's text is read back as that instant |
| WorkspaceCursor.EscapeRoundTrip | apps/api/src/brandwell-management.ts:2426-2450 | an escaped id is read back, with what follows it |
| WorkspaceCursor.JsonRoundTrip | apps/api/src/brandwell-management.ts:2426-2450 | a cursor's JSON is accepted exactly for ids of 1 to 200 characters |
| WorkspaceCursor.CursorRoundTrip | apps/api/src/brandwell-management.ts:2417-2452 | a cursor text is read back exactly when the id passes both length guards, and is invalid otherwise |
| WorkspaceCursor.PlainIdsAreSafe | apps/api/src/brandwell-management.ts:2417-2452 | ids of 1 to 200 characters that need no escape always come back |
| WorkspaceCursor.QuotedIdIsRejected | apps/api/src/brandwell-management.ts:2417-2452 | an id of 161 quotes gets a cursor that is rejected |
| WorkspaceList.BoundedLimit | apps/api/src/brandwell-management.ts:2411-2415 | 50 without one, truncated, and clamped to 1 to 100 |
| WorkspaceList.LaterExactly | apps/api/src/brandwell-management.ts:251-268 | the order of instants is that of time |
| WorkspaceList.TextLessExactly | apps/api/src/brandwell-management.ts:251-268 | the order of ids: a proper prefix, or the lesser character where they first differ |
| WorkspaceList.PrecedesTotal | apps/api/src/brandwell-management.ts:251-268 | of two rows exactly one comes first, the newer one, or at one instant the one with the lesser id |
| WorkspaceList.NextCursorNamesLastRow | apps/api/src/brandwell-management.ts:247-274 | a response's cursor text is read back as the cursor of its last row exactly if that row's id is safe, and is refused otherwise |
| WorkspaceList.PageAfterMatching | apps/api/src/brandwell-management.ts:251-268 | a page is the first rows after the cursor, with a next cursor exactly when more remain |
| WorkspaceList.TextsCarryTheCursor | apps/api/src/brandwell-management.ts:247-274 | followers through texts are refused after an unsafe row and nowhere else, and lose nothing |
| WorkspaceList.FollowVisitsInOrder | apps/api/src/brandwell-management.ts:247-274 | while the table changes no row is seen twice or out of order, and one that finishes saw every row that stayed |
| WorkspaceList.FollowListsAll | apps/api/src/brandwell-management.ts:247-274 | from the start of an unchanging table a client is finished exactly after the number of requests its rows take and if every page but the last ends on a safe id, and has then seen every workspace exactly once, in order, for every limit |
| Credentials.DefaultAfter | apps/api/src/router.ts:532-546 | from any state the connected or chosen credential is its owner's only default, and other owners are untouched |
| Credentials.RowsAfter | apps/api/src/router.ts:3280-3345 | a connect writes its row and a choice its text; other rows of the owner lose only the default, and no other row changes |
| Credentials.DefaultsKept | apps/api/src/router.ts:515-549 | every owner with a credential keeps exactly one default |
| Credentials.ReplacedSecretGoes | apps/api/src/router.ts:3331-3341 | a replaced secret is deleted exactly when no other credential uses it, and every other stays |
| Credentials.SecretsKept | apps/api/src/voice.ts:146-186 | no credential's secret is missing and no stored secret is unused |
| Credentials.SecretsExactly | apps/api/src/router.ts:3280-3345 | the stored secrets are exactly those in use |
| Credentials.ProvidersKept | apps/api/src/router.ts:3284-3325 | an owner has one credential per provider |
| Credentials.OneDefaultEach | apps/api/src/router.ts:3280-3345 | an owner with a credential has one default, and no two credentials of one provider |
| Credentials.EveryRun | apps/api/src/router.ts:3280-3345 | all of it after any sequence of connects and choices from nothing |
| Credentials.CredentialStore.FindExisting | apps/api/src/voice.ts:139-147 | the owner's credential for the provider, or there is none |
| Credentials.CredentialStore.FindDefault | apps/api/src/router.ts:3027-3034 | the owner's only default, or the owner has no credential |
| Credentials.CredentialStore.Persist | apps/api/src/voice.ts:136-191 | a connect's statements add up to its effect, or nothing if it aborts |
| Credentials.CredentialStore.SetDefault | apps/api/src/router.ts:3014-3057 | the named provider's credential, or else the default, becomes the only default; refused exactly when there is none |

## Left out

- Execution of runs, `acquireComputerExecutionLease` and its fences: whole-run mutual exclusion with user control is not claimed, and a takeover's deletion of a stale execution lease is only decided (`ControlLease.ExecutionLeaseFate`), not kept as a row.
- Idle sleep, recover, reset and update of a computer, `grantTakeover` of taught skills, `bots.setComputer` and the end of managed computers: they write control without naming a lease, so they are not among `ControlLease.Write`.
- Boot waits, retries and its provider calls: only its three writes to the row are modelled.
- `taught-skills` extensions of a lease are the write `Extend`; their schedule is not modelled.
- ComputerControl.Computer.EndStop: its last write is not lost; a stop whose last write was lost marks an error on whatever claim it finds, which is the write `StopLateFail` of `ControlLease`, stated exactly there (`LateFailureBreaksAClaim`).
- ComputerControl.Computer.ConnectLeasedComputerScreen: the kind, provider reference and workspace columns of the row are not modelled; they do not change with control.
- Runs created by routines, skills, child bots, retries and the one-bot follow-up: only sends and group follow-ups create runs in `ThreadSends`.
- ThreadSends.ThreadStore.SendThreadMessage: which bots a group message names, reply checks, attachments and connectors are inputs; an empty batch, which the route rejects by throwing, does not occur.
- Thread clearing and message deletion, which would end the stability of receipts.
- ModelPolicySaga.ManagedWorkspace.UpdateModelPolicy: loss of the policy lease to another update, and writes of the platform route during the update, are not interleaved; the `Stale…` lemmas of `ModelPolicy` say what an overlap of the routes does.
- JSON columns: a stored catalog value is an entry or not an object, and stored fallbacks are strings; whitespace around the stored platform default is not trimmed.
- WorkspaceCursor.CursorRoundTrip: ids outside printable ASCII, years after 9999, whitespace around the text, and JSON spellings the encoder never writes are not modelled.
- ServerSwitch.Desktop.SetupSave: users closing windows other than setup, `activate` during a save, a second `openApp` already under way, and an IPC call from another window are not modelled.
- UpdateState.ReduceKeepsCoherent: the text given to the classifier is already trimmed and in lower case.
- Credentials.CredentialStore.Persist: the label, and the voice or model kept when a connect names none, are not modelled; the choice stands for the resulting value.
- Removal of credentials, OAuth logins and probing of keys: not part of this model.
- The primary chat of a bot (`thread-chats.ts`, `resolveThreadTarget`): simple atomic updates that would only add easy members.
- Authentication, request parsing, DTOs, audit texts, realtime notifications, HMAC and URL parsing of the screen proxy.
