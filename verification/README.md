# Verification of the AMH daemon's stateful cores

A Dafny model of the parts of the AMH daemon where several callers, crashes or failures meet durable state, with
proofs about every run of them. `dafny verify dfyconfig.toml` checks all of it.

**External effects and policy.** Every external effect the daemon has goes through two engines. A policy decision
is single-use, expires, and is bound to the digest of one payload; an effect record moves through its lifecycle by
reading a row, checking it, and updating it only if nobody has in between. Consuming the decision and moving the
effect are two transactions. `Policy` and `Operations` say what each transaction does, `PolicyEngine` and
`OperationsEngine` are the two engines as objects, `PolicyCalls` and `OperationsCalls` what each call answers and writes
case by case, and `PolicyLedger`, `EffectRuns`, `EffectTheorems`, `EffectRefinement` and `EffectLiveness` run them: any
number of callers, each stopped anywhere between its read, its consumption, its update and the external call it tracks,
with restarts at any point, which can themselves stop half-way through recovery.

**Self-improvement candidates.** `SelfImprove` has the tables and what each statement writes, `SelfImproveEngine`
the engine as an object, one call at a time, and `SelfImproveCalls` what each call answers and writes case by case. `SelfImproveRuns` takes the calls apart into their statements, with the
class lock (hash collisions included), row locks, and aborts; `SelfImproveTheorems` and `SelfImproveEvidence` say what
every interleaving keeps.

**Extension registry.** `Registry` and `ContextEffects` say what each call does to the extension, provided-capability
and context-effect tables; `RegistryEngine` is the registry as an object, query by query, and `RegistryCalls` what each
call answers and writes case by case. `RegistryRuns`,
`RegistryTheorems` and `RegistryTeardown` run it call by call, with launches and teardowns that work, fail, end
without their outcome being written, or kill the daemon.

**Smaller cores.** `RestartLimiter` and `SupervisorRuns` (the supervisor's sliding window and its exit channel),
`Failover`, `FailoverEngine` and `FailoverTheorems` (the inference router over the operations engine), `Semver` and
`SemverTheorems` (versions and ranges, on the strings), `Decimal` and `Timestamps` (why comparing time strings is
comparing times), `TaskStore`, `Pagination`, `Coverage` and `StoreSessions` (the A2A adapter's store and its paged
listing).

How to read it. A stateful engine is a class whose methods are proved to compute a function of the old tables
(`Policy.Consume`, `Operations.UpdateState`, `SelfImprove.Promote`, `Registry.Activate`, ...); theorems are about
those functions, and the `...Calls` modules say in literal statuses, constants and fields what they mean. A run is `Run(start, events)`, where one event is one step of one caller and a step that is not
possible changes nothing, so "for all events" is "in every interleaving". Identifiers the daemon draws at random,
clock readings, and what processes, providers and the database do are parameters of the events. Times are numbers of
milliseconds; `Timestamps.LexIsChronological` is why that is what the string comparisons compare. The restart limiter's
times are the exception: `allowRestart` takes them from `time.Now` under its mutex, and Go compares such readings by their
monotonic part alone (`daemon/supervisor/supervisor.go:153-159`), so the times of its calls never decrease, which is what
`NonDecreasing` says in the theorems about it.

Where the code and its comments differ, the model follows the code:

- `daemon/selfimprove/selfimprove.go:314-320` says a pre-canary eval cannot count as canary evidence. One from the
  same millisecond does: `SelfImproveEvidence.OneMillisecondIsEnough` is a run that ends in such a promotion,
  `EvidenceIsFromCanary` the condition under which no run does, and `UnearnedIffAnEarlierPassIsDatedLater` says of every
  reachable state and every Canary exactly when some run after it does. `PromotionHadEvidence` therefore speaks of the
  recorded times only.
- `daemon/selfimprove/selfimprove.go:178-180` lists promoted and terminal as the statuses in which an eval moves
  nothing; `evaluated` is one too, so a candidate can fail there and still be promoted
  (`FailingWhileEvaluatedStopsNothing`).
- `daemon/a2a/a2a.go:283-285` says the cursor can skip or repeat a row when two goals share a creation time. It never
  repeats one, whatever else changes between pages (`NeverListedTwice`). It does skip (`ATieIsLost`): over a fixed table
  exactly when a page boundary falls between the two (`TiesAreLostAtBoundaries`), and then what is listed is the matching
  goals with some left out (`TiesAreOnlySkipped`).
- `daemon/a2a/a2a.go:278-282` calls the token a stable cursor over insertion order. The creation time is the clock's at
  the INSERT (`store/migrations/0001_init.sql:29-31`), so a goal can become visible behind a token that is already out,
  and then it is never listed (`ALateGoalIsMissed`). `ListedIffVisibleAtItsPage` and `CreatedBetweenPages` say exactly
  which goals a finished session lists.
- `daemon/operations/operations.go:254-257` says that dispatched records that the external call was made. Its callers mark
  the effect before they call, and when the reload after that UPDATE is refused they do not call
  (`DispatchedWithoutACallIffReloadRefused`).
- `daemon/a2a/a2a.go:359-374` maps the task states that no goal has to `open`, so a listing filtered by one of them
  returns open goals (`FilterIsHonestIffMapped`).
- `daemon/extensions/registry.go:37-39` calls activating a state that fails into a retryable one. It does exactly when the
  status write that follows the launch lands (`RetryableIffTheStatusWriteLands`). It does not when the daemon dies first,
  when the writes at `daemon/extensions/registry.go:256` and `265`, whose errors are ignored, or the one at `270` are
  refused, or when the client has gone: the call runs under the request's context
  (`daemon/api/controlplane.go:95`), which a process launch outlasts (`daemon/extensions/launcher.go:61-67`). Then nothing
  ever takes the extension out of activating.
- Promote reads the promoted candidate before it writes, and Demote does not take the class lock, so the two can
  cross: `PromoteCommitIsOneCall` says exactly when the result is still that of one atomic call.

## Model

| member | source | states |
|---|---|---|
| PolicyEngine.Engine.Decide | daemon/policy/policy.go:175-227 | the tables and answer are those of the transaction: a decision bound to the payload's digest and an expiry, plus a pending request when approval is needed; nothing on error |
| PolicyEngine.Engine.Consume | daemon/policy/policy.go:241-280 | consumes exactly an unconsumed, admitted, unexpired decision for its own digest; every other case fails, in the code's order of checks, and writes nothing |
| PolicyEngine.Engine.Approve | daemon/policy/policy.go:294-343 | a pending request becomes approved and one fresh admit decision is minted with the original's operation and digest |
| PolicyEngine.Engine.Deny | daemon/policy/policy.go:349-369 | a pending request becomes denied; a missing or resolved one is refused and unchanged |
| PolicyCalls.DecideAdmitsExactlyTheVerified | daemon/policy/policy.go:165-227 | a decision is an admit if and only if what was declared is verified; anything else needs approval and comes with a pending request that points back at it; it expires after 300000 ms |
| PolicyCalls.DecideRefusesIncompleteRequests | daemon/policy/policy.go:175-182 | Decide succeeds if and only if there is an operation id and a payload that can be hashed, and otherwise writes nothing |
| PolicyCalls.ConsumeTakesExactlyTheValid | daemon/policy/policy.go:241-280 | Consume succeeds if and only if the decision is there, unconsumed, an admit, for this digest, and the clock reads before its expiry; it stamps that row alone |
| PolicyCalls.ConsumeNamesTheFirstFault | daemon/policy/policy.go:255-271 | which error each other case gives, in the code's order |
| PolicyCalls.ApproveMintsForThePending | daemon/policy/policy.go:294-343 | exactly a pending request is approved, with operator and time, and one admit of the original's operation and digest is minted, good for 300000 ms from the approval |
| PolicyCalls.DenyResolvesThePending | daemon/policy/policy.go:349-369 | exactly a pending request is denied, with operator, time and reason, and no decision changes |
| PolicyCalls.ApproveNeedsARequest | daemon/policy/policy.go:302-305 | an unknown request is not found and nothing changes |
| PolicyLedger.EventsAreCalls | daemon/policy/policy.go:175-369 | every event of a run is the engine's call on the tables as they are then |
| PolicyLedger.NextKeepsInv | daemon/policy/policy.go:175-369 | every call keeps: requests and minted decisions are bound to the decisions they came from, consumed rows are exactly the recorded consumptions once each; and takes nothing back |
| PolicyLedger.EachDecideAuthorisesAtMostOneConsume | daemon/policy/policy.go:241-343 | over every run, two consumptions never descend from the same Decide, and each was of an unexpired decision, for the digest the original Decide hashed |
| PolicyLedger.RootsApart | daemon/policy/policy.go:294-343 | two different consumable decisions never belong to one lineage |
| PolicyLedger.ApproveMintsAtMostOneChild | daemon/policy/policy.go:294-343 | over every run a request has minted at most one decision, with the operation and digest of the needs_approval decision it came with |
| PolicyLedger.ResolvedOnce | daemon/policy/policy.go:294-369 | however Approve and Deny race, once a request is resolved every later Approve or Deny of it changes nothing |
| PolicyLedger.ConsumedOnce | daemon/policy/policy.go:241-280 | after any further calls, consuming a consumed decision fails as already consumed |
| PolicyLedger.DecidedResultsNeverChange | daemon/policy/policy.go:175-227 | verdict, digest, operation and expiry of a decision are the same after any run |
| PolicyLedger.EachConsumptionWasVerifiedOrApproved | daemon/policy/policy.go:165-343 | over every run each consumption is of a decision that was declared verified, or of one minted for an approved request whose own decision was not |
| PolicyLedger.DeniedIsNeverConsumed | daemon/policy/policy.go:345-369 | over every run nothing that descends from the decision of a denied request is consumed |
| PolicyLedger.AdmittedIsGoodForFiveMinutes | daemon/policy/policy.go:85-89 | whatever calls come in between, an admitted decision can be consumed if and only if it has not been and less than 300000 ms have passed |
| PolicyLedger.ApprovedIsGoodForFiveMinutes | daemon/policy/policy.go:325-343 | so can the one an approval minted, from the approval on, however long the request waited |
| OperationsEngine.Engine.UpdateState | daemon/operations/operations.go:430-446 | the row moves if and only if its version is the one the caller read |
| OperationsEngine.Engine.Propose | daemon/operations/operations.go:169-216 | checks the request, decides, and inserts a row bound to that decision in the state its verdict gives; what is left behind by a refusal at each of its statements, the reload included |
| OperationsEngine.Engine.MarkDispatchPending | daemon/operations/operations.go:233-252 | reads and guards, consumes the decision for the digest of what ships, then moves; each way to fail, at each statement and at the reload, and what it leaves behind |
| OperationsEngine.Engine.Mark | daemon/operations/operations.go:258-334 | the four other transitions: the guarded row moves along its edge or an error leaves everything unchanged, except that a refused reload comes after the move |
| OperationsEngine.Engine.DispatchedIds | daemon/operations/operations.go:342-361 | the ids of exactly the dispatched effects, each once |
| OperationsEngine.Engine.ReconcileInterrupted | daemon/operations/operations.go:342-370 | marks exactly the dispatched effects outcome_unknown, changes no other row, and returns each of them once |
| OperationsCalls.ProposalsAreRecorded | daemon/operations/operations.go:169-216 | a proposal is recorded if and only if its request is complete and its payload can be hashed: admitted when declared verified, else needs_approval, with every field of the row |
| OperationsCalls.IncompleteProposalsAreInvalid | daemon/operations/operations.go:170-182 | which requests are invalid |
| OperationsCalls.ShipsExactlyTheAdmitted | daemon/operations/operations.go:233-252 | an effect goes to dispatch_pending if and only if it is admitted and its decision is an unconsumed, unexpired admit of what ships; that decision is consumed and nothing else changes |
| OperationsCalls.ShippingNamesTheFirstFault | daemon/operations/operations.go:233-252 | which error each other case gives, in the code's order |
| OperationsCalls.DispatchesExactlyThePending | daemon/operations/operations.go:258-270 | only from dispatch_pending to dispatched, with the external command |
| OperationsCalls.ObservesExactlyTheDispatched | daemon/operations/operations.go:276-288 | only from dispatched to observed, with the reference |
| OperationsCalls.LosesExactlyTheDispatched | daemon/operations/operations.go:293-305 | only from dispatched to outcome_unknown |
| OperationsCalls.SettlesExactlyTheObservedOrUnknown | daemon/operations/operations.go:311-334 | only from observed or outcome_unknown to confirmed, reconciled, compensated or failed, with that error; any other verdict is refused first |
| OperationsCalls.MissingEffectsAreNotFound | daemon/operations/operations.go:258-334 | a missing effect is not found and nothing changes |
| OperationsCalls.RecoveryMarksTheDispatched | daemon/operations/operations.go:336-370 | recovery turns exactly the dispatched rows it reaches into outcome_unknown, one version up |
| OperationsCalls.TheMovesAreThese | daemon/operations/operations.go:64-77 | the lifecycle has twelve moves, state by state, and no others |
| Operations.EdgeClimbs | daemon/operations/operations.go:64-77 | every lifecycle edge goes up one rank and one row version and keeps decision, digest, operation and owner |
| Operations.ReconcilingTwiceChangesNothing | daemon/operations/operations.go:336-370 | a second recovery finds nothing to do, a complete one finishes what a partial one began, and only dispatched effects are touched |
| EffectRuns.UpdateLands | daemon/operations/operations.go:430-446 | an update that finds the version it read finds the very row it read, so the guard it checked still holds |
| EffectRuns.UpdateMisses | daemon/operations/operations.go:430-446 | an update for a version somebody has moved past changes no effect |
| EffectRuns.ConsumerIsAlone | daemon/operations/operations.go:233-252 | nobody else can be past the same effect's consumption |
| EffectRuns.NextKeepsInv | daemon/operations/operations.go:169-370 | every step of every caller keeps the invariant: versions are ranks, effects are bound to decisions nobody shares, past admission the decision is consumed and the shipped payload has its digest |
| EffectRuns.RunKeepsInv | daemon/operations/operations.go:169-370 | so does every run |
| EffectTheorems.EveryChangeIsAnEdge | daemon/operations/operations.go:233-370 | each step turns a stored effect into itself or along one lifecycle edge from the state really in the table, however stale the read |
| EffectRefinement.StepsRefineAtomicMoves | daemon/operations/operations.go:233-446 | the read-then-update code refines a machine of atomic moves: seen from the table each step of any caller is one move, one insertion, or nothing, and a restart is one move for each interrupted effect it reaches |
| EffectRefinement.RecoveryIsAtomicMoves | daemon/operations/operations.go:342-370 | marking any set of dispatched effects is that many atomic moves |
| EffectRefinement.RunsRefineAtomicMoves | daemon/operations/operations.go:169-446 | every run, with any callers, crashes and restarts, is a run of the atomic machine: one path of atomic moves and insertions goes through the table after each of its steps, in order |
| EffectTheorems.VersionCountsTransitions | daemon/operations/operations.go:430-446 | row version is initial version plus number of changes and equals the rank of the state, at most four |
| EffectTheorems.DispatchedEffectsAreBound | daemon/operations/operations.go:217-252 | in every run an effect at dispatch_pending or later was released by a recorded consumption of its own admitted decision before its expiry, shares it with no effect, and shipped the payload it was proposed with |
| EffectTheorems.HeldEffectsNeverMove | daemon/operations/operations.go:169-252 | an effect that needs approval, or is rejected, is the same after any run and its decision is never consumable |
| EffectTheorems.OnlyTheVerifiedGoOut | daemon/operations/operations.go:187-205 | in every reachable state an effect waits for approval if and only if it was not declared verified, and none is rejected |
| EffectTheorems.StrandedForEver | daemon/operations/operations.go:233-252 | an admitted effect whose decision was consumed by anyone else, or by a caller now gone, never moves again |
| EffectTheorems.ConsumerAlwaysLands | daemon/operations/operations.go:233-252 | a live caller that has consumed always lands its update |
| EffectTheorems.SpentMeansLandingOrStranded | daemon/operations/operations.go:233-252 | an admitted effect with a spent decision is stranded if and only if no live caller is past its consumption, and at most one ever is |
| EffectTheorems.CrashesLoseNothing | daemon/extensions/registry.go:600-638 | for every crash point, half-finished recoveries included, a function that was started left its effect dispatched or later; after a restart that completes it is outcome_unknown, observed or terminal; one left admitted or dispatch_pending proves its function never ran; none ran twice |
| EffectTheorems.RestartReconcilesOnce | daemon/cmd/amh-daemon/main.go:87-98 | startup reconciliation changes exactly the dispatched effects it reaches and nothing else |
| EffectTheorems.RecoveryCompletes | daemon/cmd/amh-daemon/main.go:87-98 | after one that stopped half-way, one that completes leaves every interrupted effect marked as if it had been the only one, and a further one changes nothing |
| EffectTheorems.AccountedForEver | daemon/operations/operations.go:311-370 | once accounted for, an effect stays so over any further run |
| EffectLiveness.CanBeSettledIffNotStuck | daemon/operations/operations.go:217-334 | in every reachable state some run from there settles an effect with a given verdict if and only if it is not settled otherwise, waiting for approval, rejected or stranded |
| EffectLiveness.ATrackedCallIsReleased | daemon/extensions/registry.go:605-621 | from any state a tracked call declared verified gets past MarkDispatchPending if its decision is consumed within 300000 ms |
| EffectLiveness.ATrackedCallEndsAsItsFunctionDid | daemon/extensions/registry.go:622-637 | undisturbed it then starts its function once and ends with the effect confirmed if that succeeded, failed with its error if not |
| EffectLiveness.AnUnobservedCallStaysDispatched | daemon/extensions/registry.go:592-637 | a launch whose MarkObserved fails leaves its effect dispatched, because the swallowed verdict cannot land either |
| EffectLiveness.AnEffectCanBeStranded | daemon/operations/operations.go:233-252 | from every reachable state with an admitted, unspent effect a run strands it: its caller stops between the consumption and the update |
| EffectLiveness.AnInterruptedCallIsRecovered | daemon/operations/operations.go:336-370 | a daemon that dies while a tracked function runs leaves its effect outcome_unknown after recovery, from where it can be settled with any verdict |
| EffectLiveness.MarkAloneIsTheCall | daemon/operations/operations.go:258-334 | the interleaved read and update, run alone, are the engine's call, success or failure |
| EffectLiveness.ShipAloneIsTheCall | daemon/operations/operations.go:233-252 | so are read, consume and update |
| EffectLiveness.ProposeAloneIsTheCall | daemon/operations/operations.go:169-216 | and decide and insert |
| SelfImproveEngine.Engine.Generate | daemon/selfimprove/selfimprove.go:146-162 | checks class and reference and inserts one generated candidate |
| SelfImproveEngine.Engine.RecordEval | daemon/selfimprove/selfimprove.go:180-245 | counts passes in a loop, records the eval, and moves only generated and failing canary candidates |
| SelfImproveEngine.Engine.Canary | daemon/selfimprove/selfimprove.go:250-262 | only an evaluated candidate enters canary; errors change nothing |
| SelfImproveEngine.Engine.Promote | daemon/selfimprove/selfimprove.go:272-359 | needs canary status and evidence, demotes the previous holder, promotes, and records it as rollback target; the new tables whole |
| SelfImproveEngine.Engine.Demote | daemon/selfimprove/selfimprove.go:371-383 | only a promoted candidate is demoted; errors change nothing |
| SelfImproveEngine.Engine.Rollback | daemon/selfimprove/selfimprove.go:392-459 | needs a demoted candidate with a target and nobody promoted in the class; swaps the two rows |
| SelfImproveEngine.Engine.Reject | daemon/selfimprove/selfimprove.go:463-475 | only before promotion; errors change nothing |
| SelfImproveEngine.PreviousIsUnique | daemon/selfimprove/selfimprove.go:330-345 | in a sound table the query for the previous holder has one possible answer |
| SelfImproveCalls.EvalsPassWithAtMostATenthFailing | daemon/selfimprove/selfimprove.go:184-240 | an eval is recorded as passed if and only if ten times its failing cases are at most its cases; generated candidates become evaluated or rejected, failing canary ones rejected, and nothing else changes |
| SelfImproveCalls.EvalsNeedACaseAndACandidate | daemon/selfimprove/selfimprove.go:180-210 | no cases and no candidate are errors, in that order, and record nothing |
| SelfImproveCalls.GeneratesNamedCandidates | daemon/selfimprove/selfimprove.go:146-162 | the five classes with a reference, and the row with every field |
| SelfImproveCalls.CanaryTakesTheEvaluated | daemon/selfimprove/selfimprove.go:250-262 | only from evaluated, with canary_at |
| SelfImproveCalls.PromoteTakesTheProven | daemon/selfimprove/selfimprove.go:297-328 | succeeds if and only if in canary with a passing eval dated no earlier than canary_at, and which error otherwise |
| SelfImproveCalls.PromoteReplacesTheHolder | daemon/selfimprove/selfimprove.go:330-353 | the holder of the class is demoted at that time and becomes the target; both rows field by field |
| SelfImproveCalls.PromoteWithoutAHolder | daemon/selfimprove/selfimprove.go:330-353 | without a holder there is no target and one row changes |
| SelfImproveCalls.PromoteNeedsACandidate | daemon/selfimprove/selfimprove.go:272-459 | Promote and Rollback of a missing candidate are not found |
| SelfImproveCalls.DemoteTakesThePromoted | daemon/selfimprove/selfimprove.go:371-383 | only from promoted, with demoted_at, the target kept |
| SelfImproveCalls.RollbackRestoresTheTarget | daemon/selfimprove/selfimprove.go:392-459 | only from demoted, with a target, with nobody promoted; errors in the code's order; both rows field by field |
| SelfImproveCalls.RejectTakesTheUndecided | daemon/selfimprove/selfimprove.go:463-475 | only from generated, evaluated or canary |
| SelfImprove.RecordIsSound | daemon/selfimprove/selfimprove.go:205-245 | recording an eval keeps every row's evidence, targets and uniqueness, and takes no history back |
| SelfImprove.PromoteIsSound | daemon/selfimprove/selfimprove.go:314-353 | Promote's two writes keep the invariant and leave the candidate the only promoted one of its class |
| SelfImprove.RollbackIsSound | daemon/selfimprove/selfimprove.go:426-453 | Rollback's two writes keep the invariant although the target's status and evidence are not looked at |
| SelfImproveRuns.ReadsStillHold | daemon/selfimprove/selfimprove.go:272-459 | what a transaction has read stays true through every commit the locks let through |
| SelfImproveRuns.CommitDisturbsNobody | daemon/selfimprove/selfimprove.go:272-459 | a commit that wrote only locked rows and promoted only in its locked class invalidates no other transaction's reads |
| SelfImproveRuns.NextKeepsInv | daemon/selfimprove/selfimprove.go:146-475 | every statement of every transaction, and every abort, keeps the invariant |
| SelfImproveRuns.RunKeepsInv | daemon/selfimprove/selfimprove.go:146-475 | so does every interleaving |
| SelfImproveTheorems.AtMostOnePromoted | daemon/selfimprove/selfimprove.go:272-459 | in every interleaving at most one candidate per class is committed as promoted, though only Promote and Rollback take the class lock |
| SelfImproveTheorems.PromotionHadEvidence | daemon/selfimprove/selfimprove.go:222-353 | in every interleaving every candidate that is or was promoted, restored ones included, has a passing eval dated at or after its own canary_at, and never failed one while generated or in canary |
| SelfImproveTheorems.RollbackTargetsWereLive | daemon/selfimprove/selfimprove.go:426-453 | in every interleaving a rollback target is a different, same-class candidate that was promoted once |
| SelfImproveTheorems.OnlyGeneratedAndCanaryAreJudged | daemon/selfimprove/selfimprove.go:222-240 | a failing eval rejects exactly generated and canary candidates and moves no row otherwise |
| SelfImproveTheorems.PromotionRightAfterCanary | daemon/selfimprove/selfimprove.go:309-331 | with no eval in between, Promote succeeds if and only if an earlier passing eval is dated no earlier than canary_at |
| SelfImproveTheorems.NoDeadlock | daemon/selfimprove/selfimprove.go:272-459 | in every reachable state with a transaction running some transaction can execute its next statement |
| SelfImproveTheorems.RollbackCommitIsOneCall | daemon/selfimprove/selfimprove.go:392-459 | what a concurrent Rollback commits is what one whole Rollback call would do at that moment |
| SelfImproveTheorems.SingleStatementsAreCalls | daemon/selfimprove/selfimprove.go:250-475 | so are Canary, Demote and Reject, refused ones included |
| SelfImproveTheorems.GenerateIsOneCall | daemon/selfimprove/selfimprove.go:146-162 | and Generate |
| SelfImproveTheorems.EvalCommitIsOneCall | daemon/selfimprove/selfimprove.go:180-245 | and what a concurrent RecordEval commits |
| SelfImproveTheorems.PromoteCommitIsOneCall | daemon/selfimprove/selfimprove.go:272-359 | the same for Promote if and only if the candidate it read as promoted still is |
| SelfImproveTheorems.DemoteCanSlipIn | daemon/selfimprove/selfimprove.go:333-383 | from any state where that read has happened, a Demote succeeds, the Promote commits after it and overwrites the demotion time |
| SelfImproveEvidence.DemoteCanReallySlipIn | daemon/selfimprove/selfimprove.go:333-383 | such a state is reached by a run from empty tables |
| SelfImproveEvidence.NextStaysHonest | daemon/selfimprove/selfimprove.go:180-459 | while Canary dates the candidate after the evals it has passed so far, every statement keeps: what counts as its evidence was made in canary, and once promoted it had some |
| SelfImproveEvidence.EvidenceIsFromCanary | daemon/selfimprove/selfimprove.go:250-359 | in every interleaving where Canary does, a candidate that is or was promoted, restored ones included, passed an eval made while it was in canary |
| SelfImproveEvidence.NextIsForward | daemon/selfimprove/selfimprove.go:146-475 | no statement of any transaction brings a candidate back to before canary; into canary leads a way only from evaluated, into what was ever promoted only from canary with evidence; and an eval is recorded under the status the row has |
| SelfImproveEvidence.EvidenceCanPromote | daemon/selfimprove/selfimprove.go:272-359 | from any sound state, whatever transactions are under way, some run promotes a canary candidate that has evidence, with no further eval |
| SelfImproveEvidence.PromoteAloneIsTheCall | daemon/selfimprove/selfimprove.go:272-359 | the statements of a Promote that succeeds, run by themselves, do what the call does and leave no lock |
| SelfImproveEvidence.RollbackAloneIsTheCall | daemon/selfimprove/selfimprove.go:392-459 | so do those of a Rollback |
| SelfImproveEvidence.UnearnedIffAnEarlierPassIsDatedLater | daemon/selfimprove/selfimprove.go:250-359 | in any reachable state, after a Canary some run promotes the candidate without an eval passed in canary if and only if an eval it passed before is dated no earlier than canary_at |
| SelfImproveEvidence.OneMillisecondIsEnough | daemon/selfimprove/selfimprove.go:309-331 | without that condition a run exists that promotes a candidate which never passed an eval in canary |
| SelfImproveEvidence.FailingWhileEvaluatedStopsNothing | daemon/selfimprove/selfimprove.go:222-240 | from any tables, an evaluated candidate can fail an eval and then enter canary, pass and be promoted, with the failure on record |
| SelfImproveTheorems.RoundSwaps | daemon/selfimprove/selfimprove.go:371-459 | demoting the promoted candidate and rolling it back succeeds, swaps it with its target, and changes no other row |
| SelfImproveTheorems.RollbackCanBeReversedForEver | daemon/selfimprove/selfimprove.go:371-459 | after a successful Rollback any number of such rounds all succeed, with the target promoted after even and the candidate after odd numbers, and only those two rows ever change |
| RegistryEngine.Engine.Discover | daemon/extensions/registry.go:131-210 | every refusal in order, the answer to a repeated manifest, and otherwise the extension row with one provided row per capability, all or nothing |
| RegistryEngine.Engine.RequirementSatisfied | daemon/extensions/registry.go:504-528 | true if and only if some active extension's provided version parses and is inside the range, in whatever order rows come |
| RegistryEngine.Engine.Activate | daemon/extensions/registry.go:218-279 | states, unmet requirements (the first in manifest order), and the row after a launch that works, fails, never returns, or returns without its outcome being written |
| RegistryEngine.Engine.Dependents | daemon/extensions/registry.go:532-556 | exactly the active extensions that cannot do without the capability, each once |
| RegistryEngine.Engine.Quiesce | daemon/extensions/registry.go:285-311 | succeeds if and only if active and without another active dependent; a refusal names a dependent and changes nothing |
| RegistryEngine.Engine.Dispose | daemon/extensions/registry.go:317-363 | refuses while context effects are outstanding, otherwise the row after a teardown that works, fails, never returns, or returns without its outcome being written |
| RegistryEngine.Engine.Rollback | daemon/extensions/registry.go:391-403 | Quiesce, Dispose and Activate in turn, stopping at the first failure, and succeeding only if all three do |
| RegistryEngine.Engine.RegisterContextEffect | daemon/extensions/context_effect.go:55-92 | active extensions only; inserts the row with the next sequence |
| RegistryEngine.Engine.DisposeContextEffect | daemon/extensions/context_effect.go:100-140 | marks the row if it is the outstanding one with the highest sequence; every other case fails and changes nothing |
| RegistryEngine.Engine.ListOutstandingContextEffects | daemon/extensions/context_effect.go:146-167 | the extension's stack of outstanding effects, oldest first |
| RegistryCalls.DiscoverRefusesInThisOrder | daemon/extensions/registry.go:131-140 | an invalid manifest, a core range that does not admit 0.1.0, a bad signature, in that order, and nothing is written |
| RegistryCalls.DiscoverAgain | daemon/extensions/registry.go:146-156 | the same manifest answers its row, another one is refused |
| RegistryCalls.DiscoverRecordsTheNew | daemon/extensions/registry.go:158-210 | in a sound registry a new manifest is recorded as discovered, with exactly one provided row for each capability, if and only if its capability ids are distinct |
| RegistryCalls.ActivateLaunchesTheReady | daemon/extensions/registry.go:218-279 | a discovered, disposed or failed extension whose non-optional requirements are each provided in range by something active goes on to the launch, and the row that each outcome leaves |
| RegistryCalls.ActivateReportsTheLaunch | daemon/extensions/registry.go:244-277 | and the error of each outcome |
| RegistryCalls.ActivateRefusesTheOthers | daemon/extensions/registry.go:219-238 | any other one is refused, for its status or the first requirement in manifest order that it lacks, and nothing changes |
| RegistryCalls.QuiesceTakesTheUnheld | daemon/extensions/registry.go:285-311 | succeeds if and only if active and no other active extension has a non-optional requirement for an id it provides, whatever the ranges |
| RegistryCalls.DisposeTakesTheEmpty | daemon/extensions/registry.go:317-363 | only a quiescing extension without outstanding context effects, and the row each teardown outcome leaves |
| RegistryCalls.RegisterNumbersTheNext | daemon/extensions/context_effect.go:55-92 | only for an active extension; the new row's sequence is one more than how many effects the extension ever registered |
| RegistryCalls.DisposeNamesTheFault | daemon/extensions/context_effect.go:100-140 | which of the two refusals an effect of the extension gets, and that the row alone is marked otherwise |
| RegistryCalls.DisposeOfAnUnknown | daemon/extensions/context_effect.go:112-114 | an id the extension does not have is not found |
| RegistryCalls.EffectsAreNumberedFromOne | daemon/extensions/context_effect.go:66-80 | in every serial run an extension's effects are numbered 1, 2, 3 and so on |
| ContextEffects.RegisterPushes | daemon/extensions/context_effect.go:55-92 | a registration pushes on its own stack, leaves every other alone, and gets a sequence above every one the instance ever had |
| ContextEffects.DisposePopsTheTop | daemon/extensions/context_effect.go:100-140 | a dispose succeeds if and only if it names the top of the stack, pops exactly it, and otherwise changes nothing |
| ContextEffects.StackIsTheOutstandingRows | daemon/extensions/context_effect.go:141-167 | the stack is exactly the outstanding rows in ascending sequence |
| RegistryRuns.InsertionFails | daemon/extensions/registry.go:187-203 | the provided rows are refused if and only if a capability id is listed twice or already there |
| RegistryRuns.EventsAreCalls | daemon/extensions/registry.go:131-403 | every event of a serial run is the registry's call on the tables as they are then |
| RegistryRuns.ActivationKeepsClosure | daemon/extensions/registry.go:227-273 | activating an extension whose requirements are met keeps dependencies closed |
| RegistryRuns.QuiesceKeepsClosure | daemon/extensions/registry.go:294-311 | so does quiescing one without dependents |
| RegistryRuns.NextKeepsInv | daemon/extensions/registry.go:131-403 | every call, whatever launch and teardown do, keeps closure, activation order, table agreement and stack ownership |
| RegistryRuns.RunKeepsInv | daemon/extensions/registry.go:131-403 | so does every serial run |
| RegistryTheorems.RequirementsAreMetThroughout | daemon/extensions/registry.go:212-279 | in every serial run each non-optional requirement of each active extension is met in range by a different extension that was activated earlier and has stayed active at every point since |
| RegistryTheorems.WriteKeepsClosureIffStillMet | daemon/extensions/registry.go:269-273 | in any reachable state, marking an extension active keeps dependencies closed if and only if its requirements are met at that moment |
| RegistryTheorems.CallsBetweenCheckAndWrite | daemon/extensions/registry.go:223-273 | when any calls at all run between Activate's two writes, dependencies are closed afterwards if and only if the requirements are still met at the second |
| RegistryTeardown.TheRaceIsReachable | daemon/extensions/registry.go:223-311 | a reachable state exists in which a Quiesce between the two writes leaves an active extension with a requirement nothing serves |
| RegistryTheorems.ProvidedRowsAreTheStoredLists | daemon/extensions/registry.go:182-203 | in every serial run the provided-capability table has exactly the rows of the stored lists |
| RegistryTheorems.EachCallIsOneStackStep | daemon/extensions/context_effect.go:55-140 | in every serial run the context-effect table refines one stack per extension: register pushes, dispose of the top pops, no other call touches a stack |
| RegistryTheorems.SequencesAreNeverReused | daemon/extensions/context_effect.go:55-92 | in every serial run sequences of an instance are distinct and increasing, and no row is lost or renumbered |
| RegistryTheorems.ActivationStartsFromAnEmptyStack | daemon/extensions/registry.go:317-337 | in every serial run outstanding effects belong to active or quiescing extensions, so an activation, also a rollback's, starts from an empty stack |
| RegistryTheorems.DiscoveryIsIdempotentAndBinding | daemon/extensions/registry.go:146-156 | after any later calls, discovering the same manifest again changes nothing and answers its row, and a different one under its id and version is refused |
| RegistryTheorems.RollbackOutcomes | daemon/extensions/registry.go:365-403 | a completed rollback leaves the new version active under a new activation and another old one disposed; an incomplete one leaves the old active only if it changed nothing; no third extension changes |
| RegistryTheorems.ActivatingIsForEver | daemon/extensions/registry.go:218-240 | an extension left activating is never moved by any later call |
| RegistryTheorems.RetryableIffTheStatusWriteLands | daemon/extensions/registry.go:218-279 | an extension that passes Activate's checks is, or can by some later calls become, active after the launch if and only if the status write that follows the launch lands |
| RegistryTeardown.LatestCanQuiesce | daemon/extensions/registry.go:285-311 | with unique active providers the most recently activated extension can be quiesced |
| RegistryTeardown.LatestFirstSucceeds | daemon/extensions/registry.go:285-311 | ... and whoever keeps doing that succeeds every time |
| RegistryTeardown.LatestFirstTearsDown | daemon/extensions/registry.go:285-311 | ... until none is active |
| RegistryTeardown.CoreIsForEver | daemon/extensions/registry.go:285-311 | active extensions that each have a dependent among them stay active through every run of calls of any kind |
| RegistryTeardown.TeardownIsPossibleIffNoCore | daemon/extensions/registry.go:285-311 | in every state some run of calls leaves nothing active if and only if there is no such set, and then quiescing alone does it |
| RegistryTeardown.CoresNeedDuplicates | daemon/extensions/registry.go:227-311 | in a reachable state such a set needs two active providers of one capability id |
| RegistryTeardown.ThreeExtensionsBlock | daemon/extensions/registry.go:227-311 | Z providing Q, X requiring Q and providing P, Y requiring P and providing Q, installed in that order, end in such a set, whatever their versions as long as they match |
| RegistryTeardown.ABlockedStateIsReachable | daemon/extensions/registry.go:227-311 | so a run from the empty registry exists after which nothing ever gets to a state with no active extension |
| Semver.ParseSemver | daemon/extensions/semver.go:17-33 | the part-by-part loop computes the parse of the text or the right error |
| Semver.SatisfiesRange | daemon/extensions/semver.go:64-79 | the clause loop with its early exits computes acceptance or the first error |
| SemverTheorems.ParsedIsNatural | daemon/extensions/semver.go:17-33 | parsed components are never negative, because signs are cut before numbers are read |
| SemverTheorems.ParseOfFormat | daemon/extensions/semver.go:17-33 | reading back a written version gives it again, whatever pre-release or build metadata follows |
| SemverTheorems.CompareIsPrecedence | daemon/extensions/semver.go:36-56 | comparison of parsed versions is numeric precedence and 64-bit subtraction never wraps (item 11 of Semantic Versioning 2.0.0, core) |
| SemverTheorems.CompareIsTotalOrder | daemon/extensions/semver.go:36-56 | it is a total order on them |
| SemverTheorems.SubtractionWrapsIffItDoesNotFit | daemon/extensions/semver.go:36-55 | on any 64-bit integers the difference, and its sign, is right if and only if it fits 64 bits |
| SemverTheorems.NegativesWouldBreakTheOrder | daemon/extensions/semver.go:36-55 | on triples of any 64-bit integers, negative ones included, comparison is precedence if and only if the deciding difference fits 64 bits |
| SemverTheorems.SomeDifferencesDoNotFit | daemon/extensions/semver.go:36-55 | and there are triples for which it does not |
| SemverTheorems.CaretIsTwoComparators | daemon/extensions/semver.go:81-132 | a caret clause is at least the base and below the next major, or below the next minor for major 0 |
| SemverTheorems.CaretTextIsTwoComparatorText | daemon/extensions/semver.go:58-132 | on the text: a caret range and its two-comparator form accept, reject and fail on exactly the same version strings |
| SemverTheorems.ExactAcceptsItselfAlone | daemon/extensions/semver.go:117-131 | on the text: a bare version, or one after an equals sign, accepts a version if and only if they are equal |
| SemverTheorems.ComparatorsAcceptTheirSide | daemon/extensions/semver.go:93-116 | on the text: the four comparators are numeric precedence, strict or not, on the right side |
| SemverTheorems.CaretAcceptsItsLine | daemon/extensions/semver.go:83-92 | on the text: not before the base and with its major, or for major 0 its major and minor |
| SemverTheorems.SuffixesAreNotCompared | daemon/extensions/semver.go:9-20 | a pre-release or build part of the version makes no difference |
| SemverTheorems.WhatDoesNotParseIsAnError | daemon/extensions/semver.go:64-79 | a clause or a version that does not parse makes the answer that very error, whatever the operator or the range |
| SemverTheorems.ParsesIffThreeNumbers | daemon/extensions/semver.go:17-33 | a string parses if and only if, cut at the first plus and minus, it is three numbers up to 2^63-1 with dots between them, and to those numbers |
| SemverTheorems.ParseErrorsNameTheFault | daemon/extensions/semver.go:21-31 | the shape is the error before a part is |
| SemverTheorems.ClausesAreCutAtWhiteSpace | daemon/extensions/semver.go:69-69 | a range is cut into clauses at any amount of Unicode white space |
| SemverTheorems.ClauseIsConvex | daemon/extensions/semver.go:81-132 | one clause accepts everything between two versions it accepts |
| SemverTheorems.AcceptedMeansEvery | daemon/extensions/semver.go:64-79 | a version is accepted if and only if every clause parses and is met |
| SemverTheorems.AcceptanceIgnoresOrder | daemon/extensions/semver.go:64-79 | acceptance does not depend on order or repetition of clauses |
| SemverTheorems.RangeIsConvex | daemon/extensions/semver.go:64-132 | the versions a range accepts are convex |
| SemverTheorems.OrderDecidesErrorOrRejection | daemon/extensions/semver.go:64-79 | for clauses of any number, two orders of them exist of which one is an error and the other is not if and only if one clause is unmet and one does not parse |
| RestartLimiter.Limiter.Compact | daemon/supervisor/supervisor.go:155-163 | the in-place filter keeps exactly the times after the cutoff, in order |
| RestartLimiter.Limiter.Append | daemon/supervisor/supervisor.go:167-167 | appends in place or into a larger array |
| RestartLimiter.Limiter.AllowRestart | daemon/supervisor/supervisor.go:152-169 | answer and remembered times are those of the specification over every call so far |
| RestartLimiter.CallKeepsAgreement | daemon/supervisor/supervisor.go:152-169 | one call keeps remembered times and full history in agreement from its cutoff on |
| RestartLimiter.AgreesWithFullHistory | daemon/supervisor/supervisor.go:152-169 | for non-decreasing times the filtered slice answers as the full history of granted restarts would |
| RestartLimiter.GrantedIffFewAreRecent | daemon/supervisor/supervisor.go:152-169 | for non-decreasing times a restart is granted if and only if fewer than the limit of all granted ones lie less than the window back |
| RestartLimiter.AfterKeepsTheLater | daemon/supervisor/supervisor.go:157-163 | the filter keeps as many times as there are after the cutoff |
| RestartLimiter.GrantedRestartsAreSpread | daemon/supervisor/supervisor.go:69-73 | then any MaxRestarts+1 consecutive granted restarts span at least the window |
| RestartLimiter.NoneGranted | daemon/supervisor/supervisor.go:164-166 | a limit of zero or less grants none |
| SupervisorRuns.NoSenderBlocks | daemon/supervisor/supervisor.go:85-104 | in every interleaving the channel holds at most one exit per child and a sender always finds room, also after the loop has ended |
| SupervisorRuns.OneInstanceEach | daemon/supervisor/supervisor.go:91-132 | in every interleaving each child has at most one live instance or pending exit, and exactly one while the loop runs, the context is live and it has not exited cleanly |
| SupervisorRuns.EachCrashIsAnsweredOnce | daemon/supervisor/supervisor.go:111-133 | in every interleaving the restarts are exactly the crashes taken, in order, the last one missing if and only if the loop gave up |
| SupervisorRuns.RestartsAreSpread | daemon/supervisor/supervisor.go:69-133 | in every interleaving, whatever earlier calls on the same supervisor left remembered, any MaxRestarts+1 restarts in a row, theirs included, span at least the window, and the call made exactly the restarts it was granted |
| SupervisorRuns.TheLoopEndsForAReason | daemon/supervisor/supervisor.go:99-117 | in every interleaving the loop returns only when cancelled and gives up only when the limit of restarts lies within the window |
| SupervisorRuns.OneExitIsAnswered | daemon/supervisor/supervisor.go:106-133 | what the next exit leads to: one new instance of that child, the end, or nothing, by whether it crashed and how many restarts lie within the window |
| SupervisorRuns.CancellingEndsIt | daemon/supervisor/supervisor.go:85-105 | a cancelled context ends the loop and lets waiting senders go |
| Decimal.PadKeepsOrder | daemon/policy/policy.go:91-97 | zero-padded numbers of one width compare as strings the way they compare as numbers |
| Decimal.RenderKeepsOrder | daemon/policy/policy.go:91-97 | so do records of them in one fixed layout, first field first |
| Decimal.ValuesReadBack | daemon/policy/policy.go:91-97 | every field of such a record reads back from its place |
| Timestamps.LexIsChronological | daemon/policy/policy.go:91-97 | for years 0 to 9999 the strings (section 5.1 of RFC 3339) compare as the instants do, to the millisecond, and are equal only for equal instants |
| Timestamps.ReadsBack | daemon/policy/policy.go:91-97 | for years 0 to 9999 the text is the 24 characters of the layout and every field reads back to the millisecond |
| Timestamps.FiveDigitYearsComeTooEarly | daemon/policy/policy.go:91-97 | a time in a year beyond 9999 compares as earlier than one in a four-digit year exactly when the first four digits of its year are the lesser number |
| FailoverEngine.Router.Before | daemon/inference/inference.go:621-645 | propose, dispatch_pending, dispatched in turn, each with the statement the database may refuse in it; the first failure ends the attempt before the provider is called |
| FailoverEngine.Router.Finish | daemon/inference/inference.go:649-665 | observed and resolved in turn, each with the statement the database may refuse in it; a failure to record withholds the answer and joins the errors |
| FailoverEngine.Router.CompleteOne | daemon/inference/inference.go:220-239 | credential first, then the tracked call, or the bare call without an engine |
| FailoverEngine.Router.TryEach | daemon/inference/inference.go:201-211 | the loop computes the chain's answer or its errors in order, and the tables it leaves |
| FailoverEngine.Router.Complete | daemon/inference/inference.go:138-145 | over the listed providers in their order, or the named one, or anthropic: an answer is that of the first whose attempt answers and no later one is made; otherwise there is one error per provider, under its name, in order |
| FailoverTheorems.ListedElseNamedElseAnthropic | daemon/inference/inference.go:138-145 | which providers are tried |
| FailoverTheorems.ResultMatchesEffect | daemon/inference/inference.go:621-666 | whichever statement of whichever engine call the database refuses: an answer is only returned with its effect confirmed, a provider's error with it failed; any other error leaves the effect exactly where the failed call found it, or, if its reload was refused, where the call wrote it; no other effect changes |
| FailoverTheorems.EffectNamesItsCall | daemon/inference/inference.go:225-231 | however far an attempt gets, its effect has the router as owner, the kind of call, the payload's digest and no retry; from dispatched on the provider as external command; and the provider's error exactly if it failed |
| FailoverTheorems.DispatchedWithoutACallIffReloadRefused | daemon/inference/inference.go:643-649 | an attempt that never called the provider leaves its effect dispatched if and only if it is the reload after MarkDispatched's UPDATE that was refused |
| FailoverTheorems.SettledThoughUnrecordedIffReloadRefused | daemon/inference/inference.go:652-664 | an attempt that could not record the outcome leaves its effect confirmed or failed if and only if it is the reload after Resolve's UPDATE that was refused |
| FailoverTheorems.TrackingIsInvisibleIffUndisturbed | daemon/inference/inference.go:621-666 | while nobody else moves the effect or spends its decision, the caller gets what the provider said if and only if the database refuses no statement, the operation id is not empty and the decision is consumed in time |
| FailoverTheorems.UntrackedCallsAreBare | daemon/inference/inference.go:220-239 | without a credential there is no call and no effect, and without an engine the provider's own answer and no effect |
| FailoverTheorems.FirstSuccessWins | daemon/inference/inference.go:192-211 | with or without tracking, an answer is that of the first attempt that succeeds and no later one is made; otherwise every attempt failed and the errors are theirs, one per provider in order |
| FailoverTheorems.OneEffectPerCall | daemon/inference/inference.go:201-239 | while tracking goes through, each earlier provider with a credential has exactly one new failed effect, the winner one confirmed effect, each naming its provider, later ones none, and nothing else in the table changes |
| TaskStore.Store.GetTask | daemon/a2a/a2a.go:232-245 | the row's current state as a task, or not found |
| TaskStore.Store.Query | daemon/a2a/a2a.go:319-332 | the matching rows after the token, up to the limit |
| TaskStore.Store.Assemble | daemon/a2a/a2a.go:334-355 | the collected rows cut to the page, with the last listed row's time as token exactly when more rows follow |
| TaskStore.Store.ListTasks | daemon/a2a/a2a.go:287-357 | the page for any filter, size and token, also for a single context |
| TaskStore.ApplyKeepsOrder | daemon/a2a/a2a.go:218-228 | creating goals and writing statuses keeps the table in creation order with distinct ids, whatever the clock says |
| TaskStore.Store.CollectText | daemon/a2a/a2a.go:159-173 | the loop computes the parts' texts joined line by line, or refuses |
| TaskStore.EmptyIffNoText | daemon/a2a/a2a.go:155-173 | there is no text exactly when no part has any |
| TaskStore.OneTextMore | daemon/a2a/a2a.go:159-168 | each further text goes on a line of its own |
| TaskStore.StatesAreCalled | daemon/a2a/a2a.go:95-119 | the status each task state has in the table and back, by name |
| TaskStore.PagesHoldUpToAHundred | daemon/a2a/a2a.go:288-290 | page sizes 1 to 100 are taken as they are, any other number as 50 |
| TaskStore.PagesAreCutFromTheFront | daemon/a2a/a2a.go:287-357 | a page is the first rows that match, field by field, with a token exactly when more follow, and counts all goals |
| TaskStore.CreateAddsOneOpenGoal | daemon/a2a/a2a.go:218-228 | a creation adds one open goal with its text and changes no other row |
| TaskStore.SelectionIsTheMatching | daemon/a2a/a2a.go:319-332 | the rows a page is cut from are exactly those after the token with the filter's status |
| TaskStore.SelectionRepeatsNothing | daemon/a2a/a2a.go:319-332 | none of them more often than in the table |
| TaskStore.ContextListsItsGoal | daemon/a2a/a2a.go:301-317 | a listing for one context is that goal alone, if it is there and in the state asked for |
| TaskStore.Store.CreateTask | daemon/a2a/a2a.go:218-228 | succeeds if and only if some part has text, and then inserts one open goal with the joined text at its place in the order; otherwise nothing changes |
| TaskStore.Store.CancelTask | daemon/a2a/a2a.go:388-413 | exactly an unfinished goal becomes canceled; finished and missing ones are refused; no other row changes |
| Pagination.StatesRoundTrip | daemon/a2a/a2a.go:95-119 | state translation round-trips exactly on the five mapped states, and on every goal status; the finished ones are done, failed and canceled |
| Pagination.FilterIsHonestIffMapped | daemon/a2a/a2a.go:316-374 | every task listed under a status filter is in that state if and only if the state is one of the five mapped ones |
| Pagination.SessionIsExact | daemon/a2a/a2a.go:278-357 | with distinct creation times, any page sizes, any filter and goals appended between pages, a finished session lists exactly the matching goals in order, each once |
| Pagination.SessionFinishes | daemon/a2a/a2a.go:278-357 | and it is finished once it has asked for more pages than there are matching goals |
| Pagination.NeverListedTwice | daemon/a2a/a2a.go:278-357 | no task is listed twice, whatever happens between pages, creation times that coincide included |
| Pagination.ListedInOrder | daemon/a2a/a2a.go:278-357 | with distinct creation times tasks are listed in strictly increasing creation time, whatever happens to statuses |
| Coverage.OnePageCoversEachTime | daemon/a2a/a2a.go:278-357 | the tokens of a finished session share out all creation times: each is covered by exactly one page |
| Coverage.ListedWereVisible | daemon/a2a/a2a.go:278-357 | whatever is inserted anywhere and whatever changes status between pages, coinciding times included: a finished session lists only goals that were there and passed the filter when the page covering their time was read, and every such goal unless that page ends on a row of its time and it shares its time |
| Coverage.ListedIffVisibleAtItsPage | daemon/a2a/a2a.go:278-357 | with distinct creation times, under arbitrary insertions and status writes: a goal is listed if and only if it was there and passed the filter when the page covering its time was read |
| Coverage.MissedOnlyAtTies | daemon/a2a/a2a.go:278-357 | a goal that is there and matches at every page is listed, wherever others are inserted, unless some page ends on a row of the very same creation time |
| Coverage.NeverMissed | daemon/a2a/a2a.go:278-357 | so with distinct creation times such a goal is always listed |
| Coverage.ListedIffAheadOfTheToken | daemon/a2a/a2a.go:278-357 | with distinct creation times, a goal that appears between two pages is listed if and only if its time is beyond the token handed out before it appeared |
| Pagination.TiesAreLostAtBoundaries | daemon/a2a/a2a.go:280-286 | with coinciding creation times a finished session over a fixed table is complete if and only if no page boundary falls between two equal times; otherwise it lists fewer |
| Pagination.TiesAreOnlySkipped | daemon/a2a/a2a.go:280-286 | over a fixed table what a session lists, finished or not, is the matching goals in order with some left out |
| Pagination.ATieIsLost | daemon/a2a/a2a.go:280-286 | of two goals of one time, pages of one list only the first |
| StoreSessions.StoreRunsKeepGoals | daemon/a2a/a2a.go:218-413 | the tables a session sees while goals are created, at any times, and statuses written in between keep every goal under its id and creation time; distinct times stay distinct; and they continue one another if goals are only created, at times that move on |
| StoreSessions.StoreSessionsNeverRepeat | daemon/a2a/a2a.go:218-413 | so over any use of the store, whatever the clock does, no task is listed twice |
| StoreSessions.StoreSessionsAreExact | daemon/a2a/a2a.go:218-357 | if goals are only created, at times that move on, a finished session lists exactly the matching goals |
| StoreSessions.StoreSessionsFinish | daemon/a2a/a2a.go:218-357 | and asking for more pages than there are matching goals finishes it |
| StoreSessions.StoreSessionsMissTheLate | daemon/a2a/a2a.go:218-413 | with goals created at any distinct times and statuses written between pages, a finished session misses exactly the goals that were not there, or did not pass the filter, when the page covering their time was read |
| StoreSessions.CreatedBetweenPages | daemon/a2a/a2a.go:218-357 | a goal created between two pages is listed by a finished unfiltered session if and only if its creation time is beyond the token handed out before it |
| StoreSessions.ALateGoalIsMissed | daemon/a2a/a2a.go:278-282 | and a run of the store exists in which a goal created during a session is never listed, though all creation times differ |

## Left out

- HTTP handlers, routing, JSON decoding, role tokens, the MCP server, health, tracing, backup: plumbing.
- Processes, containers, sandboxes and signals: launching and tearing down are outcomes that are handed in.
- Cryptography and capability tokens: SHA-256 digests are injective constructors; whether a signature verifies is an
  input of Discover; minting and revoking tokens is not modelled (a failed mint is a failed launch).
- Manifest.Validate: its patterns are one boolean input of Discover.
- The credential store and OAuth refresh: whether a provider's credential resolves is an input of each attempt.
- SelfImproveTheorems.PromotionHadEvidence: speaks of the recorded times, not of the order of commits, because an eval
  from before Canary can carry the same millisecond.
- The supervisor's cancels and childCtxs slices: a child's context matters only through when its function returns,
  which is any time at all in the model.
- Supervisor strategies OneForAll and RestForOne, for which one instance per child does not hold, because cancelled
  instances still report their exits.
- CountTokens and Embed: the same loop and tracking as Complete.
- RegistryTheorems.RequirementsAreMetThroughout: speaks of serial runs, because closure does not survive every call that
  can land between Activate's check and its write; `RegistryTheorems.CallsBetweenCheckAndWrite` says which.
- Two concurrent registrations of a context effect for one extension: the UNIQUE constraint on the sequence refuses
  one of them.
- Database failures inside one transaction: a transaction happens whole or not at all, and its locks are held until
  it ends. Refusals between the statements of one operations call are modelled, its reload included; other callers'
  steps in those gaps are modelled in EffectRuns, not in the classes.
- Reloads at the end of registry, policy and task calls: a refused one answers an error for a call whose writes stand.
- Clocks: readings are arbitrary numbers handed to each step; a theorem that needs them not to go back says so.
- Fresh identifiers: drawn identifiers are taken not to be in use.
- PolicyEngine.Engine.Decide: policy id and version, reason codes and constraints are not stored.
- OperationsEngine.Engine.Propose: created and updated times and compensation references are not stored.
- SelfImproveEngine.Engine.RecordEval: the pass rate is compared as ten times the passes against nine times the cases,
  without floating-point rounding; evaluator names and the metrics JSON are not stored.
- RegistryEngine.Engine.Quiesce: which of several dependents a refusal names is left open, because it depends on the
  order in which the database returns rows.
- RegistryEngine.Engine.Dispose: revoking the token, status reasons and runtime handles are not modelled.
- FailoverEngine.Router.Complete: an HTTP call is an outcome.
- RegistryEngine.Engine.Discover: whether Validate and the signature check pass are inputs; the fields the registry only
  stores are one opaque string.
- RegistryEngine.Engine.Activate: minting the token and the tracked effect around the launch are part of one outcome; the
  effect's own lifecycle is in EffectRuns.
- RestartLimiter.Limiter.AllowRestart: the mutex is not modelled; the supervisor's loop is its only caller.
- TaskStore.Store.ListTasks: the message id drawn for a status message is not modelled, and rows of equal creation
  time come in one fixed order within one query.
- Goal cancellation as a final state: the Python side overwrites the status without a guard.
