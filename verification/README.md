# A verified model of Liiiraa Boost's recovery core

Liiiraa Boost applies reversible changes to a Windows machine. A desktop asks, a planner orders and undoes,
a privileged service carries out each step exactly recorded, and everything else decides what may be
installed, promoted, published or rolled back to. This project models that core in Dafny and proves what it
is for. `dafny verify dfyconfig.toml` checks everything.

Code of the original that changes state is modelled as classes and loops (`DedupStore`, `Broker`,
`PhysicalOperationDispatcher`, `DesktopAccountAuthority`, `ExactVersionPromotionPolicy`, `NativePipe`,
`AdmissionCustody`, the planner's scans, the depth-first searches). Each method is tied to a function of the old
state or to the property it promises, and the theorems are about those functions over whole runs. Code made of
expressions stays functions.

## The components

**The exactly-recorded broker** (`DedupStore`, `Dispatcher`, `DispatchOutcomes`, `Broker`, `BrokerRuns`,
`BrokerTheorems`, `BrokerOutcomes`, `BrokerSessions`, `RecoveryTheorems`). The store is three tables: dedup rows, highest counters, used nonces. The
dispatcher compares and then mutates a world of power schemes; its port, the restore-point layer and the
impersonated worker answer through a script, so that a duplication may stop half-way and the answer of an effect
that ran may be lost. A run is any interleaving of authentication, submission under any fault, unavailable statement
or death of the process, reopening, pruning, recovery references, disconnection, preshutdown and outside changes of
the machine. It numbers reservations and logs dispatches. Keyed hashing, digests, schema validation and encoded length are
functions the broker is given; nothing is assumed of them except, where a theorem says so, that digests have 64
characters or do not collide on the two documents at hand.

**Reconciliation** (`Reconcile`). What happened is decided from exact prior, requested and observed states.

**The dependency planner** (`DependencyGraph`, `DependencyPolicy`, `DependencyDeterminism`, `DependencyErrors`,
`DependencyRollback`, `RollbackTheorems`, `ClaimOrder`, `RollbackIndependence`). Normalisation, the scans for
malformed input, Kahn's algorithm taking the smallest available group, the worklist closure, the check of applied
operations, the split into restored and preserved operations, and the execution of the restores. Identifiers are
ranks under their own order.

**The desktop account authority** (`AccountAuthority`, `AuthorityTheorems`, `AuthorityDisplay`). Every `await` is a step boundary. A
continuation runs in two steps, its result and its `finally` block, because a listener notified in between may
call the authority again.

**Smaller cores.** Canonical JSON (`CanonicalJson`), the promotion ledger (`Promotion`), the search for fixture data
in cyclic object graphs (`FixtureProvenance`), frames on a pipe (`Framing`), numeric versions and admission
(`NumericVersion`), internal-channel manifests and rollback (`RollbackChain`). `Collections` and `Text` hold what
they share.

## What turned out false, and what holds instead

- The error `validate` reports can depend on the order of its input where a group identifier repeats
  (`RepeatedIdErrorDependsOnOrder`); `ErrorIgnoresOrderExactlyWhen` says for which inputs it does not. An accepted
  graph never depends on it.
- Which fault `validate_applied` reports can depend on the order of the claims: it does not exactly when a single
  operation is faulty (`FaultIgnoresOrderExactlyWhen`). A decision never does (`ClaimOrderIsIrrelevant`).
- The closure follows `depends_on_group_ids`, towards prerequisites, so a preserved operation may depend on a restored
  one (`PreservedMayDependOnRestored`). `PreservedIndependentExactlyWhen` says for which claims this happens. Where
  claims are closed under dependencies, as those of a prefix of the apply order are, direct dependencies decide; the
  check of the claims does not ask for that, and without it they do not (`OpenClaimsBreakTheEquivalence`).
- `dispose` does not discard a pending answer unless the authority had been started
  (`DisposalDiscardsExactlyWhenStarted`).
- The revoked state is not sticky, only the missing projection is: it lasts exactly until a synchronization begun after
  the sign-out is answered with anything else, a failure included (`SignedOutStaysRevokedExactlyUntil`).
- An error reply does not mean the machine is unchanged; `ErrorHidesAChangeExactlyWhen` says when it is not.
- Equivalent versions of different spelling are not equal for admission: after `1.0.0`, `1.0` is a downgrade
  (`EquivalentVersionMayBeADowngrade`).
- A rollback identifier with surplus zeros is admitted and never selects anything (`SurplusZerosAreAdmitted`); one can
  select something exactly when it is the canonical identifier of a build (`CanSelectExactlyWhenCanonical`).

## Model

| member | source | states |
|---|---|---|
| `DedupStores.DedupStore.Reserve` | apps/optimizer-service/src/dedup_store.rs:93-195 | the reservation transaction: the existing row decides, then counter and nonce, then one insert into all three tables; an unavailable database changes nothing |
| `DedupStores.DedupStore.NextCounter` | apps/optimizer-service/src/dedup_store.rs:197-214 | one, or one more than the highest counter; an integrity error at the 32-bit maximum |
| `DedupStores.DedupStore.MarkUnknownAfterDispatch` | apps/optimizer-service/src/dedup_store.rs:216-234 | exactly one reserved row becomes unknown-after-crash, otherwise an integrity error and no change |
| `DedupStores.DedupStore.RecordTerminal` | apps/optimizer-service/src/dedup_store.rs:236-263 | a row that is not terminal becomes terminal with its document and completion time and eligible for retention |
| `DedupStores.DedupStore.SetRecoveryReference` | apps/optimizer-service/src/dedup_store.rs:265-283 | sets the flag of one row, and nothing else |
| `DedupStores.DedupStore.PruneTerminalBefore` | apps/optimizer-service/src/dedup_store.rs:285-297 | removes the prunable rows, leaves counters and nonces, and returns how many rows went |
| `DedupStores.OnlyNewReservationsWrite` | apps/optimizer-service/src/dedup_store.rs:133-195 | a reservation that is not new leaves all three tables as they were; a new one adds one reserved row, keeps the others, and makes its nonce and every counter up to its own replayed |
| `DedupStores.StatementsAdvance` | apps/optimizer-service/src/dedup_store.rs:317-351 | every statement keeps the table constraints, the replay memory, and every row except prunable ones; rows only advance |
| `DedupStores.NeverReservedTwice` | apps/optimizer-service/src/dedup_store.rs:133-162 | after a reservation and any statements at all, pruning included, the same principal never reserves anew with that nonce or a counter not above it |
| `Dispatchers.PhysicalOperationDispatcher.Dispatch` | apps/optimizer-service/src/dispatcher.rs:238-397 | one dispatch: common checks, identifiers, observation, comparison, mutation, audit and reply |
| `Dispatchers.PhysicalOperationDispatcher.WithInteractiveUser` | apps/optimizer-service/src/operations/power_scheme.rs:125-197 | the effect runs under the lease, is refused before it, or runs and loses its answer |
| `Dispatchers.PhysicalOperationDispatcher.Mutate` | apps/optimizer-service/src/operations/power_scheme.rs:748-797 | duplicate, activate, delete on the machine, and what an unfinished duplication leaves |
| `Dispatchers.DispatchIsSafe` | apps/optimizer-service/src/dispatcher.rs:261-365 | whatever fails, the active scheme exists, no scheme is overwritten, only an owned inactive one disappears, only an owned one becomes active, and at most one thing changes |
| `Dispatchers.RepliesTellTheTruth` | apps/optimizer-service/src/dispatcher.rs:267-364 | accepted means the comparison held and the effect is in place; rejected means it did not hold and nothing changed |
| `Dispatchers.AuditsMirrorReplies` | apps/optimizer-service/src/dispatcher.rs:204-218 | one audit for each reply and none for an error, with the outcome the reply reports |
| `Dispatchers.ErrorHidesAChangeExactlyWhen` | apps/optimizer-service/src/operations/power_scheme.rs:125-157 | an error hides a change exactly when a finished effect lost its answer or a duplication stopped half-way |
| `Dispatchers.RepeatIsRefused` | apps/optimizer-service/src/dispatcher.rs:270-347 | an effect once performed no longer passes its own comparison, except observing and switching to the active scheme |
| `Dispatchers.RemovingUndoesCopying` | apps/optimizer-service/src/dispatcher.rs:261-354 | deleting a fresh duplicate under its source's fingerprint, and under no other, restores the machine |
| `Dispatchers.RunsRespectOthers` | apps/optimizer-service/src/dispatcher.rs:400-403 | over any run of dispatches, schemes of others are unchanged and none of them becomes active |
| `DispatchOutcomes.Activation` | apps/optimizer-service/src/dispatcher.rs:295-329 | from the request's own strings: with all port calls succeeding an activation is accepted exactly when the expected scheme is active and the target is managed, and then the target is active and the schemes are the same; otherwise drift, or an invalid message for unreadable identifiers |
| `DispatchOutcomes.Duplication` | apps/optimizer-service/src/dispatcher.rs:261-294 | accepted exactly when the source is active and the destination absent; afterwards the destination is a managed copy with the source's fingerprint and nothing else differs |
| `DispatchOutcomes.Deletion` | apps/optimizer-service/src/dispatcher.rs:330-365 | accepted exactly when the named scheme is managed, not active and has the expected fingerprint; afterwards it is gone and nothing else differs |
| `DispatchOutcomes.RestorePoint` | apps/optimizer-service/src/dispatcher.rs:366-396 | a restore point is prepared only for the transaction of its own request; allowed is accepted, anything else is an unavailable reply |
| `DispatchOutcomes.Refusal` | apps/optimizer-service/src/dispatcher.rs:116-236 | another step or version, or a client that is not the verified one, is refused before anything is done |
| `DispatchOutcomes.PortFailure` | apps/optimizer-service/src/dispatcher.rs:246-365 | a failing preflight or observation is an invalid message and changes nothing; a refused mutation changes nothing and is never accepted |
| `DispatchOutcomes.SchemeIdReadsBack` | apps/optimizer-service/src/dispatcher.rs:405-413 | a number printed in base 16 is read as that scheme's identifier exactly when it is not zero and below 2^128 |
| `Brokers.Open` | apps/optimizer-service/src/ipc.rs:157-177 | custody is checked first, then the database; an opened broker has no sessions and the durable tables |
| `Brokers.Broker.AuthenticateClient` | apps/optimizer-service/src/ipc.rs:188-273 | token binding, identity checks, the saturating sequence, the derived nonce, identifier and key, the counter, the new session |
| `Brokers.Broker.Submit` | apps/optimizer-service/src/ipc.rs:307-433 | every check in order, the reservation, the fault points, mark, dispatch, validation, record |
| `Brokers.Broker.BeginPreshutdown` | apps/optimizer-service/src/ipc.rs:435-438 | stops the broker and drops every session |
| `Brokers.Broker.DisconnectSession` | apps/optimizer-service/src/ipc.rs:440-442 | drops one session and no other |
| `Brokers.Broker.PruneTerminalBefore` | apps/optimizer-service/src/ipc.rs:444-452 | prunes with a cutoff that never reaches into the last 180 days |
| `Brokers.Broker.RetainedIdentityCount` | apps/optimizer-service/src/ipc.rs:454-456 | the number of dedup rows |
| `Brokers.Broker.ReferenceForRecovery` | apps/optimizer-service/src/ipc.rs:458-466 | references an existing row; a missing one is an integrity failure and changes nothing |
| `BrokerOutcomes.AlteredEnvelopeIsRefused` | apps/optimizer-service/src/ipc.rs:345-350 | a signature holds for one envelope: submitted with another version, step, transaction, nonce or request it is refused as an invalid MAC and nothing happens, unless the keyed hash collides on the two documents |
| `BrokerOutcomes.AdmittedExactlyWhen` | apps/optimizer-service/src/ipc.rs:315-356 | a submission is admitted exactly when it is timely, named, short enough, under its live session, signed, and its request is for its step and transaction; and what is then reserved |
| `BrokerOutcomes.RefusalsNameTheirReason` | apps/optimizer-service/src/ipc.rs:315-356 | each error code is given exactly when the check it stands for is the first that does not hold |
| `BrokerOutcomes.RefusedStatements` | apps/optimizer-service/src/dedup_store.rs:93-283 | which statements the store refuses and as what, exactly: a digest of another length is a database error, a terminal row without its document and every statement out of phase an integrity error |
| `BrokerOutcomes.NextCounterIsTheLeast` | apps/optimizer-service/src/dedup_store.rs:197-214 | for a principal seen before, a request with an unused nonce is a replay exactly when its counter is below the next counter of the ticket |
| `BrokerOutcomes.TicketIssuedExactlyWhen` | apps/optimizer-service/src/ipc.rs:188-273 | when a ticket is issued, what it holds, and which session it opens |
| `BrokerOutcomes.ReferencedOnlyByAsking` | apps/optimizer-service/src/ipc.rs:458-466 | no submission, fault or other event makes a row referenced for recovery; only asking for it does |
| `BrokerOutcomes.ReferringKeepsTheRow` | apps/optimizer-service/src/ipc.rs:458-466 | a row referenced now is there after every later run, prunes included, and referencing changes nothing else |
| `BrokerOutcomes.FinishedRowsGo` | apps/optimizer-service/src/ipc.rs:444-452 | a finished, unreferenced row older than the cutoff and than 180 days does go |
| `BrokerRuns.ReservedShape` | apps/optimizer-service/src/ipc.rs:383-432 | wherever a submission that makes a row is cut short, by a fault or by the death of the process: a reserved row was not dispatched, an undispatched row is reserved unless the process died after the mark, and a terminal row holds what was replied unless it died after the record |
| `BrokerRuns.NotReservedMeansUntouched` | apps/optimizer-service/src/ipc.rs:315-382 | a submission that makes no row dispatches nothing and leaves tables and machine alone |
| `BrokerRuns.RunKeepsInv` | apps/optimizer-service/src/ipc.rs:307-466 | the run invariant: table constraints, ordered log, remembered counters and nonces, rows that know of their dispatch, safe changes |
| `BrokerTheorems.AtMostOnce` | apps/optimizer-service/src/dedup_store.rs:133-195 | over every run a principal's dispatched counters strictly increase and no nonce is dispatched twice, pruned or not |
| `BrokerTheorems.ReplayNeverDispatches` | apps/optimizer-service/src/dedup_store.rs:133-162 | sending a dispatched nonce, or a counter not above a dispatched one, changes nothing at all |
| `BrokerTheorems.DispatchesExactlyWhen` | apps/optimizer-service/src/ipc.rs:315-413 | a submission dispatches exactly when it is admitted, its key has no row, it is no replay, and no fault or unavailable statement stops it |
| `BrokerTheorems.ExhaustedPrincipalIsRefused` | apps/optimizer-service/src/dedup_store.rs:197-214 | a principal at the maximal counter gets no ticket and no dispatch in any later run |
| `BrokerTheorems.ReservedMeansNeverDispatched` | apps/optimizer-service/src/dedup_store.rs:216-263 | a row whose reservation was dispatched is unknown or terminal for as long as it exists, so a reserved row was never dispatched |
| `BrokerTheorems.RetransmissionOfARow` | apps/optimizer-service/src/dedup_store.rs:116-131 | submitting an existing key never dispatches and changes nothing: conflict if it differs, else the terminal document or observation-required |
| `BrokerTheorems.RowsNeverGoBack` | apps/optimizer-service/src/dedup_store.rs:216-297 | once its submission is over a row never changes again over any run, except that its recovery flag may be set |
| `BrokerTheorems.UnfinishedRowsStay` | apps/optimizer-service/src/dedup_store.rs:285-297 | a row left unfinished is never pruned and stays exactly as unfinished as it was |
| `BrokerTheorems.UnfinishedRequestNeedsObservation` | apps/optimizer-service/src/dedup_store.rs:116-131 | a request whose submission made a row and left it unfinished, whatever stopped it, gets observation-required over every later run, re-signed under any session |
| `BrokerTheorems.ReferencedRowsStay` | apps/optimizer-service/src/ipc.rs:444-466 | a row referenced for recovery outlives every prune, reopening included |
| `BrokerTheorems.PruneRemovesExactly` | apps/optimizer-service/src/ipc.rs:444-452 | a prune removes exactly terminal, unreferenced rows completed before the cutoff and before the last 180 days |
| `BrokerTheorems.RetransmissionGetsTheRecordedAnswer` | apps/optimizer-service/src/ipc.rs:357-382 | the same request, re-signed under any session and with its members in any order, gets the dispatcher's recorded answer after any run that did not prune its row, also when the process died before sending it |
| `BrokerTheorems.DifferingRequestConflicts` | apps/optimizer-service/src/dedup_store.rs:116-123 | a request that differs from the one that made a row, under its key, conflicts after any run in which the row stays, unless the digest collides on those two documents |
| `BrokerTheorems.CompletedExactlyWhen` | apps/optimizer-service/src/ipc.rs:387-432 | a dispatched submission ends terminal exactly when the dispatcher gave a valid answer and nothing failed before the record; row and client then hold that answer, otherwise the row stays unknown and the client gets an error |
| `BrokerTheorems.FreshTicketIsServed` | apps/optimizer-service/src/ipc.rs:202-294 | a new, well-signed request with a fresh ticket's counter, an unused nonce and an unused key is dispatched |
| `BrokerTheorems.NothingIsServedWhileStopping` | apps/optimizer-service/src/ipc.rs:435-438 | from preshutdown to the next opening no session exists, nothing is dispatched, and no row, counter or nonce is added |
| `BrokerTheorems.OneMutationPerRow` | apps/optimizer-service/src/ipc.rs:387-413 | over every run each row accounts for at most one dispatch, and that for at most one change of the machine |
| `BrokerTheorems.NoSecondDispatchUnderAKey` | apps/optimizer-service/src/dedup_store.rs:116-131 | while the row under a transaction and step is not pruned, no run dispatches anything under that key again |
| `BrokerTheorems.TheLogAccountsForTheMachine` | apps/optimizer-service/src/ipc.rs:387-413 | without outside interference the log links the first state of the machine to the last |
| `BrokerTheorems.RunsRespectOtherSchemes` | apps/optimizer-service/src/dispatcher.rs:261-365 | no undisturbed run touches schemes of others or activates one |
| `BrokerSessions.PrincipalIsOneLogon` | apps/optimizer-service/src/ipc.rs:242-245 | under one program hash two identities share a principal exactly when logon and Windows session agree |
| `BrokerSessions.RunKeepsSessions` | apps/optimizer-service/src/ipc.rs:208-264 | over every run each live session belongs to an interactive logon running the expected program, and its token to that logon |
| `BrokerSessions.ContextsAreVerified` | apps/optimizer-service/src/dispatcher.rs:116-130 | the dispatcher's repeated checks pass for every session with a token and refuse every session without one |
| `BrokerSessions.ChangesNeedATokenOfTheUser` | apps/optimizer-service/src/ipc.rs:387-413 | over every run the machine changes only for an admitted request of a live session holding its own user's token, signed with that session's key |
| `BrokerSessions.TicketsAreDistinct` | apps/optimizer-service/src/ipc.rs:222-241 | between two openings no two server nonces are derived from the same text, whatever the clock said and the client nonces contain, as long as the sequence has not saturated |
| `Reconciliation.DecisionFollowsObservation` | crates/plan-engine/src/reconcile.rs:292-362 | the kind of decision for every input: unknown exactly when a state is unknown, receipt-eligible exactly when observed equals requested, not applied or restored exactly when it equals only the prior, user choice otherwise |
| `Reconciliation.OnlyObservedStatesMatter` | crates/plan-engine/src/reconcile.rs:16-25 | dispatch evidence, identifiers and observation times never change the kind of decision |
| `Reconciliation.EntryPointsRefuseTheOtherKind` | crates/plan-engine/src/reconcile.rs:205-223 | an entry point decides for its own kind of operation and refuses the other, naming it |
| `Reconciliation.IntentsStartFromTheObservedState` | crates/plan-engine/src/reconcile.rs:225-258 | an intent exists exactly for an unresolved decision and a new transaction; in an unchanged world keep-current is receipt-eligible and every other choice is not done yet |
| `Reconciliation.ReachingTheChosenStateSettlesIt` | crates/plan-engine/src/reconcile.rs:205-258 | for every choice and either operation, reconciling the intent at its entry point is receipt-eligible exactly when the state the choice stands for is observed, and the other entry point refuses it |
| `RecoveryTheorems.SubmittedSwitchIsAllOrNothing` | apps/optimizer-service/src/dispatcher.rs:299-334 | under any fault a submitted switch happens exactly as asked or not at all |
| `RecoveryTheorems.ReconcilingASubmittedSwitch` | crates/plan-engine/src/reconcile.rs:330-362 | after a switch submitted under any fault, reconciliation says applied exactly when the machine was switched and not-applied exactly when it was left alone |
| `DependencyPolicy.Validate` | crates/plan-engine/src/dependency.rs:281-379 | succeeds exactly on non-empty, unique, closed and acyclic input; carries the sorted groups and the least topological order; otherwise names the error the scan finds first |
| `DependencyPolicy.CheckRepetitions` | crates/plan-engine/src/dependency.rs:298-318 | the first repetition in the scan decides between duplicate group and duplicate operation |
| `DependencyPolicy.KahnOrder` | crates/plan-engine/src/dependency.rs:340-363 | always takes the smallest available group, and stops short exactly on a cycle |
| `DependencyPolicy.KahnEnds` | crates/plan-engine/src/dependency.rs:364-366 | an order that stopped with nothing available is complete exactly when the graph is acyclic |
| `DependencyGraph.GreedyIsLeast` | crates/plan-engine/src/dependency.rs:349-363 | smallest-first selection yields the lexicographically least topological order |
| `DependencyGraph.LeastIsUnique` | crates/plan-engine/src/dependency.rs:349-363 | there is only one least topological order |
| `DependencyGraph.StuckHasCycle` | crates/plan-engine/src/dependency.rs:364-366 | when no group is available and some are left, there is a real cycle |
| `DependencyDeterminism.AcceptedGraphIsShuffleInvariant` | crates/plan-engine/src/dependency.rs:289-296 | the accepted graph is the same for every permutation of groups, dependency lists and operation lists |
| `DependencyDeterminism.ErrorIsUnique` | crates/plan-engine/src/dependency.rs:298-338 | for one input there is one error |
| `DependencyDeterminism.RepeatedIdErrorDependsOnOrder` | crates/plan-engine/src/dependency.rs:296-318 | two groups with one identifier, in two orders, give two different errors |
| `DependencyErrors.ErrorIgnoresOrderExactlyWhen` | crates/plan-engine/src/dependency.rs:285-338 | the error of a rejected input is the same for every permutation exactly when a group is empty, or no identifier repeats, or a repetition is met before the least repeated identifier, or the groups of that identifier all or none have an operation too many |
| `DependencyErrors.DecidedBy` | crates/plan-engine/src/dependency.rs:296-318 | the group of the least repeated identifier that the stable sort puts first decides the error |
| `DependencyRollback.AcceptedIsValid` | crates/plan-engine/src/dependency.rs:281-379 | every accepted graph meets what rollback relies on |
| `DependencyRollback.OperationGroups` | crates/plan-engine/src/dependency.rs:441-455 | every operation of the graph is mapped to the one group it belongs to |
| `DependencyRollback.DependencyClosure` | crates/plan-engine/src/dependency.rs:457-475 | terminates, meets no missing group, and returns exactly the groups reachable from the failed one |
| `DependencyRollback.ValidateApplied` | crates/plan-engine/src/dependency.rs:477-503 | succeeds exactly when every claim is of a known operation, in its group, claimed once; otherwise names a faulty claim |
| `DependencyRollback.RollbackAfterFailure` | crates/plan-engine/src/dependency.rs:381-434 | unknown operation, faulty claims, or the decision over the closure of the failed group |
| `DependencyRollback.SafeBoundaryCancellation` | crates/plan-engine/src/dependency.rs:238-265 | names the operation in flight to finish and keeps everything applied, in apply order; refuses an unknown operation in flight or faulty claims |
| `RollbackTheorems.PrerequisitesAppliedFirst` | crates/plan-engine/src/dependency.rs:368-378 | an operation of a group another group reaches comes before that group's operations |
| `RollbackTheorems.RollbackSplitsExactly` | crates/plan-engine/src/dependency.rs:399-425 | every applied operation is restored if its group is in the closure and preserved if not, and nothing else is either |
| `RollbackTheorems.RollbackConserves` | crates/plan-engine/src/dependency.rs:399-425 | nothing is restored or preserved twice, and the two lists together are as long as the claims |
| `RollbackTheorems.DependentsRestoredFirst` | crates/plan-engine/src/dependency.rs:400-410 | restores run in strictly reverse apply order, so dependents go before their prerequisites |
| `RollbackTheorems.ClaimOrderIsIrrelevant` | crates/plan-engine/src/dependency.rs:381-434 | the decision does not depend on the order of the claims |
| `ClaimOrder.FaultIgnoresOrderExactlyWhen` | crates/plan-engine/src/dependency.rs:477-503 | false claims are reported in the same way whatever their order exactly when a single operation is faulty: unknown, claimed outside its group, or claimed twice |
| `ClaimOrder.MadeToReport` | crates/plan-engine/src/dependency.rs:477-503 | every faulty operation is the one reported in some order of the claims |
| `RollbackTheorems.RollbackRestoresExactly` | crates/plan-engine/src/executor.rs:774-832 | running the restores where every applied operation holds its applied state gives each restored operation its restore state and changes nothing else |
| `RollbackTheorems.StoppedRunCanBeReported` | crates/plan-engine/src/dependency.rs:186-205 | a run that stops at a restore names an operation that can be reported as a restore failure |
| `RollbackTheorems.RestoreFailureExactlyWhen` | crates/plan-engine/src/dependency.rs:186-205 | a restore failure can be reported exactly of an operation that was to be restored; it asks for guided recovery, names the operation, and changes nothing else of the decision |
| `RollbackTheorems.RunStopsAtTheFirstDrift` | crates/plan-engine/src/executor.rs:774-832 | a run stops at the first restore whose operation is not in its applied state, with the restores before it done and nothing else changed |
| `RollbackIndependence.PreservedIndependentExactlyWhen` | crates/plan-engine/src/dependency.rs:399-475 | for all accepted claims, no preserved operation depends on a restored one exactly when no claimed group outside the closure reaches a claimed group inside it; for claims closed under dependencies, exactly when none depends directly on a group of the closure |
| `RollbackIndependence.PrefixClaimsAreClosed` | crates/plan-engine/src/dependency.rs:368-378 | claims of the operations applied first are closed under dependencies |
| `RollbackIndependence.PreservedMayDependOnRestored` | crates/plan-engine/src/dependency.rs:399-475 | groups, claims in apply order and the decision about them in which a preserved operation depends on a restored one |
| `RollbackIndependence.OpenClaimsBreakTheEquivalence` | crates/plan-engine/src/dependency.rs:477-503 | accepted claims that leave out a prerequisite, for which direct dependencies do not decide |
| `AccountAuthority.AuthoritySnapshot` | apps/desktop/src/account-authority.ts:441-468 | a record is accepted exactly when its status is present, nothing present is malformed, revoked has no projection and conflict has projection and draft; the snapshot carries status, projection, draft and error over |
| `AccountAuthority.DesktopAccountAuthority.CallSynchronize` | apps/desktop/src/account-authority.ts:562-572 | starts a synchronization, or queues the trigger once while something is in flight |
| `AccountAuthority.DesktopAccountAuthority.CallUpdateProfile` | apps/desktop/src/account-authority.ts:611-642 | starts a profile mutation with its draft, or refuses |
| `AccountAuthority.DesktopAccountAuthority.CallBindCurrentDevice` | apps/desktop/src/account-authority.ts:774-803 | starts a binding, or refuses with its reason |
| `AccountAuthority.DesktopAccountAuthority.CallConfirmSignedOut` | apps/desktop/src/account-authority.ts:555-560 | a new number, an empty queue, a revoked snapshot without projection |
| `AccountAuthority.DesktopAccountAuthority.CallStart` | apps/desktop/src/account-authority.ts:869-877 | starts once, with a launch synchronization |
| `AccountAuthority.DesktopAccountAuthority.CallDispose` | apps/desktop/src/account-authority.ts:879-892 | of a started authority: a new number and an empty queue |
| `AccountAuthority.DesktopAccountAuthority.ResumeFrame` | apps/desktop/src/account-authority.ts:573-603 | a continuation publishes only under the current number, moves on, and answers the caller of a mutation, with a failure when stale |
| `AccountAuthority.DesktopAccountAuthority.FinishFrame` | apps/desktop/src/account-authority.ts:604-608 | the `finally` block: clears the flag and starts, or queues again, the first waiting trigger |
| `AuthorityTheorems.RunKeepsInv` | apps/desktop/src/account-authority.ts:562-608 | on every interleaving: no duplicates in the queue, waiting only while something is in flight, at most one synchronization and one mutation, and well-formed snapshots |
| `AuthorityTheorems.CurrentExactlyWhileNothingBegins` | apps/desktop/src/account-authority.ts:568-574 | a number stays current exactly as long as no operation, sign-out or disposal begins |
| `AuthorityTheorems.NoStalePublication` | apps/desktop/src/account-authority.ts:573-603 | a continuation publishes exactly what its reply entitles it to if nothing began since its operation did, and nothing otherwise |
| `AuthorityDisplay.RefreshShows` | apps/desktop/src/account-authority.ts:573-603 | a current synchronization shows exactly the validated snapshot it got; without one it keeps exactly the projection on display, drops the draft, and is stale with a projection and offline without, with the error of the failure |
| `AuthorityDisplay.UpdateShows` | apps/desktop/src/account-authority.ts:641-708 | what a current profile update shows and answers, case by case of the reply |
| `AuthorityDisplay.BindingShows` | apps/desktop/src/account-authority.ts:806-828 | what the native answer to a binding shows and answers; only one that is applied and names a device asks again |
| `AuthorityDisplay.ConfirmationShows` | apps/desktop/src/account-authority.ts:829-848 | a binding succeeds exactly when the second answer lists the reported device as active for the same account |
| `AuthorityDisplay.BindingRefusals` | apps/desktop/src/account-authority.ts:774-803 | which refusal a binding gets, exactly, from what is on display |
| `AuthorityDisplay.OnlineOnlyIfSaid` | apps/desktop/src/account-authority.ts:573-603 | over every run the account is shown online only if, before, a current and validated answer said so, or the answer to a binding said it was not applied |
| `AuthorityDisplay.LongestWaitingIsTaken` | apps/desktop/src/account-authority.ts:604-608 | when a call is over the trigger that waited longest is synchronized for, or goes behind the others while something else is in flight |
| `AuthorityTheorems.SnapshotChangesOnlyBy` | apps/desktop/src/account-authority.ts:535-553 | the snapshot changes only when something begins or a current continuation publishes |
| `AuthorityTheorems.SignedOutStaysEmpty` | apps/desktop/src/account-authority.ts:555-603 | after a sign-out there is no projection exactly until a synchronization begun later returns, while current, a validated one |
| `AuthorityTheorems.QueuedTriggerLeavesOnlyBy` | apps/desktop/src/account-authority.ts:604-608 | a queued trigger leaves only by starting its synchronization, or by sign-out or disposal |
| `AuthorityTheorems.TriggerIsNeverDropped` | apps/desktop/src/account-authority.ts:562-570 | a trigger handed in is synchronized for at once or waits |
| `AuthorityTheorems.TriggersAreServed` | apps/desktop/src/account-authority.ts:562-608 | over every run a trigger handed in is waiting, or a synchronization was started for it, or a sign-out or disposal came first; once nothing is in flight it does not wait |
| `AuthorityTheorems.MutationOutlivesSynchronizations` | apps/desktop/src/account-authority.ts:629-713 | a mutation's number stays current to each of its continuations unless a sign-out or disposal intervenes |
| `AuthorityTheorems.MutationStaleExactlyWhen` | apps/desktop/src/account-authority.ts:641-643 | a mutation's continuation is stale exactly when a sign-out or disposal came after its start |
| `AuthorityTheorems.ProfileAnswerIsShown` | apps/desktop/src/account-authority.ts:641-708 | on every interleaving the caller of an update is told of success exactly when nothing ended it and the snapshot then on display confirms its draft; a stale answer is a failure and changes nothing |
| `AuthorityTheorems.BindAnswerIsShown` | apps/desktop/src/account-authority.ts:806-848 | on every interleaving the caller of a binding is told of success exactly on a second answer that lists the reported device and is then on display; a stale answer is a failure and changes nothing |
| `AuthorityTheorems.DisposalDiscardsExactlyWhenStarted` | apps/desktop/src/account-authority.ts:879-892 | an answer pending at a disposal is discarded exactly when the authority had been started; otherwise it is published |
| `AuthorityTheorems.AnswerAfterEarlyDisposal` | apps/desktop/src/account-authority.ts:879-892 | a run in which an answer is shown after a disposal that preceded the start |
| `AuthorityTheorems.SignedOutStaysRevokedExactlyUntil` | apps/desktop/src/account-authority.ts:555-603 | after a sign-out the snapshot stays revoked exactly until a synchronization begun later is answered, while current, with anything else |
| `AuthorityTheorems.RefreshAfterSignOutMayShowOffline` | apps/desktop/src/account-authority.ts:591-603 | from every idle state, a failing refresh begun after a sign-out shows offline instead of revoked, still without projection |
| `CanonicalJson.CopiesAgree` | apps/optimizer-service/src/installation_manifest.rs:695-709 | the broker's and the manifest's sorting compute the same value |
| `CanonicalJson.SameImageExactlyWhenEquivalent` | apps/optimizer-service/src/ipc.rs:552-566 | two values sort to the same image exactly when they are equal up to the order of object members at every level |
| `CanonicalJson.ImageIsCanonical` | apps/optimizer-service/src/ipc.rs:552-566 | in the image every object lists its keys in strictly increasing order |
| `CanonicalJson.Idempotent` | apps/optimizer-service/src/ipc.rs:552-566 | sorting twice is sorting once, and changes nothing but the order of members |
| `CanonicalJson.HashDocumentIs` | apps/optimizer-service/src/ipc.rs:523-531 | the document that is digested, as it is written: four members in the order of their keys, the request sorted throughout |
| `CanonicalJson.HashInputsEqualExactlyWhen` | apps/optimizer-service/src/ipc.rs:523-531 | two envelopes have the same hash input exactly when transaction, step, operation and, up to member order, request agree |
| `CanonicalJson.SignedInputsEqualExactlyWhen` | apps/optimizer-service/src/ipc.rs:533-546 | two envelopes are signed as the same document exactly when their server nonces are equal and transaction, step, operation and, up to member order, request agree |
| `CanonicalJson.ResigningKeepsTheHash` | apps/optimizer-service/src/ipc.rs:523-546 | signing a request for another session changes what is signed and not what is hashed |
| `Promotion.ExactVersionPromotionPolicy.Evaluate` | crates/plan-engine/src/promotion.rs:361-433 | one evaluation against the ledger of its version |
| `Promotion.ExactVersionPromotionPolicy.VerifyRevocation` | crates/plan-engine/src/promotion.rs:435-453 | a verified revocation that keeps recovery available revokes its version, any other changes nothing |
| `Promotion.ExactVersionPromotionPolicy.NewApplicationsBlocked` | crates/plan-engine/src/promotion.rs:455-459 | whether the ledger blocks new applications of a version |
| `Promotion.AllUniqueMeansDistinct` | crates/plan-engine/src/promotion.rs:317-324 | sorting and comparing neighbours decides freedom from duplicates |
| `Promotion.SameEvidenceMeansSameSet` | crates/plan-engine/src/promotion.rs:326-335 | the sort-based comparison is set equality of duplicate-free lists |
| `Promotion.AcceptedStagesAreAChain` | crates/plan-engine/src/promotion.rs:395-414 | after any run the accepted stages of a version are a prefix of the four, of one build, each naming the promotion before it |
| `Promotion.PromotedExactlyWhen` | crates/plan-engine/src/promotion.rs:361-433 | after any run a request is promoted exactly when its version is alive, its evidence complete and the same set as the document's, and it extends the chain |
| `Promotion.PromotionReports` | crates/plan-engine/src/promotion.rs:361-433 | after any run a promoted request reports its own version, build and coverage gaps, the stage that follows the promotions accepted before, and as next the one after that, or none after the fourth |
| `Promotion.BlockedExactlyBecause` | crates/plan-engine/src/promotion.rs:361-433 | after any run each reason to block is given exactly in its case, in terms of the documents and of what was accepted before |
| `Promotion.CompleteExactlyWhen` | crates/plan-engine/src/promotion.rs:127-146 | which evidence is complete, with the sorting comparisons replaced by absence of duplicates |
| `Promotion.RevocationAnswers` | crates/plan-engine/src/promotion.rs:435-453 | a revocation is accepted exactly when it is verified and keeps recovery available, and blocks its own version only |
| `Promotion.DeadVersionsStayDead` | crates/plan-engine/src/promotion.rs:371-378 | failure and revocation are final and freeze what was accepted |
| `Promotion.DeadExactlyWhen` | crates/plan-engine/src/promotion.rs:371-453 | after any run a version is revoked, and blocked, exactly when a revoked verdict or an accepted revocation occurred, and failed exactly when a completely evidenced stage failed before that |
| `Promotion.BlockedMovesNothing` | crates/plan-engine/src/promotion.rs:371-414 | a blocked request never moves the latest promotion of any version |
| `Promotion.VersionsAreIndependent` | crates/plan-engine/src/promotion.rs:366-369 | a version fares in any run as if no other version had been submitted |
| `FixtureProvenance.FindFixtureProvenance` | apps/desktop/src/composition.tsx:132-169 | terminates on every finite graph, finds nothing exactly when no marked object is reachable, and otherwise returns the text of a path to one |
| `FixtureProvenance.HasFixtureProvenance` | apps/desktop/src/account-authority.ts:284-298 | answers the same question: found exactly when a marked object is reachable |
| `FixtureProvenance.FixtureIsReachedExactlyWhen` | apps/desktop/src/composition.tsx:132-169 | a marked object is reachable exactly when some path ends in a property `scenarioId` or `fixtureVersion`, or in a property `kind` with the text `fixture` |
| `FixtureProvenance.ReportIgnoresEnumeration` | apps/desktop/src/composition.tsx:132-169 | what is reported does not depend on the order in which records enumerate their keys |
| `FixtureProvenance.Find` | apps/desktop/src/composition.tsx:132-169 | one step of the search over the shared set: finding nothing leaves only unmarked objects whose entries have all been visited |
| `FixtureProvenance.Has` | apps/desktop/src/account-authority.ts:284-298 | one step of the other search over its shared set |
| `Framing.EncodedExactlyWhenDecoded` | apps/optimizer-service/src/windows_pipe.rs:56-77 | the encoder accepts a payload at a maximum exactly when the reader takes it off a stream at that maximum, with the rest untouched |
| `Framing.EncoderAnswers` | apps/optimizer-service/src/windows_pipe.rs:56-65 | a frame is four bytes weighing the payload's length, most significant first, and then the payload; the empty payload and one over either limit are too large |
| `Framing.CutStreamsDecodeToPrefixes` | apps/optimizer-service/src/windows_pipe.rs:67-86 | a stream of frames cut anywhere yields a prefix of its payloads and never a refused frame; uncut, all of them with nothing left |
| `Framing.FramesAreToldApart` | apps/optimizer-service/src/windows_pipe.rs:56-77 | if one stream begins with the frames of another, its payloads begin with the other's, and what is left over is the rest of its frames |
| `Framing.Exchange` | apps/optimizer-service/src/windows_pipe.rs:720-812 | under every interleaving of the write and the read loop, down to their polls and with values begun while a read is under way, values are read in the order written, no frame is refused, and once as many were read as written nothing is left over |
| `Framing.ReadBeforeWrite` | apps/optimizer-service/src/windows_pipe.rs:586-591 | a read on an empty pipe gets the value whose writing begins while it polls |
| `Framing.NativePipe.WriteValue` | apps/optimizer-service/src/windows_pipe.rs:738-776 | the whole frame is in the pipe or, on stop, deadline or a broken pipe, a proper prefix of it; it succeeds whenever enough polls move something |
| `Framing.NativePipe.ContinueWrite` | apps/optimizer-service/src/windows_pipe.rs:748-775 | the write loop over some polls: nothing lost or reordered, and done exactly when nothing is left to send |
| `Framing.NativePipe.ReadExact` | apps/optimizer-service/src/windows_pipe.rs:778-812 | the read loop fills the buffer with the next bytes, those begun and arriving between its polls included, or fails having lost a proper part; it succeeds when enough polls move something once the bytes have come |
| `Framing.NativePipe.ReadValue` | apps/optimizer-service/src/windows_pipe.rs:720-736 | a value read is the next frame of what was ahead and what was begun meanwhile, and leaves the rest; a refused length is one the decoder refuses |
| `NumericVersions.ParseThenPrint` | apps/optimizer-service/src/numeric_version.rs:1-19 | a text that parses has one to four 64-bit segments and is their only spelling |
| `NumericVersions.PrintThenParse` | apps/optimizer-service/src/numeric_version.rs:1-19 | every list of one to four 64-bit values is what its text parses to |
| `NumericVersions.EquivalentNumericVersion` | apps/optimizer-service/src/numeric_version.rs:21-35 | true exactly when both parse and agree at every place, missing segments counting as zero |
| `NumericVersions.StrippedIsNormal` | apps/optimizer-service/src/numeric_version.rs:28-33 | stripping gives a prefix without trailing zeros that agrees with the version at every place |
| `NumericVersions.NormalFormIsUnique` | apps/optimizer-service/src/numeric_version.rs:28-34 | a version has one normal form |
| `NumericVersions.EquivalenceRelation` | apps/optimizer-service/src/numeric_version.rs:21-35 | an equivalence relation on exactly the versions that parse |
| `NumericVersions.EquivalentOrderedByLength` | apps/optimizer-service/src/installation_manifest.rs:736-745 | equivalent versions compare, unstripped, by their number of segments |
| `NumericVersions.AdmittedExactlyWhenItFollows` | apps/optimizer-service/src/installation_manifest.rs:723-745 | admission accepts exactly the same product, no lower version, and the same version only with the same manifest |
| `NumericVersions.LessExactlyWhen` | apps/optimizer-service/src/installation_manifest.rs:736-739 | one version is below another exactly when it is a proper prefix, or at the first place where they differ its number is smaller |
| `NumericVersions.AdmissionAnswers` | apps/optimizer-service/src/installation_manifest.rs:723-745 | which error an attempt gets, a downgrade in terms of the first differing numbers |
| `NumericVersions.NothingRecordedGoesBack` | apps/optimizer-service/src/installation_manifest.rs:723-745 | along any run no recorded version is a proper prefix of one recorded before, or smaller at the first place where they differ |
| `NumericVersions.AdmissionCustody.Admit` | apps/optimizer-service/src/windows_pipe.rs:1278-1321 | verifies against what was recorded last and records what was admitted |
| `NumericVersions.AdmissionNeverGoesBack` | apps/optimizer-service/src/installation_manifest.rs:723-745 | along any run recorded admissions are of one product, never go down, and repeat a version only with its manifest hash |
| `NumericVersions.EquivalentVersionMayBeADowngrade` | apps/optimizer-service/src/installation_manifest.rs:736-745 | a version spelled with one zero more is admitted as newer, and its equivalent shorter spelling refused afterwards |
| `RollbackChain.BuildIdRoundTrip` | apps/desktop/src/staging-runtime.ts:84-89 | the number of a build's identifier is the build's number |
| `RollbackChain.SelectedExactlyWhen` | apps/desktop/src/staging-runtime.ts:195-217 | a manifest is selected exactly when it is the one admissible match and every candidate of that build has its identity |
| `RollbackChain.AdmissionAnswers` | apps/desktop/src/staging-runtime.ts:140-188 | what each manifest is told, exactly, in the order of the checks: identity, an older rollback build, digests, nested claims, and standing above every manifest before it |
| `RollbackChain.SelectedUnlessArtifactsDiffer` | apps/desktop/src/staging-runtime.ts:192-217 | among well-formed candidates of the named build, the one admissible match is selected exactly unless one of them has another commit, digest or checksum |
| `RollbackChain.SelectionIgnoresOrder` | apps/desktop/src/staging-runtime.ts:195-217 | the selection does not depend on the order of the candidates |
| `RollbackChain.SelectionGoesBack` | apps/desktop/src/staging-runtime.ts:195-217 | what is selected is an admitted candidate, strictly older, named canonically by the current manifest |
| `RollbackChain.RollbacksDescend` | apps/desktop/src/staging-runtime.ts:195-217 | repeated rollback falls strictly in build number, so it ends after fewer steps than there are builds before |
| `RollbackChain.SurplusZerosAreAdmitted` | apps/desktop/src/staging-runtime.ts:86-89 | a rollback identifier with a surplus zero is admitted and never selects anything |
| `RollbackChain.CanSelectExactlyWhenCanonical` | apps/desktop/src/staging-runtime.ts:140-217 | for an admitted manifest some candidates yield a selection exactly when its rollback identifier is the canonical one of a build number from one on |
| `RollbackChain.HistoryIncreases` | apps/desktop/src/staging-runtime.ts:182-188 | manifests admitted against their history have strictly increasing numbers and distinct identifiers |
| `RollbackChain.RollbackWithinHistory` | apps/desktop/src/staging-runtime.ts:140-217 | within an admitted history a build rolls back exactly to the build it names, whenever that was admitted |

## Left out

- Cryptography: HMAC, SHA-256, constant-time comparison, hexadecimal MAC text, CMS, DPAPI and Authenticode are functions or inputs.
- Generated schemas and their validators, and the text encoding of JSON: a value stands for its text, so serialization errors and malformed JSON text are outside.
- SQLite itself: each store method is one atomic step that happens or does not; connection settings and the schema migration are outside.
- Windows calls, access control lists, service control, file replacement and clocks: their outcomes are inputs, time-outs are steps.
- Changes of the machine by others between the observation and the mutation of one dispatch: the original has no protection there, and the model lets them happen only between events.
- An effect that the port reports as failed is taken not to have happened, except for duplication, whose unfinished forms are modelled.
- Restore-point preparation is one input, allowed or not; its own table is outside.
- Identifiers of the planner: they are strings of at most 128 characters and only compared, so the model uses their rank in that order.
- Sequence numbers of the account authority: unbounded, although the original's become inexact beyond 2^53.
- Listeners that throw, and the trimming rules of profile drafts, whose outcome is an input.
- Administrative handoff, subscription links and device previews: field checks around calls, with no state of their own.
- FixtureProvenance.Find: visits keys in the order of their code points where the original sorts by UTF-16 units; with keys beyond the basic plane another path may be reported first, whether one is found does not change.
- Objects with accessors, inherited or non-enumerable properties in the search for fixture data.
- RollbackTheorems.RollbackRestoresExactly: runs each restore as a compare-and-set on exact states; the journal, admission and broker steps of one restore's execution are outside, and its other outcomes stop the run.
- Promotion.WellFormedEvidence: measures evidence identifiers in characters where the original counts bytes; the two agree on ASCII.
- RollbackChain.Admit: takes build numbers to be integers, gathers the checks of fixed fields into four flags, and reads the digits of an identifier exactly where the original rounds beyond 2^53; no comparison with an admitted build number changes by that.
- Manifest path resolution, artifact manifests, host lifecycle and restore-point tables: finite checks that would add only easy members.
- User interface, web applications, fetch clients and test harnesses.
