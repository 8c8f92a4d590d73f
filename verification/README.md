# Persistence protocols of the chvor server, verified

chvor keeps its shared state in one SQLite database that several processes use at once, and its
client keeps a few timers that must agree with what is on screen. This project models the stores and
state machines whose correctness is not visible in any single function, and proves what they promise
over every input, every interleaving and every run.

SQLite tables are maps and sequences. Each `db.transaction(...)` is one atomic step with the CHECK
constraints, unique keys, cascading foreign keys and triggers of migrations v31-v36 written out. Wall
clocks, fresh IDs and ciphertexts are inputs of the step; timestamps are integers in milliseconds,
monotonic readings of the lease store are reals. Each store appears twice: as a class whose methods change the tables as
the program does, branch by branch, and as a step function on values that every method is proved
equal to. The theorems are about runs of the step functions.

## What is proved

- **OAuth refresh lease** (`OAuthRefreshLease`, `LeaseProtocol`). Any number of processes, each with its
  own observation map and its own monotonic origin, interleave freely on one lease table while wall
  clocks jump. A holder that renews often enough is never reclaimed, a version that left the table
  never comes back, a silent holder can be taken over after one TTL, and wall clocks decide nothing.
- **Credential data** (`CredentialStore`). The ciphertext is the row version. In every reachable state
  a credential's data is the fold of its committed patches in commit order.
- **Integration setup** (`SetupFlow`, `SetupFlowLaws`, `SetupStore`, `SetupStoreLaws`). Revisioned flows, an ordered
  step journal and one-time secret envelopes: cross-table secrecy lifetime, linear revisions, frozen
  terminal states, the shape of every journal over whole runs, the exact number of advances to completion, and
  exactly when a one-time state can be claimed.
- **Trajectories** (`TrajectoryStore`, `TrajectoryDatabase`, `TrajectoryLaws`, `TrajectoryRefinement`). Three normalized
  tables refine a map from IDs to whole trajectories, including which writes are refused and why.
- **Memory blocks** (`MemoryBlockStore`, `MemoryBlockLaws`). Append-only revision chains that the tables enforce by
  themselves, restore links, and the exclusion of agents while a block is read-only.
- **Keyset pagination** (`Keyset`, `TrajectoryTime`, `TrajectoryQuery`). One generic theorem for all list endpoints, and the
  text key whose lexical order is the order of instants.
- **Canonical JSON** (`JsonText`, `CanonicalJson`). Printing, parsing, and exactly when a canonical text
  decides equality.
- **Evaluation** (`EvaluationAssertions`, `EvaluationRunner`, `EvaluationRunStore`, `EvaluationRunLaws`, `EvaluationComparison`).
  When a case passes, why a report always fits the store, what a stored report gives back, and the
  conservation laws of a comparison.
- **Smaller machines** (`LoginLockout`, `A2UITimers`, `SplitText`).
- **What each call answers** (`LeaseAnswers`, `CredentialAnswers`, `SetupAnswers`, `MemoryBlockAnswers`,
  `TrajectoryAnswers`, `TrajectoryTimeAnswers`, `JsonTextAnswers`, `CanonicalAnswers`, `EvaluationAnswers`,
  `EvaluationRunAnswers`, and the last parts of `LoginLockout`, `EvaluationComparison` and `A2UITimers`). The step
  functions are pinned down by laws that do not call their helpers: when an operation is accepted, the first
  reason why not, and every field of what it leaves, with statuses, codes and limits written out.

## Where the code and its promise differ

- The lease store reads the monotonic clock before it enters the transaction
  (`oauth-refresh-lease-store.ts:125` and `:130`). While it waits for the write lock the holder may renew, so
  the margin that protects a renewing holder is the TTL minus the lock wait, not the TTL.
  `LockWaitShortensTheMargin` is the run that shows it; `SafeMarginIsExact` says that TTL minus lock wait is
  exactly the margin that protects.
- `comparable` sorts object keys with `localeCompare`, which compares canonically equivalent keys (a letter
  with its accent precomposed or combined) as equal. Equal objects with two such keys can then print
  differently. `TiedKeysBreakEquality` gives the input and `DecidesExactlyWithoutTies` the exact condition, value
  by value: equality with a value is decided rightly if and only if no object inside it has two keys that the
  comparator ties and that are both not array indices. Index keys may be tied: an object lists them first and in
  numeric order whatever was inserted when, and the sort is stable. `CasePassesExactly` and `RunPassesWhenCriteriaAreMet` use that condition of the expected outputs;
  without it a pass still means what it says, and only a failure may be wrong. `canonicalJson` of the run store
  sorts by code units and always decides equality.
- A missing engine output is searched as the JSON text of an empty string, so it contains `"`; and so is an
  observed `null`, which equals an expected `null` but does not contain the text `null`. `MissingOutputContains` says
  what both contain, `MissingOutputJudgedExactly` for which texts they are searched as if there were nothing, and
  `MissingOutputPassesExactly` when such a case passes.
- `updateMemoryBlock` and `restoreMemoryBlock` stamp the wall clock unguarded; a clock that stands before the
  block's last update is refused by a trigger. `UpdateCommitsExactly` and `RestoreCommitsExactly` show that this is
  the only thing the constraints refuse on intact tables.
- A success clears the lockout time but not the failure count, so the next failure locks at the escalated
  duration; `NextFailureWaits` holds across successes.
- The lockout is looked at before the hash is checked and written after it. Calls that overlap there all pass the
  check, so with k calls in progress it is the k-th failure after another that waits for its lockout, and no earlier
  one (`OverlapBoundIsExact`); and a success that another call's failure has overtaken lifts that failure's lock
  (`LiftedLockBreaksTheBound`).
- A refused login reads the clock twice. If the lock ends in between, it announces no positive wait
  (`RetryAfterIsExact`).

## Model

| member | source | states |
|---|---|---|
| OAuthRefreshLease.LeaseProcess.ObserveLeaseVersion | apps/server/src/db/oauth-refresh-lease-store.ts:95-116 | the recorded observation keeps its time only while the row version is identical and the clock has not run back |
| OAuthRefreshLease.LeaseProcess.Acquire | apps/server/src/db/oauth-refresh-lease-store.ts:118-195 | outcome, table and observation map after one acquire transaction, for every refusal, contention, reclaim and rollback |
| OAuthRefreshLease.LeaseDatabase.Renew | apps/server/src/db/oauth-refresh-lease-store.ts:198-221 | renewal always strictly raises the expiry, also when the wall clock stands still or runs back |
| OAuthRefreshLease.LeaseDatabase.IsHeld | apps/server/src/db/oauth-refresh-lease-store.ts:224-230 | held exactly while a row carries the lease ID |
| OAuthRefreshLease.LeaseDatabase.Release | apps/server/src/db/oauth-refresh-lease-store.ts:233-238 | tables and answer after a release are those of the release step, which `LeaseAnswers` writes out |
| LeaseProtocol.RunKeepsInvariant | apps/server/src/db/oauth-refresh-lease-store.ts:95-221 | in every legal run an observation of the current version was made after its last renewal, and observations are never newer than rows |
| LeaseProtocol.ReachableWorldsKeepInvariant | apps/server/src/db/oauth-refresh-lease-store.ts:95-221 | and so in every world reached from empty tables |
| LeaseProtocol.HolderSurvivesStep | apps/server/src/db/oauth-refresh-lease-store.ts:118-221 | no single event of any process removes the row of a holder touched recently enough |
| LeaseProtocol.RenewingHolderIsNeverReclaimed | apps/server/src/db/oauth-refresh-lease-store.ts:95-221 | over all interleavings a holder that renews at intervals shorter than any margin up to TTL minus lock wait keeps the lease |
| LeaseProtocol.LockWaitShortensTheMargin | apps/server/src/db/oauth-refresh-lease-store.ts:125-130 | for every lock wait of at most a TTL there is a run in which a holder quiet for only TTL minus lock wait is reclaimed |
| LeaseProtocol.SafeMarginIsExact | apps/server/src/db/oauth-refresh-lease-store.ts:118-195 | renewing at intervals shorter than a margin always protects the holder if and only if the margin is at most TTL minus lock wait |
| LeaseProtocol.VersionsNeverRepeat | apps/server/src/db/oauth-refresh-lease-store.ts:83-116 | no ABA: a version that was replaced, renewed or deleted never becomes current again |
| LeaseProtocol.StaleOwnerNeverReturns | apps/server/src/db/oauth-refresh-lease-store.ts:198-238 | a lease ID that left the table is never held, renewed or released again |
| LeaseProtocol.HeldAtBothEndsIsHeldThroughout | apps/server/src/db/oauth-refresh-lease-store.ts:224-230 | holding a lease before and after any interval means holding it throughout |
| LeaseProtocol.SilentHolderIsReclaimable | apps/server/src/db/oauth-refresh-lease-store.ts:140-195 | a process turned away by a version that is still current one TTL plus lock wait later takes the lease over |
| LeaseProtocol.WallClockIndependence | apps/server/src/db/oauth-refresh-lease-store.ts:113-221 | two runs of one script under different wall clocks acquire, contend, renew and release alike |
| LeaseAnswers.ReleaseRemovesExactlyTheLease | apps/server/src/db/oauth-refresh-lease-store.ts:233-238 | a release is true exactly if some row carried the ID; afterwards exactly that row is gone, every other is as it was and the lease is not held |
| LeaseAnswers.ReleasedIsAcquiredNext | apps/server/src/db/oauth-refresh-lease-store.ts:118-238 | once a lease is released, whoever asks next with a fresh ID gets the credential without waiting, whatever it has seen |
| LeaseAnswers.AcquireAnswersExactly | apps/server/src/db/oauth-refresh-lease-store.ts:118-195 | when each outcome of an acquire is given: refused arguments, missing credential, contended until the row was seen unchanged for 60 seconds, aborted, acquired |
| LeaseAnswers.AcquireChangesOnlyItsRow | apps/server/src/db/oauth-refresh-lease-store.ts:130-195 | only an acquired credential gets a row, with the new ID, the wall clock and 60 seconds, and no other row changes |
| LeaseAnswers.AcquireRemembers | apps/server/src/db/oauth-refresh-lease-store.ts:95-195 | what a process has seen after an acquire: since when this very row, nothing once the credential was free, everything else as before |
| LeaseAnswers.RenewAnswersExactly | apps/server/src/db/oauth-refresh-lease-store.ts:198-221 | a renewal moves the expiry to 60 seconds from now and at least one millisecond on, and changes nothing else |
| LeaseAnswers.RenewNeedsTheRow | apps/server/src/db/oauth-refresh-lease-store.ts:198-221 | a lease ID that no row carries is not renewed |
| LeaseAnswers.LeaseIdsAreBase64 | apps/server/src/db/oauth-refresh-lease-store.ts:43-48 | a lease ID is accepted exactly if it is 32 characters of the base64url alphabet |
| CredentialStore.MergeCredentialDataPatch | apps/server/src/db/credential-store.ts:221-238 | the loop computes the merge of stored data and patch |
| CredentialStore.MergeIsFieldwise | apps/server/src/db/credential-store.ts:221-238 | each field by itself: null deletes, a value sets, blank or absent keeps |
| CredentialStore.MergeIgnoresFieldOrder | apps/server/src/db/credential-store.ts:221-238 | patches with the same fields in any order merge alike |
| CredentialStore.MergeIsIdempotent | apps/server/src/db/credential-store.ts:221-238 | retrying a patch changes nothing |
| CredentialStore.CredentialTable.UpdateDataIfUnchanged | apps/server/src/db/credential-store.ts:240-277 | tables and reply after a swap are those of the swap step, which `CredentialAnswers` writes out |
| CredentialStore.CredentialTable.Update | apps/server/src/db/credential-store.ts:279-345 | the unconditional update of data and name |
| CredentialStore.CredentialTable.Delete | apps/server/src/db/credential-store.ts:170-183 | removes exactly the row and reports whether there was one |
| CredentialStore.DataIsFoldOfCommits | apps/server/src/db/credential-store.ts:221-345 | in every reachable state the data is the fold of the committed patches and each commit was computed from its immediate predecessor |
| CredentialStore.ReachableDataIsFoldOfCommits | apps/server/src/db/credential-store.ts:221-345 | from empty tables on, the current version stands for the first data with all committed patches merged in order |
| CredentialStore.SwapCommitsOncePerVersion | apps/server/src/db/credential-store.ts:240-277 | of all swaps that expect one version at most one ever commits |
| CredentialStore.UnchangedVersionMeansNoCommit | apps/server/src/db/credential-store.ts:202-277 | a version that is still current proves that no data write happened since it was read |
| CredentialAnswers.SwapAnswersExactly | apps/server/src/db/credential-store.ts:240-277 | a swap commits exactly if the row carries the expected version, that decrypts and the callback does not object; every refusal has its own cause and changes nothing |
| CredentialAnswers.SwapStoresMerge | apps/server/src/db/credential-store.ts:240-277 | what a committed swap stores: the new version, untested, the reported data merged at every key, and no other row or version touched |
| CredentialAnswers.UpdateAnswersExactly | apps/server/src/db/credential-store.ts:279-345 | when an unconditional update succeeds and what it then stores of name, usage context and data; only new data makes a new, untested version |
| SetupStore.IntegrationSetupStore.CreateFlow | apps/server/src/db/integration-setup-store.ts:316-392 | the new flow and its journal, or the first complaint, on all three tables |
| SetupStore.IntegrationSetupStore.InitializeStepJournal | apps/server/src/db/integration-setup-store.ts:463-499 | inserts a journal once, under the expected revision |
| SetupStore.IntegrationSetupStore.MoveOn | apps/server/src/db/integration-setup-store.ts:696-716 | closes the active step, opens the next pending one after it, or reports completion |
| SetupStore.IntegrationSetupStore.Advance | apps/server/src/db/integration-setup-store.ts:686-727 | the whole advance transaction with its guards and the purge of envelopes |
| SetupStore.IntegrationSetupStore.Transition | apps/server/src/db/integration-setup-store.ts:537-677 | the whole transition transaction: status, auth status, target, digest, flags, step change |
| SetupStore.IntegrationSetupStore.ChangeStep | apps/server/src/db/integration-setup-store.ts:501-583 | the named step changes under the step triggers, and the position follows an activated step |
| SetupStore.IntegrationSetupStore.SettleActive | apps/server/src/db/integration-setup-store.ts:584-598 | completing with an active step is refused, any other terminal status fails it |
| SetupStore.IntegrationSetupStore.NextRow | apps/server/src/db/integration-setup-store.ts:599-672 | target, digest and credential fields of the new flow row and the first complaint about them |
| SetupFlowLaws.CandidatesAreReplacedExactly | apps/server/src/db/integration-setup-store.ts:729-762 | a set is accepted if and only if the list is bounded, distinct and of known credentials and the flow is live, unexpired and at the expected revision; it changes candidates, revision and time and nothing else |
| SetupFlowLaws.CandidatesAreClearedExactly | apps/server/src/db/integration-setup-store.ts:764-784 | a clear is accepted whatever became of the credentials, exactly when the flow allows it, and leaves no candidate |
| SetupStoreLaws.CandidatesAreTheLastSet | apps/server/src/db/integration-setup-store.ts:729-784 | in every reachable state a flow's candidates are those of its last accepted set or clear, bounded and distinct; no other command touches them |
| SetupStore.IntegrationSetupStore.Cancel | apps/server/src/db/integration-setup-store.ts:786-791 | cancelling is the transition to cancelled |
| SetupStore.IntegrationSetupStore.ExpireFlow | apps/server/src/db/integration-setup-store.ts:793-806 | expiring one flow checks on a first read and then makes the transition, which looks at the revision again |
| SetupStoreLaws.ExpiryActsAsOneStep | apps/server/src/db/integration-setup-store.ts:793-806 | check and transition of one expiry act as a single step whatever other commands come between them |
| SetupStore.IntegrationSetupStore.FailActive | apps/server/src/db/integration-setup-store.ts:816-826 | exactly the active steps fail, the others stay |
| SetupStore.IntegrationSetupStore.ExpireFlows | apps/server/src/db/integration-setup-store.ts:808-842 | every due live flow expires and loses its envelopes, stale envelopes go, all or nothing |
| SetupStore.IntegrationSetupStore.PutEnvelope | apps/server/src/db/integration-setup-secret-store.ts:59-120 | replaces the flow's envelope of that purpose, capped to the flow's expiry |
| SetupStore.IntegrationSetupStore.ReadEnvelope | apps/server/src/db/integration-setup-secret-store.ts:122-151 | reading deletes an expired envelope and never returns it |
| SetupStore.IntegrationSetupStore.ConsumeByState | apps/server/src/db/integration-setup-secret-store.ts:167-204 | claims and deletes the one envelope of a state |
| SetupFlowLaws.MutationKeepsInvariant | apps/server/src/db/integration-setup-store.ts:501-806 | every committed mutation raises the revision by one, starts from a live flow and keeps time order and field coherence |
| SetupFlowLaws.DigestFollowsTarget | apps/server/src/db/integration-setup-store.ts:599-648 | a digest implies a target, and changing the target drops a stale digest |
| SetupFlowLaws.TransitionIsFieldwise | apps/server/src/db/integration-setup-store.ts:553-672 | a transition sets exactly the fields it names and keeps the others, with revision and times as promised |
| SetupFlowLaws.TransitionStepwise | apps/server/src/db/integration-setup-store.ts:563-598 | a transition changes only the named step, and fails exactly the step that is active when the flow ends |
| SetupFlowLaws.AdvanceOpensNextStage | apps/server/src/db/integration-setup-store.ts:686-727 | an advance takes the journal from one stage to the next, and the flow to the status that the kind of the opened step asks for |
| SetupStoreLaws.JournalsKeepTheirShape | apps/server/src/db/integration-setup-store.ts:463-842 | in every state reachable without step changes every journal is completed, then at most one active or failed, then pending; creation, initialization, advances, candidates, cancelling, single and batch expiry included |
| SetupStoreLaws.ShapeSurvivesPlainRuns | apps/server/src/db/integration-setup-store.ts:463-842 | and from any intact tables a journal that has this shape keeps it over such runs |
| SetupStoreLaws.AdvancesCountStages | apps/server/src/db/integration-setup-store.ts:463-842 | over any such run from the empty database the number of successful advances tells a flow's stage |
| SetupFlowLaws.AdvanceSucceeds | apps/server/src/db/integration-setup-store.ts:686-727 | before expiry and below the revision limit an advance is never refused |
| SetupFlowLaws.CompletesAfterAllStages | apps/server/src/db/integration-setup-store.ts:686-727 | from stage k of n steps exactly n + 1 - k advances complete the flow |
| SetupStoreLaws.ApplyKeepsInvariant | apps/server/src/db/integration-setup-store.ts:268-842 | every transaction keeps flows, steps and envelopes consistent with each other |
| SetupStoreLaws.SecretsNeverOutliveTheirFlow | apps/server/src/db/integration-setup-secret-store.ts:59-120 | in every reachable state each envelope belongs to a live flow, expires no later, and is unique per purpose and per state |
| SetupStoreLaws.TimesLieInOrder | apps/server/src/db/integration-setup-store.ts:74-76 | under any wall clock the times of flows and steps lie in order and completion times mark exactly the terminal flows |
| SetupStoreLaws.FlowsOnlyMoveForward | apps/server/src/db/integration-setup-store.ts:257-266 | over every run revisions and times never decrease, terminal flows are frozen, steps never return to pending, auth never returns to unknown |
| SetupStoreLaws.OneCommitPerRevision | apps/server/src/db/integration-setup-store.ts:244-251 | of all mutations holding one expected revision at most one commits |
| SetupStoreLaws.StatesAreConsumedAtMostOncePerPut | apps/server/src/db/integration-setup-secret-store.ts:78-204 | successful consumes of a state never exceed its puts |
| SetupStoreLaws.ConsumeReturnsExactlyWhatWasPut | apps/server/src/db/integration-setup-secret-store.ts:78-204 | after any run without another put of the state a consume returns what was put, for a live flow, exactly if the purpose is the same, it is unexpired and no consume, expiry, end of flow, delete or replacing put removed it; nothing otherwise |
| SetupAnswers.TerminalMeansEnded | apps/server/src/db/integration-setup-store.ts:32-37 | a flow has ended unless it awaits input, OAuth or confirmation or is discovering |
| SetupAnswers.CreateIsExact | apps/server/src/db/integration-setup-store.ts:302-392 | when a new flow is accepted, the refusals, and every field of it: awaiting input, revision 1, half an hour to live by default, with no step and no candidate yet |
| SetupAnswers.InitializeIsExact | apps/server/src/db/integration-setup-store.ts:463-499 | when a journal is accepted, the first complaint otherwise, and the pending steps it inserts, with the given IDs and kinds |
| SetupAnswers.CandidatesAnswerExactly | apps/server/src/db/integration-setup-store.ts:729-784 | the first refusal of a set or a clear of the candidates, or the flow with the new list |
| SetupAnswers.StepUpdateIsExact | apps/server/src/db/integration-setup-store.ts:501-535 | what an update of one step is refused for and what it leaves of that step and of the others |
| SetupAnswers.StepChangeIsExact | apps/server/src/db/integration-setup-store.ts:563-583 | what a change of a named step is refused for, the updated journal and the new position |
| SetupAnswers.AdvanceRefuses | apps/server/src/db/integration-setup-store.ts:686-716 | the first reason for which an advance is refused |
| SetupAnswers.AdvanceMovesSteps | apps/server/src/db/integration-setup-store.ts:696-716 | an accepted advance, from any journal: the active step completes, the first pending one after it starts, all others stay |
| SetupAnswers.AdvanceMovesFlow | apps/server/src/db/integration-setup-store.ts:679-727 | and the flow: an OAuth step makes it await OAuth, a diagnostic one discover, an instruction or credential input await input; without a step it completes |
| SetupAnswers.TransitionRefusesFirst | apps/server/src/db/integration-setup-store.ts:537-562 | what a transition is refused for before anything of it is looked at |
| SetupAnswers.TransitionIsExact | apps/server/src/db/integration-setup-store.ts:537-677 | a transition is refused for the first thing wrong with it, and else commits the changed and settled journal |
| SetupAnswers.FinishIsExact | apps/server/src/db/integration-setup-store.ts:599-677 | the credential fields, the revision limit and the position of a transition, field by field |
| SetupAnswers.SettlingIsExact | apps/server/src/db/integration-setup-store.ts:584-598 | completing with an active step is illegal; any other ending fails it, with the code that the ending gives |
| SetupAnswers.ExpireDueIsExact | apps/server/src/db/integration-setup-store.ts:808-842 | every field of a due flow that expired, its active step failed with the code of expiry, and when that is refused |
| SetupAnswers.ExpireOneIsExact | apps/server/src/db/integration-setup-store.ts:793-806 | expiring one flow works once its time is over, at the expected revision, while it is live |
| SetupAnswers.ExpireOneFailsActive | apps/server/src/db/integration-setup-store.ts:584-806 | and fails its active step with the code of expiry |
| SetupAnswers.ExpireAllIsExact | apps/server/src/db/integration-setup-store.ts:808-842 | the batch expires all due flows or none, counts them, and removes envelopes that expired or belonged to them |
| SetupAnswers.MutationInStoreIsExact | apps/server/src/db/integration-setup-store.ts:239-273 | a mutation replaces exactly the stored flow and its journal, and purges its envelopes when it ends |
| SetupAnswers.SlugsAreSegments | packages/shared/src/types/integration-setup.ts:25-63 | step IDs and failure codes are 1 to 128 characters: a small letter, then letters, digits and single separators between them |
| SetupAnswers.IdentifiersAndDigests | apps/server/src/db/integration-setup-store.ts:38-64 | which texts are identifiers and which are SHA-256 digests |
| SetupAnswers.PutRefuses | apps/server/src/db/integration-setup-secret-store.ts:59-120 | the first reason for which an envelope is refused |
| SetupAnswers.PutStores | apps/server/src/db/integration-setup-secret-store.ts:78-120 | the stored envelope, ten minutes by default and never longer than its flow, in place of the one of that purpose |
| SetupAnswers.ReadIsExact | apps/server/src/db/integration-setup-secret-store.ts:122-151 | reading gives a stored envelope until the moment it expires and deletes it from then on |
| SetupAnswers.StateLookupsAreExact | apps/server/src/db/integration-setup-secret-store.ts:153-204 | what looking up and consuming an envelope by its state give and leave |
| SetupAnswers.UnknownStatesFindNothing | apps/server/src/db/integration-setup-secret-store.ts:153-204 | nothing is found or changed under a state that no envelope has |
| SetupAnswers.DeleteIsExact | apps/server/src/db/integration-setup-secret-store.ts:206-212 | a delete says whether there was an envelope and removes exactly it |
| TrajectoryDatabase.Database.InsertArtifacts | apps/server/src/db/trajectory-store.ts:195-227 | the insert loop succeeds exactly when no ID repeats, and then appends one row per artifact |
| TrajectoryDatabase.Database.CreateTrajectory | apps/server/src/db/trajectory-store.ts:439-452 | shell and artifacts are stored together or not at all |
| TrajectoryDatabase.Database.AppendTrajectoryStep | apps/server/src/db/trajectory-store.ts:455-506 | step, artifacts and sequence move together, with every refusal in the source's order |
| TrajectoryDatabase.Database.AppendTrajectoryArtifact | apps/server/src/db/trajectory-store.ts:518-551 | one artifact is appended at the next position of a live trajectory |
| TrajectoryDatabase.Database.UpdateTrajectoryMetadata | apps/server/src/db/trajectory-store.ts:559-606 | immutable keys are refused, other metadata, undefined included, merges into the header row |
| TrajectoryDatabase.Database.PruneTerminalTrajectories | apps/server/src/db/trajectory-store.ts:640-685 | counts and tables after pruning, also when nothing is due |
| TrajectoryStore.FieldsRoundTrip | apps/server/src/db/trajectory-store.ts:165-193 | columns and extensions together lose no field and invent none |
| TrajectoryLaws.ReconstructIsView | apps/server/src/db/trajectory-store.ts:363-436 | intact tables are never reported corrupt: sequences are 0..n-1 and every parent is an earlier step |
| TrajectoryLaws.CreateRefines | apps/server/src/db/trajectory-store.ts:439-452 | a created trajectory reads back unchanged and no other changes |
| TrajectoryLaws.AppendStepRefines | apps/server/src/db/trajectory-store.ts:455-506 | an accepted step appends exactly that step with its artifacts, a null parent read as absent |
| TrajectoryLaws.AppendArtifactRefines | apps/server/src/db/trajectory-store.ts:518-551 | an accepted artifact appends exactly it and touches no step |
| TrajectoryLaws.UpdateRefines | apps/server/src/db/trajectory-store.ts:559-606 | an update changes only status, completion time and the fields it mentions |
| TrajectoryLaws.UpdateIsFieldwise | apps/server/src/db/trajectory-store.ts:559-606 | a given field replaces, an undefined optional field is removed, an undefined defaulted one is reset, an unmentioned one stays |
| TrajectoryLaws.PruneRefines | apps/server/src/db/trajectory-store.ts:640-685 | pruning removes exactly the terminal trajectories before the cutoff and leaves no orphan row |
| TrajectoryLaws.PruneCountsRemovedRows | apps/server/src/db/trajectory-store.ts:640-685 | the reported counts are the rows removed from each table |
| TrajectoryRefinement.WriteRefines | apps/server/src/db/trajectory-store.ts:439-685 | every write is accepted or refused, with the same error, exactly as on a map of whole trajectories |
| TrajectoryRefinement.RunRefines | apps/server/src/db/trajectory-store.ts:439-685 | after any run of writes reading the tables gives the map |
| TrajectoryRefinement.ReadingsNeverCorrupt | apps/server/src/db/trajectory-store.ts:363-436 | from an empty database no run of writes makes any read report corruption |
| TrajectoryRefinement.TerminalFrozenUntilPruned | apps/server/src/db/trajectory-store.ts:439-685 | over every run a stored trajectory only grows and a terminal one reads back unchanged, until a pruning whose cutoff it has reached; nothing else makes it missing |
| TrajectoryRefinement.PrunedForGood | apps/server/src/db/trajectory-store.ts:640-685 | a pruned trajectory is missing at once and over every run in which no create of its ID is accepted |
| TrajectoryAnswers.TerminalMeansClosed | apps/server/src/db/trajectory-store.ts:16-22 | which of the statuses close a trajectory |
| TrajectoryAnswers.AppendStepRefusesExactly | apps/server/src/db/trajectory-store.ts:455-506 | which step appends are refused, for what and in which order |
| TrajectoryAnswers.UpdateRefusesExactly | apps/server/src/db/trajectory-store.ts:559-606 | which updates are refused, and for what: an immutable field before anything is read, then a missing or closed trajectory, then the schema |
| TrajectoryAnswers.UpdateNamesAreExact | apps/server/src/db/trajectory-store.ts:77-90 | the immutable fields by name |
| TrajectoryAnswers.UpdateKeepsTheRest | apps/server/src/db/trajectory-store.ts:559-606 | an update keeps, sets or takes away status and completion time and leaves steps and artifacts alone |
| TrajectoryAnswers.UnsetIsExact | apps/server/src/db/trajectory-store.ts:559-606 | an undefined field with a default is reset to it, an optional one goes, by name |
| TrajectoryAnswers.PrunesTheOldAndClosed | apps/server/src/db/trajectory-store.ts:640-685 | a pruning takes exactly the closed trajectories that were completed before the cutoff |
| TrajectoryAnswers.StepSchemaIsExact | packages/shared/src/types/trajectory.ts:404-548 | what a step must carry for its status and its kind |
| TrajectoryAnswers.HeaderSchemaIsExact | packages/shared/src/types/trajectory.ts:558-644 | what a trajectory must carry for its status |
| TrajectoryAnswers.ArtifactSchemaIsExact | packages/shared/src/types/trajectory.ts:364-376 | the optional fields of an artifact may be absent but not null |
| TrajectoryAnswers.ArtifactsAreCheckedOneByOne | packages/shared/src/types/trajectory.ts:364-376 | a list of artifacts is accepted exactly if each of them is |
| MemoryBlockStore.MemoryBlockDatabase.CreateMemoryBlock | apps/server/src/db/memory-block-store.ts:290-319 | block and first revision, or the first complaint |
| MemoryBlockLaws.TriggersAdmitExactly | apps/server/src/db/migrations/memory-blocks-v35.ts:125-200 | on intact tables constraints and insert trigger admit exactly the next revision, of the block's layer and manager, with the restored revision's document, and from agents only on writable agent-managed blocks |
| MemoryBlockLaws.TriggersAloneKeepHistory | apps/server/src/db/migrations/memory-blocks-v35.ts:125-237 | whatever revision row the tables let through, without any check of the program, the history stays intact |
| MemoryBlockStore.MemoryBlockDatabase.UpdateMemoryBlock | apps/server/src/db/memory-block-store.ts:444-486 | the update transaction with its checks in order |
| MemoryBlockStore.MemoryBlockDatabase.RestoreMemoryBlock | apps/server/src/db/memory-block-store.ts:488-554 | the restore transaction with its checks in order |
| MemoryBlockLaws.RunKeepsInvariant | apps/server/src/db/memory-block-store.ts:262-554 | every block has exactly the revisions 1..current, of one layer and manager, in time order |
| MemoryBlockLaws.ReachableBlocksAreChains | apps/server/src/db/memory-block-store.ts:262-554 | from empty tables on, every block has exactly the revisions 1..current, of its layer and manager, in time order, with restores that copy an older revision |
| MemoryBlockLaws.HistoryOnlyGrows | apps/server/src/db/memory-block-store.ts:262-288 | revisions are never changed or removed and a block keeps its identity |
| MemoryBlockLaws.ReturnedRecordStaysReadable | apps/server/src/db/memory-block-store.ts:326-332 | the record a write returned is what reading that revision returns ever after |
| MemoryBlockLaws.ReadingsAreSound | apps/server/src/db/memory-block-store.ts:195-243 | intact tables are never reported corrupt, and exactly the revisions 1..current are found |
| MemoryBlockLaws.WritesStoreWhatTheySay | apps/server/src/db/memory-block-store.ts:290-554 | an update stores the given document, a restore the named revision's, and the current revision reads as the returned record |
| MemoryBlockLaws.OneCommitPerExpectedRevision | apps/server/src/db/memory-block-store.ts:444-554 | of all updates and restores holding one expected revision at most one commits |
| MemoryBlockLaws.Origin | apps/server/src/db/memory-block-store.ts:488-554 | following restore links ends at a create or update, no later, with the same document |
| MemoryBlockLaws.OriginIsStable | apps/server/src/db/memory-block-store.ts:488-554 | later writes never change where a restored document came from |
| MemoryBlockLaws.AgentsAreShutOutWhileReadOnly | apps/server/src/db/memory-block-store.ts:159-173 | between a read-only revision and a later agent revision someone other than an agent made the block writable |
| MemoryBlockLaws.UpdateCommitsExactly | apps/server/src/db/memory-block-store.ts:444-486 | an update commits if and only if identity, revision, authority and clock allow it |
| MemoryBlockLaws.RestoreCommitsExactly | apps/server/src/db/memory-block-store.ts:488-554 | a restore commits if and only if source, revision, authority and clock allow it |
| MemoryBlockAnswers.AgentsAreTheOthers | apps/server/src/db/memory-block-store.ts:93-157 | every actor but users, sessions, the system and tests is an agent |
| MemoryBlockAnswers.CreateIsExact | apps/server/src/db/memory-block-store.ts:290-319 | when a block is created, and the block and revision 1 with all their fields |
| MemoryBlockAnswers.UpdateIsExact | apps/server/src/db/memory-block-store.ts:444-486 | the first refusal of an update, a conflict with both its numbers, or the new revision with all its fields |
| MemoryBlockAnswers.RestoreIsExact | apps/server/src/db/memory-block-store.ts:488-554 | the first refusal of a restore, or the new revision that carries the document of an earlier one and names it |
| MemoryBlockAnswers.RevisionReadsExactly | apps/server/src/db/memory-block-store.ts:175-237 | on any tables a stored revision reads as what its row and its block say, or as corrupt if they disagree |
| MemoryBlockAnswers.DamageIsReported | apps/server/src/db/memory-block-store.ts:290-554 | what creates, updates and restores answer on damaged tables |
| Keyset.ScanIsOrdered | apps/server/src/db/evaluation-run-store.ts:484-517 | a query lists its rows in strict order |
| Keyset.PageOfScan | apps/server/src/db/memory-block-store.ts:349-373 | the extra row decides only whether there is a cursor |
| Keyset.WalkIsScan | apps/server/src/db/evaluation-case-store.ts:146-186 | on an unchanging table following cursors ends and gives the one full scan |
| Keyset.CollectedInOrder | apps/server/src/db/memory-block-store.ts:349-373 | however the table changes between pages, no key is returned twice |
| Keyset.UnchangedRowExactlyOnce | apps/server/src/db/evaluation-run-store.ts:484-552 | a row unchanged during a completed walk is returned exactly once, whatever happens around it |
| Keyset.NewestFirstIsStrictTotal | apps/server/src/db/evaluation-case-store.ts:158-176 | the pair of time stamp and ID orders rows strictly and totally |
| TrajectoryTime.KeysOrderAsInstants | apps/server/src/lib/trajectory-time.ts:32-54 | the stored start key orders lexically exactly as instants do, and stamps of one instant share a key however their fractions are written |
| TrajectoryTime.DayNumbersCountDays | apps/server/src/lib/trajectory-time.ts:4-45 | day numbers count the days of the calendar one by one, from 0 at the epoch |
| TrajectoryTime.SecondOf | apps/server/src/lib/trajectory-time.ts:38-45 | every canonical stamp, offsets included, fits the fixed thirteen digits |
| TrajectoryTimeAnswers.WrittenStampIsRead | apps/server/src/lib/trajectory-time.ts:12-47 | every date, time of day, fraction and offset, written out, is read as the instant that it names, with all of its digits |
| TrajectoryTimeAnswers.ReadStampIsWritten | apps/server/src/lib/trajectory-time.ts:12-30 | and nothing else is read: an accepted text is such a date, time, fraction and offset written out |
| TrajectoryTimeAnswers.MonthLengths | apps/server/src/lib/trajectory-time.ts:4-10 | the lengths of the twelve months, leap years included |
| TrajectoryTimeAnswers.KeyIsWritten | apps/server/src/lib/trajectory-time.ts:32-47 | a key is the second plus 10^12 in 13 digits and, after a point, the fraction up to its last digit that is not zero |
| TrajectoryTimeAnswers.MillisRoundDown | apps/server/src/db/trajectory-store.ts:640-685 | the milliseconds by which ages are measured are the instant rounded down |
| TrajectoryQuery.Clauses | apps/server/src/db/trajectory-query-store.ts:103-153 | the pushed clauses, which compare keys lexically, together select exactly the rows the filters ask for by instant |
| TrajectoryQuery.FiltersAreExact | apps/server/src/db/trajectory-query-store.ts:103-153 | which rows the filters ask for, column by column, the start from one instant on and before another |
| TrajectoryQuery.ListTrajectories | apps/server/src/db/trajectory-query-store.ts:103-181 | one page of matching trajectories after the cursor, newest first, or the first row on it that is corrupt |
| TrajectoryQuery.ListsWithoutCorruptMatches | apps/server/src/db/trajectory-query-store.ts:170-181 | corrupt rows that do not match never make a list fail |
| TrajectoryQuery.FilteredWalkIsComplete | apps/server/src/db/trajectory-query-store.ts:103-181 | following the cursors of a filtered list gives every matching trajectory, no instant before a later one |
| TrajectoryQuery.NewestIsByInstant | apps/server/src/db/trajectory-query-store.ts:149-167 | key order is newest first by instant, then descending by ID |
| JsonText.StringRoundTrip | apps/server/src/evaluation/evaluation-assertions.ts:23-26 | every string of UTF-16 units survives quoting and parsing |
| JsonText.PrintParses | apps/server/src/evaluation/evaluation-assertions.ts:22-29 | printed values parse back and are self-delimiting (sections 2 to 7 of RFC 8259) |
| JsonText.PrintIsInjective | apps/server/src/evaluation/evaluation-assertions.ts:22-29 | different values print differently |
| JsonTextAnswers.ValuesAreWritten | apps/server/src/evaluation/evaluation-assertions.ts:22-29 | keywords, brackets, braces and quotes of printed values (sections 2 to 5 of RFC 8259) |
| JsonTextAnswers.ItemsAreSeparated | apps/server/src/evaluation/evaluation-assertions.ts:22-29 | items of an array are joined by single commas |
| JsonTextAnswers.FieldsAreSeparated | apps/server/src/evaluation/evaluation-assertions.ts:22-29 | fields of an object are joined by single commas |
| JsonTextAnswers.SinglesAreWritten | apps/server/src/evaluation/evaluation-assertions.ts:22-29 | one item is its text, one field its quoted key, a colon and its value |
| JsonTextAnswers.UnitsAreEscaped | apps/server/src/evaluation/evaluation-assertions.ts:23-26 | seven short escapes, four hexadecimal digits for other control characters and lone surrogates, and everything else as it is (section 7 of RFC 8259) |
| JsonTextAnswers.StringsAreEscapedUnitByUnit | apps/server/src/evaluation/evaluation-assertions.ts:23-26 | strings are escaped unit by unit, save that surrogate pairs stay |
| CanonicalJson.ComparableDecidesEquality | apps/server/src/evaluation/evaluation-assertions.ts:22-29 | if no object of the first value has two tied keys, index keys apart, texts are equal exactly when values are equal up to key order, under any comparator |
| CanonicalJson.DecidesExactlyWithoutTies | apps/server/src/evaluation/evaluation-assertions.ts:22-29 | value by value, over all values in enumeration order: the printer decides equality with every other value if and only if no object inside has two tied keys that are both not index keys |
| CanonicalJson.ComparableIsSound | apps/server/src/evaluation/evaluation-assertions.ts:22-29 | equal texts mean equal values under any comparator |
| CanonicalJson.TiedKeysBreakEquality | apps/server/src/evaluation/evaluation-assertions.ts:25-26 | any two tied keys that are not index keys give equal values with different texts |
| CanonicalJson.DecidesEqualityIffSeparating | apps/server/src/evaluation/evaluation-assertions.ts:22-29 | the printer decides equality of all values in enumeration order if and only if the comparator separates keys, index keys apart |
| CanonicalJson.SortedJsonValue | apps/server/src/db/evaluation-run-store.ts:140-148 | filling objects key by key gives the deeply sorted value, integer-like keys included |
| CanonicalJson.CanonicalJsonDecidesEquality | apps/server/src/db/evaluation-run-store.ts:150-152 | canonical texts are equal exactly when values are equal up to key order |
| CanonicalJson.CanonicalJsonRoundTrip | apps/server/src/db/evaluation-run-store.ts:150-152 | a canonical text parses to an equal value, already in enumeration order, and prints to itself again |
| CanonicalAnswers.TextsOrderByFirstDifference | apps/server/src/db/evaluation-run-store.ts:140-148 | code-unit order of keys: a prefix first, else the first difference decides |
| CanonicalAnswers.IndexKeysAreIndices | apps/server/src/db/evaluation-run-store.ts:140-148 | index keys are exactly the numerals, without leading zeros, of numbers below 2^32 - 1 |
| CanonicalAnswers.IndexKeysOrderAsNumbers | apps/server/src/db/evaluation-run-store.ts:140-148 | index keys are ordered by the numbers that they write |
| CanonicalAnswers.OwnKeysAreOrdered | apps/server/src/db/evaluation-run-store.ts:140-148 | an object with sorted keys lists index keys first and by number, the others by text |
| EvaluationAssertions.EvaluateAssertions | apps/server/src/evaluation/evaluation-assertions.ts:46-180 | the pushed assertions, in order, for all criteria asked of a case |
| EvaluationAssertions.EvaluateSafety | apps/server/src/evaluation/evaluation-assertions.ts:120-156 | the safety assertions as statements about every tool call |
| EvaluationAssertions.CasePassesExactly | apps/server/src/evaluation/evaluation-assertions.ts:46-180 | a case that passes ran without error and meets every criterion, output equality being JSON equality, under any comparator; and conversely when its expected output has no tied keys |
| EvaluationAssertions.OutputsJudgedExactly | apps/server/src/evaluation/evaluation-assertions.ts:73-82 | an expected output is compared rightly with every possible output if and only if it has no tied keys, index keys apart |
| EvaluationAssertions.MissingOutputContains | apps/server/src/evaluation/evaluation-assertions.ts:83-95 | a missing or null output contains the empty text, one quote and two quotes, and nothing else |
| EvaluationAssertions.MissingOutputJudgedExactly | apps/server/src/evaluation/evaluation-assertions.ts:83-95 | so it is searched as if it were empty if and only if the text looked for is not one or two quotes |
| EvaluationAssertions.MissingOutputPassesExactly | apps/server/src/evaluation/evaluation-assertions.ts:54-95 | when a case with a missing or null output passes its outcome criteria; only an observed null meets an expected output, and only null |
| EvaluationAssertions.ErrorsAlwaysFail | apps/server/src/evaluation/evaluation-assertions.ts:54-63 | an execution error fails the case whatever else is asked |
| EvaluationAnswers.AssertionsAreExact | apps/server/src/evaluation/evaluation-assertions.ts:46-180 | which assertions are made of a case and what each of them says, criterion by criterion in terms of its calls, texts and limits, and no other |
| EvaluationAnswers.AssertionsComeInOrder | apps/server/src/evaluation/evaluation-assertions.ts:46-180 | they come in the order of the criteria, each once, and the searches in the order of their texts |
| EvaluationAnswers.CriteriaInWords | apps/server/src/evaluation/evaluation-assertions.ts:46-180 | what meeting the criteria asks of status, output, calls, approvals, cost and latency |
| EvaluationAnswers.EngineResultStandsForItsText | apps/server/src/evaluation/evaluation-assertions.ts:31-44 | an expected value is replaced by its text exactly if it has a text, a list of actions and both message counts |
| EvaluationAnswers.SearchedText | apps/server/src/evaluation/evaluation-assertions.ts:83-95 | a string is searched as it is, a missing or null output as two quotes, any other value as its comparable text |
| EvaluationAnswers.IncludesIsPartOf | apps/server/src/evaluation/evaluation-assertions.ts:85-94 | a text includes exactly what some text before and some text after it complete |
| EvaluationRunner.RunnerReportFitsSchema | apps/server/src/evaluation/evaluation-runner.ts:213-253 | numbering and summary of a built report always satisfy the report schema |
| EvaluationRunner.RunPassesExactly | apps/server/src/evaluation/evaluation-runner.ts:213-240 | a run passes if and only if every critical case passed all its assertions |
| EvaluationRunner.RunPassesWhenCriteriaAreMet | apps/server/src/evaluation/evaluation-runner.ts:213-240 | a run that passes met the criteria of every critical case, and passes exactly then when no expected output has tied keys |
| EvaluationRunAnswers.SummaryIsExact | apps/server/src/evaluation/evaluation-runner.ts:213-253 | every number of the runner's summary counts or adds up the cases it should |
| EvaluationRunAnswers.CostsAddUp | apps/server/src/evaluation/evaluation-runner.ts:213-240 | the total cost adds up the cases and is unknown as soon as one cost is |
| EvaluationRunStore.RunDatabase.InsertEvaluationRun | apps/server/src/db/evaluation-run-store.ts:345-426 | run row and case rows are stored together or not at all |
| EvaluationRunStore.RunDatabase.InsertCases | apps/server/src/db/evaluation-run-store.ts:388-424 | the insert loop succeeds exactly when every case row fits |
| EvaluationRunStore.ParseLineIsLawful | apps/server/src/db/evaluation-run-store.ts:229-235 | what the model assumes of parsing holds of the compact parser |
| EvaluationRunLaws.InsertedReportReadsBack | apps/server/src/db/evaluation-run-store.ts:345-464 | an inserted report is read back unchanged |
| EvaluationRunLaws.InsertedReportStays | apps/server/src/db/evaluation-run-store.ts:345-464 | from the empty database, after any inserts before and after it, of the same ID or others, an inserted report reads back unchanged |
| EvaluationRunLaws.ReadReportAgreesWithRows | apps/server/src/db/evaluation-run-store.ts:245-333 | on any table contents a returned report agrees with every column of its run row, hash included, and of its case rows, and the run row is the sum of the case rows |
| EvaluationRunLaws.ListAgreesWithReport | apps/server/src/db/evaluation-run-store.ts:202-227 | the bounded list shows what the full verified report would show |
| EvaluationRunAnswers.RunRowIsExact | apps/server/src/db/evaluation-run-store.ts:158-179 | every column of a run row, counts included, from the report |
| EvaluationRunAnswers.CaseRowIsExact | apps/server/src/db/evaluation-run-store.ts:388-424 | every column of a case row, counts included, from the case |
| EvaluationRunAnswers.InsertAnswersExactly | apps/server/src/db/evaluation-run-store.ts:345-426 | when a report is stored, which of the two errors it gives otherwise, limits written out, and exactly which rows are added |
| EvaluationRunAnswers.ReadingIsExact | apps/server/src/db/evaluation-run-store.ts:245-464 | on any table contents: missing without its row or with a blank text, found with the one report that the rows show in every column, corrupt when they show none |
| EvaluationComparison.ResolveSelections | apps/server/src/evaluation/evaluation-runner.ts:158-168 | a dataset is accepted exactly when the runner's case keys are distinct |
| EvaluationComparison.AcceptedDatasetsHaveDistinctKeys | apps/server/src/evaluation/evaluation-comparison.ts:8-10 | the runner's keys are distinct exactly when the comparison's keys are, though they write a missing revision differently |
| EvaluationComparison.KeysIdentifySnapshots | apps/server/src/evaluation/evaluation-comparison.ts:8-10 | two snapshots have one key exactly when case ID, revision and document hash are the same |
| EvaluationComparison.RowsCoverUnionOnce | apps/server/src/evaluation/evaluation-comparison.ts:19-54 | the listed keys are the union of both reports' keys, each once, and row i shows name, verdicts, classification and both deltas, candidate minus baseline, of exactly the two cases of key i |
| EvaluationComparison.CompareIsExact | apps/server/src/evaluation/evaluation-comparison.ts:12-61 | exactly completed reports are compared, under their own IDs, and regressions and improvements count the rows so classified |
| EvaluationComparison.ComparisonConservesPasses | apps/server/src/evaluation/evaluation-comparison.ts:28-61 | candidate minus baseline passes is improvements minus regressions plus the one-sided passes |
| EvaluationComparison.SwapSwapsCounts | apps/server/src/evaluation/evaluation-comparison.ts:12-61 | swapping the reports swaps regressions with improvements |
| EvaluationComparison.SwapMirrorsRows | apps/server/src/evaluation/evaluation-comparison.ts:25-54 | every row has its mirror image in the swapped comparison, with negated deltas |
| EvaluationComparison.NetChangeIsAdditive | apps/server/src/evaluation/evaluation-comparison.ts:12-61 | over three reports with the same keys net change is additive |
| LoginLockout.AuthStore.RecordFailedAttempt | apps/server/src/db/auth-store.ts:144-155 | counts the failure and, from the fifth on, sets the lockout of its cycle |
| LoginLockout.AuthStore.VerifyCredential | apps/server/src/db/auth-store.ts:157-192 | verdict and settings after one call are those of the step that `VerdictIsExact` and `VerifyChangesExactly` write out |
| LoginLockout.NextFailureWaits | apps/server/src/db/auth-store.ts:128-192 | failure a + 1 comes no earlier than the lockout of failure a, for every a >= 5 and across successes |
| LoginLockout.LockoutSchedule | apps/server/src/db/auth-store.ts:128-155 | the lockout after each failure: 5, 15, 60 minutes for failures 5, 10 and 15 on, a day from the twentieth |
| LoginLockout.FailureRateBound | apps/server/src/db/auth-store.ts:128-192 | failure n >= 20 comes at least 400 + 1440 (n - 20) minutes after failure 5 |
| LoginLockout.RetryAfterIsExact | apps/server/src/db/auth-store.ts:161-166 | from the second clock reading on, waiting the announced seconds is enough and one second less is not; no positive wait is announced exactly if the lock ended between the readings |
| LoginLockout.AuthStore.CheckLogin | apps/server/src/db/auth-store.ts:161-181 | the part of a call before it waits for the hash |
| LoginLockout.AuthStore.SettleLogin | apps/server/src/db/auth-store.ts:182-192 | the part after it |
| LoginLockout.VerdictIsExact | apps/server/src/db/auth-store.ts:157-192 | who gets in: no lock past the start, a stored hash that matches, and no name that differs from a stored one; who is told to wait, and who is refused |
| LoginLockout.VerifyChangesExactly | apps/server/src/db/auth-store.ts:144-192 | a success keeps the count and clears the lock; a failure is counted exactly for a wrong name or a mismatch of a stored hash on an unlocked login; nothing else changes |
| LoginLockout.HalvesAreExact | apps/server/src/db/auth-store.ts:161-192 | what each half of a call answers and leaves, before and after it waits for the hash |
| LoginLockout.OverlappingFailuresWait | apps/server/src/db/auth-store.ts:144-192 | with at most k calls in progress the k-th failure after failure a >= 5 comes no earlier than a's lockout ends, unless a success that was overtaken lifted a lock |
| LoginLockout.OverlapBoundIsExact | apps/server/src/db/auth-store.ts:144-192 | the m-th failure after another always waits so if and only if m >= k |
| LoginLockout.OverlappingRateBound | apps/server/src/db/auth-store.ts:128-192 | from the twentieth failure on at most k failures a day, as long as no lock is lifted |
| LoginLockout.LiftedLockBreaksTheBound | apps/server/src/db/auth-store.ts:182-192 | a run in which a success settles while the login is locked and k more failures follow at once |
| A2UITimers.ActionKeysAreDistinct | apps/client/src/stores/runtime-store.ts:84-86 | different surface and source pairs never share a key |
| A2UITimers.RuntimeStore.ClearActionTimer | apps/client/src/stores/runtime-store.ts:96-100 | cancels exactly the timer of the key |
| A2UITimers.RuntimeStore.SyncActionAutoClear | apps/client/src/stores/runtime-store.ts:116-136 | a finished action gets a fresh timer, any other loses its timer |
| A2UITimers.RuntimeStore.HandleActionQueued | apps/client/src/stores/runtime-store.ts:685-705 | stores the action under its key and sets its timer |
| A2UITimers.RuntimeStore.HandleDaemonTaskUpdate | apps/client/src/stores/runtime-store.ts:707-740 | every action of the task takes its status and has its timer set anew |
| A2UITimers.RuntimeStore.HandleDelete | apps/client/src/stores/runtime-store.ts:653-672 | removes the surface's actions and their timers, also after a deletion on the server |
| A2UITimers.RuntimeStore.HandleDeleteAll | apps/client/src/stores/runtime-store.ts:674-683 | removes all actions and timers, also on reset |
| A2UITimers.RuntimeStore.Fire | apps/client/src/stores/runtime-store.ts:124-133 | the callback removes its entry only if task and status still match |
| A2UITimers.RunKeepsAgreement | apps/client/src/stores/runtime-store.ts:84-136 | after every run, under any clocks, timers belong exactly to the finished actions and carry their task and status |
| A2UITimers.FiringRemovesExactlyItsAction | apps/client/src/stores/runtime-store.ts:124-133 | a firing timer removes exactly its own finished action |
| A2UITimers.DeletedSurfaceLeavesNothing | apps/client/src/stores/runtime-store.ts:525-546 | a deleted surface leaves no action and no timer, and others are untouched |
| A2UITimers.ChangeSetsTimer | apps/client/src/stores/runtime-store.ts:116-136 | a change stamps the wall clock, and gives a finished action a timer due ten seconds later on the monotonic clock |
| A2UITimers.StaysExactlyUntilItsTimerRunsOut | apps/client/src/stores/runtime-store.ts:92-136 | an action nothing else touches stays unchanged exactly until its own timer runs out, and for good if it is not finished, however the wall clock jumps |
| A2UITimers.QueueingIsExact | apps/client/src/stores/runtime-store.ts:685-705 | every field of a queued action and its timer, under the JSON text of its surface and source; nothing without a source and nothing at other keys |
| A2UITimers.UpdatingIsExact | apps/client/src/stores/runtime-store.ts:707-740 | every field of each action of the task and its timer, and nothing of any other action |
| A2UITimers.DeletingIsExact | apps/client/src/stores/runtime-store.ts:653-683 | which actions and timers a deletion takes and leaves |
| A2UITimers.FiringIsExact | apps/client/src/stores/runtime-store.ts:116-136 | what a callback takes when it is due, on any board, and that an early one does nothing |
| SplitText.SplitText | apps/server/src/channels/text-utils.ts:5-17 | the loop computes the specified chunks and ends |
| SplitText.RemainingShrinks | apps/server/src/channels/text-utils.ts:10-15 | every round shortens the rest, also when the split point is 0 |
| SplitText.SplitPoint | apps/server/src/channels/text-utils.ts:11-13 | the split point is the last newline within reach, or the limit when there is none |
| SplitText.SpacesAreListed | apps/server/src/channels/text-utils.ts:11-15 | the newline and the white space that trimming removes, unit by unit |
| SplitText.ChunksEndAtNewlines | apps/server/src/channels/text-utils.ts:10-15 | every chunk ends right before the last newline within its reach and is full otherwise |
| SplitText.SplitLosesOnlySpace | apps/server/src/channels/text-utils.ts:5-17 | only white space between chunks is lost, chunks fit the limit, only the first can be empty |
| SplitText.FirstChunkEmptyExactly | apps/server/src/channels/text-utils.ts:11-13 | the first chunk is empty exactly when a leading newline is the only newline within reach |

## Left out

- The SQLite engine, WAL, indexes and query plans: tables are values and a transaction is one step.
- AES-GCM, argon2, SHA-256 and random generators: ciphertexts and IDs are inputs, drawn fresh where a theorem needs it, and hashes are arbitrary functions.
- The zod schemas: `EvaluationRunStore` takes encoders and decoders as parameters with stated laws; trajectories keep the rules on status, kind, times, parents and sequences, not the canonical shape of traced context steps; the other stores keep the schema rules that their theorems need.
- Payload size limits and text length limits of the evaluation, trajectory and memory tables.
- Free JSON inside evaluation reports is held as canonical text, so reports are compared up to the key order of such values.
- Numbers in JSON are their shortest lexemes; `NaN`, infinities, `undefined` members and the key `__proto__` do not occur.
- Costs and instants are reals; floating-point rounding of cost sums is not modelled, nor the tolerance of the schema's cost check.
- TrajectoryTime.ParseStamp: offsets beyond 23:59, which a date parser may or may not take, are refused.
- Snapshot reading, candidate display names and credential summaries of the setup and credential stores.
- EvaluationAssertions.EvaluateAssertions: the texts of the assertion messages are not modelled.
- The revision store of evaluation cases: the same compare-and-swap as memory blocks, with fewer rules; its lists are covered by `Keyset`.
- Block lists for context assembly, comparison lists by ID, and the single-case reads of the run store: single queries without state.
- A2UITimers.RuntimeStore.HandleDelete: the surfaces, the sidebar list and the active surface are not part of this model.
- SplitText.SplitText: fractional limits are not modelled.
- `markTrajectoryInterrupted` is a metadata update with fixed fields and adds no rule of its own.
- Setup, recovery and reset of the login, sessions, channels, HTTP and WebSocket wiring, the user interface.
