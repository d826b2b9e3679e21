# A Dafny model of the cutover, preflight and onboarding logic

This Dafny project models the parts of the trading ledger repository that must not lose shares or
cash and must never apply an adjustment twice. `dafny verify dfyconfig.toml` checks everything.

| file | what it models |
|---|---|
| `ResumeMarker.dfy` | the migration resume marker: its fields, its recursive validator and its writers |
| `MarkerStore.dfy` | the marker file, the schema and the committed batches as one host, and the guarded marker updates |
| `Cutover.dfy` | `execute_cutover` as a machine over its durable steps, with failures before and after each effect, crashes, handlers and operator actions between attempts |
| `CutoverSafety.dfy`, `CutoverHistories.dfy`, `MarkerHistories.dfy` | what every history of attempts keeps of the host and of the marker |
| `CutoverAuthorization.dfy` | exactly which attempts of each mode are authorized |
| `CutoverHandlers.dfy` | what the rollback and the fix-forward handler leave under any failures, and what holds when the adjustment commits |
| `CutoverRecovery.dfy`, `CutoverFinality.dfy` | that every interruption before the transaction can be taken to its end, and exactly which states cannot |
| `Fifo.dfy`, `Chronology.dfy` | the FIFO lot queue and its closed form; the chronology check that fixes the order of the merge debit |
| `Dispositions.dfy`, `CashAdjustments.dfy` | the share and cash rows of one adoption batch |
| `AbiDecoding.dfy` | the decoders of the TransferBatch and PositionsMerge log data |
| `PrimeField.dfy`, `Secp256k1.dfy` | inversion by exponentiation, point addition and double-and-add |
| `EffectivePredictions.dfy`, `SnapshotManifest.dfy` | the one-pass choice of effective predictions and the Direct manifest check |
| `ActivationWindow.dfy` | the clock window in which submission may be enabled |
| `Onboarding.dfy`, `AccountMove.dfy` | the wallet onboarding transaction and the move of Kalshi records |
| `AccountGate.dfy`, `Maintenance.dfy` | the one-slot account gate and the maintenance probe, over every interleaving |
| `Outcomes.dfy`, `Sorting.dfy` | shared helpers |

## Conventions

- Times are integers (seconds or microseconds), shares and amounts are integer base units, and
  identifiers and hashes are numbers whose order is the text order the source sorts by.
- SHA-256 of a marker is a free constructor (`OfMarker`): equal digests mean equal markers.
- A raised error is `None`, `false`, or the `Raised` effect of a step. Clocks, files, database reads and
  network answers are parameters or nondeterministic actions.
- Two facts enter as hypotheses of the statements that need them and of no other: that the field
  modulus is prime (`IsPrime(p)`), and that point addition associates on the multiples of the base
  point (`Associates`, only for the value of `Secp256k1.Multiply`).

## What the model shows about the code

- The digest stored in a supersede audit is never compared with the embedded marker
  (`ResumeMarker.SupersedeDigestIsUnchecked`, with a forged marker in `ResumeMarker.ForgedDigestIsAccepted`);
  the resume audit's digest is. Over every history the script itself writes only the right digest
  (`MarkerHistories.SupersedeDigestsHold`), so only a file from elsewhere can carry a wrong one.
- A crash between the adjustment commit and the last marker write leaves `MIGRATION_APPLIED` for good. Such
  a state is reachable from every clean host (`CutoverFinality.InterruptedCommitIsReachable`), and no later
  attempt of any mode is authorized (`CutoverHistories.InterruptedCommitIsFinal`).
- The recovery commit must list the cutover script in `git diff --name-only`, which a change of the file
  mode alone does too. Such a recovery has the runtime's own script digest: its authorization replaces the
  marker before it validates it, then raises, and leaves a marker that no identity validates
  (`MarkerStore.AuthorizeKeepsBoundary`, `CutoverFinality.SpoiledIsReachable`). Histories in which every
  recovery brings another script stay sound (`CutoverFinality.OtherScriptsStaySound`).
- `CutoverFinality.FinishableExactly` puts the two together: the recorded commit can still be reached if and
  only if it is there already, or no batch has committed and the marker is readable. The at-most-once promise
  holds in all cases.
- Whether a prediction snapshot is accepted can depend on the order of its list
  (`EffectivePredictions.OrderCanDecide`). Some order is accepted exactly when it is sound
  (`EffectivePredictions.SomeOrderIsAccepted`), every order exactly when no two eligible revisions tie and
  differ (`EffectivePredictions.EveryOrderIsAccepted`). What is chosen never depends on the order.
- `next_decision_due` rounds towards zero, so it skips a due instant for some times before 1970; the exact
  condition is `Skips` in `ActivationWindow.NextDueIsFirst`, with an example in `ActivationWindow.SkipExample`.

## Model

| member | source | states |
|---|---|---|
| ResumeMarker.ReadIdentity | deploy/deploy_position_adoption_20260821.py:4375-4401 | a marker's identity fields are accepted exactly when they spell that one identity |
| ResumeMarker.Validate | deploy/deploy_position_adoption_20260821.py:4404-4566 | an accepted marker has the expected identity, its own timed phase, and a phase the schema boundary allows; its audits are the matter of ValidatesExactly |
| ResumeMarker.AcceptedObjects | deploy/deploy_position_adoption_20260821.py:4404-4566 | an accepted marker embeds objects only as the source of its supersede or resume audit |
| ResumeMarker.AcceptedPrepared | deploy/deploy_position_adoption_20260821.py:4404-4566 | an accepted PREPARED marker has no resume audit and nests at most one marker |
| ResumeMarker.AcceptedNesting | deploy/deploy_position_adoption_20260821.py:4404-4566 | no accepted marker nests deeper than two, and neither audit appears twice on a path |
| ResumeMarker.AcceptedAudits | deploy/deploy_position_adoption_20260821.py:4424-4523 | what the audits of an accepted marker prove: a superseded PREPARED of another commit and the same migration, and an applied marker of the same identity and timestamps with its own digest |
| ResumeMarker.ValidatesExactly | deploy/deploy_position_adoption_20260821.py:4404-4566 | the recursive validator accepts exactly the markers of a flat grammar: the head of the phase, at most one supersede audit of a plain PREPARED, and from the migration on at most one recovery audit of an applied marker of the same timestamps |
| ResumeMarker.SupersedeDigestIsUnchecked | deploy/deploy_position_adoption_20260821.py:4404-4566 | of any marker and at any boundary, replacing the digest of a supersede audit by any other digest never changes the verdict |
| ResumeMarker.ForgedDigestIsAccepted | deploy/deploy_position_adoption_20260821.py:4404-4566 | a concrete marker with a wrong supersede digest that validates |
| ResumeMarker.PreparedIsValid | deploy/deploy_position_adoption_20260821.py:4850-4921 | the first marker written validates as PREPARED before and after the schema exists |
| ResumeMarker.PreparedAtBothBoundaries | deploy/deploy_position_adoption_20260821.py:4404-4566 | PREPARED is accepted without the schema exactly when it is accepted with it |
| ResumeMarker.SupersededIsValid | deploy/deploy_position_adoption_20260821.py:4569-4633 | the superseding marker validates for the new identity if and only if the commits differ and the migrations agree |
| ResumeMarker.AppliedIsValid | deploy/deploy_position_adoption_20260821.py:4850-4921 | the marker written after the migration validates as MIGRATION_APPLIED |
| ResumeMarker.ResumedIsValid | deploy/deploy_position_adoption_20260821.py:4782-4847 | the recovery marker validates if and only if commit and script are new and the clock has not gone back behind the migration |
| ResumeMarker.ResumedIsUnreadable | deploy/deploy_position_adoption_20260821.py:4782-4847 | otherwise no identity and no boundary validates the recovery marker |
| ResumeMarker.CommittedIsValid | deploy/deploy_position_adoption_20260821.py:4686-4703 | the last marker validates as ADOPTION_COMMITTED at the committed boundary |
| MarkerStore.AcceptedIsValidFor | deploy/deploy_position_adoption_20260821.py:4404-4566 | an accepted identity is the one the stored marker is valid for |
| MarkerStore.SupersedeKeepsBoundary | deploy/deploy_position_adoption_20260821.py:4646-4683 | superseding is accepted exactly when the operator approved this file by digest and commit and it is the first PREPARED of another candidate of the same migration; the new marker embeds the old one unchanged under its digest; marker, schema and batches stay consistent, and a refusal changes nothing |
| MarkerStore.SupersedesExactly | deploy/deploy_position_adoption_20260821.py:4569-4683 | that exact condition, read off the fields of the file itself |
| MarkerStore.RequireStateKeepsBoundary | deploy/deploy_position_adoption_20260821.py:4706-4779 | the resume check accepts exactly before any batch and with no marker or one of its identity, and creates a plain PREPARED only where none was |
| MarkerStore.AuthorizeKeepsBoundary | deploy/deploy_position_adoption_20260821.py:4782-4847 | a recovery is accepted exactly when the operator approved the marker by digest and the script is new, or is the one recorded already; it changes only the resume audit, which embeds the marker it found; the file stays at its boundary if and only if commit and script are new, and otherwise nothing validates it any more |
| MarkerStore.RecoversExactly | deploy/deploy_position_adoption_20260821.py:4782-4847 | that exact condition, read off the fields of the file itself |
| MarkerStore.CommitKeepsBoundary | deploy/deploy_position_adoption_20260821.py:4686-4703 | the last write is accepted exactly for an applied marker of the identity and changes only phase and commit time |
| MarkerStore.ApplyKeepsBoundary | deploy/deploy_position_adoption_20260821.py:4850-4921 | recording the migration keeps the marker valid for its identity, with its identity, preparation time and audits |
| MarkerStore.AppliesExactly | deploy/deploy_position_adoption_20260821.py:4850-4921 | the migration goes through exactly from a clean host, or resumed before any batch with no marker or its own, and changes only phase and time of a PREPARED marker |
| MarkerStore.MarkerHost.Write | deploy/deploy_position_adoption_20260821.py:4095-4191 | the guarded write creates only where no file is, replaces only the file with the expected digest, and otherwise leaves the file |
| MarkerStore.MarkerHost.Supersede | deploy/deploy_position_adoption_20260821.py:4660-4683 | the stored file and verdict are those of SupersedeResult, the verdict is exactly the approval of this file, and the host stays consistent |
| MarkerStore.MarkerHost.RequireState | deploy/deploy_position_adoption_20260821.py:4706-4779 | the stored file and verdict are those of RequireStateResult, accepted exactly before any batch with no marker or one of the identity; an accepted state is the true schema boundary |
| MarkerStore.MarkerHost.Authorize | deploy/deploy_position_adoption_20260821.py:4782-4847 | the stored file and verdict are those of AuthorizeResult, the verdict is exactly the approved recovery, the phase stays, and the host stays consistent exactly when the call does not spoil the marker |
| MarkerStore.MarkerHost.ApplyMigration | deploy/deploy_position_adoption_20260821.py:4850-4921 | the stored file, schema and verdict are those of ApplyResult; acceptance leaves schema and a valid MIGRATION_APPLIED marker, an unclean start or a committed batch changes nothing, and the phase never goes back |
| MarkerStore.MarkerHost.MarkCommitted | deploy/deploy_position_adoption_20260821.py:4686-4703 | the stored file and verdict are those of CommitResult, accepted exactly for an applied marker of the identity |
| CutoverSafety.EffectKeepsControl | deploy/deploy_position_adoption_20260821.py:8405-8849 | every step of an attempt keeps the control invariant and moves gates, service, selection and batches only as allowed |
| CutoverSafety.HandleKeepsControl | deploy/deploy_position_adoption_20260821.py:6624-6689 | whatever a failed step did, its handler starts from the local variables before it and keeps the invariants |
| CutoverSafety.EffectKeepsLedger | deploy/deploy_position_adoption_20260821.py:8405-8849 | every step keeps marker, schema and batches consistent and none of them goes back |
| CutoverSafety.AdvancedKeepsSound | deploy/deploy_position_adoption_20260821.py:8405-8849 | a step that goes through, raises before or raises after its effect keeps the host sound, unless a recovery with the runtime's own script spoils the marker |
| CutoverSafety.StepKeepsInv | deploy/deploy_position_adoption_20260821.py:8405-8849 | every start, step, crash and operator action keeps the invariant and takes back neither schema, batches nor phase |
| CutoverSafety.HistoryKeepsInv | deploy/deploy_position_adoption_20260821.py:8405-8849 | so does every history of attempts |
| CutoverSafety.AuthorizingIsRefused | deploy/deploy_position_adoption_20260821.py:4706-4779 | once a batch has committed or the marker is unreadable, no mode gets past authorization or changes the host |
| CutoverHistories.StepIsBounded | deploy/deploy_position_adoption_20260821.py:8405-8849 | no action of the script changes the host by more than one step of its attempt |
| CutoverHistories.CommitsAreBatches | deploy/deploy_position_adoption_20260821.py:8252-8357 | the batches of a history are those it started with plus its commits |
| CutoverHistories.AdjustmentCommitsAtMostOnce | deploy/deploy_position_adoption_20260821.py:8405-8849 | over every history from a clean host the adjustment commits at most once, and the marker is never ahead of schema or batch nor behind a batch by more than its last write |
| CutoverHistories.PhaseMovesForward | deploy/deploy_position_adoption_20260821.py:4404-4566 | between any two points of a history the phase only advances, and the marker validates at its boundary unless it was spoiled |
| CutoverHistories.InterruptedCommitIsFinal | deploy/deploy_position_adoption_20260821.py:8405-8849 | after a commit whose attempt is over, no history changes marker, schema or batches again |
| CutoverHistories.GatesStayClosed | deploy/deploy_position_adoption_20260821.py:8405-8849 | no step opens the kill switch, enables submission or starts a submitting service |
| CutoverHistories.ClosedGatesStayClosed | deploy/deploy_position_adoption_20260821.py:8405-8849 | once kill switch and submission are closed, every history without an operator, handlers and crashes included, leaves them closed |
| CutoverHistories.SelectionOnlyMovesToCandidate | deploy/deploy_position_adoption_20260821.py:6624-6689 | no step or handler selects a release other than the candidate of its attempt |
| CutoverHistories.PreviousNeverComesBack | deploy/deploy_position_adoption_20260821.py:6624-6689 | without an operator, the previous release never returns once a candidate is selected |
| CutoverHistories.NoRollbackAfterLaunch | deploy/deploy_position_adoption_20260821.py:8405-8849 | from the live reconciliation on, every failure goes to fix-forward and never to the rollback |
| CutoverHandlers.FixForwardExactly | deploy/deploy_position_adoption_20260821.py:6663-6689 | the fix-forward handler always ends; its final host in closed form, whichever of its five steps fail before or behind their effect |
| CutoverHandlers.RollbackExactly | deploy/deploy_position_adoption_20260821.py:6624-6660 | the same for the rollback handler, in which only the closing of the gates may fail without ending it |
| CutoverHandlers.FailureRollsBack | deploy/deploy_position_adoption_20260821.py:8842-8849 | every failure between the backup and the point of no return goes to the rollback |
| CutoverHandlers.RollbackRestores | deploy/deploy_position_adoption_20260821.py:6624-6660 | from the start of an attempt through any failures: the rollback restores the release and the environment that the attempt found, and leaves the service stopped and the kill switch closed |
| CutoverHandlers.FailureFixesForward | deploy/deploy_position_adoption_20260821.py:8842-8849 | every failure behind the point of no return goes to the fix-forward handler |
| CutoverHandlers.FixForwardCompletes | deploy/deploy_position_adoption_20260821.py:6663-6689 | a failed attempt behind it ends on its candidate with closed gates: a stopped service is started from it, a submitting one is stopped, marker and database stay |
| CutoverHandlers.CommitIsGuarded | deploy/deploy_position_adoption_20260821.py:8561-8767 | over every history the adjustment commits only on the selected candidate, with stopped service, set environment, closed kill switch, installed schema and MIGRATION_APPLIED recorded for it |
| CutoverHandlers.OnlyAdoptionCommits | deploy/deploy_position_adoption_20260821.py:8252-8357 | whatever the host, only the transaction adds a batch, and itself checks kill switch and schema |
| CutoverHandlers.OnlyMigrationInstalls | deploy/deploy_position_adoption_20260821.py:4850-4921 | whatever the host, only the migration installs the schema, and only on a marker valid for the attempt |
| CutoverHandlers.GatesAreReadAgain | deploy/deploy_position_adoption_20260821.py:8639-8695 | whatever the host, rows are built only with the kill switch closed, and it is closed again behind them |
| CutoverHandlers.FinishIsVerified | deploy/deploy_position_adoption_20260821.py:8799-8809 | an attempt finishes only on its candidate with closed gates, whoever changed the host meanwhile |
| CutoverAuthorization.AuthorizedExactly | deploy/deploy_position_adoption_20260821.py:8405-8561 | from every sound state, an attempt of each mode reaches its backup if and only if arguments, runtime, gates, marker and database satisfy the condition of that mode |
| CutoverAuthorization.CheckedExactly | deploy/deploy_position_adoption_20260821.py:8449-8499 | the check before the stale-run recovery passes exactly on the approved applied marker of the runtime before any batch |
| MarkerHistories.StepEvolves | deploy/deploy_position_adoption_20260821.py:4569-4921 | every action writes the marker at most once, stamped with its clock reading, in one of five ways: first PREPARED, superseding that embeds the old marker with its digest, applying, resuming that embeds the applied marker, committing |
| MarkerHistories.MarkerDescends | deploy/deploy_position_adoption_20260821.py:4404-4566 | a marker is never lost, and every later one extends it or embeds it unchanged |
| MarkerHistories.EarlierPhasesAreKept | deploy/deploy_position_adoption_20260821.py:4404-4566 | between any two points of a history, identity, timestamps and supersede audit are kept from the migration on or once superseded, and a committed marker never changes |
| MarkerHistories.SupersedeDigestsHold | deploy/deploy_position_adoption_20260821.py:4569-4633 | over every history from a clean host the supersede audit names the digest of the marker it embeds |
| MarkerHistories.NoPhaseIsSkipped | deploy/deploy_position_adoption_20260821.py:4404-4566 | a history that has reached a phase has been in every phase before it |
| MarkerHistories.WritesAreApproved | deploy/deploy_position_adoption_20260821.py:4569-4921 | over every history a marker is written only by an attempt for its own identity, and an existing one is superseded or resumed only with the approval of its digest |
| MarkerHistories.TimestampsAreOrdered | deploy/deploy_position_adoption_20260821.py:4404-4566 | over every history the timestamps of marker and audits are in the order of the phases and not ahead of the clock |
| CutoverRecovery.StepsApplyMigration | deploy/deploy_position_adoption_20260821.py:4850-4921 | from every host the three migration steps of the cutover machine do what ApplyResult does in one call: the same file and schema when it accepts, a raise with the same host exactly when it refuses |
| CutoverRecovery.MigrationApplies | deploy/deploy_position_adoption_20260821.py:4850-4921 | from every marker and schema state before the commit the migration is accepted and ends with schema and a valid MIGRATION_APPLIED marker |
| CutoverRecovery.AuthorizedCompletes | deploy/deploy_position_adoption_20260821.py:8405-8849 | an authorized attempt that meets no failure commits one batch and hands over the candidate with closed gates |
| CutoverRecovery.ResumeCompletes | deploy/deploy_position_adoption_20260821.py:8405-8849 | a pre-adoption resume with the marker's identity can be completed from every sound state before the transaction |
| CutoverRecovery.RecoveryCompletes | deploy/deploy_position_adoption_20260821.py:8405-8849 | so can a recovery by a new script from every MIGRATION_APPLIED state, also after an earlier cut-off recovery by it |
| CutoverRecovery.AuthorizedReachesCommit | deploy/deploy_position_adoption_20260821.py:8405-8849 | an authorized attempt that meets no failure gets to the committed transaction with its last marker write ahead |
| CutoverFinality.SoundFinishes | deploy/deploy_position_adoption_20260821.py:8405-8849 | from every sound state before the transaction there is a history to the recorded commit |
| CutoverFinality.AppliedFinishesForward | deploy/deploy_position_adoption_20260821.py:8405-8849 | from every sound MIGRATION_APPLIED state without a batch there is such a history that only goes forward: no operator in it selects the previous release |
| CutoverFinality.FinishableExactly | deploy/deploy_position_adoption_20260821.py:8405-8849 | the recorded commit can still be reached if and only if it is recorded already, or no batch has committed and the marker is readable |
| CutoverFinality.InterruptedCommitIsReachable | deploy/deploy_position_adoption_20260821.py:8405-8849 | from every clean host a history ends between the commit and the last marker write |
| CutoverFinality.SameScriptSpoils | deploy/deploy_position_adoption_20260821.py:4782-4847 | every applied marker without a recovery audit can be spoiled by a recovery with the runtime's own script |
| CutoverFinality.SpoiledIsReachable | deploy/deploy_position_adoption_20260821.py:3842-3905 | from every clean host there is a history to a spoiled marker |
| CutoverFinality.OtherScriptsStaySound | deploy/deploy_position_adoption_20260821.py:3842-3905 | a history in which every recovery brings another script stays sound |
| Fifo.ReconstructFifo | deploy/deploy_position_adoption_20260821.py:2458-2500 | the nested queue loop terminates on any shares and computes the fold Rebuilt |
| Fifo.TakeFromHead | deploy/deploy_position_adoption_20260821.py:2469-2480 | the inner loop that drains the head of the queue computes Consume, for any lots and debit |
| Fifo.ConsumeSettles | deploy/deploy_position_adoption_20260821.py:2469-2480 | a debit fails exactly when it exceeds the queue, and else takes its shares from the front and nothing else |
| Fifo.ResidualSettles | deploy/deploy_position_adoption_20260821.py:2458-2500 | settling two debits one after the other is settling their sum |
| Fifo.QueueIsResidual | deploy/deploy_position_adoption_20260821.py:2458-2500 | the queue exists exactly when no prefix debits more than it bought, and is then the closed form with the conserved total |
| Fifo.FifoIsClosedForm | deploy/deploy_position_adoption_20260821.py:2458-2500 | reconstruction succeeds if and only if every event is a BUY, SELL or POSITION_DEBIT, in every prefix SELL and POSITION_DEBIT shares together are covered by the bought ones, and the difference is the expected positive number; the lots are the closed-form residual and the entry time is their newest |
| Fifo.NewestIsMaximal | deploy/deploy_position_adoption_20260821.py:2489-2500 | the entry time is attained by a lot and none is later |
| Chronology.VerifyChronology | deploy/deploy_position_adoption_20260821.py:2154-2230 | the loop accepts exactly the confirmed trades in strict chain order on the right side of the merge, and labels each by the side of the merge block it is on |
| Chronology.ChainOrderIsTupleOrder | deploy/deploy_position_adoption_20260821.py:2208-2217 | the order of (block, transaction, log) is the order of tuples |
| Chronology.KeyOrderIsTupleOrder | deploy/deploy_position_adoption_20260821.py:2585-2593 | the order of the sort keys is the order of tuples |
| Chronology.ChainOrderIsTotal | deploy/deploy_position_adoption_20260821.py:2154-2230 | comparing neighbours orders all pairs |
| Chronology.HistoryIsOrdered | deploy/deploy_position_adoption_20260821.py:2584-2607 | whatever order the trades come in, the history is ordered by match time and identifiers |
| Chronology.DebitSplitsHistory | deploy/deploy_position_adoption_20260821.py:2584-2607 | sorting the synthetic debit in puts it exactly between the trades before and after the merge block |
| Chronology.MatchOrderIsChainOrder | deploy/deploy_position_adoption_20260821.py:2584-2607 | the match-time order of the accepted history with the debit is its chain order |
| Chronology.FifoFollowsTheChain | deploy/deploy_position_adoption_20260821.py:2584-2607 | FIFO over the history in whatever way it is put in chain order gives the same result, under the same exact condition; all but the debit are confirmed trades with their own settlement evidence |
| Dispositions.AppendSells | deploy/deploy_position_adoption_20260821.py:5556-5624 | sells are accepted exactly when distinct, open and covered by the baseline; row i then records the shares and the trade of sell i, is numbered and links to the previous one, down to the current shares |
| Dispositions.DistinctTradeIds | deploy/deploy_position_adoption_20260821.py:5575-5576 | duplicates are found exactly |
| Dispositions.BuildDispositions | deploy/deploy_position_adoption_20260821.py:5806-5875 | rows are built exactly for acceptable inputs; every sale row gives away the shares of one sell and every sell has exactly one such row; every target has a complete chain: numbered from one, linked, never negative, from baseline to zero, ending in its only adoption |
| Dispositions.SellsAreRecordedOnce | deploy/deploy_position_adoption_20260821.py:5577-5624 | each sell is recorded by one row with its shares and trade, and no row records anything else |
| Dispositions.Adopt | deploy/deploy_position_adoption_20260821.py:5806-5875 | one reconstruction is adopted exactly when all evidence surfaces agree with the tail of its chain, and takes all of it |
| Dispositions.CheckAdoptions | deploy/deploy_position_adoption_20260821.py:5975-5978 | the number of adoptions and the set of their accounts |
| Dispositions.ChainIsComplete | deploy/deploy_position_adoption_20260821.py:5526-5978 | the completeness of each chain, derived from the rows |
| Dispositions.ChainConserves | deploy/deploy_position_adoption_20260821.py:5806-5875 | sold plus adopted shares of a complete chain are exactly its baseline |
| Dispositions.TailIsLatest | deploy/deploy_position_adoption_20260821.py:5566-5624 | the sells are in the tuple order of match time, trade and order, and the tail of their chain is the latest of them |
| Dispositions.ReadOrderIsIrrelevant | deploy/deploy_position_adoption_20260821.py:5566-5576 | sells with distinct trade ids have one order, whatever order they were read in |
| Dispositions.RowsNameTheSells | deploy/deploy_position_adoption_20260821.py:5577-5624 | the sell rows name exactly the trades of the sells |
| Dispositions.BuildAdjustment | deploy/deploy_position_adoption_20260821.py:5526-5978 | shares and cash of one batch together: accepted exactly when both sides are; exactly the trades that give away their shares bring in the cash, each once, and all evidence surfaces agree |
| Dispositions.AcceptableAgrees | deploy/deploy_position_adoption_20260821.py:5577-5875 | in an accepted batch every sell has an open issue and snapshot, market and times of every target agree |
| CashAdjustments.GroupByTransaction | deploy/deploy_position_adoption_20260821.py:2775-2785 | each group holds exactly the sells of its transaction, in order, and every transaction is listed once |
| CashAdjustments.GroupsConserve | deploy/deploy_position_adoption_20260821.py:2774-2808 | cash and trade ids over the groups are those of all sells |
| CashAdjustments.CashOfPermutation | deploy/deploy_position_adoption_20260821.py:5626-5703 | reordering the sells changes no group's cash or ids |
| CashAdjustments.SortedGroups | deploy/deploy_position_adoption_20260821.py:2785-2788 | the sorted transactions are distinct, non-empty and all of them |
| CashAdjustments.CollectDeltas | deploy/deploy_position_adoption_20260821.py:2775-2808 | evidence is given exactly when every receipt moved the net cash of its sells; it proves each group and totals all cash |
| CashAdjustments.Summarize | deploy/deploy_position_adoption_20260821.py:2789-2804 | sum of the cash, trade identifiers and latest match time of a group |
| CashAdjustments.StageCash | deploy/deploy_position_adoption_20260821.py:5628-5672 | rows are staged exactly when evidence names each group's ids and a positive delta; every sell is accounted once |
| CashAdjustments.ChainCash | deploy/deploy_position_adoption_20260821.py:5673-5683 | the rows are linked balances from the start to the returned balance |
| CashAdjustments.BuildCash | deploy/deploy_position_adoption_20260821.py:5628-5703 | grouping, staging, ordering by time and identifier, and linking together account for every sell |
| CashAdjustments.AdjustCash | deploy/deploy_position_adoption_20260821.py:2775-2808 | from receipts to rows: accepted exactly when every transaction moved its positive net cash; one row per transaction at the latest match time of its sells, in the tuple order of time and identifier, every trade id once, final balance is start plus all cash |
| CashAdjustments.RowsConserve | deploy/deploy_position_adoption_20260821.py:5677-5703 | linked rows over any order of the sells end at start plus their cash and carry each group exactly |
| CashAdjustments.RowsAreTimed | deploy/deploy_position_adoption_20260821.py:5646 | every row carries the latest match time of its sells |
| AbiDecoding.NumberRoundTrip | deploy/deploy_position_adoption_20260821.py:1929-1959 | big-endian bytes of a number read back as that number |
| AbiDecoding.BytesRoundTrip | deploy/deploy_position_adoption_20260821.py:1929-1959 | reading bytes and writing the number gives the same bytes |
| AbiDecoding.BatchIsRead | deploy/deploy_position_adoption_20260821.py:1929-1959 | what the batch decoder makes of any whole words |
| AbiDecoding.BatchRoundTrip | deploy/deploy_position_adoption_20260821.py:1929-1959 | decoding a canonical encoding gives back both arrays, for any length the format can count |
| AbiDecoding.BatchIsCanonical | deploy/deploy_position_adoption_20260821.py:1929-1959 | accepted data re-encodes to itself |
| AbiDecoding.BatchAcceptsCanonicalOnly | deploy/deploy_position_adoption_20260821.py:1929-1959 | the decoder accepts exactly the canonical encodings |
| AbiDecoding.AddressIsSmallWord | deploy/deploy_position_adoption_20260821.py:1752-1755 | twelve zero bytes mean exactly a word below 2^160, and the address is that word |
| AbiDecoding.MergeIsRead | deploy/deploy_position_adoption_20260821.py:1990-2004 | what the merge decoder makes of any whole words |
| AbiDecoding.MergeRoundTrip | deploy/deploy_position_adoption_20260821.py:1990-2004 | decoding a canonical merge gives back address, amount and partition |
| AbiDecoding.MergeIsCanonical | deploy/deploy_position_adoption_20260821.py:1990-2004 | accepted data re-encodes to itself |
| AbiDecoding.MergeAcceptsCanonicalOnly | deploy/deploy_position_adoption_20260821.py:1990-2004 | the decoder accepts exactly the canonical encodings |
| PrimeField.PowerModIsPower | deploy/deploy_position_adoption_20260821.py:1103-1106 | modular exponentiation is the power modulo m |
| PrimeField.Fermat | deploy/deploy_position_adoption_20260821.py:1103-1106 | Fermat's little theorem, by permuting the multiples of a |
| PrimeField.InverseByPower | deploy/deploy_position_adoption_20260821.py:1103-1106 | the power p - 2 that the code divides by is the inverse |
| Secp256k1.ThroughIsOnCurve | deploy/deploy_position_adoption_20260821.py:1107-1109 | the third point of a line that meets the cubic twice is on the curve once reflected |
| Secp256k1.SlopeDivides | deploy/deploy_position_adoption_20260821.py:1103-1106 | the computed slope times the denominator is the numerator modulo p |
| Secp256k1.TangentMeets | deploy/deploy_position_adoption_20260821.py:1103-1104 | the doubling slope makes the line meet the cubic twice at the point |
| Secp256k1.ChordMeets | deploy/deploy_position_adoption_20260821.py:1105-1106 | the chord slope makes the line meet the cubic at the second point |
| Secp256k1.SameAbscissa | deploy/deploy_position_adoption_20260821.py:1101-1106 | points of one abscissa that are not opposite are equal, so two points of one abscissa take the doubling slope or cancel |
| Secp256k1.AddStaysOnCurve | deploy/deploy_position_adoption_20260821.py:1092-1109 | addition of any two points of the curve stays on it |
| Secp256k1.AddIsTheSum | deploy/deploy_position_adoption_20260821.py:1092-1109 | of two points that are not opposite, the sum is the one reduced point that satisfies the equations of section 2.2.1 of SEC 1 for the slope of the chord or tangent |
| Secp256k1.AddHasInverses | deploy/deploy_position_adoption_20260821.py:1095-1102 | infinity is the identity and opposite points cancel |
| Secp256k1.AddCommutes | deploy/deploy_position_adoption_20260821.py:1092-1109 | addition of points of the curve commutes |
| Secp256k1.DoubleAndAdd | deploy/deploy_position_adoption_20260821.py:1115-1121 | over any associative addition the loop computes the scalar multiple, and it keeps any property that addition keeps |
| Secp256k1.MultiplesStayOnCurve | deploy/deploy_position_adoption_20260821.py:1112-1124 | every multiple of a point of the curve is on the curve |
| Secp256k1.Multiply | deploy/deploy_position_adoption_20260821.py:1112-1124 | scalars out of range and infinity are refused, every result is on the curve, and with associativity it is the scalar multiple under the addition that AddIsTheSum pins down |
| Secp256k1.GeneratorIsOnCurve | deploy/deploy_position_adoption_20260821.py:1002-1007 | the generator satisfies the curve equation |
| Secp256k1.PublicPoint | deploy/deploy_position_adoption_20260821.py:1112-1124 | the same at the constants of the script |
| EffectivePredictions.Select | deploy/four_wallet_preflight.py:1949-2018 | the one-pass loop accepts exactly as Accepts says, chooses the newest eligible prediction of every key, and indexes all by identifier |
| EffectivePredictions.NewerIsTupleOrder | deploy/four_wallet_preflight.py:1988-2007 | newer is the tuple order of as-of, availability, completion and identifier |
| EffectivePredictions.CheckIdentities | deploy/four_wallet_preflight.py:2008-2018 | the identity loop agrees exactly when all choices of a market agree, in any order of the dictionary |
| EffectivePredictions.SelectionIgnoresOrder | deploy/four_wallet_preflight.py:1949-2018 | two accepted orders of the same predictions choose the same |
| EffectivePredictions.AcceptedIsSound | deploy/four_wallet_preflight.py:1949-2018 | an accepted snapshot has visible, distinct, agreeing predictions and no ambiguous newest revision |
| EffectivePredictions.WinnersFirstIsAccepted | deploy/four_wallet_preflight.py:1949-2018 | a sound snapshot is accepted when its winners are listed first |
| EffectivePredictions.SomeOrderIsAccepted | deploy/four_wallet_preflight.py:1949-2018 | some order is accepted if and only if the snapshot is sound |
| EffectivePredictions.AmbiguousPairIsRefused | deploy/four_wallet_preflight.py:1949-2018 | two eligible revisions that tie and differ give an order that is refused |
| EffectivePredictions.EveryOrderIsAccepted | deploy/four_wallet_preflight.py:1949-2018 | every order is accepted if and only if the snapshot is sound and has no such pair |
| EffectivePredictions.OrderCanDecide | deploy/four_wallet_preflight.py:1949-2018 | three predictions that are accepted in one order and refused in another |
| SnapshotManifest.CollectLatest | deploy/four_wallet_preflight.py:2061-2106 | expectations are accepted exactly when visible, distinct and not of a sandbox model; each Direct key then holds its latest one |
| SnapshotManifest.LaterIsTupleOrder | deploy/four_wallet_preflight.py:2098-2104 | later is the tuple order of the recency of an expectation |
| SnapshotManifest.CheckResults | deploy/four_wallet_preflight.py:2121-2176 | the loop passes exactly when every latest expectation completed and produced the effective result of its key |
| SnapshotManifest.GroupByMarket | deploy/four_wallet_preflight.py:2116-2128 | the five sets of a market are exactly those of its latest expectations |
| SnapshotManifest.CheckMarkets | deploy/four_wallet_preflight.py:2177-2194 | the set sizes pass exactly when every market has all Direct models, one generation and one condition; the count is the number of markets |
| SnapshotManifest.UniformMarket | deploy/four_wallet_preflight.py:2177-2194 | the five set comparisons of a market decide completeness and one generation |
| SnapshotManifest.ManifestIsAgreement | deploy/four_wallet_preflight.py:2021-2215 | the latest expectations and the selection are unique, so acceptance is agreement of these two |
| SnapshotManifest.ValidateManifest | deploy/four_wallet_preflight.py:2021-2215 | the check accepts exactly when manifest and results agree and returns the number of markets |
| SnapshotManifest.GridSize | deploy/four_wallet_preflight.py:2177-2215 | a full grid of markets by models has the product of their numbers as cells |
| SnapshotManifest.AcceptedManifestIsGrid | deploy/four_wallet_preflight.py:2021-2215 | acceptance means that the fresh Direct results fill that grid, each produced by the one latest completed expectation of its cell, every market is of one run, selection and generation, every sandbox model has results and all are sandboxed, and everything chosen is fresh and visible at the decision |
| ActivationWindow.RoundedBoundary | deploy/four_wallet_preflight.py:2928-2931 | what rounding towards zero does to the interval number, before and after the epoch |
| ActivationWindow.NextDueIsFirst | deploy/four_wallet_preflight.py:2908-2934 | the result is the first due instant if and only if the rounding skips none |
| ActivationWindow.SkipExample | deploy/four_wallet_preflight.py:2928-2934 | a time before the epoch for which a due instant is skipped |
| ActivationWindow.ActivationIsSafe | deploy/four_wallet_preflight.py:2937-2965 | capture, binding and deadline together open the window if and only if no decision is due from the process start until the safety margin after now, and leave the margin before the first one |
| ActivationWindow.ActivatesExactly | deploy/four_wallet_preflight.py:2937-2965 | with the three clocks in any order: the window opens if and only if no decision of the process was due before the preflight, none of it until the margin after now, and none at all between preflight and margin |
| Onboarding.EventRows | deploy/wallet67_onboarding.py:828-842 | the cumulative loop writes each deposit with its prefix sum |
| Onboarding.DepositsChain | deploy/wallet67_onboarding.py:449-465 | the deposits chain from zero by the amounts of the transfers to the proven balance; available follows total and nothing is reserved |
| Onboarding.UntouchedBecomesOnboarded | deploy/wallet67_onboarding.py:1069-1102 | from the zero bootstrap an account becomes exactly the completed one |
| Onboarding.OnboardedStays | deploy/wallet67_onboarding.py:1054-1065 | a completed account is left as it is |
| Onboarding.OthersKeepState | deploy/wallet67_onboarding.py:1033-1102 | booking one account leaves the state of every other account as it was |
| Onboarding.DecidedAsBefore | deploy/wallet67_onboarding.py:1033-1102 | so every account is decided as the tables stood before the transaction, and booked accounts stay completed |
| Onboarding.AccountsKept | deploy/wallet67_onboarding.py:1077-1091 | reconciled_at never changes and no other account does |
| Onboarding.OnboardAllFrame | deploy/wallet67_onboarding.py:1033-1102 | the loop touches accounts and events only |
| Onboarding.CountIsWhole | deploy/wallet67_onboarding.py:1033-1067 | comparing event counts decides that the deposits are all the events of the account |
| Onboarding.Ledger.Book | deploy/wallet67_onboarding.py:982-1102 | one account is accepted exactly as zero bootstrap or completed, and becomes completed; otherwise nothing changes |
| Onboarding.Ledger.InsertDeposits | deploy/wallet67_onboarding.py:1093-1102 | the insert adds exactly the deposits |
| Onboarding.Ledger.Stage | deploy/wallet67_onboarding.py:892-909 | the staging tables load exactly when accounts and event identifiers are distinct |
| Onboarding.Ledger.BookAll | deploy/wallet67_onboarding.py:982-1103 | the loop goes through exactly when every account was acceptable at the start |
| Onboarding.SealSeals | deploy/wallet67_onboarding.py:1105-1169 | sealing gives exactly one header and its items, and changes nothing when sealed already |
| Onboarding.Ledger.SealBaseline | deploy/wallet67_onboarding.py:1105-1169 | the baseline is accepted exactly when unsealed without remnants or sealed identically |
| Onboarding.Ledger.CheckAccounts | deploy/wallet67_onboarding.py:1171-1185 | the last loop passes exactly when every account has its postcondition |
| Onboarding.Ledger.Run | deploy/wallet67_onboarding.py:969-1185 | the transaction goes through exactly from ready tables, mixed or not, and leaves the completed onboarding; otherwise the tables are as before |
| Onboarding.ReadyCompletes | deploy/wallet67_onboarding.py:1033-1185 | from every ready state the result is the completed onboarding |
| Onboarding.CompletedIsExplained | deploy/wallet67_onboarding.py:982-1185 | the completed onboarding in the tables themselves: paused, disabled and idle accounts hold the sum of their transfers, their events are exactly the transfers with running sums, and the baseline account has exactly the header and items of the evidence |
| Onboarding.OnboardingIsIdempotent | deploy/wallet67_onboarding.py:1054-1065 | every later run is accepted and changes nothing |
| AccountMove.MoveKeepsKeys | deploy/strategy_kalshi_account_migration.py:89-93 | the UPDATE keeps the primary key if and only if no target row has the key of a moved row |
| AccountMove.CopyKeepsKeys | deploy/strategy_kalshi_account_migration.py:80-88 | the INSERT keeps the primary key if and only if the account is in it, it has no other column, or nothing is copied |
| AccountMove.MoveRoundTrip | deploy/strategy_kalshi_account_migration.py:89-93 | moving and moving back restores a table row for row, and in between the target has exactly the source's Kalshi rows |
| AccountMove.CopyCompletes | deploy/strategy_kalshi_account_migration.py:50-54 | copying keeps every row, puts every Kalshi key of the source on the target, and adds only copies of missing rows |
| AccountMove.CopyIsIdempotent | deploy/strategy_kalshi_account_migration.py:50-54 | a second copy adds nothing |
| AccountMove.KalshiIsLike | deploy/strategy_kalshi_account_migration.py:47 | the prefix test is what the LIKE of SQLite makes of the pattern |
| AccountMove.UpdateRows | deploy/strategy_kalshi_account_migration.py:89-93 | the UPDATE gives exactly the Kalshi rows of the source the target account, changes nothing else and counts them |
| AccountMove.InsertMissing | deploy/strategy_kalshi_account_migration.py:80-88 | the INSERT appends exactly the copies of the rows missing on the target and counts them |
| AccountMove.Database.Plan | deploy/strategy_kalshi_account_migration.py:57-72 | the plan refuses exactly when some moved table has a Kalshi row of the target, and else announces for every table the rows that a migration changes |
| AccountMove.Database.MigrateTable | deploy/strategy_kalshi_account_migration.py:80-95 | a table is migrated exactly when migratable; the row count always equals the plan |
| AccountMove.Database.Migrate | deploy/strategy_kalshi_account_migration.py:75-100 | all tables are migrated exactly when all are migratable, otherwise none is changed |
| AccountMove.MoveAndBack | deploy/strategy_kalshi_account_migration.py:14-22 | moving a reversible table there and back restores it exactly if moved, and loses no row of it if copied |
| AccountMove.BackIsReversible | deploy/strategy_kalshi_account_migration.py:14-22 | the way back is accepted if and only if no copied table lacks the account in its key and has a target row the source misses |
| AccountMove.ThereAndBack | deploy/strategy_kalshi_account_migration.py:14-22 | two runs, the second with exchanged accounts: the documented rollback succeeds exactly for reversible tables and restores them |
| AccountGate.NewSlots | cmd/server/decision_cycle.go:278-295 | the constructor accepts exactly distinct prefixed identifiers and makes one empty slot for each |
| AccountGate.StepKeepsInv | cmd/server/decision_cycle.go:296-312 | every atomic step keeps the slot equal to the number of unreleased holders, at most one |
| AccountGate.AtMostOneHolder | cmd/server/decision_cycle.go:269-312 | over every interleaving an account has at most one holder |
| AccountGate.ReleaseNeverBlocks | cmd/server/decision_cycle.go:306-308 | the first release always finds the element of its own acquire |
| AccountGate.ReleaseRunsOnce | cmd/server/decision_cycle.go:306-308 | a spent release never changes the gate again, whatever follows |
| AccountGate.HoldLasts | cmd/server/decision_cycle.go:296-312 | only its own release ends a hold, over every interleaving |
| AccountGate.ReleaseFrees | cmd/server/decision_cycle.go:305-308 | a first release frees the account whatever is interleaved before its receive, and every waiting call can then be granted |
| AccountGate.CancelledNeverHolds | cmd/server/decision_cycle.go:309-311 | a cancelled call never holds the account |
| AccountGate.AskWaits | cmd/server/decision_cycle.go:296-304 | a call is admitted exactly for a configured account |
| AccountGate.FreeAccountIsGranted | cmd/server/decision_cycle.go:305-311 | a waiting acquire can go through if and only if the account has no holder |
| AccountGate.NewGateIsFree | cmd/server/decision_cycle.go:278-295 | a new gate satisfies the invariant |
| Maintenance.Registry.Enter | internal/service/accountmaintenance/registry.go:70-96 | entering adds one visible reason, keeps the time of a repeated one, and reports exactly whether it is new |
| Maintenance.Registry.Exit | internal/service/accountmaintenance/registry.go:99-115 | exiting takes exactly that reason and drops an account without one |
| Maintenance.EnteredReasons | internal/service/accountmaintenance/registry.go:70-96 | what Enter does to the reasons of every account |
| Maintenance.ExitedReasons | internal/service/accountmaintenance/registry.go:99-115 | what Exit does to the reasons of every account |
| Maintenance.EnteredEntries | internal/service/accountmaintenance/registry.go:70-96 | Enter refreshes the detail and keeps the first time of its entry, and changes no other |
| Maintenance.ExitedEntries | internal/service/accountmaintenance/registry.go:99-115 | Exit takes one entry and changes no other |
| Maintenance.StepRemoves | cmd/server/account_maintenance.go:110-164 | a step removes only a preflight reason that was read to be cleared or a recovered startup reason |
| Maintenance.OtherReasonsStay | cmd/server/account_maintenance.go:110-132 | over every interleaving a reason of another kind is never removed |
| Maintenance.StepKeepsGuard | cmd/server/account_maintenance.go:134-164 | only a passing preflight of the account takes its guarding reason away |
| Maintenance.FailureLeavesNoGap | cmd/server/account_maintenance.go:153-164 | from a failed preflight until one passes, the account is in maintenance in every intermediate state |
| Maintenance.LeavesByRecovery | cmd/server/account_maintenance.go:110-180 | an account leaves maintenance only with its last reason, after a passing preflight or a recovered reconciliation |
| Maintenance.RoundIsComplete | cmd/server/account_maintenance.go:110-164 | an undisturbed round, stopped early or not: each visited account ends with exactly the reasons its answers leave, every other keeps its own |

## Left out

- The HTTP, psql, systemd, file permission and symlink layers: a step either has its effect or raises.
- The JSON text of the marker and its SHA-256: the digest is symbolic, so a hash collision is not modelled.
- A clock that goes back between attempts: the clock of the cutover machine only advances; MarkerStore.Spoils names what a marker written earlier would be.
- The 8-character release directory names: two commits with one prefix are different releases here.
- Stale-run recovery, schema assertions and trigger names inside the cutover transaction: they can only raise.
- The contents of the adjustment transaction inside the cutover machine: one commit adds one batch; its rows are modelled separately.
- Reconciliation issue grouping of audit-only rows: audit rows are given and consume nothing.
- Decimal quotients such as average prices and economics: rounding of `Decimal` is not modelled.
- Fifo.FifoIsClosedForm: needs non-negative shares, which the chronology check and the callers establish; Fifo.ReconstructFifo is proved for all shares.
- Dispositions.BuildDispositions: takes sells of the main token, audit rows without sequence and one target per token, as its caller collects them.
- CashAdjustments.CollectDeltas: receipts of all sells are given; fetching them is not modelled.
- ResumeMarker.Validate: its own contract leaves the audits out; ResumeMarker.ValidatesExactly states all of it.
- Secp256k1.PublicPoint: is stated under `IsPrime(SECP_P)`; a certificate for a 256-bit prime would be several hundred squarings of literals.
- Secp256k1.Multiply: its value is stated where addition associates on the multiples of the base point; associativity of the whole curve and primality of the modulus are not proved.
- Keccak-256, addresses from public keys, hex text, log topics, TransferSingle and OrderFilled decoding.
- SnapshotManifest.ValidateManifest: the equality of snapshot id and decision time with the dry run, and JSON parsing, come before it.
- ActivationWindow.NextDueIsFirst: delays are whole microseconds; parsing of duration text and floating point sums are not modelled.
- Onboarding.Ledger.Run: locks, serializable isolation, updated_at and the triggers of migration 0014 are not modelled; one transaction runs at a time.
- The parsers of the onboarding evidence, `_decimal_from_base_units` and the text of event ids.
- AccountMove.Database.Migrate: the tables are those account_tables lists, so skipped ones are outside; NULL key columns, other unique constraints and triggers are not modelled; source and target differ, as the command line demands.
- AccountGate.AtMostOneHolder: Polymarket accounts go to another gate, which is not part of this model; identifiers are trimmed already.
- Maintenance.Registry.Enter: the bounded detail text and trimming are not modelled; the nil registry is not either.
- Configuration checks, wallet files, health probes, readiness endpoints and the small repair commands: they would add only easy members.
