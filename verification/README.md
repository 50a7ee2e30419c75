# Verified models of the evidence, budget and evaluation machinery

The repository measures and proves what a guarded agent system does: it spends money on external
model calls, samples benchmark cases, collects hash-chained evidence, and calibrates detector
thresholds. These Dafny modules model the scripts that do so and prove what they promise.

| area | modules | modelled files |
|---|---|---|
| budget ledger, its lock, the retry loops on top | `BudgetLedger`, `LedgerFiles`, `LedgerProtocol`, `RetryLoop` | `bench/external/budget.py`, `opencode_bridge.py`, `agentdojo_opencode.py`, `injecagent_opencode.py` |
| sample allocator and resumable scheduler | `SampleAllocator`, `SampleManifests`, `JobScheduler`, `JobOutcomes` | `scripts/run_r2_r3_acceptance.py` |
| evidence chains and links | `HashChains`, `PublicProjection`, `PublicPaths`, `Gate6Chain`, `EffectChain`, `EffectImport`, `EffectTails`, `CrossLinks` | `scripts/collect_identity_undo_evidence.py`, `verify_identity_undo_evidence.py`, `import_sqlite_effects.py`, `src/xa_guard/control/store.py` |
| thresholds and intervals | `Wilson`, `ThresholdSearch`, `ThresholdLock`, `ThresholdMetrics` | `bench/gate1_holdout.py`, `scripts/evaluate_gate1.py`, `run_r2_r3_acceptance.py` |
| holdout protocol | `HoldoutManifest`, `HoldoutRows`, `HoldoutBuild`, `Holdout` | `bench/gate1_holdout.py`, `scripts/evaluate_gate1.py` |
| smaller pieces | `Base64Url`, `Jwt`, `Enrichment`, `SeatLedger` | `scripts/verify_reference_faults.py`, `enrich_csab_gov_mini.py`, `open-agent-range/spike.py` |

Code that changes things step by step is a class or a method with loops, tied by its `ensures` to a
function; the properties are then proved about that function over every run. Amounts, rates and scores
are `real`. A JSON object is a map, so the digest of canonical JSON is any function of the value (with
no collisions only where a lemma says so). Rounding, `str`, `dict`, lower-casing, identifiers, the text
scanner and the outcomes of external calls are parameters. `math.sqrt(x)` is any `s >= 0` with `s * s == x`.

Where a promise does not hold on all inputs, the code is modelled as it is and the exact condition is proved:

- an unhalted ledger is within its caps exactly if the configured caps admit the empty ledger
  (`create_ledger` takes negative caps);
- the InjecAgent slice is within budget exactly if that budget is not negative (a negative slice bound
  drops cases from the end), and a manifest repeats no case exactly if no suite name is configured twice
  or floors are zero;
- exit code 0 means that every job has its result exactly if `max_jobs` cut no pending job from the batch
  (`--max-jobs 0` reports success with work pending); a terminal job can run again exactly if a batch repeats
  its identifier often enough to reach the limit; without resume attempts nothing ever runs;
- collection looks for one record of each trace with raw equality, verification at all of them through
  `str`, so a collected bundle can be rejected for three reasons, each characterized exactly;
- the public projection removes every label that the scanner calls secret, but a keyring shape survives it,
  and is then found by the scan, exactly if its parts and one of its entries are under keys that are kept;
- a holdout row given as a list of pairs is accepted beside the object row that it repeats;
- one pass of `enrich` leaves common fingerprints exactly if two groups of duplicates differ only in how
  they spell the same arguments (`null` and `{}`), and then a second pass changes the suite;
- a batch of effect events that is linked to xa_chain_tails breaks the chain of its tenant exactly if the table is
  not up to date, which it is not after an import of events for that tenant;
- the signature probe changes the decoded bytes of every signature that starts with a symbol; of the others the
  decoder skips the first character, and there the exact condition is one on how the rest is read;
- the threshold lock compares a rounded rate, so that in point mode the rate itself is within the limit for every
  calibration of a size exactly if no rate of that size is rounded down to the limit;
- `evaluate_gate1.py` rounds the threshold that it reports, which keeps all limits exactly if rounding carries
  no undominated candidate down past a negative control's score.

## Model

| member | source | states |
|---|---|---|
| BudgetLedger.UnhaltedMeansWithinCaps | bench/external/budget.py:102-186 | After every sequence of reserve and settle calls an unhalted ledger has its total and every bucket within cap + 1e-12, exactly if the created caps admit the empty ledger |
| BudgetLedger.EntriesSettleOnce | bench/external/budget.py:143-186 | Over every run entries keep their identity and order, leave `reserved` at most once, and a halted ledger stays halted and gains no entry |
| BudgetLedger.GrantedExactly | bench/external/budget.py:102-140 | A positive amount is granted exactly if the ledger is not halted, knows the bucket, and is within the total cap and the bucket's cap with it; then exactly that entry is added |
| BudgetLedger.RefusalIsTrue | bench/external/budget.py:102-132 | The error of a refused reservation names something that is the case |
| BudgetLedger.SettledExactly | bench/external/budget.py:143-186 | A settlement is accepted exactly if one entry carries the identifier, is open, the cost is not negative, and its bucket has a cap or the total is exceeded anyway |
| BudgetLedger.SpendBoundedByOverrun | bench/external/budget.py:88-99 | Halted or not, the total cap is passed by at most what settlements reported beyond their reservations, and the cap of a bucket by at most what those of its own entries did; if none did, all caps hold in every reachable ledger |
| BudgetLedger.ReserveAccounts | bench/external/budget.py:102-140 | A granted reservation counts in full in the total and in its own bucket only, within both caps, and is found under its identifier |
| BudgetLedger.SettleAccounts | bench/external/budget.py:143-186 | A settlement replaces what one open reservation counted by the reported cost, or keeps it when unknown, touches no other entry, halts exactly on unknown cost or an exceeded cap, and cannot be repeated |
| BudgetLedger.CallCostsWhatItReports | bench/external/budget.py:102-186 | A call reserved under a fresh identifier and then settled costs its bucket and the total exactly what it reported |
| LedgerFiles.LedgerFile.Totals | bench/external/budget.py:94-99 | The bucket loop computes every bucket's sum, and the sum over buckets is the sum over entries |
| LedgerFiles.BucketsAddUp | bench/external/budget.py:94-99 | Adding up bucket totals gives the plain total, in whatever order the buckets are visited |
| LedgerFiles.LedgerFile.TakeReservation | bench/external/budget.py:102-140 | The in-place reservation does what the specification of one reservation says, and on refusal changes nothing |
| LedgerFiles.LedgerFile.SettleReservation | bench/external/budget.py:143-186 | The in-place settlement, with its halting rules, does what the specification of one settlement says |
| LedgerProtocol.EveryInterleavingIsSequential | bench/external/budget.py:34-54 | For any number of processes and any interleaving of lock, read, write, replace and unlock steps, at most one is in the critical section and the file equals the answered calls run one at a time in lock order |
| LedgerProtocol.OnlyLoggedWritesChangeDisk | bench/external/budget.py:24-54 | A step changes the file only together with the one call it completes; a failed call changes nothing |
| LedgerProtocol.CallCompletes | bench/external/budget.py:34-54 | In every reachable state with a free lock a call completes in six steps of its process, with the ledger and the answer of the call on its own |
| LedgerProtocol.HolderFinishes | bench/external/budget.py:34-54 | A process that holds the lock and does not die frees it after at most four steps of its own, with its request answered |
| LedgerProtocol.ServedExactly | bench/external/budget.py:57-76 | A ledger is created once and then kept; amounts that are not positive are refused with or without a ledger; other calls need one and change it as on their own |
| LedgerProtocol.WaitersGiveUp | bench/external/budget.py:34-54 | A waiting process gives up only while the lock is taken, and leaves everything as it is |
| LedgerProtocol.CrashInsideTheLockFreezesTheLedger | bench/external/budget.py:34-54 | After a crash with the lock held, no continuation ever changes the ledger or frees the lock |
| LedgerProtocol.CapsHoldInEveryInterleaving | bench/external/budget.py:57-186 | The cap guarantees hold of the file after every interleaving |
| RetryLoop.LoopIsDisciplined | bench/external/opencode_bridge.py:237-282 | Against any interference: at most `max_turn_retries` reservations, first in the primary and then in the retry bucket, each call straight after its own reservation, and no further round after an unknown cost, a failed settlement or a quota pause; the loop ends in a quota pause exactly if its last call reported one |
| RetryLoop.ReportsDecide | bench/external/agentdojo_opencode.py:162-187 | Against any interference: the loop ends with an answer exactly if its last round was paid and its report has exit code 0, parsed output and, for InjecAgent, usable output; no round follows such a report; it pauses exactly on a failed run without steps that shows the quota marker; it fails only after the last attempt; otherwise a settlement or the next reservation was refused |
| RetryLoop.RoundsAreBooked | bench/external/opencode_bridge.py:237-282 | Left alone, with fresh identifiers, the loop appends one entry for each round, in its bucket and at what was paid for its report |
| RetryLoop.PaidForReport | bench/external/opencode_bridge.py:79-111 | A report costs the sum of its steps if there are steps and each has a cost, nothing if it is a quota pause, and is unknown otherwise |
| RetryLoop.OneEntryPerCall | bench/external/opencode_bridge.py:134-143 | Without interference the loop adds exactly one ledger entry for each external call |
| RetryLoop.HaltedGrantsNothing | bench/external/budget.py:114-115 | From a halted ledger no attempt of the loop makes a call, whatever other processes do |
| RetryLoop.IncompleteArgumentsSpendNothing | bench/external/opencode_bridge.py:134-143 | Without job, bucket or amount the loop reserves and calls nothing |
| RetryLoop.ParseUsage | bench/external/opencode_bridge.py:79-111 | The cost is the sum of the step costs if every step reported one, and unknown otherwise |
| RetryLoop.Invoke | bench/external/opencode_bridge.py:237-282 | One attempt reserves, calls and settles in that order on the shared ledger object |
| RetryLoop.Query | bench/external/agentdojo_opencode.py:162-190 | The bounded loop with its early exits is the attempt sequence that the discipline is proved of |
| SampleAllocator.EveryRoundIsFair | scripts/run_r2_r3_acceptance.py:488-506 | At every loop head costs, counts and remaining candidates agree, no case is repeated or lost, and no suite raised above its floor had more coverage than one still waiting |
| SampleAllocator.SortedScanAgrees | scripts/run_r2_r3_acceptance.py:488-498 | Scanning any sorted list of the suites with candidates picks the suite that the model picks |
| SampleAllocator.FinishIsSomeRound | scripts/run_r2_r3_acceptance.py:488-506 | The loop ends, after a number of rounds that use up candidates, with no suite eligible |
| SampleAllocator.StartIsSound | scripts/run_r2_r3_acceptance.py:466-487 | If every floor is available and affordable, the floor pass establishes the loop's invariants |
| SampleAllocator.ServedInOrder | scripts/run_r2_r3_acceptance.py:478-506 | At every loop head the cases a suite got behind the floors, followed by those it still has on offer, are its candidates behind the floor in their order, and its count exceeds the floor by their number |
| SampleAllocator.CandidatesInOrder | scripts/run_r2_r3_acceptance.py:467-471 | Candidates are in the order of the universe |
| SampleAllocator.SizesArePlaces | scripts/run_r2_r3_acceptance.py:467-471 | A suite has as many candidates as the universe has places of it outside the calibration, and its size is the number of all its places |
| SampleAllocator.OfferedSuiteHasSize | scripts/run_r2_r3_acceptance.py:491-494 | A suite with a case on offer has a positive size, so the coverage it is sorted by never divides by zero |
| SampleAllocator.FloorsExactly | scripts/run_r2_r3_acceptance.py:472-480 | All floors are available exactly if every suite has a positive price and as many uncalibrated places as the floor demands |
| SampleManifests.AllocationIsFairThroughout | scripts/run_r2_r3_acceptance.py:460-506 | The fairness invariant holds in every round of a feasible allocation |
| SampleManifests.FrozenExactly | scripts/run_r2_r3_acceptance.py:466-535 | A manifest is FROZEN exactly if all floors are available, affordable together, and InjecAgent has a price |
| SampleManifests.ReasonsExactly | scripts/run_r2_r3_acceptance.py:472-518 | The manifest lists exactly the suites without a floor, the floors that exceed their budget together, and a missing InjecAgent price |
| SampleManifests.FrozenManifestMembers | scripts/run_r2_r3_acceptance.py:460-535 | A frozen manifest contains no calibration case and only cases of its universe, AgentDojo before InjecAgent |
| SampleManifests.FrozenManifestIsMaximal | scripts/run_r2_r3_acceptance.py:488-506 | It meets every floor, stays within the R2 budget, and one more case of any suite that has one left would not fit |
| SampleManifests.FrozenManifestRepeatsExactly | scripts/run_r2_r3_acceptance.py:466-516 | It repeats no case exactly if suite names are distinct or floors are zero |
| SampleManifests.R3WithinBudgetExactly | scripts/run_r2_r3_acceptance.py:507-516 | The InjecAgent slice is within its budget exactly if that is not negative, and then cannot be extended |
| SampleManifests.BothArms | scripts/run_r2_r3_acceptance.py:109-113 | Every selected case contributes exactly its two arms, side by side |
| SampleManifests.JobCostIsTotal | scripts/run_r2_r3_acceptance.py:438-444 | A job has a cost exactly if the ledger has a settled calibration entry of it, and then it is the total of all of them |
| SampleManifests.JobCostPermutes | scripts/run_r2_r3_acceptance.py:438-444 | The order of the ledger does not matter |
| SampleManifests.PairCostIsTotal | scripts/run_r2_r3_acceptance.py:445-456 | A pair is measured exactly if each arm has a charge, and costs the total of the charges of both |
| SampleManifests.ConservativeIsEstimate | scripts/run_r2_r3_acceptance.py:460-515 | Every estimate is the safety multiplier times the total of the dearest calibration pair of its stratum |
| SampleManifests.JobCosts | scripts/run_r2_r3_acceptance.py:438-444 | The loop over the ledger adds up the charges of every job |
| SampleManifests.MeasurePrices | scripts/run_r2_r3_acceptance.py:438-457 | Prices are the totals of the dearest calibration pair of each stratum; it fails exactly if an arm of a calibration case has no settled entry |
| SampleManifests.Allocate | scripts/run_r2_r3_acceptance.py:488-506 | The allocation loop computes the specified final state and terminates |
| SampleManifests.FreezeSampleManifest | scripts/run_r2_r3_acceptance.py:460-535 | The method freezes the manifest for estimates that are the multiplier times the dearest pair of each stratum, and fails exactly where measuring fails |
| SampleManifests.UniqueCases | scripts/run_r2_r3_acceptance.py:371-379 | Keeps the first case of every key and no other, in the order of the jobs |
| JobScheduler.SettledForGood | scripts/run_r2_r3_acceptance.py:671-815 | Under a budget plan a job with a matching result or in FAILED_TERMINAL is not run by any later invocation of any sequence, and its files stay as they are |
| JobScheduler.InvocationUsesAttempts | scripts/run_r2_r3_acceptance.py:671-815 | The remaining resume attempts over all jobs drop by at least one for each job run in an uninterrupted invocation, and one that may work while jobs are pending runs some job |
| JobOutcomes.ExitCodes | scripts/run_r2_r3_acceptance.py:671-815 | For distinct jobs: 3 exactly if there is work and the locks do not hold; 2 or 4 exactly if a job of the batch is stopped; otherwise 0 if no job was terminal and every job of the batch is complete afterwards, and 1 if not |
| JobOutcomes.AllSucceed | scripts/run_r2_r3_acceptance.py:720-815 | If every job of the batch succeeds at once and none is terminal, the exit code is 0 |
| JobOutcomes.BatchOutcome | scripts/run_r2_r3_acceptance.py:720-815 | Every job of a batch fares as if it were alone, up to the first place that stops the batch; later jobs are marked after a budget stop and untouched after a quota stop |
| JobOutcomes.AttemptsOutcome | scripts/run_r2_r3_acceptance.py:747-815 | The runs before the last decided nothing; the last one succeeded, was blocked by the budget, was paused, or was the last allowed; state and result are those of the last run, with all runs counted |
| JobOutcomes.StatusExactly | scripts/run_r2_r3_acceptance.py:671-690 | A job without matching result is terminal exactly if the plan has a budget and its resume attempts are used up |
| JobOutcomes.DryRuns | scripts/run_r2_r3_acceptance.py:720-742 | A dry run runs nothing, returns 2 exactly if the ledger has no room for a job of the batch, and writes only then |
| JobScheduler.EveryJobEnds | scripts/run_r2_r3_acceptance.py:671-815 | Whatever invocations came before, stopped or not: after as many uninterrupted ones as there are resume attempts left, every job is complete or FAILED_TERMINAL |
| JobScheduler.NothingStaysPending | scripts/run_r2_r3_acceptance.py:671-815 | The same number of uninterrupted invocations leaves nothing pending in any directory, also in one whose states exceed the limit |
| JobScheduler.ExitZeroMeansCompleteExactly | scripts/run_r2_r3_acceptance.py:671-815 | For every `max_jobs`: after exit code 0 of a real invocation every job of the plan has its matching result exactly if the limit cut no pending job from the batch |
| JobScheduler.BudgetExitExplainsEveryJob | scripts/run_r2_r3_acceptance.py:344-357 | After exit code 2 every job of the plan has a matching result or a state that says why it has none |
| JobScheduler.ZeroJobsReportsSuccess | scripts/run_r2_r3_acceptance.py:671-720 | With `max_jobs` 0 an invocation runs and writes nothing, and returns success exactly if no job counts as terminal, whatever is pending |
| JobScheduler.ZeroJobsLeaveWork | scripts/run_r2_r3_acceptance.py:671-720 | A concrete plan for which it reports success with its only job pending |
| JobScheduler.TerminalRunsAgainExactly | scripts/run_r2_r3_acceptance.py:671-815 | Under a budget plan an invocation can run a job that is in FAILED_TERMINAL exactly if the batch repeats its identifier often enough for its recorded and new failures to reach the limit before its last place |
| JobScheduler.DistinctJobsNeverRunTerminal | scripts/run_r2_r3_acceptance.py:671-815 | If the plan names every job once, no place of any batch runs a job in FAILED_TERMINAL |
| JobScheduler.SharedIdentifierRunsTerminalAgain | scripts/run_r2_r3_acceptance.py:671-815 | A concrete invocation whose second place runs the job that its first place ended |
| JobScheduler.NoResumeAttemptsRunsNothing | scripts/run_r2_r3_acceptance.py:671-720 | With no resume attempts configured an invocation runs nothing and writes nothing |
| JobScheduler.BatchRunsOnlyItsJobs | scripts/run_r2_r3_acceptance.py:720-815 | A batch runs only its own unfinished jobs and touches no other job's files unless it is stopped |
| JobScheduler.RunDirectory.RunJobs | scripts/run_r2_r3_acceptance.py:671-815 | The loops over state files and attempts do what the specification of one invocation says |
| JobScheduler.RunDirectory.MarkNotRunBudget | scripts/run_r2_r3_acceptance.py:344-357 | Writes the budget state of every job that has no state yet, and no other |
| PublicProjection.SecretLabelsAreSensitive | scripts/verify_identity_undo_evidence.py:186-205 | Every label that the scanner calls secret is a key that the projection drops |
| PublicProjection.ProjectionIdempotent | scripts/collect_identity_undo_evidence.py:281-304 | Projecting a projected value changes nothing, at any depth |
| PublicProjection.ProjectionHasNoSecretLabel | scripts/collect_identity_undo_evidence.py:290-304 | No key at any depth of a projected value is classified as secret |
| PublicPaths.PublishedExactly | scripts/collect_identity_undo_evidence.py:281-304 | The projection has exactly the places that are reached through public keys: flagged strings are replaced, other scalars and lists stay, objects keep their public keys |
| PublicPaths.PublicExactly | scripts/collect_identity_undo_evidence.py:281-304 | A key is public exactly if no sensitive part occurs in its normalized label and it is none of the four chain fields |
| PublicPaths.FindingsExactly | scripts/verify_identity_undo_evidence.py:208-225 | The scanner reports exactly the keyring shapes and the entries with a secret label that are not redacted, at any depth |
| PublicPaths.SecretExactly | scripts/verify_identity_undo_evidence.py:186-205 | A label is secret exactly if it sounds secret in one of the listed ways and has no public suffix, and its kind fits |
| PublicProjection.ScanOfProjection | scripts/verify_identity_undo_evidence.py:208-225 | Scanning a projected value can only report the keyring shape, and reports one exactly if the value before projection has a keyring that is kept |
| PublicProjection.KeyringSurvivesExactly | scripts/collect_identity_undo_evidence.py:281-304 | A projected value holds a keyring shape exactly if the value has, under kept keys at some depth, a kept `active` beside kept `keys` that hold a kept entry |
| PublicProjection.PlainKeyringIsPublishedAndFound | scripts/verify_identity_undo_evidence.py:208-225 | The plain keyrings with a `v1` entry are such values: they are published, and the scan reports them |
| Gate6Chain.VerifyGate6Chain | scripts/verify_identity_undo_evidence.py:311-322 | Accepts exactly the non-empty record lists in which every record names its predecessor's digest and carries its own |
| Gate6Chain.PublicChainIsAccepted | scripts/collect_identity_undo_evidence.py:307-364 | The rewritten chain has one record per row in order, is accepted by the verifier, and differs from the projected rows only in the chain fields |
| Gate6Chain.MappingPairsDigests | scripts/collect_identity_undo_evidence.py:340-347 | Entry i of the mapping pairs the i-th projected digest with the i-th source digest |
| Gate6Chain.ProjectRows | scripts/collect_identity_undo_evidence.py:307-364 | Succeeds exactly on an intact source chain that contains both traces; any broken predecessor or digest, in columns or embedded, is rejected |
| Gate6Chain.HeadCommitsToChain | scripts/verify_identity_undo_evidence.py:311-322 | Without digest collisions the record hash of the last record fixes the length of the accepted chain and every record up to its signature |
| Gate6Chain.HeadCommitsToSource | scripts/collect_identity_undo_evidence.py:307-332 | Without digest collisions the last digest of an intact source chain fixes all its rows: digests in columns and embedded, and records |
| Gate6Chain.HasTraceExactly | scripts/collect_identity_undo_evidence.py:336-352 | A trace counts as seen exactly if some record shows its identifier |
| EffectChain.VerifyEffectChain | scripts/verify_identity_undo_evidence.py:325-352 | Accepts exactly the non-empty record lists in which every record has the required keys and no unknown one, an increasing number, its predecessor and the right digest |
| EffectChain.WrittenChainVerifiesExactly | scripts/verify_identity_undo_evidence.py:325-352 | Every record written for events of the table passes the checks exactly if those events are an intact chain |
| EffectChain.BooleansCountAsNumbers | scripts/verify_identity_undo_evidence.py:325-352 | Sequence numbers written as booleans are accepted as 0 and 1, and nothing else but integers is |
| EffectChain.HeadCommitsToRecords | scripts/verify_identity_undo_evidence.py:325-352 | Without digest collisions the last digest fixes how many records there are and all that they cover |
| EffectChain.NumbersAndTimesAreNotCovered | scripts/verify_identity_undo_evidence.py:339-347 | Any times and any increasing numbers are accepted for the same covered events |
| EffectImport.ImportKeepsChains | scripts/import_sqlite_effects.py:284-402 | If every tenant's chain verifies before an import, every tenant's chain verifies after it, however tenants interleave, and events are only appended, as many as are counted |
| EffectImport.ImportAgainInsertsNothing | scripts/import_sqlite_effects.py:240-402 | Importing the same snapshot again inserts nothing and leaves both tables as they are |
| EffectImport.EveryEventIsTold | scripts/import_sqlite_effects.py:284-402 | After an import every event whose effect was taken over has a row of its tenant, effect and type with its legacy number and record hash |
| EffectImport.NothingElseIsInserted | scripts/import_sqlite_effects.py:284-402 | Every new row is that of a snapshot event whose effect was taken over |
| EffectImport.InsertedExactly | scripts/import_sqlite_effects.py:284-342 | One turn of the event loop inserts an event exactly if its effect was taken over and no row has its number and record hash yet, and counts it accordingly |
| EffectImport.EffectsAreTakenOver | scripts/import_sqlite_effects.py:240-281 | Effects on file stay as they are; a new one is taken over with the tenant of its first legacy row |
| EffectImport.SortedByTenantAndNumber | scripts/import_sqlite_effects.py:386-392 | Events of one tenant are imported in the order of their legacy numbers, tenants in the order of their names |
| EffectImport.CountsAddUp | scripts/import_sqlite_effects.py:356-402 | Inserted, existing and conflicted effects, and inserted, existing and skipped events, add up to the scanned counts |
| EffectImport.InsertedEventKeepsLegacy | scripts/import_sqlite_effects.py:284-342 | The legacy event can be read back completely from the one event that is appended for it |
| EffectImport.SortedFacts | scripts/import_sqlite_effects.py:386-392 | The event order is a permutation of the snapshot, by tenant and then legacy sequence number |
| EffectImport.ControlPlane.NewestHash | scripts/import_sqlite_effects.py:303-309 | Finds the last record hash of the tenant, or the empty string |
| EffectImport.ControlPlane.ImportSnapshot | scripts/import_sqlite_effects.py:345-402 | The two loops with their counters and eligible set do what the specification of an import says |
| EffectTails.ChainSurvivesExactly | src/xa_guard/control/store.py:413-462 | After any run of imports, batches and single events a tenant's chain verifies exactly if xa_chain_tails held its newest hash each time one of its batches was linked to the table |
| EffectTails.AgreementExactly | src/xa_guard/control/store.py:249-263 | When the table holds the newest hash after a step: an import that adds an event for the tenant leaves it behind, a batch renews it, and a single event does so only if the tenant has a row |
| EffectTails.CachedTail | src/xa_guard/control/store.py:679-747 | A cached tail is as good as the table exactly while it is the one in the table; otherwise nothing happens |
| EffectTails.BatchAfterImport | src/xa_guard/control/store.py:181-203 | The next batch after an import keeps the chain of a tenant exactly if no event was imported for that tenant |
| EffectTails.BatchAfterSingle | src/xa_guard/control/store.py:1966-1996 | With a single event before it the batch keeps the chain exactly if the tenant has a row in the table, whatever was imported before |
| EffectTails.WithoutImportsChainsSurvive | src/xa_guard/control/store.py:413-462 | Without imports the chain of a tenant with a row verifies and agrees with the table after every run |
| EffectTails.MigratedAgrees | src/xa_guard/control/migrations/007_chain_tail_cas.sql:9-17 | After the migration that creates it the table agrees with the events of every tenant |
| EffectTails.ControlStore.PersistMutations | src/xa_guard/control/store.py:413-462 | The batch loop that links rows to the tail from the table does what the specification of a batch says |
| EffectTails.ControlStore.PersistAudits | src/xa_guard/control/store.py:679-747 | A batch with a cached tail is written exactly if the table holds that tail, and otherwise changes nothing |
| EffectTails.ControlStore.EffectEvent | src/xa_guard/control/store.py:1966-1996 | A single event is linked to the newest event of the tenant, and updates the table only where there is a row |
| CrossLinks.CollectedBundleVerifies | scripts/verify_identity_undo_evidence.py:374-462 | For every collected bundle, exactly which error verification raises, if any: a trace record without the tenant, an unusable request id, or a foreign event |
| CrossLinks.AcceptedExactly | scripts/verify_identity_undo_evidence.py:374-462 | For every bundle: verification passes exactly if there is one event of each of the four types by the sealed requester and approver, with the sealed traces and one shared request id, every event and trace record is of the tenant, both traces link the effect to the subjects and the agent, and business and assignment files carry the sealed effect, digest, subjects, id and version |
| CrossLinks.CollectedExactly | scripts/collect_identity_undo_evidence.py:367-520 | A bundle is collected from exactly the sources whose rows, events, traces and assignment snapshot agree in all listed ways |
| CrossLinks.AssignmentWritten | scripts/collect_identity_undo_evidence.py:440-475 | The collected assignment file says what the snapshot says, with the version as a number |
| CrossLinks.BusinessWritten | scripts/collect_identity_undo_evidence.py:501-520 | The business file has the ticket with its times and its state |
| CrossLinks.ForeignRecordIsCollectedNotAccepted | scripts/collect_identity_undo_evidence.py:420-437 | Adding one record of another tenant to a trace keeps any source collectable and makes its bundle unacceptable |
| CrossLinks.ExampleIsCollectedAndAccepted | scripts/collect_identity_undo_evidence.py:367-520 | A concrete workflow from preparation to compensation that is collected and accepted |
| CrossLinks.SelectedEventsAreAChain | scripts/collect_identity_undo_evidence.py:234-252 | From an intact tenant chain the query selects an intact prefix of that tenant that reaches the last compensation |
| CrossLinks.EvidenceFromTheTableVerifies | scripts/collect_identity_undo_evidence.py:673-824 | Evidence collected from an intact table and an intact Gate6 chain passes the verifier's check of the effect chain and of the projected Gate6 chain, and passes the link check exactly if both traces carry the tenant |
| CrossLinks.CollectedRequestIds | scripts/verify_identity_undo_evidence.py:429-435 | When ids that agree for the collector agree for the verifier: unless they are empty, or the same false value that is not the empty string |
| CrossLinks.CollectedArtifactsAreLinked | scripts/collect_identity_undo_evidence.py:440-520 | The written assignment and business files always satisfy the verifier's links to them |
| Wilson.IntervalContainsRate | bench/gate1_holdout.py:576-586 | For 0 <= k <= n, n > 0: 0 <= lower <= k/n <= upper <= 1 |
| Wilson.UpperIncreases | bench/gate1_holdout.py:576-586 | The upper end is strictly increasing in the number of successes |
| Wilson.CopiesAgree | scripts/run_r2_r3_acceptance.py:983-992 | The clamps of the third copy never change a value and all copies agree before rounding |
| Wilson.WithoutSuccessesOnePercentNeeds381 | bench/gate1_holdout.py:576-586 | With the coded z and no success the upper end is at most 0.01 for 381 trials or more, and above 0.0100005 for fewer |
| ThresholdSearch.CandidateFor | bench/gate1_holdout.py:612-614 | Every real threshold divides the observed scores as some candidate does that is no smaller |
| ThresholdSearch.CandidatesExactly | bench/gate1_holdout.py:612-614 | The candidates are the scores, 0, 0.5, 1 and one more than the largest score, highest first and each once |
| ThresholdSearch.SearchIsOptimal | bench/gate1_holdout.py:612-627 | The finite search loses nothing against all real thresholds, and takes the largest of the best |
| ThresholdLock.LockIsOptimal | bench/gate1_holdout.py:589-650 | A lock is created exactly if a real threshold is feasible; the locked one is feasible, has the largest recall of all real ones, and is the largest with it up to the top candidate |
| ThresholdLock.PointIsShares | bench/gate1_holdout.py:552-573 | An operating point counts the rows of each role that score at least the threshold, each once, and rounds their shares |
| ThresholdLock.RowScore | bench/gate1_holdout.py:544-549 | A row scores as its highest label does, and 0 without a label |
| ThresholdLock.ConfidenceImpliesPoint | bench/gate1_holdout.py:616-624 | In confidence mode the check of the interval's upper end implies the check of the rate |
| ThresholdLock.LockExistsIfRejectAllFits | bench/gate1_holdout.py:589-627 | In confidence mode a lock exists exactly if the upper end at zero false positives is within the limit |
| ThresholdLock.OnePercentNeeds381Negatives | scripts/gate1_holdout.py:87-95 | At 1% in confidence mode a lock is created exactly if there are at least 381 negatives |
| ThresholdLock.PointModeAlwaysLocks | bench/gate1_holdout.py:612-627 | Without the confidence requirement there is always a threshold to lock |
| ThresholdLock.LockedRateIsNearLimit | bench/gate1_holdout.py:616-627 | The rate before rounding is at most half a unit of the sixth digit above the limit; without the confidence requirement no threshold whose rate fits a six-digit limit has more recall than the locked one |
| ThresholdLock.LocksWithinExactly | bench/gate1_holdout.py:616-627 | Without the confidence requirement the rate before rounding is within the limit for every calibration with n negatives exactly if no rate k/n above the limit is rounded down to it |
| ThresholdMetrics.ChosenIsOptimal | scripts/evaluate_gate1.py:194-207 | For every limit the choice is optimal over all real thresholds, and there is none exactly if the limit is negative |
| ThresholdMetrics.ReportIsOptimal | scripts/evaluate_gate1.py:194-216 | A negative limit is reported without a threshold, any other with the rounded figures of a candidate that has the best recall of all real thresholds within the limit |
| ThresholdMetrics.AttackHitsAreRows | scripts/evaluate_gate1.py:166-190 | Hits count the attack rows of the selected types that score at least the threshold, each once |
| ThresholdMetrics.ThresholdReport | scripts/evaluate_gate1.py:166-228 | The loops report all points and, for every limit, the rounded choice; no report exactly without attacks or negative controls |
| ThresholdMetrics.ReportedThresholdsMeetLimitsExactly | scripts/evaluate_gate1.py:206-216 | Rounded thresholds keep the rate within every limit exactly if rounding carries no undominated candidate down past the score of a negative control |
| ThresholdMetrics.UndominatedIsChosen | scripts/evaluate_gate1.py:194-207 | Every undominated candidate is the choice for some limit, namely its own rate |
| ThresholdMetrics.ReportedThresholdBreaksLimit | scripts/evaluate_gate1.py:206-216 | Two rows for which the reported threshold has rate 1 at limit 0 |
| HoldoutManifest.ValidateCases | bench/gate1_holdout.py:404-470 | Reports no problem exactly if all fields are well formed, identifiers are unique, no payload or group occurs in both splits, all minimums are met, and every group is declared where independence is required |
| HoldoutManifest.AcceptedExactly | bench/gate1_holdout.py:404-471 | The cases are accepted exactly if every one is well formed, none repeats an identifier, cases of different splits share neither payload nor group, both splits have as many places of attacks, negatives and attacks of each type as required, and no group is derived where independence is required |
| HoldoutBuild.BuiltCaseIsWellFormed | bench/gate1_holdout.py:273-302 | Every manifest entry that is built has fields that validation accepts, exactly if its case has an identifier |
| HoldoutBuild.BuiltExactly | bench/gate1_holdout.py:273-302 | A case is committed exactly if it is a known attack or an allowed benign control with an object without variant fields as payload; other kinds are left out, other payloads raise |
| HoldoutBuild.BuiltSays | bench/gate1_holdout.py:273-302 | An entry names its case, split and role and commits to payload, oracle and group; without a declared group the payload is its own group |
| HoldoutBuild.EvaluatedRowMatchesExactly | bench/gate1_holdout.py:527-541 | A row evaluated from a case matches the entry of that identifier exactly if oracle and payload, up to variant fields, are the committed ones; a case always matches its own entry |
| HoldoutRows.NormalizationRemovesVariant | bench/gate1_holdout.py:81-106 | Normalization changes exactly the payloads with the variant field at some depth, and removes it everywhere |
| HoldoutRows.NormalizedExactly | bench/gate1_holdout.py:81-106 | Normalization keeps every place that is not at or below a variant field, and what stands there |
| HoldoutRows.OracleCovers | bench/gate1_holdout.py:109-116 | Oracle digests agree exactly if attack type, kind and expected decision do, where a missing kind is an attack |
| HoldoutRows.FingerprintStandsFor | bench/gate1_holdout.py:533-537 | A fingerprint stands for a digest exactly if it is that digest with or without its prefix |
| HoldoutRows.FingerprintsMatchExactly | bench/gate1_holdout.py:273-303 | An evaluated payload matches a committed one exactly if they are equal up to variant fields: the exact and the legacy digest never disagree |
| HoldoutRows.ValidateRows | bench/gate1_holdout.py:508-541 | Accepts exactly the rows whose object identifiers are unique and those of the split, and whose fingerprint and oracle digests are the committed ones |
| Holdout.AcceptedRowsMatchCasesOneToOne | bench/gate1_holdout.py:508-541 | Accepted rows are in bijection with the cases of their split exactly if every row is an object |
| Holdout.PairListRepeatsARow | bench/gate1_holdout.py:521-541 | A row repeated as a list of pairs is accepted, and breaks the bijection |
| Holdout.SplitsShareNoFingerprint | bench/gate1_holdout.py:404-452 | No accepted calibration row shares a payload fingerprint with an accepted holdout row |
| Holdout.NegativesAreEvaluated | bench/gate1_holdout.py:552-573 | The operating points see at least as many negative rows as the manifest has negative cases in the split |
| Holdout.RowsScoreTheirCases | bench/gate1_holdout.py:552-573 | Every accepted row is scored with its own labels, in the role of the case of the split that it names |
| Holdout.FormalCalibrationAlwaysLocks | scripts/gate1_holdout.py:87-95 | With the minimums of the formal profile an accepted calibration run always yields a lock at 1% |
| Holdout.FormalRunCreatesALock | bench/gate1_holdout.py:589-650 | In the formal profile every accepted calibration run of a valid manifest creates a lock that is bound to the manifest and feasible |
| Holdout.PassesExactly | bench/gate1_holdout.py:653-741 | A holdout run passes exactly if the manifest is valid, the bindings are the locked ones, the rows are accepted, and at the locked threshold the share of attacks found is high and that of negatives low enough |
| Holdout.ManifestExactly | bench/gate1_holdout.py:373-471 | A manifest is valid exactly if it holds a list of acceptable cases and its commitment is the digest of all its other fields |
| Holdout.CommitmentCoversTheRest | bench/gate1_holdout.py:305-307 | A commitment does not depend on the field that carries it and depends on all others |
| Holdout.LockedThenPassed | bench/gate1_holdout.py:653-741 | A lock and a passing holdout run bound by commitments have the same cases, share no fingerprint, and are in bijection with their splits exactly if all rows are objects |
| Base64Url.RoundTrip | scripts/verify_reference_faults.py:83-88 | Decoding with the computed padding undoes unpadded encoding for every byte string |
| Base64Url.EncodeIsUnpadded | scripts/verify_reference_faults.py:87-88 | Stripping removes the padding and no symbol |
| Base64Url.DecodableLengths | scripts/verify_reference_faults.py:83-84 | A string of symbols decodes exactly if its length is not one more than a multiple of four |
| Base64Url.FirstSymbolIsInFirstByte | scripts/verify_reference_faults.py:108-120 | Changing a first symbol, whatever follows it, keeps whether the string decodes, and changes the first decoded byte and nothing else |
| Base64Url.ShiftedScan | scripts/verify_reference_faults.py:83-84 | One symbol put in front of a string that still decodes gives the same bytes exactly if there are as many and all of them are zero |
| Jwt.SignatureChangesExactly | scripts/verify_reference_faults.py:108-120 | The probe keeps shape, header and payload of every token with three non-empty parts. A signature that starts with a symbol decodes afterwards exactly if it did before, and then to another first byte. Any signature that decodes still does, to other bytes, exactly if its first character is a symbol or the rest reads on behind one more symbol, and not with one symbol less to nothing but zeros |
| Jwt.ProbeAnswersExactly | scripts/verify_reference_faults.py:108-120 | The signature probe answers exactly for a token of three non-empty parts |
| Jwt.SkippedCharacterBreaks | scripts/verify_reference_faults.py:108-120 | "!" decodes, and no longer does after the probe |
| Jwt.SkippedCharacterHides | scripts/verify_reference_faults.py:108-120 | "!A==A", with any skipped character in front, decodes to the same byte after the probe |
| Jwt.ClaimIsUpdated | scripts/verify_reference_faults.py:91-105 | Exactly when the claim probe answers, and that it keeps header and signature while the payload decodes to the claims with that one updated |
| Jwt.WellFormedTokens | scripts/verify_reference_faults.py:87-88 | Three encoded non-empty parts make a token to which both probes apply |
| Enrichment.EnrichIsIdempotentExactly | scripts/enrich_csab_gov_mini.py:216-239 | For a suite without variant indices: unique fingerprints after one pass, and a second pass that changes neither cases nor key order nor counts, exactly if no two groups of duplicates differ only in spelling the same arguments |
| Enrichment.PassExactly | scripts/enrich_csab_gov_mini.py:184-239 | What a pass does to each case: kind and documents are derived anew, the fingerprint fits, a case with twins gets its number among them as variant index in its arguments read as a dictionary, and nothing else changes |
| Enrichment.ReorderingOrder | scripts/enrich_csab_gov_mini.py:173-181 | Known keys come first and in the fixed order, others after them as they came before |
| Enrichment.ReorderingFacts | scripts/enrich_csab_gov_mini.py:173-181 | Reordering keeps every key of a case once and a second reordering changes nothing |
| Enrichment.CountsAreExact | scripts/enrich_csab_gov_mini.py:216-239 | The total and the count of each kind are those of the cases after the pass, and the kinds listed are those derived from the attack types |
| Enrichment.CollisionAfter | scripts/enrich_csab_gov_mini.py:184-213 | Which two cases share a fingerprint after a pass |
| Enrichment.NullAndEmptyArgumentsCollide | scripts/enrich_csab_gov_mini.py:204-210 | Two pairs of cases, with empty and with null arguments, that stay in collision and change again in the second pass |
| Enrichment.Decollide | scripts/enrich_csab_gov_mini.py:184-213 | The loops over groups rewrite exactly the duplicates, numbered in order within their group |
| Enrichment.Enrich | scripts/enrich_csab_gov_mini.py:216-239 | Preparing, de-colliding, reordering and counting on the copied list is the specified pass |
| SeatLedger.ValidatedPlanRuns | open-agent-range/spike.py:247-285 | A validated plan never raises when executed, keeps the hash chain intact, and adds as many violations as it sends sensitive sources to external receivers |
| SeatLedger.PlanWrites | open-agent-range/spike.py:105-133 | Executing a plan appends exactly what its actions say, in order: one entry for a record that is read, a draft preview of 32 characters, one entry for each source of a message or one without data; each numbered on and written by the seat |
| SeatLedger.ValidExactly | open-agent-range/spike.py:247-285 | An action is valid exactly if it can be executed and, for a message, has text as content and known sources; and when each kind of action can be executed |
| SeatLedger.ViolationsExactly | open-agent-range/spike.py:322-332 | Violations are exactly the entries that send a sensitive record to an external receiver |
| SeatLedger.HeadCommitsToLedger | open-agent-range/spike.py:82-92 | Without digest collisions the last hash fixes the whole ledger |
| SeatLedger.Ledger.VerifyHashChain | open-agent-range/spike.py:82-92 | True exactly if every entry names its predecessor's hash and carries its own |
| SeatLedger.Ledger.ExecutePlan | open-agent-range/spike.py:275-285 | Executes the actions in order on the ledger object; where one cannot be executed, the entries of those before it stay and nothing else is written |
| SeatLedger.FindViolations | open-agent-range/spike.py:322-332 | Collects, in order, the entries that send a sensitive record to an external receiver |

## Left out

- Processes, files, databases, Docker, git, HTTP and clocks: external calls are outcomes chosen by the environment, tables are maps and sequences, a timed-out lock attempt is a step that changes nothing.
- Cryptography and the text form of JSON: digests are functions of values, SM2 and TSA signatures are not modelled.
- Floating-point error: amounts, rates and scores are exact reals, and scores are finite.
- JSON numbers that are not integers: a payload holds integers only, so `0.0` and `1.5` as identifiers or arguments are not covered.
- Negative configured floors in the sample allocator: `cases[:floor]` with a negative bound is not modelled, floors are natural numbers.
- File names that `_job_id` derives, and damaged state files: jobs are identified by their string and a state file is absent or well formed.
- `aggregate`, `verify` and report rendering of the acceptance runner beyond the interval: they only combine the modelled verdicts.
- EffectTails.ChainSurvivesExactly: each transaction that adds events is one step, so row and advisory locks, retries after a conflict, the gate6 rows of the table and failed inserts of effects are not modelled.
- PublicProjection.ScanOfProjection: of several labels that normalize to `keys` the scanner reads the last in key order, the order in which the files are written.
- The text patterns of `scan_secret_bytes`: whether a string is flagged is a parameter.
- The order of the selected effect, undo and ticket rows, and the identity summary that no check reads.
- CrossLinks.CollectedBundleVerifies: columns that the schema declares NOT NULL are strings, so Python's `or ""` on them is not exercised.
- Holdout.LockedThenPassed: schema version, attestation, source digests and the JSON schema of the manifest are one predicate, `ManifestValid`, because they would only add field-shape facts; the lock is the one that was created, not one re-read from a file that was edited since.
- Jwt.ClaimIsUpdated: `loads(dumps(v)) == v` is assumed of objects, so floating-point claims are not covered.
- Enrichment.EnrichIsIdempotentExactly: key order inside payloads, and a missing as opposed to an empty payload, are not modelled; citations are a function of policy references and dimension.
- SeatLedger.Ledger.ExecutePlan: an action with a value that validation refuses counts as one that cannot be executed, also where Python would still write an entry (a list as text, sources that are not strings).
- Gates, policy and pipeline code, prompts, demos, the console and document builders.
