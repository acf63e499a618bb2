# Verified model of the token research collector

The collector discovers new tokens from a live stream, polls market evidence, promotes tokens
through analysis tiers under global budgets, keeps change-only fact logs, reconstructs a token's
state as of a past moment, and exports closed epochs into verified archives. This project models
the parts whose correctness is not visible in any single function, and proves what holds over all
inputs, all runs and all interleavings.

`dafny verify dfyconfig.toml` checks everything.

## Components

| files | what they model |
|---|---|
| CollectionBoundaries | clipping collector runs to a scope and measuring the union |
| PeakOverlap, EpochSimulation, CoverageRule | the streaming Tier 1 simulation and its heap sweep |
| CandidatePolicy, CandidateTiers, CandidateTierRule, CandidateTierRuns, CandidateClockSkew, StaleTierRead | the tier rule, the transaction that applies it, whole runs of evaluations and scheduler writes, clocks that go back, and a run that skips a rung |
| CandidateTasks, CandidateTaskRule, CandidateTaskRuns | the leased enrichment queue, and every interleaving of its workers |
| Base58, Base58Rule, MintAccount, MintRule | Base58 text and the mint layout with its extension records |
| ArchiveCatalog, ArchiveCatalogRule | the lease state machine of archive scopes |
| ArchiveExport, ArchiveExportRule | splitting a row stream into files and verifying them independently |
| ArchiveCopy, ArchiveCopyRaces | the manifest-last copy under interruption, and copies that race request by request |
| ChangeLog, ChangeLogRule, ChangeLogAnyOrder, BoostEvents, BoostRule, BoostRuns | change-only logs in receipt order and in any order, and threshold events |
| AsOfQueries, TokenStateAsOf, TokenStateFields | reconstruction of a state from facts visible at a moment |
| DiscoveryBuffer, DiscoveryRule, DiscoveryRuns | the discovery buffer and the commit-then-acknowledge coordinator |
| Wrappers, Quantities, Collections, Sorting | shared vocabulary: optional values, error results, units, facts about sets and sequences, the library sort |

Where the source changes state step by step the model does too: a class with the source's fields,
methods with its branches and loops, each proved equal to a function of the old state. The
properties are lemmas about those functions, and runs are sequences of events over them. The modules
whose names end in Rule, and TokenStateFields, say what each operation does in the columns and fields
of its rows, without those functions.

## Conventions

- Times and durations are integers (microseconds). Decimal amounts are reals.
- SHA-256 digests and uuid5 identities are injective: a digest is the thing digested, and a row's
  identity is its key. Random lease and claim tokens come from a counter that never repeats.
- A database transaction is one atomic step and one that raises leaves no trace. Row locks of other
  transactions appear as the set of rows a claim skips.
- Storage is lossless. Faults appear explicitly: where a process stops, which upload is damaged.
- Identifiers that the source compares as text are numbers in the same order.
- Numbers that the settings bound from below keep that bound as a precondition: coverage lifetimes
  are positive, the coverage interval is at least a second, batch and file sizes are positive.
- The heap is kept as an ordered list, whose head is its minimum.

## Where the code differs from what it says, or from what one expects

- `live_collection_intervals` says that a run finished before it started, but raises as well for a
  run that started after the scope ended (`RejectedExactly`).
- `CandidateOrchestrationService.evaluate` reads the tier before the token is locked. Two services
  can therefore take a token from Tier 1 straight to Tier 3 (`StaleReadEntersTier3FromTier1`);
  `LadderIsSkippedExactly` gives the condition, and the budgets and coverage agreement hold anyway.
- A change that replays a stored identity is not stored, so the change-only log answers with older
  content; `RefinesExactly` shows this is the only way it can go wrong in receipt order. The
  collectors put the request and the position in the response into the identity and pass one receipt
  time per response, so such a replay at a later time is an input of the repository, not of them.
- The logs compare a record with the row of newest receipt, not with the one stored last. Workers that
  finish out of order can therefore make the log answer wrongly, and a threshold can be crossed upwards
  twice in a row (`OutOfOrderBreaksRefinement`, `OutOfOrderCrossesTwice`). `RefinesStepExactly` and
  `TelescopesFurtherExactly` give the conditions. Records of one response share a receipt time, and then
  the order of their ids decides.
- A trailing extension record of type 0 with an empty body reads as padding (`WalkRoundTripExactly`).
- `mark_archive_verified` asks for no claim: it can seal a scope while another worker holds one,
  whose later reports are then refused (`VerificationFencesClaims`).
- Validation in `get_token_state_as_of` reads facts of the future, so such a fact can turn an answer
  into an error, though never into a different answer (`AnswersAgreeExactly`).
- A claim that used the last attempt of its row is not taken over when its lease expires, so the row
  stays claimed unless that worker still reports (`LastAttemptIsStuck`).
- The coverage limit is checked at the evaluation's own time. A clock that is behind can extend coverage
  whose slot has been given away, and so exceed the limit (`SkewedClockOverfills`);
  `RunKeepsBudgetsExactly` shows this is the only way.
- The S3 upload looks for the object, writes without a condition, and reads back. Two copies can both
  miss the object, and a damaged write of the slower one then replaces a good object
  (`LateDamageIsUnsafe`); `RaceIsSafeExactly` gives the condition.
- An evaluation replayed under another collector run can meet an integrity conflict and is then rolled back;
  `ThreeReplaysChange` covers replays of which any may be rolled back.

## Model

| member | source | states |
|---|---|---|
| CollectionBoundaries.LiveCollectionIntervals | src/pump_research/collection/boundaries.py:83-105 | Raises exactly for an empty scope or when some run is rejected, and then names the first rejected run; otherwise returns the non-empty runs clipped to the scope, in run order |
| CollectionBoundaries.RejectedExactly | src/pump_research/collection/boundaries.py:99-102 | The guard rejects exactly the runs that finished before they started or that started after the scope ended; its message names only the first case |
| CollectionBoundaries.ClippedRunsCoverLiveTicks | src/pump_research/collection/boundaries.py:83-105 | The clipped intervals cover exactly the instants of the scope at which some run with a known start was collecting: nothing lost, nothing invented, no restart gap filled |
| CollectionBoundaries.LiveTicksExactly | src/pump_research/collection/boundaries.py:83-105 | The live instants are those of the scope at which a run with a known start had started and had not finished |
| CollectionBoundaries.OneRunClipped | src/pump_research/collection/boundaries.py:93-104 | A run that collected within the scope leaves one interval under its own id that holds exactly those instants; any other run leaves none |
| CollectionBoundaries.ClippedInOrder | src/pump_research/collection/boundaries.py:83-105 | The intervals come in the order of the runs |
| CollectionBoundaries.LiveTicksIgnoreOrder | src/pump_research/collection/boundaries.py:83-121 | Run order and duplicates change neither the live instants nor whether the scope is rejected |
| CollectionBoundaries.LiveSeconds | src/pump_research/collection/boundaries.py:108-121 | For intervals in any order, overlapping or not, the total is the measure of their union |
| CollectionBoundaries.MeasureOrdered | src/pump_research/collection/boundaries.py:114-121 | The merge loop over ordered intervals measures the union |
| CollectionBoundaries.MergeStep | src/pump_research/collection/boundaries.py:115-118 | Merging a touching or overlapping interval into the growing block keeps the measured union exact |
| CollectionBoundaries.GapStep | src/pump_research/collection/boundaries.py:119-120 | A gap closes the block, adds its length once, and is not itself counted |
| CollectionBoundaries.LiveDuration | src/pump_research/collection/boundaries.py:83-121 | End to end: the duration is the measure of the scope intersected with the union of the runs |
| PeakOverlap.PeakIntervals | src/pump_research/candidates/epoch_simulation.py:193-201 | For non-empty spans in any order the sweep returns exactly the maximum, over all instants, of the number of spans that contain the instant |
| PeakOverlap.SweepOrdered | src/pump_research/candidates/epoch_simulation.py:195-201 | The heap loop over ordered spans returns that maximum |
| PeakOverlap.PopExpired | src/pump_research/candidates/epoch_simulation.py:197-198 | Popping leaves exactly the ends that are still in the future of the next start, as a multiset |
| PeakOverlap.PushEnd | src/pump_research/candidates/epoch_simulation.py:199-200 | After the push the heap size is the overlap at the start of the pushed span |
| PeakOverlap.OverlapAtSomeStart | src/pump_research/candidates/epoch_simulation.py:193-201 | Every overlap is attained, or exceeded, by a prefix of the ordered spans at its own last start |
| PeakOverlap.PeakIsAtAStart | src/pump_research/candidates/epoch_simulation.py:193-201 | The largest overlap at a start is the largest over all instants |
| PeakOverlap.OverlapIsCount | src/pump_research/candidates/epoch_simulation.py:193-201 | The overlap at an instant is the number of spans that have begun by it and not ended |
| EpochSimulation.SimulateRows | src/pump_research/candidates/epoch_simulation.py:112-171 | On grouped rows and a positive lifetime: the intervals are exactly those of the rows that start coverage, in row order, and candidate events, promotions and demotions count exactly the rows that start, enter and leave coverage; token counts are set cardinalities, the peak is the true maximum overlap and at most the number of eligible tokens |
| EpochSimulation.ReadRow | src/pump_research/candidates/epoch_simulation.py:124-150 | One turn of the stream keeps the whole relation between the local variables and the rows read so far |
| EpochSimulation.ObserveRow | src/pump_research/candidates/epoch_simulation.py:134-150 | The promote, refresh and demote branches: when coverage is extended, entered and left |
| EpochSimulation.TurnToken | src/pump_research/candidates/epoch_simulation.py:126-133 | A new token counts the previous one and drops its coverage; the same token changes nothing |
| CoverageRule.StartedSpansAre | src/pump_research/candidates/epoch_simulation.py:136-150 | Every interval lasts exactly the lifetime and starts at the receipt of a row that starts coverage: an eligible row with no earlier start of its token in force; and every such row has its interval |
| EpochSimulation.RowFollowsRule | src/pump_research/candidates/epoch_simulation.py:136-150 | The state machine opens, promotes and demotes exactly at the rows that start, enter and leave coverage in row and policy fields |
| EpochSimulation.RunOutIsFollowed | src/pump_research/candidates/epoch_simulation.py:136-150 | Coverage held and run out is that of an earlier start whose lifetime ended, with no row of the token since |
| EpochSimulation.CoverageOfTokenIsDisjoint | src/pump_research/candidates/epoch_simulation.py:136-150 | Coverage intervals of one token never overlap |
| EpochSimulation.EligibleRowIsCovered | src/pump_research/candidates/epoch_simulation.py:136-150 | Every eligible row was received inside a coverage interval of its own token |
| EpochSimulation.PromotionsAreConserved | src/pump_research/candidates/epoch_simulation.py:136-150 | Every promotion is undone by a demotion or leaves its token in Tier 1 after its last row |
| EpochSimulation.CountsAreOrdered | src/pump_research/candidates/epoch_simulation.py:136-154 | Demotions <= promotions <= coverage openings for every row list |
| EpochSimulation.OverlapCountsTokens | src/pump_research/candidates/epoch_simulation.py:136-154 | At every instant the intervals in force belong to distinct tokens |
| EpochSimulation.PeakCountsTokens | src/pump_research/candidates/epoch_simulation.py:136-154 | The peak is the largest number of tokens covered at one instant, hence at most the eligible tokens |
| EpochSimulation.PeakOfCoverage | src/pump_research/candidates/epoch_simulation.py:154 | The sweep applied to the recorded coverage gives that peak |
| CandidatePolicy.EvaluateTargets | src/pump_research/candidates/policy.py:220-332 | For every record and current tier, the exact condition of each target: deep review only from Tier 2 or 3, Tier 2 only from Tier 1 or 2, Tier 4 never, coverage exactly for eligible records |
| CandidatePolicy.EvaluateRaisesByOne | src/pump_research/candidates/policy.py:246-332 | One evaluation raises the tier by at most one step |
| CandidatePolicy.EvaluateCoverageIsFuture | src/pump_research/candidates/policy.py:246-332 | Granted coverage ends after the evaluation time |
| CandidatePolicy.AcceptedIsPast | src/pump_research/candidates/policy.py:74-92 | A record that passes its own checks holds no receipt from after its evaluation |
| CandidatePolicy.EvaluateLifetimeAndReason | src/pump_research/candidates/policy.py:220-332 | How long the coverage of each target lasts, and the reason of each decision |
| CandidatePolicy.MeetsByVolume | src/pump_research/candidates/policy.py:95-103 | For known positive liquidity the ratio threshold is a bound on the volume |
| CandidatePolicy.DeepReviewInFields | src/pump_research/candidates/policy.py:246-281 | The four deep-review reasons in the fields of the record and the policy |
| CandidateTiers.CandidateRepository.DecideTarget | src/pump_research/candidates/repository.py:98-178 | Watermark guards, Tier 3 budget, hysteresis and refresh decide the specified tier, or nothing |
| CandidateTiers.CandidateRepository.RecordTransition | src/pump_research/candidates/repository.py:180-306 | The coverage budget, the state row and the schedule row become the specified ones |
| CandidateTiers.CandidateRepository.WriteOverlay | src/pump_research/candidates/repository.py:267-306 | The overlay columns of one schedule row after a transition |
| CandidateTiers.CandidateRepository.ApplyEvaluation | src/pump_research/candidates/repository.py:74-324 | One transaction is the specified step on both tables, and its result reports the step |
| CandidateTierRule.LateRecordChangesNothing | src/pump_research/candidates/repository.py:98-129 | An older record, or one at the same watermark that would demote, changes nothing |
| CandidateTierRule.RefreshedExactly | src/pump_research/candidates/repository.py:162-178 | A decision that keeps the stored tier is recorded if and only if it is eligible, the tier is not Tier 0, the record passes the watermark guards, the stored coverage is absent or over, the next evaluation is due and the stored evidence differs |
| CandidateTierRule.MovedExactly | src/pump_research/candidates/repository.py:98-161 | A decision for another tier is recorded if and only if it passes the watermark guards and neither the Tier 3 limit nor coverage in force holds it back |
| CandidateTierRule.HeldBackExactly | src/pump_research/candidates/repository.py:130-178 | A decision that is held back keeps the tier and is recorded exactly when it refreshes |
| CandidateTierRule.RecordedCoverage | src/pump_research/candidates/repository.py:180-201 | Coverage is written to both rows exactly when the token is above Tier 0, its schedule row exists and a slot is free |
| CandidateTierRule.RecordedState | src/pump_research/candidates/repository.py:234-266 | The other columns of the recorded state row; no other row changes |
| CandidateTierRule.RefreshExtends | src/pump_research/candidates/repository.py:162-306 | A refresh keeps the tier, stores the new evidence and, with a slot, sets both expiries to the new coverage end |
| CandidateTierRule.GrantAccelerates | src/pump_research/candidates/repository.py:272-299 | What a grant writes to each column of the schedule row |
| CandidateTierRule.NoGrantOnlyClears | src/pump_research/candidates/repository.py:267-306 | Without a grant only the overlay of a Tier 0 token or an overlay that ran out is cleared |
| CandidateTierRuns.StepKeepsTier3Budget | src/pump_research/candidates/repository.py:130-153 | No step, whatever the decision, takes the Tier 3 rows above the limit |
| CandidateTierRuns.StepKeepsCoverageBudget | src/pump_research/candidates/repository.py:180-201 | No step takes the schedules with coverage in force above the limit, extensions of active rows included |
| CandidateTierRuns.StepOnlyAdvances | src/pump_research/candidates/repository.py:105-129 | The pair (input watermark, tier rank) of every record never decreases, and other records do not change |
| CandidateTierRuns.StepKeepsSchedulesWellFormed | src/pump_research/candidates/repository.py:267-306 | Overlay columns stay all null or all set with a positive interval, and retired rows stay off the due queue |
| CandidateTierRuns.GrantOnlyTightens | src/pump_research/candidates/repository.py:272-299 | Granting coverage never postpones the due time, raises the priority number or widens an interval |
| CandidateTierRuns.SettledCoverageAgrees | src/pump_research/candidates/repository.py:234-306 | A recorded step writes the same coverage expiry to the state row and the schedule row, whatever they held before |
| CandidateTierRuns.StepKeepsAgreement | src/pump_research/candidates/repository.py:234-306 | Every policy decision, even one taken against a stale tier, keeps the scheduled expiry equal to the recorded one unless the scheduler had cleared it after it ran out |
| CandidateTierRuns.StepKeepsEquality | src/pump_research/candidates/repository.py:234-306 | Every policy decision, at any time and against any tier, keeps the two expiries exactly equal for every token |
| CandidateTierRuns.Tier0NeedsNoCoverage | src/pump_research/candidates/repository.py:154-161 | A token returns to Tier 0 only when no coverage of its record is in force |
| CandidateTierRuns.RunKeepsBudgets | src/pump_research/candidates/repository.py:130-201 | Both global budgets hold in every state of every run whose times do not go back, with scheduler writes in between |
| CandidateClockSkew.StepKeepsHighCoverageExactly | src/pump_research/candidates/repository.py:180-201 | For a clock at or behind the highest time so far, a step from within the coverage limit at that time exceeds it there if and only if it extends coverage that was in force at its own time, had run out at that time, and meets a full limit |
| CandidateClockSkew.RunKeepsBudgetsExactly | src/pump_research/candidates/repository.py:130-201 | For times in any order, both budgets hold after every event at the highest time so far if and only if no evaluation does that |
| CandidateClockSkew.InOrderNeverOverfills | src/pump_research/candidates/repository.py:180-201 | With times that do not go back no evaluation does |
| CandidateClockSkew.SkewedClockOverfills | src/pump_research/candidates/repository.py:180-201 | A run of accepted records in which a clock that is behind takes two tokens into one slot |
| CandidateTierRuns.RunKeepsAgreement | src/pump_research/candidates/repository.py:234-306 | In every state of a one-epoch run with scheduler writes, schedule rows are well formed and the scheduled expiry is the recorded one unless the scheduler cleared it after it ran out |
| CandidateTierRuns.RunKeepsEquality | src/pump_research/candidates/repository.py:234-306 | In every run of evaluations alone, in any order of times, the two expiries stay exactly equal |
| CandidateTierRuns.RunOnlyAdvances | src/pump_research/candidates/repository.py:105-129 | Over any run, with times in any order, every record only advances |
| CandidateTiers.CandidateRepository.Evaluate | src/pump_research/candidates/service.py:56-86 | Reading the tier, evaluating and applying as one step is the specified step |
| CandidateTierRuns.AtomicEntries | src/pump_research/candidates/service.py:56-86 | With an atomic tier read, Tier 3 is entered only from Tier 2, Tier 2 only from Tier 1, Tier 4 never |
| CandidateTierRuns.EveryRungIsClimbed | src/pump_research/candidates/service.py:56-86 | In an atomic run a token stood on every rung below the one it stands on |
| CandidateTierRuns.LadderIsSkippedExactly | src/pump_research/candidates/service.py:64-86 | With a tier read at any earlier time, the exact condition under which Tier 3 or Tier 2 is entered; reading the stored tier implies the rung below |
| StaleTierRead.StaleReadEntersTier3FromTier1 | src/pump_research/candidates/service.py:64-86 | Under every policy with room in Tier 3, a run from empty tables with accepted records in order, in which one evaluation read a tier that was stored earlier, enters Tier 3 from Tier 1 |
| CandidateTierRuns.ReplayRaisesOrStays | src/pump_research/candidates/service.py:168-232 | Re-applying a recorded evidence record changes nothing or strictly raises the tier |
| CandidateTierRuns.ReplayOnlyRaises | src/pump_research/candidates/service.py:168-232 | After the first recorded transition every replay raises the tier or stays |
| CandidateTierRuns.ReplayReachesFixedPoint | src/pump_research/candidates/service.py:168-232 | Three more replays reach a state that no further replay changes |
| CandidateTierRuns.ThreeReplaysChange | src/pump_research/candidates/service.py:168-232 | At most three replays change the tables, whichever replays are rolled back |
| CandidateTasks.TaskRepository.CreateTask | src/pump_research/candidates/repository.py:625-664 | Inserts a pending row once; an existing id is left alone |
| CandidateTasks.TaskRepository.ClaimTasks | src/pump_research/candidates/repository.py:326-409 | Leases the first claimable unlocked rows in order, within the budget left in the current minute, each with its own new lease |
| CandidateTasks.TaskRepository.LeaseRows | src/pump_research/candidates/repository.py:384-409 | The loop leases the rows one after another, each with its own new lease |
| CandidateTasks.TaskRepository.RoomLeft | src/pump_research/candidates/repository.py:340-355 | The room left in the current minute, never negative |
| CandidateTasks.TaskRepository.LeaseRow | src/pump_research/candidates/repository.py:385-407 | One row gets a new lease and is charged one attempt |
| CandidateTasks.SelectRows | src/pump_research/candidates/repository.py:356-383 | ORDER BY with LIMIT: the least rows, in order, and no omitted row precedes a chosen one |
| CandidateTasks.First | src/pump_research/candidates/repository.py:374-378 | The row that precedes all others |
| CandidateTasks.TaskRepository.CompleteTask | src/pump_research/candidates/repository.py:411-451 | Completion by the lease holder; repeating the stored result is accepted, another result is a conflict, a lost lease raises |
| CandidateTasks.TaskRepository.FailTask | src/pump_research/candidates/repository.py:453-471 | Failure by the lease holder: terminal exactly when no attempt is left, otherwise delayed retry |
| CandidateTasks.TaskRepository.DeferTask | src/pump_research/candidates/repository.py:473-490 | Deferral by the lease holder gives the attempt back |
| CandidateTaskRule.OnlyOpenRowsAreClaimed | src/pump_research/candidates/repository.py:356-383 | Only unlocked rows that are due, of a wanted type, with an attempt left, and waiting or with a lease that is over are handed out |
| CandidateTaskRule.ClaimsAreFirstInOrder | src/pump_research/candidates/repository.py:374-383 | Rows are handed out in order, and a row is left out only for earlier ones that use up the room |
| CandidateTaskRule.ClaimTakesAllThereIsRoomFor | src/pump_research/candidates/repository.py:340-383 | As many rows are handed out as there are open rows, as the limit and as the minute budget allow |
| CandidateTaskRule.WaitingRowIsClaimed | src/pump_research/candidates/repository.py:356-383 | An unlocked waiting row that is due, of a wanted type and with an attempt left is handed out when there is room |
| CandidateTaskRule.LiveLeaseIsLeftAlone | src/pump_research/candidates/repository.py:361-364 | A claim leaves a row alone whose lease is not over |
| CandidateTaskRule.LiveLeaseIsExclusive | src/pump_research/candidates/repository.py:361-364 | While all claims come before the expiry and no event uses the lease, the row does not change over any run |
| CandidateTaskRule.CreatedRow | src/pump_research/candidates/repository.py:625-664 | A new row waits from now on without lease, attempt or result; an existing one is kept |
| CandidateTaskRule.ClaimedRow | src/pump_research/candidates/repository.py:385-407 | What a claim writes to each column of a row |
| CandidateTaskRule.CompletedRow | src/pump_research/candidates/repository.py:411-451 | What completion writes, and when it is refused |
| CandidateTaskRule.FailedRow | src/pump_research/candidates/repository.py:453-471 | What a failure writes, with and without an attempt left |
| CandidateTaskRule.DeferredRow | src/pump_research/candidates/repository.py:473-490 | What a deferral writes |
| CandidateTaskRuns.ClaimRowsEffect | src/pump_research/candidates/repository.py:384-409 | Leasing row after row: each row once, each with a distinct lease, all other rows untouched |
| CandidateTaskRuns.RunKeepsOk | src/pump_research/candidates/repository.py:326-505 | Over any interleaving: claimed iff a lease is held, leases are distinct, attempts stay in bounds, waiting rows have an attempt left, a result exactly when succeeded |
| CandidateTaskRuns.FencedClaimIsPowerless | src/pump_research/candidates/repository.py:492-505 | A superseded or used claim can never again fail, defer or change a row, in any later state |
| CandidateTaskRuns.ClaimFencesEarlierClaims | src/pump_research/candidates/repository.py:384-409 | A claim fences every claim of the same row handed out before |
| CandidateTaskRuns.UseFencesTheClaim | src/pump_research/candidates/repository.py:411-490 | Completing, failing or deferring fences the claim that did it |
| CandidateTaskRuns.TerminalIsForEver | src/pump_research/candidates/repository.py:411-471 | Succeeded and failed rows never change again, results included |
| CandidateTaskRuns.LastAttemptIsNotReclaimed | src/pump_research/candidates/repository.py:356-366 | A row that used its last attempt is never claimed again, even after its lease expired |
| CandidateTaskRuns.LastAttemptIsStuck | src/pump_research/candidates/repository.py:356-366 | Unless its own worker reports, a row leased for its last attempt stays exactly as it is over every run, also after its lease expired |
| CandidateTaskRuns.ExpiredClaimIsReclaimedExactly | src/pump_research/candidates/repository.py:356-383 | A claim with room for all candidates takes over an unlocked row with an expired lease if and only if the row has an attempt left |
| CandidateTaskRuns.LastAttemptIsReachable | src/pump_research/candidates/repository.py:356-409 | Creating and claiming a row with one attempt leads to such a row |
| CandidateTaskRuns.AttemptsAreConserved | src/pump_research/candidates/repository.py:384-490 | Over any run the attempt count changes by claims minus effective deferrals and by nothing else |
| CandidateTaskRuns.ClaimKeepsMinute | src/pump_research/candidates/repository.py:340-353 | A claim keeps the rows last claimed in its minute within the budget, also when it takes over rows already claimed in that minute |
| CandidateTaskRuns.RunKeepsMinute | src/pump_research/candidates/repository.py:340-353 | For claim times that do not go back, at every later moment the rows last claimed in the current minute are within the budget |
| Base58.Base58Encode | src/pump_research/collection/security.py:376-383 | The division loop writes the specified text |
| Base58.DecodeEncode | src/pump_research/collection/security.py:376-383 | Every byte string of any length, leading zero bytes included, is recovered by the decoder, and the text uses only the alphabet |
| Base58.EncodeDecode | src/pump_research/collection/security.py:376-383 | Every text over the alphabet is the encoding of the bytes it decodes to |
| Base58.EncodeIsInjective | src/pump_research/collection/security.py:376-383 | Different byte strings have different texts |
| Base58.CharDigit | src/pump_research/collection/security.py:65 | The alphabet repeats no character: positions can be read back |
| Base58Rule.AlphabetExactly | src/pump_research/collection/security.py:65 | The alphabet is exactly the digits and letters without 0, O, I and l, in ascending order |
| Base58Rule.TextIsNumber | src/pump_research/collection/security.py:376-383 | A text has a leading 1 for every leading zero byte, and its other characters are the digits of the same number to base 58 |
| Base58Rule.FirstDigitIsMostSignificant | src/pump_research/collection/security.py:378-382 | Digits are read most significant first |
| Base58Rule.OneByteText | src/pump_research/collection/security.py:376-383 | One text written out |
| MintAccount.Token2022Extensions | src/pump_research/collection/security.py:324-352 | The offset loop computes the specified record walk and stays in bounds on every input |
| MintAccount.ReadExtension | src/pump_research/collection/security.py:337-351 | One turn reads the record at the offset or reports which part is truncated |
| MintAccount.WalkLayout | src/pump_research/collection/security.py:333-352 | Any record list that ends visibly, under any zero padding, reads back exactly |
| MintAccount.WalkRoundTripExactly | src/pump_research/collection/security.py:333-352 | A laid-out list reads back if and only if its last record is not the empty record of type 0, which cannot be told from padding |
| MintAccount.WalkTiles | src/pump_research/collection/security.py:333-352 | On every accepted input the records and all-zero padding tile the bytes exactly |
| MintAccount.FieldsRead | src/pump_research/collection/security.py:280-296 | The base fields read back whatever follows them |
| MintAccount.Token2022RoundTrip | src/pump_research/collection/security.py:247-312 | The account object of a laid-out Token-2022 mint with any extensions, filler and padding decodes to its own fields and extensions |
| MintAccount.BaseRoundTrip | src/pump_research/collection/security.py:247-312 | The account object of a classic mint, or of a Token-2022 mint of exactly base size, decodes to its own fields without extensions |
| MintAccount.AcceptedIsLaidOut | src/pump_research/collection/security.py:247-352 | Every accepted account object belongs to a supported program and its bytes are the layout of what it decodes to |
| MintAccount.AuthorityTextIsFaithful | src/pump_research/collection/security.py:315-321 | Equal decoded authority texts come from equal public keys |
| MintRule.FieldsByOffset | src/pump_research/collection/security.py:280-312 | The fields of an accepted mint by the offsets of their bytes: tags and keys, the little-endian supply, decimals, the initialized flag |
| MintRule.AcceptedExactly | src/pump_research/collection/security.py:247-352 | Exactly the accounts of a supported program with both tags valid and, for an extended Token-2022 account, the account type of a mint and records that tile the rest |
| MintRule.RefusedByFirstCheck | src/pump_research/collection/security.py:247-352 | The error of a refused account is that of the first check it fails |
| MintRule.WalkExactly | src/pump_research/collection/security.py:333-352 | The walk reads exactly the records that, with zero padding, tile the bytes |
| MintRule.WalkFails | src/pump_research/collection/security.py:337-343 | A walk that fails has read whole records and met a header or a body that is cut short |
| MintRule.RecordBytes | src/pump_research/collection/security.py:340-345 | One record in bytes: type and length with the lowest byte first, then the body |
| ArchiveCatalog.ArchiveCatalogStore.ClaimArchiveScope | src/pump_research/archive_catalog.py:54-142 | Claims a free or expired scope with a new token, hands out the manifest of a sealed one, and raises in the specified cases without a change |
| ArchiveCatalog.ArchiveCatalogStore.MarkArchiveExported | src/pump_research/archive_catalog.py:145-181 | Only the holder of the current claim records a manifest |
| ArchiveCatalog.ArchiveCatalogStore.MarkArchiveVerified | src/pump_research/archive_catalog.py:184-219 | Seals the scope exactly when the digest is the recorded one |
| ArchiveCatalog.ArchiveCatalogStore.MarkArchiveFailed | src/pump_research/archive_catalog.py:222-260 | Records a failure only while the claim is current; otherwise does nothing |
| ArchiveCatalog.ArchiveCatalogStore.RecordCopyVerification | src/pump_research/archive_catalog.py:263-344 | Records a copy only of a sealed scope with its own digests, a secondary only with an independence assertion |
| ArchiveCatalog.ArchiveCatalogStore.EvaluateRetentionEligibility | src/pump_research/archive_catalog.py:347-461 | Eligible exactly when every check passes |
| ArchiveCatalogRule.BusyScopeIsLeftAlone | src/pump_research/archive_catalog.py:119-127 | A claim on a scope whose export lease is not over fails and leaves the catalog unchanged |
| ArchiveCatalogRule.LiveExportIsExclusive | src/pump_research/archive_catalog.py:119-142 | Until its lease is over a scope in export does not change over any run, unless its worker reports or it is verified |
| ArchiveCatalogRule.GrantedClaim | src/pump_research/archive_catalog.py:128-142 | What a granted claim writes and keeps, and what it hands out |
| ArchiveCatalogRule.SealedOrForeignClaim | src/pump_research/archive_catalog.py:106-118 | A scope of another source is refused; of a sealed one the recorded path is handed out and nothing changes |
| ArchiveCatalogRule.ExportedScope | src/pump_research/archive_catalog.py:145-181 | What reporting an export writes; without the claim it is lost |
| ArchiveCatalogRule.VerifiedScope | src/pump_research/archive_catalog.py:184-219 | What verification writes; another digest is refused |
| ArchiveCatalogRule.FailedScope | src/pump_research/archive_catalog.py:222-260 | What a failure writes; without the claim nothing |
| ArchiveCatalogRule.CopiedScope | src/pump_research/archive_catalog.py:263-344 | What recording a copy writes, and each way it is refused |
| ArchiveCatalogRule.RetentionExactly | src/pump_research/archive_catalog.py:347-461 | An evaluation marks the scope eligible if and only if it is proved, not failed, copied twice and past its hot age in a valid, closed epoch and the current schema; otherwise nothing changes |
| ArchiveCatalogRule.ProvedScopeIsReleased | src/pump_research/archive_catalog.py:347-461 | A scope for which all of this holds is marked eligible |
| ArchiveCatalogRule.EligibleScopeHasItsHistory | src/pump_research/archive_catalog.py:347-461 | In every run from the empty catalog an eligible scope was evaluated past its hot age in a valid, closed epoch; before that the verification in force covered its whole source, and before that a verification passed the reads |
| ArchiveCatalog.StepKeepsSeal | src/pump_research/archive_catalog.py:54-461 | No operation unseals a scope or changes the manifest of a sealed one |
| ArchiveCatalog.StepKeepsCopies | src/pump_research/archive_catalog.py:263-344 | Every recorded copy belongs to a sealed scope and carries its digests |
| ArchiveCatalog.StepKeepsEligible | src/pump_research/archive_catalog.py:347-461 | A retention eligible scope has a primary and an independent secondary copy |
| ArchiveCatalog.RunKeepsOk | src/pump_research/archive_catalog.py:54-461 | All of this in every state of every run, and exporting iff a claim token is held, sealed iff verified |
| ArchiveCatalog.SealIsForEver | src/pump_research/archive_catalog.py:184-461 | Over every run a sealed scope stays sealed with the same manifest path and digests |
| ArchiveCatalog.FencedClaimIsPowerless | src/pump_research/archive_catalog.py:492-501 | A superseded claim can never again mark the scope exported or failed |
| ArchiveCatalog.ClaimFencesEarlier | src/pump_research/archive_catalog.py:119-142 | A new claim fences every earlier claim of the scope |
| ArchiveCatalog.UseFencesClaim | src/pump_research/archive_catalog.py:145-260 | Marking exported or failed fences the claim |
| ArchiveCatalog.VerificationFencesClaims | src/pump_research/archive_catalog.py:184-219 | Verification succeeds exactly on the recorded digest, needs no claim, and fences whoever holds one |
| ArchiveCatalog.VerificationOvertakesClaim | src/pump_research/archive_catalog.py:184-219 | From an empty catalog: claim, export, claim again, verify seals the scope while the second claim is held |
| ArchiveCatalog.SealedClaimIsReadOnly | src/pump_research/archive_catalog.py:115-118 | The claim handed out for a sealed scope can change nothing |
| ArchiveCatalog.NoManifestPathExactly | src/pump_research/archive_catalog.py:115-118 | The "no manifest path" error needs an empty recorded path: a sealed scope always has a manifest |
| ArchiveCatalog.NoManifestPathIsUnreachable | src/pump_research/archive_catalog.py:115-118 | In every run whose exports all report a path the error never occurs |
| ArchiveExport.ExportOne | src/pump_research/archival.py:1016-1114 | However the stream is chunked, the files are the specified split of the whole stream and the entries describe them |
| ArchiveExport.WriteChunk | src/pump_research/archival.py:1095-1107 | The inner loop writes one chunk whole, whatever files it spans |
| ArchiveExport.WriteFront | src/pump_research/archival.py:1097-1107 | Writing the front of a batch keeps files and open part equal to the stream so far |
| ArchiveExport.UpdatePartState | src/pump_research/archival.py:1163-1194 | The statistics after a batch are those of all rows seen |
| ArchiveExport.StatsDescribe | src/pump_research/archival.py:1117-1194 | Statistics are the row count, the least and greatest timestamp and identifier that occur, and the number of nulls per column |
| ArchiveExportRule.EntriesDescribe | src/pump_research/archival.py:1016-1160 | The entries of an export are numbered in order, one for each file, and describe it |
| ArchiveExportRule.ContentIsLines | src/pump_research/archival.py:1544-1555 | The digested text is the canonical text of the rows in order, one line each |
| ArchiveExportRule.NullRowsAreCounted | src/pump_research/archival.py:1191-1193 | The null count of a column is the number of rows in which it is null |
| ArchiveExport.ContentIsFaithful | src/pump_research/archival.py:1544-1555 | The digested text determines the canonical text of every row |
| ArchiveExport.SplitProperties | src/pump_research/archival.py:1094-1111 | Files concatenate to the stream, all but the last are full, none is over the limit, only an empty stream has an empty file |
| ArchiveExport.FullPartsAreSplit | src/pump_research/archival.py:1094-1111 | Full closed files and an open part are the split of their concatenation, so boundaries do not depend on chunking |
| ArchiveExport.VerifyEntry | src/pump_research/archival.py:1234-1281 | Reading in any batches, accepts exactly the entry that describes the file, and otherwise names the first part that differs |
| ArchiveExport.ExportAgreesWithVerification | src/pump_research/archival.py:1016-1281 | Every exported file passes verification against its own entry, and any file that passes has the same canonical rows |
| ArchiveExport.VerifySourceCounts | src/pump_research/archival.py:1197-1231 | Accepts exactly when every group that occurs exported as many rows as its source holds |
| ArchiveExportRule.GroupTotalAdds | src/pump_research/archival.py:1203-1210 | A group total adds up the rows of its own entries and no others |
| ArchiveExport.DailyRanges | src/pump_research/archival.py:1591-1599 | The ranges tile the scope, each non-empty and inside one UTC day |
| ArchiveExport.SelectSplits | src/pump_research/archival.py:1591-1599 | A half-open filter over a range is the filter over its two halves, as multisets |
| ArchiveExportRule.SelectExactly | src/pump_research/archival.py:1591-1599 | A range selects the rows from its start up to but not at its end, each as often as the table holds it |
| ArchiveExportRule.SelectInOrder | src/pump_research/archival.py:1591-1599 | ... in the order of the table |
| ArchiveExport.EachRowExportedOnce | src/pump_research/archival.py:1591-1599 | Exporting day by day, by the column the query of the family filters on, exports every selected row exactly once |
| ArchiveCopy.ObjectStore.PutFile | src/pump_research/archive_storage.py:61-82 | An existing object is only compared; a new one is stored and read back |
| ArchiveCopy.CopyArchive | src/pump_research/archive_storage.py:300-334 | One run over the data files, the digest of the manifest and the manifest is the specified one, and a verified run leaves every object canonical |
| ArchiveCopy.OrderedIsManifestLast | src/pump_research/archive_storage.py:320-322 | The upload order ends with the manifest, under a key of its own if and only if no other object has that key |
| ArchiveCopy.ExistingIsCompared | src/pump_research/archive_storage.py:61-68 | An existing object is left as it is, and the upload returns normally exactly when it is canonical |
| ArchiveCopy.NewIsStored | src/pump_research/archive_storage.py:69-82 | What a new upload stores, and that it returns normally exactly when the stored object is canonical |
| ArchiveCopy.CopyFirstExtends | src/pump_research/archive_storage.py:300-323 | A run replaces nothing, adds only keys of the archive, and the prefix it completes is canonical |
| ArchiveCopy.CopyKeepsComplete | src/pump_research/archive_storage.py:322-334 | A run makes the manifest visible only after all other objects are stored and checked |
| ArchiveCopy.CopyIsCrashSafe | src/pump_research/archive_storage.py:300-334 | Over any number of interrupted, damaged and retried runs one after another, with foreign writes between, a visible manifest has its whole archive behind it and nothing stored is replaced |
| ArchiveCopy.InterleavedCopiesAreCrashSafe | src/pump_research/archive_storage.py:324-334 | The same for any number of copies that interleave upload by upload, and a copy that finished left every object canonical |
| ArchiveCopyRaces.RequestIsSafeExactly | src/pump_research/archive_storage.py:141-176 | With an upload split into lookup, unconditional write and readback, a request keeps the race safe if and only if it does not write damaged bytes over an object that a visible manifest or another copy relies on |
| ArchiveCopyRaces.RaceIsSafeExactly | src/pump_research/archive_storage.py:141-176 | From a store without the manifest, every moment of a race of any copies is safe if and only if no request does that |
| ArchiveCopyRaces.FaithfulStoreIsSafe | src/pump_research/archive_storage.py:141-176 | On a store that keeps the bytes it is sent every race is safe |
| ArchiveCopyRaces.FaithfulStoreReplacesNothing | src/pump_research/archive_storage.py:141-176 | On such a store no race replaces or removes an object of the archive |
| ArchiveCopyRaces.LateDamageIsUnsafe | src/pump_research/archive_storage.py:141-176 | A race of two copies in which a late damaged write leaves a visible manifest over a wrong object |
| ArchiveCopy.CleanRunSucceedsExactly | src/pump_research/archive_storage.py:324-334 | A run without faults succeeds if and only if no key already holds different content |
| ArchiveCopy.RetryCompletes | src/pump_research/archive_storage.py:61-82 | On a store that checks before it stores, one clean run completes the copy after any interruptions |
| ChangeLog.ChangeLogRepository.RecordIfChanged | src/pump_research/persistence/enrichment.py:94-155 | Stores a changed record once per identity, drops repeats and empty records, raises when an identity maps to other content |
| ChangeLogRule.RecordExactly | src/pump_research/persistence/enrichment.py:94-155 | In the columns of the record and the rows: an empty record, or one whose content the newest row holds, is dropped; a changed one is stored once under its identity, found again, or refused when the identity holds other content |
| ChangeLogRule.RunKeepsIdsUnique | src/pump_research/persistence/enrichment.py:144-155 | Every run stores one row for each identity |
| ChangeLog.AsOfIsLatestVisible | src/pump_research/persistence/enrichment.py:689-704 | The as-of query returns the latest row received by the moment, by receipt time then id |
| ChangeLog.FreshChangesRefine | src/pump_research/persistence/enrichment.py:120-155 | With increasing receipt times and no replayed identity the change-only log answers like the full log at every moment |
| ChangeLog.ReplayBreaksRefinement | src/pump_research/persistence/enrichment.py:144-155 | The first change that replays a stored identity is answered wrongly at its own receipt time, for ever |
| ChangeLog.ReplayExists | src/pump_research/persistence/enrichment.py:144-155 | Such a replay: a stored identity that comes back after another content |
| ChangeLog.RefinesExactly | src/pump_research/persistence/enrichment.py:120-155 | The refinement holds if and only if no changed record replays a stored identity |
| ChangeLog.DistinctIdsRefine | src/pump_research/persistence/enrichment.py:144-155 | Distinct identities are enough |
| ChangeLog.NoRepeatedRows | src/pump_research/persistence/enrichment.py:121-128 | No two consecutive stored rows are equal, and rows stay in receipt order |
| ChangeLogAnyOrder.RefinesStepExactly | src/pump_research/persistence/enrichment.py:120-155 | For records in any order, ties and replays included: a record received while the stored log answers like the full log keeps it so if and only if the log already answers it at its receipt time, or it is stored and overtaken in time, or it is dropped and never is the answer |
| ChangeLogAnyOrder.AlwaysRefinesExactly | src/pump_research/persistence/enrichment.py:120-155 | At every moment of a run the stored log answers like the full log if and only if every record met that condition when it was received |
| ChangeLogAnyOrder.InOrderOnlyReplaysFail | src/pump_research/persistence/enrichment.py:120-155 | For increasing receipt times only a changed record under a stored identity fails the condition |
| ChangeLogAnyOrder.OutOfOrderBreaksRefinement | src/pump_research/persistence/enrichment.py:121-128 | A witness out of order: three records after which the answers differ |
| BoostEvents.RecordEvents | src/pump_research/persistence/enrichment.py:376-428 | The events of one stored observation, in metric and threshold order |
| BoostEvents.RecordMetric | src/pump_research/persistence/enrichment.py:384-428 | First sight, change and crossings of one metric |
| BoostEvents.CrossingsShareDirection | src/pump_research/persistence/enrichment.py:401-428 | Every crossing has the direction of the change event of the same step and metric |
| BoostEvents.StepDirections | src/pump_research/persistence/enrichment.py:413-428 | One step crosses a threshold at most once, exactly when it changes sides, and upwards exactly when it ends at or above |
| BoostRule.StepEventsExactly | src/pump_research/persistence/enrichment.py:384-428 | A step records exactly once each event its values call for and nothing else: a first sight when a value appears, a change when two values differ, a crossing of each of the four thresholds that the change passes |
| BoostRule.StepEventsInOrder | src/pump_research/persistence/enrichment.py:376-428 | The events come metric by metric, each change before its crossings in threshold order |
| BoostRuns.BoostRepository.RecordIfChanged | src/pump_research/persistence/enrichment.py:289-374 | Stores a changed observation once per identity and keeps the event log equal to the events of the stored rows, each compared with the newest row before it |
| BoostRuns.TelescopesFurtherExactly | src/pump_research/persistence/enrichment.py:317-428 | A run that telescopes so far still does with one more row if and only if the newest stored row is on the side of the row stored last |
| BoostRuns.AlwaysTelescopesExactly | src/pump_research/persistence/enrichment.py:317-428 | While a metric stays present, at every moment of a run crossings alternate and ups minus downs is the change of side between the first and last row, if and only if that held each time a row was stored |
| BoostRuns.CrossingsTelescope | src/pump_research/persistence/enrichment.py:317-428 | Rows stored in receipt order, ties by id, telescope |
| BoostRuns.ReceivedInOrderTelescopes | src/pump_research/persistence/enrichment.py:289-428 | So do the rows stored from records received at increasing times |
| BoostRuns.OutOfOrderCrossesTwice | src/pump_research/persistence/enrichment.py:317-428 | A witness out of order: one threshold is crossed upwards twice in a row |
| AsOfQueries.LatestIsVisible | src/pump_research/research/asof.py:291-316 | The latest fact is visible and no visible fact has a greater key |
| AsOfQueries.SameLatest | src/pump_research/research/asof.py:314-316 | The latest fact depends only on the visible facts, not on tuple order |
| AsOfQueries.SameSorted | src/pump_research/research/asof.py:164-170 | Sorting permuted facts with unique ids gives the same list |
| AsOfQueries.SortedIsUnique | src/pump_research/research/asof.py:164-170 | Two ordered lists with the same members are equal |
| TokenStateAsOf.SelectPairLoop | src/pump_research/research/asof.py:272-288 | The dictionary loop and the maximum of its values select the specified pair |
| TokenStateAsOf.LatestOfPairIsLast | src/pump_research/research/asof.py:276-277 | The dictionary holds exactly the last observation of each pair that occurs |
| TokenStateAsOf.SelectedPairIsUniqueMaximum | src/pump_research/research/asof.py:279-288 | The selected pair is the unique maximum of the ranking over the latest observation of each pair |
| TokenStateAsOf.NoFutureInformation | src/pump_research/research/asof.py:70-237 | Two histories with the same facts visible at t, in any order and with any future facts, give the same state |
| TokenStateAsOf.AnswersAgreeExactly | src/pump_research/research/asof.py:70-269 | The answers of two such histories agree if and only if both pass validation or both fail it |
| TokenStateAsOf.FutureFactCanInvalidate | src/pump_research/research/asof.py:240-269 | Any valid history can be made invalid by one future fact that changes nothing visible |
| TokenStateAsOf.WatermarkIsPast | src/pump_research/research/asof.py:176-206 | The availability watermark and the admission time are at most the decision time |
| TokenStateFields.LifecycleField | src/pump_research/research/asof.py:291-302 | The lifecycle fact is the visible one of greatest decision time and id, and absent exactly when none is visible |
| TokenStateFields.AdmissionField | src/pump_research/research/asof.py:98-105 | The admission is the earliest visible decision to state NEW, and absent exactly when there is none |
| TokenStateFields.CoverageField | src/pump_research/research/asof.py:106-113 | The coverage fact is the visible one of greatest effective time, decision time and id |
| TokenStateFields.CandidateField | src/pump_research/research/asof.py:114-121 | The candidate fact is the visible one of greatest time and id |
| TokenStateFields.CandidateTierField | src/pump_research/research/asof.py:122-129 | The tier fact is the visible one of greatest time and id |
| TokenStateFields.SelectedPairField | src/pump_research/research/asof.py:272-288 | No pair is selected exactly when no observation is visible; otherwise the last visible observation of the selected pair outranks that of every other pair |
| TokenStateFields.ObservationFields | src/pump_research/research/asof.py:130-132 | The history holds the visible observations of the selected pair in order, and the current one is its last |
| TokenStateFields.PairFactField | src/pump_research/research/asof.py:133-140 | The pair fact is the latest visible one of the selected pair |
| TokenStateFields.BoostFields | src/pump_research/research/asof.py:141-148 | The boost, the one before it and the first receipt are those of the visible boosts in order |
| TokenStateFields.MetadataField | src/pump_research/research/asof.py:149-149 | The metadata is the latest visible one of its own list |
| TokenStateFields.SecurityField | src/pump_research/research/asof.py:150-150 | The security fact is the latest visible one of its own list |
| TokenStateFields.ContextField | src/pump_research/research/asof.py:172-179 | The context is the visible one of greatest receipt, bucket end and id |
| TokenStateFields.SnapshotFields | src/pump_research/research/asof.py:151-191 | Each snapshot is the latest fact of its own family that was available at the time |
| TokenStateFields.EventFields | src/pump_research/research/asof.py:164-195 | Each event list holds the facts of its own family that were available at the time, in order |
| TokenStateFields.IdentityField | src/pump_research/research/asof.py:200-202 | The identity is known exactly when a discovery, an observation, a lifecycle, a candidate or a tier fact is visible |
| TokenStateFields.WatermarkField | src/pump_research/research/asof.py:180-199 | The watermark is the greatest time of the facts that the state was built from |
| TokenStateFields.AnsweredExactly | src/pump_research/research/asof.py:76-84 | An invalid epoch is refused unless allowed, then an invalid fact of any time is; everything else is answered |
| DiscoveryBuffer.PumpPortalSource.Put | src/pump_research/discovery/pumpportal.py:337-357 | The reader appends at the end; a full queue takes nothing |
| DiscoveryBuffer.PumpPortalSource.NextEnvelope | src/pump_research/discovery/pumpportal.py:268-284 | Deferred envelopes come first, then the queue |
| DiscoveryBuffer.PumpPortalSource.TakeEnvelopes | src/pump_research/discovery/pumpportal.py:184-197 | Takes exactly the front of the buffer, up to the batch size |
| DiscoveryBuffer.PumpPortalSource.SortEnvelopes | src/pump_research/discovery/pumpportal.py:199-211 | Sorts the envelopes before the first parse failure by kind, in order |
| DiscoveryBuffer.PumpPortalSource.FetchBatch | src/pump_research/discovery/pumpportal.py:171-220 | Serves the pending batch again, or a new one from the front, or raises the failure in front |
| DiscoveryBuffer.PumpPortalSource.AcknowledgeBatch | src/pump_research/discovery/pumpportal.py:222-229 | Releases the pending batch; another batch raises and changes nothing |
| DiscoveryBuffer.ConsumeRemovesFront | src/pump_research/discovery/pumpportal.py:199-205 | Taking the front and pushing back the rest removes exactly what was used |
| DiscoveryRule.FetchOfFront | src/pump_research/discovery/pumpportal.py:171-220 | A new batch holds the front of the buffer up to the size and the first parse failure, each envelope under its kind and in order, removes it and waits for acknowledgement |
| DiscoveryRule.FetchOfFailure | src/pump_research/discovery/pumpportal.py:171-220 | A parse failure in front is raised and removed, and nothing else is |
| DiscoveryRule.FetchOfNothingNew | src/pump_research/discovery/pumpportal.py:171-183 | A closed source raises, a pending batch is served again, an empty buffer gives an empty batch |
| DiscoveryRule.KindsExactly | src/pump_research/discovery/pumpportal.py:199-211 | Which list each kind of envelope goes to, in order |
| DiscoveryRule.AcknowledgedExactly | src/pump_research/discovery/pumpportal.py:222-229 | Only the pending batch can be acknowledged, and nothing but it is released |
| DiscoveryRuns.RunCoordinator | src/pump_research/collection/discovery.py:53-110 | Fetch, commit, then acknowledge, stopped anywhere, is the specified step |
| DiscoveryRule.RunExactly | src/pump_research/collection/discovery.py:53-110 | A run commits the fetched batch once, unless it raised or stopped before, and acknowledges it only after the commit |
| DiscoveryRuns.RunKeepsOk | src/pump_research/collection/discovery.py:53-110 | In every run, deliveries, pending batch and buffer together hold everything produced, once and in order; acknowledged batches were committed; no batch is too large or hides a failure |
| DiscoveryRuns.EveryKindInOrder | src/pump_research/collection/discovery.py:53-110 | Kind by kind nothing is lost, duplicated or reordered, and every parse failure is raised exactly once or still buffered |
| DiscoveryRuns.FailureIsRaisedInTurn | src/pump_research/collection/discovery.py:53-110 | A failure is raised only when everything produced before it was acknowledged and committed, or raised |
| DiscoveryRuns.PendingIsServedAgain | src/pump_research/discovery/pumpportal.py:171-220 | A pending batch is served unchanged, whatever arrives, until it is acknowledged |
| DiscoveryRuns.RunMakesProgress | src/pump_research/discovery/pumpportal.py:171-229 | A run without faults delivers something whenever anything is outstanding |
| DiscoveryRuns.EverythingIsDelivered | src/pump_research/discovery/pumpportal.py:171-229 | As many such runs as envelopes are outstanding deliver everything produced |

## Left out

- CandidateTiers.CandidateRepository.ApplyEvaluation: the nomination and tier event rows, the policy snapshot and the creation of analysis work are not part of the step; an integrity conflict in them rolls the transaction back and so changes nothing.
- CandidateTierRuns.RunKeepsAgreement: the poll scheduler appears only through what it may write to the overlay columns (it removes an expired overlay and adds rows without one); its own rules are not modelled.
- CandidateTasks.TaskRepository.CompleteTask: evidence and failure detail columns and the event rows are left out.
- MintAccount.Token2022Extensions: the table of extension names and the shape checks of the decoded account object beyond owner, pair and base64 are left out; an extension body stands for its digest.
- ArchiveExport.VerifyEntry: the checks for a missing file, its file digest and its schema, and the column-store integrity query, are left out; a file holds the rows written to it.
- ArchiveExport.ExportOne: compressed sizes, paths and disk capacity are left out.
- ArchiveCopy.CopyArchive: the length check is part of the content comparison, and a re-verification of the copied manifest cannot fail on lossless storage; an S3 request is served at one moment, and its failures are stops of the copy.
- ArchiveCatalog.ArchiveCatalogStore.EvaluateRetentionEligibility: the evaluation rows and event log are left out, and the epoch's facts are inputs.
- ChangeLog.AsOfIsLatestVisible: one log is one deduplication scope; a query over several scopes of one token merges them by the same key.
- EpochSimulation.SimulateRows: the database query is an input in its stated order; rates and rounding are left out.
- DiscoveryRuns.RunKeepsOk: the reader's reconnects, gap identifiers, checkpoints and a reader that stopped are left out; the coordinator's namespace checks raise before anything is written, like a stop before the commit.
- The enrichment security queue (`TokenSecurityTaskRepository`) is a simpler leased queue without budgets; the candidate queue covers its questions.
- Boost wake-up selection, evidence gathering and the feature contract of as-of states: reads and field copies.
- Time zone checks, text normalisation, bounded display columns and JSON forms.
- Network clients, retry libraries, configuration, command line, monitoring and process supervision.
