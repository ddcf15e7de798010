# The coverage ledger, proved

Sierpe indexes Stellar ledgers for registered contracts and tells its clients which part of a
contract's history it can vouch for. That claim rests on two tables. The gap table promises
ledgers that were skipped; the backfill table holds, per contract, a walk that descends from an
anchor towards a target and may be clamped at the oldest ledger a source still serves. This
project models the transactions that move the two tables, the workers that issue them and the
answers computed from them, and proves that the claims are true.

**The main result** is end to end: in every state any run reaches, every ledger a row declares
was derived for that contract under every kind the row covers
(`Runs.DeclaredLedgersWereDerived`), and a `COMPLETE` answer means every ledger of the bounded
query was derived (`Runs.CompleteIsTrueInEveryRun`). The derived facts are not bookkeeping the
steps may set freely: a fact (contract, kind, ledger) counts as derived once every row that
extraction yields for it is stored (`Storage.Backed`, `Scan.RowsOfFact`).

How the files build on each other:

| file | what it holds |
|---|---|
| `Basics`, `Ranges` | 32-bit sequences, ledger ranges, maximal runs |
| `HealPlan` | normalizing a replay plan and partitioning one gap's remainder |
| `GapLedger` | the debt: what recording, reopening and planning do to the promised ledgers |
| `Coverage` | the invariant over both tables, and every transaction keeping it |
| `Api` | the declared range and the scan status |
| `Runs`, `Release` | whole runs of transactions; when a clamped row is let go |
| `Storage` | the store as a class, one method per transaction, each tied to its step |
| `Extract`, `ExtractLoop`, `Scan` | one ledger's rows, locality, ranges and shared scans |
| `Decoding`, `Rows` | what an event states, and that a ledger's rows are exactly what its events and changes call for |
| `Walk`, `Backfiller`, `BackfillRound`, `BackfillRun` | the chunk grid, the group scan with its cache, one whole round, round after round |
| `HealWorkers`, `Healing` | healer workers as a concurrent step system, and the healer as a class |
| `Canonical`, `Gate` | canonical change order and the equivalence gate |
| `LiveLoop` | the hash-chained live loop over restarts |
| `Snapshot`, `Wasm` | the convergent state snapshot and the wasm section walk |
| `Limits` | concrete runs in which a hypothesis fails and a row lies |

State that the program updates in place is a class here (`Store`, `Backfiller`, `Healer`,
`Loop`, `Result`, `StateSnapshot`); its methods state the whole new state through a relation or
function, and the lemmas are proved about that relation. A predicate of the form
`forall x :: AtPoint(..., x)` states a table relation row by row.

## Hypotheses the code does not check

`Runs.Granted` and `HealWorkers.Touches` list what a step may take for granted. Where one of
the following fails the code is kept as it is, and the exact condition is proved:

- A plan keeps the debt if and only if no resolved row has the range of a planned piece
  (`GapLedger.PlanConservesDebtIffNoTwin`); `Limits.ResolvedTwinMakesARowLie` is a concrete
  plan and heal after which a row declares ledgers 1 to 63 that nobody derived.
- A heal commit discharges only what its chunk replayed if and only if the stored watermark is
  not above the listed one (`Coverage.DischargesOnlyReplayedIffNotRewound`).
- A backfill chunk keeps its row honest under every history the tables allow if and only if
  the row was not re-anchored above the scan and gained no kind
  (`Coverage.WalkHonestIffStillListed`).
- A registration that starts a walk is honest under every history the tables allow if and only
  if its anchor is not behind the cursor (`Coverage.AnchoredHonestIffNotBehindCursor`).
- A registration made before any cursor exists vouches from `nextTo + 1` on; however long
  ingestion has run since, that is true if and only if the first live ledger adjoins it
  (`Limits.EarlyRegistrationHonestIffFirstLedgerAdjoins`).
- Registering writes the kinds and the walk in two transactions. Torn between them, a kind is
  covered that nobody extracts if and only if an unfinished walk covers a dropped kind
  (`BackfillRun.TornRegistrationIffKindDropped`).
- A read that finds no row, fails, or finds a row without the kind vouches from the cursor
  ledger on, so `COMPLETE` is answered for exactly the query that is the cursor ledger alone
  (`Api.FallbackVouchesForTheCursorLedger`). The answer is true under every history if and only
  if a row covering the kind vouches for that ledger: never without such a row, and after a
  failed read of a pending one exactly when its watermark is below the cursor
  (`Api.FallbackIsTrueIffVouched`). The comment at that branch says it vouches for nothing below
  the tip; the code includes the tip.
- A clamped row is let go by the heals that close the gap ending at its wall. A clamp leaves its
  row waiting at such a gap if and only if one is there (`Release.ClampWaitsIffAGapEndsThere`),
  and recording what lies below the wall leaves one if and only if no open gap reached across the
  wall (`Release.RecordedGapMeetsTheWallIff`). `Limits.ClampUnderAGapStaysClamped` is a run in
  which one does: everything is healed, no gap is open, and the row still answers
  `OLDEST_REACHED`.

Three more are assumptions about the outside, stated as hypotheses without an exact condition:
snapshots hold every clamped registration when a heal replays; they hold every registration
whose anchor was passed when a ledger is ingested; sources serve the chain the facts are about.

The doc comment of `canonicalizeChanges` speaks of sorting units without saying which vectors
come out unambiguous. Since XDR opens each unit with its length and the discriminant of its
first change, units sort apart, and the if-and-only-if holds for every vector, well formed or
not (`Canonical.EqualIffSameUnits`).

## Model

| member | source | states |
|---|---|---|
| Runs.RunsAreHonest | internal/store/heal.go:79-183 | the two-table invariant holds in every state of every run of registrations, deletions, walks, clamps, gap records, plans, reopens, heals and live ledgers |
| Runs.DeclaredLedgersWereDerived | internal/store/backfill.go:263-307 | in every reachable state each ledger from just above a row's watermark to the cursor was derived under each covered kind |
| Runs.CompleteIsTrueInEveryRun | internal/api/api.go:302-321 | in every reachable state a COMPLETE answer from a row covering the kind means every ledger of the query was derived |
| Runs.StepKeepsInv | internal/store/heal.go:79-183 | one committed transaction of any sort keeps the invariant |
| Runs.PromiseSurvivesIffServed | internal/store/heal.go:105-121 | a promise to a contract survives one step exactly when what a heal discharges of it was derived for that contract; no other step discharges any |
| Runs.PromiseSurvives | internal/ingest/backfill.go:259-274 | from any state of a run to any later one, a promise to a contract stays derived or owed as long as the heals in between serve it, so a gap recorded before a clamp still stands when the clamp commits |
| Release.RunsKeepRowsWaiting | internal/store/heal.go:143-180 | in a run whose clamps each meet an open gap ending at the wall, every clamped row waits at the wall of an open gap in every state |
| Release.NoOpenGapNoClamp | internal/store/heal.go:168-180 | once such a run has no open gap it has no clamped row, and every finished row declares its whole target range, all of it derived |
| Release.StepKeepsWaiting | internal/store/heal.go:143-166 | every step keeps each clamped row at an open gap's wall, a clamp only if one ends at its wall |
| Release.ClampWaitsIffAGapEndsThere | internal/ingest/backfill.go:303-309 | a clamp leaves its row waiting exactly when an open gap ends at its wall |
| Release.RecordedGapMeetsTheWallIff | internal/store/store.go:235-301 | recording what lies below a wall leaves an open gap ending there exactly when no open gap reached across the wall |
| Release.HealsNeverReleaseAStrandedRow | internal/store/heal.go:127-180 | a row no open gap ends at the wall of is moved by no heal, whatever is healed |
| Release.PlanMovesWalls | internal/store/plan.go:149-162 | a re-pointed clamp meets the top piece of the split gap |
| Api.CompleteNeverLies | internal/api/api.go:302-321 | under the invariant COMPLETE implies every ledger from FromLedger to ToLedger is derived for the contract and kind |
| Api.StatusTellsWhatIsAnswered | internal/api/api.go:302-321 | for any read, COMPLETE exactly when every ledger asked for is ingested and vouched for, WAITING_FOR_LEDGERS exactly when one is yet to come, OLDEST_REACHED exactly when none is and one is not vouched for; more rows go first, and an underived kind is never COMPLETE |
| Api.HealedIsAnswered | internal/store/heal.go:127-180 | after a heal commit every bounded query above the new watermark and the row's target is COMPLETE for each kind of a row clamped at the gap |
| Api.ClampedIsAnswered | internal/ingest/backfill.go:303-309 | after a clamped chunk every bounded query from the wall up is COMPLETE |
| Api.FinishedIsAnswered | internal/api/api.go:272-281 | a finished row that is not clamped answers COMPLETE for every bounded query down to its target |
| Api.DerivedInEveryHistoryIffVouched | internal/api/api.go:259-276 | a ledger was derived in every history the tables are consistent with exactly when a covering row's watermark or wall vouches for it |
| Api.FallbackVouchesForTheCursorLedger | internal/api/api.go:259-271 | with no row, a failed read or a row without the kind, COMPLETE is answered for exactly the one-ledger query at the cursor |
| Api.FallbackIsTrueIffVouched | internal/api/api.go:259-271 | that answer holds in every consistent history exactly when a covering row vouches for the cursor ledger: never without one, after a failed read of a pending row exactly when its watermark is below the cursor |
| Api.CoverageOf | internal/api/api.go:236-281 | the declared bounds, pending flag and clamp for every way of reading the row, a failed read included |
| Coverage.RecordGapKeepsInv | internal/store/store.go:235-301 | recording a gap keeps the invariant and promises the whole range to every contract under every kind |
| Coverage.ReopenKeepsInv | internal/store/plan.go:180-194 | rewinding gaps keeps the invariant |
| Coverage.PlanKeepsInv | internal/store/plan.go:57-98 | a plan without a resolved twin keeps the invariant, clamps re-pointed by splits included |
| Coverage.PlanningTwiceChangesNothing | internal/store/plan.go:57-98 | applying a plan a second time changes no gap, watermark, mode or clamp |
| Coverage.PlanKeepsRow | internal/store/plan.go:135-163 | re-pointing a clamp to the top of a split gap's remainder leaves nothing underived between the two walls |
| Coverage.HealKeepsInv | internal/store/heal.go:79-183 | a heal commit keeps the invariant, and a resolving one leaves no row clamped at the resolved wall |
| Coverage.HealLowersFrontier | internal/store/heal.go:127-180 | the frontier of a row clamped at the healed gap comes down to the new watermark, handed down or not, and to its target - 1 exactly when the clamp is cleared |
| Coverage.HealLowersDebt | internal/store/heal.go:105-121 | a commit lowers the number of owed ledgers by exactly those between the two watermarks |
| Coverage.ResolutionSettles | internal/store/heal.go:168-180 | a row no open gap below reaches is closed at target - 1, and its whole target range is derived |
| Coverage.ResolutionRepoints | internal/store/heal.go:143-166 | any other row waits at the wall of the highest open gap below, which reaches its target, and everything from that wall up is derived |
| Coverage.HealedDownToWatermark | internal/store/heal.go:127-133 | a row clamped at the healed gap has its history down to the new watermark |
| Coverage.PromiseSurvivesHealIffServed | internal/store/heal.go:105-121 | a promise to a contract survives a heal commit exactly when everything the commit discharges of it is derived for that contract |
| Coverage.HealKeepsPromise | internal/store/heal.go:105-121 | a promise to a contract survives each heal commit that replayed its part of the chunk |
| Coverage.DischargesOnlyReplayedIffNotRewound | internal/store/heal.go:110-121 | a commit discharges only replayed ledgers exactly when the stored watermark is not above the listed one |
| Coverage.EnsureKeepsInv | internal/store/backfill.go:97-184 | registering, extending, adding a kind or narrowing keeps the invariant, given that a walk it starts is not anchored behind the cursor |
| Coverage.RegistrationIsGranted | internal/store/backfill.go:119-184 | afterwards the row reaches down to the target asked for and covers exactly the kinds asked for; a new kind restarts the walk at the anchor, an older target only moves the floor, and nothing else moves |
| Coverage.RegistrationReopensItsRange | internal/store/backfill.go:97-132 | a registration that asks for history leaves every ledger of its range inside an open gap owed as replay work; any other leaves the gaps alone |
| Coverage.AnchoredHonestIffNotBehindCursor | internal/admin/admin.go:276-297 | a registration that starts a walk keeps the invariant under every consistent history exactly when its anchor is at the cursor or past it |
| Coverage.SameRegistrationIsANoOp | internal/store/backfill.go:144-146 | registering again with nothing new asked for changes nothing |
| Coverage.WalkKeepsInv | internal/ingest/backfill.go:310-313 | a walked chunk keeps the invariant when its scan reaches the row's watermark |
| Coverage.ClampKeepsInv | internal/ingest/backfill.go:303-309 | a clamped chunk keeps it when everything below the wall was promised first |
| Coverage.ClampDeclaresFromTheWall | internal/ingest/backfill.go:303-309 | a clamped chunk brings the watermark below the wall, and no further |
| Coverage.EmptyWalkKeepsInv | internal/ingest/backfill.go:146-158 | closing a walk whose anchor sits below its target keeps it |
| Coverage.DeleteKeepsInv | internal/store/contracts.go:60-80 | deleting a contract keeps it |
| Coverage.LiveKeepsInv | internal/store/store.go:152-203 | ingesting the next ledger keeps it |
| Coverage.WalkHonestIffStillListed | internal/store/backfill.go:263-307 | a chunk from a listed row keeps it honest under every consistent history exactly when the row was not re-anchored above the scan and gained no kind |
| Coverage.Intersect | internal/store/backfill.go:38-50 | keeps exactly the covered kinds still asked for, and everything when nothing was dropped |
| GapLedger.ReopenKeepsPromises | internal/store/plan.go:180-194 | reopening drops no promise, and every ledger of the range inside an open gap is owed again as replay work |
| GapLedger.RecordedIsSound | internal/store/store.go:235-301 | open gaps stay pairwise disjoint with watermarks inside their ranges |
| GapLedger.RecordedOwesTheRange | internal/store/store.go:206-234 | every ledger of the range is owed afterwards, nothing owed before is dropped, and nothing is added but in the range and in the open gaps it overlaps |
| GapLedger.RecordedModes | internal/store/store.go:235-301 | a recorded ledger is replay work unless an open gap already held it, which keeps its own mode |
| GapLedger.CollidingRowReopens | internal/store/store.go:279-298 | a recorded hole can only collide with a resolved row, and that row reopens over its whole range |
| GapLedger.PlannedIsSound | internal/store/plan.go:57-98 | open gaps stay disjoint through any plan |
| GapLedger.PlanConservesDebtIffNoTwin | internal/store/plan.go:135-163 | the owed ledgers are the same before and after exactly when no resolved row shares a cut piece's range |
| GapLedger.PlanConservesTotalIffNoTwin | internal/store/plan.go:135-163 | the number of owed ledgers never grows in a plan and stays the same exactly when no resolved row shares a cut piece's range |
| GapLedger.DebtCountsOwedLedgers | internal/store/plan.go:66-76 | adding up the remainders of the open gaps counts each owed ledger once |
| GapLedger.PlanAssignsModes | internal/store/plan.go:66-82 | each owed ledger ends up as replay work exactly when the plan contains it, deferred otherwise |
| GapLedger.PlanningTwiceIsPlanningOnce | internal/store/plan.go:66-82 | a second application finds nothing to split and leaves every gap row as it is |
| GapLedger.LastPlanWins | internal/store/plan.go:66-82 | after two plans the replay and deferred ledgers are those of the second alone |
| GapLedger.OnePieceMeansAsPlanned | internal/store/plan.go:76-82 | the skip test is right: one piece in the gap's own mode means every owed ledger already has its planned mode |
| HealPlan.NormalizePlan | internal/store/plan.go:216-258 | the plan holds exactly the ledgers within padding of a request, widened to whole checkpoints, saturating and wrapping as 32-bit arithmetic does |
| HealPlan.PadAndSnap | internal/store/plan.go:217-243 | one padded request covers exactly the ledgers sharing a checkpoint with it |
| HealPlan.MergeInPlace | internal/store/plan.go:244-257 | compacting sorted intervals over their own array keeps exactly their ledgers, the wrapped merge test included |
| HealPlan.Partition | internal/store/plan.go:263-284 | pieces tile the range without hole or overlap, alternate modes, and are replay exactly where the plan is |
| HealPlan.TilesAreThePieces | internal/store/plan.go:263-284 | the tiling is unique: it lists exactly the maximal stretches the plan treats alike |
| HealPlan.RenormalizingIsIdentity | internal/store/plan.go:216-258 | normalizing a normalized plan without padding asks for the same ledgers |
| Storage.Store.RecordGap | internal/store/store.go:235-301 | the gap table becomes exactly the recorded one: touched gaps rewound, each hole promised, nothing else changed |
| Storage.UncoveredRanges | internal/store/store.go:305-332 | the holes are exactly the complement of sorted, possibly overlapping ranges, ascending and never adjacent |
| Ranges.SeparatedListsRuns | internal/store/store.go:305-332 | such a list is the list of maximal uncovered runs |
| Storage.Store.ReopenGaps | internal/store/plan.go:180-194 | every open gap touching the range owes it all again as replay work, no other row changes |
| Storage.Store.PlanHeal | internal/store/plan.go:57-98 | both tables end up as the plan step says, for the replay set of the raw request list |
| Storage.Store.ReconcileGap | internal/store/plan.go:70-92 | one listed gap is left alone or split, extending what was reconciled so far |
| Storage.Store.SplitGap | internal/store/plan.go:135-163 | the gap is gone, its pieces stand unless a surviving row has their range, and rows clamped at it follow the top of its remainder |
| Storage.Store.ListOpenGaps | internal/store/heal.go:48-71 | exactly the open replay gaps, highest first |
| Storage.Store.CommitHealChunk | internal/store/heal.go:79-183 | refused exactly when the gap is not open; otherwise the heal step, whose frontiers and clamps `Coverage` states, and the stored records |
| Storage.Store.MoveRows | internal/store/heal.go:127-180 | the four row updates in order equal the healed rows |
| Storage.Store.EnsureBackfill | internal/store/backfill.go:97-184 | the registration step: fresh, extended, re-anchored, narrowed or untouched row, and the reopened gaps |
| Storage.Store.CommitBackfillChunk | internal/store/backfill.go:263-307 | refused exactly when the row is gone; otherwise the watermarks and records of the chunk |
| Storage.Store.ListPendingBackfills | internal/store/backfill.go:212-243 | exactly the unfinished walks with a registration, each once |
| Storage.Store.CommitLedger | internal/store/store.go:152-203 | the cursor never moves back, the first record of a sequence stays, the ring drops what is more than 1000 behind |
| BackfillRun.Register | internal/admin/admin.go:265-301 | the two transactions of a registration leave every pending walk with a registration that extracts all it covers and, once a cursor exists, keep the invariant; the walk is anchored 20 ledgers past the cursor, or at 0 without one |
| BackfillRun.RegistrationKeepsRegistered | internal/store/backfill.go:97-184 | with the contract's kinds stored, ensuring its walk leaves every pending walk with a registration that extracts all it covers |
| BackfillRun.TornRegistrationIffKindDropped | internal/store/contracts.go:37-54 | after the upsert alone that still holds exactly when no unfinished walk of the contract covers a dropped kind |
| Storage.Store.DeleteContract | internal/store/contracts.go:60-80 | the registration and its walk go together |
| Storage.IntersectKinds | internal/store/backfill.go:38-50 | computes the kept kinds in stored order |
| Extract.ExtractionIsLocal | internal/extract/extract.go:76-112 | a contract's rows of a kind, in order, are the same under every snapshot watching it for the kind as under one watching nothing else |
| Extract.LedgerYieldsOnlyWatched | internal/extract/extract.go:76-112 | no row is attributed to a contract the snapshot does not watch for the kind |
| Extract.SidesAreParties | internal/extract/movements.go:21-40 | a side the decoder names always stands among the topics the cheap pre-check looks at |
| Decoding.DecodesExactlyWhatIsStated | internal/extract/transfers.go:33-143 | on every event: a movement is read exactly when all topics are addresses or strings, the addresses stand where its type puts the payer and the payee, the last string is its asset, and the payload carries its amount and muxed id |
| Decoding.TransferPaysTheSecond | internal/extract/transfers.go:56-61 | a transfer goes from its first address to its second, whatever form its payload takes |
| Decoding.BurnPaysNobody | internal/extract/transfers.go:68-73 | a burn takes from its address and names no recipient |
| Decoding.TransferNeedsTwoAddresses | internal/extract/transfers.go:56-60 | a transfer with any other number of addresses is rejected |
| Rows.EventRowsAreTheEvents | internal/extract/extract.go:142-191 | a ledger's event rows are exactly one for each event a watched contract emitted in a successful transaction, at the event's own place |
| Rows.TransferRowsAreTheMovements | internal/extract/extract.go:192-221 | its transfers are exactly the movements stated by events of contracts watched for transfers |
| Rows.MovementRowsAreTheWatchedSides | internal/extract/movements.go:42-79 | its movements are exactly the watched sides of stated movements, whoever emitted them: the payer's row names the payee and the payee's the payer |
| Rows.StateRowsAreTheChanges | internal/extract/extract.go:272-402 | its state rows are exactly those of watched contracts' data changes, each side's value on its own side |
| Rows.TrustlineRowsAreTheChanges | internal/extract/trustlines.go:46-107 | its trustline rows are exactly those of changes to assets whose wrapping contract is watched, flags from the newest side |
| Rows.PlacesTellEventsApart | internal/extract/extract.go:150-161 | no two events of a ledger share a transaction and an index |
| Rows.TxsAreCounted | internal/extract/extract.go:118-138 | a failed transaction counts as failed, a broken one once as suppressed, no other counts |
| Rows.UndecodedIsCounted | internal/extract/extract.go:205-218 | an event that opens like a movement and states none counts as suppressed for a watched emitter, and as foreign when a watched contract is among its topics |
| Extract.BothGenerationsDecodeAlike | internal/extract/transfers.go:33-103 | classic and unified mints and clawbacks decode to the same movement |
| Extract.BuildTransfer | internal/extract/transfers.go:33-103 | the loop computes the positional decoding, and rejects what it rejects |
| Extract.DecodeTransferData | internal/extract/transfers.go:107-143 | the amount and muxed id of a bare or mapped payload, or nothing |
| Extract.ParticipatesWatched | internal/extract/movements.go:21-40 | true exactly when some topic past the name is a contract watched for movements |
| ExtractLoop.ExtractEvent | internal/extract/extract.go:160-236 | one event appends its own row, its transfer and its movements, and counts what it suppressed |
| ExtractLoop.TxEvents | internal/extract/extract.go:142-239 | events are indexed across operations before filtering |
| ExtractLoop.TxLedgerChanges | internal/extract/extract.go:250-269 | changes are indexed before filtering, state and trustline rows appended |
| ExtractLoop.ProcessTx | internal/extract/extract.go:118-138 | failed transactions are counted, broken ones suppressed once, the rest extracted |
| ExtractLoop.Events | internal/extract/extract.go:76-112 | the whole ledger's rows and counters |
| Scan.SharedScanIsFaithful | internal/ingest/backfill.go:413-444 | a shared scan holds for every member exactly its private scan, and nothing for anybody else |
| Scan.RangeIsLocal | internal/ingest/backfill.go:457-497 | over a range too, a contract's rows do not depend on who else is watched |
| Walk.WalkTakesOneCommitPerCell | internal/ingest/backfill.go:203-205 | an unclamped walk from a to t takes (a-1)/2000 - (t-1)/2000 + 1 commits |
| Walk.ChunksTileTheHistory | internal/ingest/backfill.go:203-205 | its chunks tile [t..a], none spans more than a cell, and only the last closes it |
| Walk.ChunkFrom | internal/ingest/backfill.go:203-205 | the next floor is the target or a grid line, in the watermark's own cell |
| BackfillWorker.Backfiller.ScanRange | internal/ingest/backfill.go:457-497 | a scan that succeeds is what the chain yields over consecutive, hash-linked ledgers; when the source serves exactly the ledgers from some point on, it succeeds exactly when the range starts there or above |
| BackfillWorker.Backfiller.ReadBatch | internal/ingest/backfill.go:466-481 | a batch is accepted exactly when its ledgers are consecutive and hash-linked |
| BackfillWorker.Backfiller.FindWall | internal/ingest/backfill.go:501-521 | under a monotone source the wall is the least served ledger of the range, or one past it |
| BackfillWorker.Backfiller.CachedScan | internal/ingest/backfill.go:373-384 | the cache answers exactly when range and kinds match the last scan, and its result is faithful for every requesting registration |
| BackfillWorker.Backfiller.CommitOne | internal/ingest/backfill.go:314-323 | one contract stores exactly its private scan of the scanned range |
| BackfillWorker.Backfiller.CommitGroup | internal/ingest/backfill.go:295-327 | each contract the database takes moves and stores its private scan, each refused one stays, and the invariant holds |
| BackfillWorker.Backfiller.PromiseBelow | internal/ingest/backfill.go:259-274 | before anything is clamped every ledger from each target to the wall is owed, unless the database refuses a target |
| BackfillWorker.Backfiller.ProcessGroup | internal/ingest/backfill.go:215-368 | whatever the source, cache, look-ahead and database do, exactly the committed members moved one chunk with their private rows, and the invariant holds; under a monotone source every member the database takes moves, and an uncached chunk clamps exactly at the oldest served ledger; a scan that is not cut leaves the group and the one ahead of it in the cache |
| BackfillWorker.FaithfulPart | internal/ingest/backfill.go:413-444 | partitioning a shared result by contract gives each member its private rows |
| BackfillWorker.PrivateRowsDerive | internal/ingest/backfill.go:310-323 | storing a private scan derives every ledger it spans |
| BackfillRound.Round | internal/ingest/backfill.go:125-197 | whether the listing fails, the database refuses or the worker is cancelled between cells, a round moves each pending walk by at most one chunk and no other row, stores nothing but private scans of the chunks it moved walks by, keeps the invariant, and reports work exactly when a row moved; when nothing fails every pending walk moves, to the floor of its chunk where it is served |
| BackfillRun.Run | internal/ingest/backfill.go:106-118 | round after round the invariant holds; when nothing fails every served walk makes exactly one step a round |
| BackfillRun.OneRoundPerCell | internal/ingest/backfill.go:203-205 | such steps finish a walk at its target, unclamped, after one per grid cell it crosses, and not before |
| BackfillRun.WalkFinishesInOneRoundPerCell | internal/ingest/backfill.go:106-205 | after a run of failure-free rounds a served walk is done, exactly when there were as many rounds as cells, whatever else is pending |
| BackfillRun.RegisteredIsWalked | internal/store/backfill.go:146-184 | a registration that asks for history, then enough failure-free rounds: the row is done, unclamped, covers exactly the kinds asked for and declares every ledger from the target asked for |
| BackfillRun.RegisterAndWalk | internal/admin/admin.go:265-301 | registering and walking end to end: where nothing fails and the range is served, every bounded query from the target on is COMPLETE for every kind |
| BackfillRound.GroupScansOneCell | internal/ingest/backfill.go:134-165 | a group's scan never leaves its 2000-ledger grid cell |
| BackfillRound.GroupsShareNobody | internal/ingest/backfill.go:141-165 | no walk is in two groups |
| BackfillRound.WhoComesNextIsAhead | internal/ingest/backfill.go:180-192 | every walk that asks for this grid cell next round is among those the scan extracts for ahead |
| BackfillRound.GroupJobs | internal/ingest/backfill.go:141-165 | empty walks are closed unless refused, every other one stands in the group of its floor with the top at the highest watermark, and none is passed over |
| HealWorkers.WorkersRefineTheLedger | internal/ingest/heal.go:206-241 | under any interleaving each worker move leaves the tables alone or is one legal ledger step, so the invariant holds |
| HealWorkers.ChunksInFlightAreDisjoint | internal/ingest/heal.go:244-261 | no gap is in two workers' hands and the chunks they replay never overlap |
| HealWorkers.NoCommitBeforeTheGate | internal/ingest/heal.go:144-158 | every commit is preceded by a passed gate |
| HealWorkers.NoCommitAfterAFailedGate | internal/ingest/heal.go:187-197 | once a comparison failed nothing is ever committed in that run |
| HealWorkers.StaleCommitDropsNothing | internal/ingest/heal.go:303-309 | a commit from however stale a list leaves no promised ledger neither derived nor owed |
| HealWorkers.CommitIsALegalHeal | internal/ingest/heal.go:303-309 | what such a commit discharges beyond its own chunk had been derived already |
| HealWorkers.CommitKeepsListing | internal/ingest/heal.go:206-241 | other workers' lists stay usable through a commit on the same or another gap |
| HealWorkers.UntouchedIsUndisturbed | internal/store/plan.go:135-194 | a transaction of anybody else that does not touch a listed range leaves the listing as good as it was |
| HealWorkers.ReplayFrom | internal/ingest/heal.go:265-270 | the chunk ends at the watermark, starts no lower than the floor, and is full unless it reaches it |
| Healing.Healer.HealChunk | internal/ingest/heal.go:265-332 | succeeds exactly when the gap is open and the chunk replays; then it commits exactly the rows the chain yields for the snapshot, else nothing changes |
| Healing.Healer.Claim | internal/ingest/heal.go:244-255 | takes the first listed gap nobody heals, or none when all are claimed |
| Healing.Healer.Work | internal/ingest/heal.go:206-241 | one turn heals one chunk of the topmost free replay gap, unless there is none or it does not replay; the invariant holds and the claim is given back |
| Healing.CommitLowersDebt | internal/ingest/heal.go:265-332 | the commit of a gap as it stands pays off exactly the ledgers of its chunk |
| Healing.Healer.ReplayRange | internal/source/captive/captive.go:104-132 | succeeds exactly on a valid range whose ledgers come out numbered as asked and hash-linked, and yields what the chain yields over it |
| Healing.Healer.ProveEquivalence | internal/ingest/heal.go:187-203 | healing opens only when the sample behind the cursor was replayed and agrees with copies the RPC served, and always does when it agrees with whatever an RPC that answers in order serves |
| Healing.Healer.AwaitVerified | internal/ingest/heal.go:166-203 | goes on waiting exactly while no replay gap is open, and healing then opens exactly on a passed comparison of the sample |
| Healing.Healer.Run | internal/ingest/heal.go:144-241 | nothing is committed unless the sample was proven against the RPC; the invariant holds turn by turn; where the core replays whatever it is asked for, each turn heals one chunk until no replay gap is open, and as many turns as ledgers are owed always get there |
| Healing.ReplayServesClampedRows | internal/ingest/heal.go:272-309 | storing a replay derives the chunk for every clamped row the snapshot holds |
| Canonical.CanonicalizeChanges | internal/ingest/heal.go:461-491 | the result consists of exactly the vector's units, each STATE with its partner, in encoding order |
| Canonical.EqualIffSameUnits | internal/ingest/heal.go:456-491 | two vectors, any vectors, canonicalize to the same one exactly when they hold the same units |
| Canonical.CanonicalIsAPermutation | internal/ingest/heal.go:461-491 | no change is added, lost or altered |
| Canonical.CanonicalKeepsStatesWithTheirChanges | internal/ingest/heal.go:461-491 | each STATE right before its UPDATED or REMOVED stands right before it afterwards |
| Canonical.CanonicalizingTwiceIsOnce | internal/ingest/heal.go:461-491 | canonicalizing is idempotent |
| Canonical.SortedUnitsCutApart | internal/ingest/heal.go:484-490 | sorting never puts a closing change right behind a lone STATE |
| Gate.VerifyEquivalence | internal/ingest/heal.go:339-402 | passes only when the eight sampled ledgers were replayed and each is equivalent to a copy that stands in an answer of the RPC; always passes when the replay agrees with whatever an RPC that answers in order serves; names the first ledger that diverges |
| Gate.NormalFormsDecide | internal/ingest/heal.go:408-454 | comparing normal forms decides equality up to debug output and unit order |
| Gate.CheckpointBehind | internal/ingest/heal.go:344-353 | the sample ends on a checkpoint ledger between one and two cadences behind the cursor |
| LiveLoop.Loop.Run | internal/ingest/loop.go:113-229 | how ingestion begins and which refusals end it before, exactly; whatever the source answers and wherever it stops, the committed ledgers extend one contiguous hash chain that cursor and ring agree with; a restart whose source feeds the chain commits the fed ledgers one a turn, as they were fed; with an honest source and snapshots that hold, turn by turn, each row whose anchor was passed, the coverage invariant holds too |
| LiveLoop.Loop.ResumePoint | internal/ingest/loop.go:233-265 | a restart resumes exactly behind the last committed ledger, armed with its hash, unless a tip shows it beyond the 32-bit slack, which alone is a reset; a fresh start takes the configured ledger or the tip, and fails exactly when there is no tip |
| LiveLoop.Loop.Take | internal/ingest/loop.go:158-205 | refused exactly when misnumbered or naming another predecessor, and then nothing is written |
| LiveLoop.Loop.Turn | internal/ingest/loop.go:131-227 | one answer of the source decides whether ingestion stops, waits or commits exactly that ledger |
| LiveLoop.CommitExtendsChain | internal/store/store.go:174-200 | a commit that extends the chain keeps the cursor on its last ledger and the ring a contiguous suffix |
| LiveLoop.CursorOnlyAdvances | internal/store/store.go:175-184 | across restarts the cursor never moves back |
| LiveLoop.RingIsBounded | internal/store/store.go:194-200 | the ring never holds more than 1001 ledgers |
| LiveLoop.LedgerServesRows | internal/ingest/loop.go:174-203 | storing a ledger's rows derives it for every row past its anchor that the snapshot watches |
| Snapshot.StateSnapshot.ApplyStateEntries | internal/store/state.go:84-131 | each key's last change in the batch lands unless a newer ledger's entry is there |
| Snapshot.SnapshotConverges | internal/store/state.go:80-131 | after any batches in any order, overlapping or repeated, each entry is the last change of its key among all ledgers seen, tombstones included |
| Snapshot.EntryTellsTheNewestChange | internal/store/state.go:97-131 | an entry exists exactly when a ledger seen changes its key; it is a tombstone without a value exactly when the newest such change is a removal, and otherwise holds that change's value |
| Snapshot.OrderAndRepetitionDoNotMatter | internal/store/state.go:80-131 | two runs that saw the same ledgers leave equal snapshots |
| Wasm.ContractSpecSection | internal/registry/classify.go:200-228 | on any bytes the walk terminates within bounds and computes the specified walk |
| Wasm.SpecIsFoundIffItStands | internal/registry/classify.go:200-228 | a payload is returned exactly when it stands in the bytes as the first contractspecv0 section behind well-formed ones |
| Wasm.WalkInvertsEncoding | internal/registry/classify.go:200-228 | on any module built from sections, however their lengths are spelled, the first spec payload comes back, or none |
| Wasm.Uvarint | internal/registry/classify.go:208-211 | the 64-bit LEB128 reader: value and length of what it accepts, and exactly which buffers it rejects |
| Wasm.EncodedIsALength | internal/registry/classify.go:208-211 | every 64-bit number's LEB128 spelling is accepted and read back |
| Limits.BeforePlanIsReached | internal/store/store.go:235-301 | a run from empty tables reaches the state that plan starts from |
| Limits.ResolvedTwinMakesARowLie | internal/store/plan.go:142-148 | in a reachable state, a concrete plan over a resolved twin, then one legal heal, and a row declares and answers COMPLETE for ledgers nobody derived |
| Limits.ClampUnderAGapStaysClamped | internal/ingest/backfill.go:259-309 | a run in which a row clamps under a gap reaching across its wall: all is derived, no gap is open, and the row stays clamped and answers OLDEST_REACHED |
| Limits.EarlyRegistrationHonestIffFirstLedgerAdjoins | internal/store/backfill.go:119-132 | after any number of live ledgers, a registration made before any cursor tells the truth exactly when the first of them adjoined its anchor |
| Limits.EarlyRegistrationAnswersComplete | internal/api/api.go:272-275 | registered at anchor 0, a chain starting above ledger 1 answers COMPLETE for ledger 1 ever after |

## Left out

- HTTP handlers, auth, configuration, metrics, logging, the UI, timing and backoff: no invariant of their own.
- Postgres: a transaction is one atomic method, a unique key is a map key, `ON CONFLICT` is the branch it writes; timestamps are dropped. A commit whose outcome is lost on the wire is not modelled.
- One network is modelled; every table is keyed by network in the program and rows of different networks never meet.
- A null `heal_next_to` is read as the gap's upper end, so rows here always carry a watermark.
- XDR, strkey, JSON and base64 codecs: a value stands for its encoding; XDR marshalling is total, injective and opens with length and discriminant. Extraction never panics, and the asset-to-contract memo is a function.
- A muxed id keeps its value instead of its printed form, and amounts are unbounded naturals.
- Rows.MovementRowsAreTheWatchedSides: for snapshots whose contracts all have contract addresses, which registration checks.
- The totals `PlanHeal` reports, which add up whole ranges of open gaps and not what is left of them, and the row counts of `ReopenGaps`.
- Writes that land inside another worker's chunk over the same range (`HealWorkers.Touches` excludes them).
- Storage.Store.ListPendingBackfills: the order by last update is not promised, because no timestamps are kept; a round groups by grid cell and takes the cells from the highest down, so the order decides only which member of a group comes first.
- BackfillWorker.Backfiller.CommitGroup: commits in list order; the program sorts members by contract id first, which no member can observe.
- Source answers are arbitrary functions of the call number; a served batch is taken to be non-empty and no longer than asked.
- The byte-level difference report after a failed comparison.
- Gap ranges start at ledger 1, as registration targets do; a range that starts at 0 is not modelled.
- Rows anchored at the last 32-bit ledger are excluded; the watermark above it would not fit.
- `internal/store/trustlines.go` repeats the snapshot fold; it is proved once.
- `specNames` and `toSnakeCase`, cursor codecs, the other query endpoints and the remaining registry code: field-by-field work.
