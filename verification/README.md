# TailState verification model

TailState watches a tailnet, records every change it sees in a signed evidence
ledger, and delivers notifications about the changes. All of its state lives in
SQLite and every store operation is one transaction. This project models the
parts with the strongest promises as values changed by atomic steps, gives the
loops and the stateful objects as Dafny methods and classes proved against those
steps, and proves what the design promises over every input, every run or every
reachable state.

| Core | Files | Main results |
|---|---|---|
| Evidence ledger | `Crypto`, `LedgerSpec`, `LedgerInvariant`, `LedgerEffects`, `LedgerRuns`, `LedgerPrefix`, `LedgerStore` | what every transaction stores, deletes and keeps, prefix uniqueness, anchored checkpoints |
| Audit | `Audit`, `AuditPaging` | the paged audit is the whole audit, which is the chain predicate; what one page and a failure establish |
| History | `History`, `HistoryPaging` | pages are runs, what following cursors covers |
| Evidence packs | `Pack`, `PackExport`, `PackVerify`, `PackSound`, `PackShown`, `PackBounds`, `PackComplete`, `PackTheorem`, `PackChain`, `PackCovers`, `PackRuns`, `PackRejects` | export against verify over every run, soundness of verify, what a pack shows, coverage by a chain of parts |
| Outbox | `OutboxSpec`, `OutboxFence`, `OutboxSafety`, `OutboxOrder`, `OutboxOutcome`, `OutboxRows`, `Routing`, `OutboxStore` | lease fencing, live rows, delivery order, what a claim takes, what every operation leaves |
| Reconciliation | `ReconcileSpec`, `Reconcile`, `ReconcileEvents`, `ReconcileStore` | event log against snapshots, which changes are recorded, removal safety, guard release |
| Field comparison | `Json`, `Diff`, `DiffPatch`, `Differ` | no change means equal, patching, truncation |
| Expiry warnings | `Expiry`, `ExpiryRuns` | which check of a run warns of an item, once per window |
| Digest summaries | `Summary` | every field change in exactly one place |
| Text | `Text` | chunks, fitting, footer and title reservation |
| Shared | `Sets` | ordered choices from finite sets |

Conventions: SHA-256 (section 6.2 of FIPS 180-4) and Ed25519 (section 5.1 of
RFC 8032) are function values. No hash is assumed to be collision free: where a
result needs that, it returns the colliding pair instead. JSON text, base64, hex
and timestamps are trees, strings and integers, and clocks, random tokens,
backoff delays and provider answers are parameters of the steps.

## What the code does not do

Six promises fail on some inputs. For each there is a concrete input that shows
it and the exact condition under which the promise holds.

- **An export is not always accepted by the verifier.** On a new installation
  every export is issued or too large (`PackRuns.RunOutcomes`), and an issued one
  is accepted if and only if no shown value reads as a truncation marker, was
  stored uncut, and differs from that marker in hash or length
  (`PackRuns.RunPackAccepted`; `PackRuns.SincePackAccepted` for the batches that
  an upgraded store has recorded since). A resource whose value was too long for
  its snapshot and then changes has such a value, and so has a provider value
  that happens to have the form of a marker: `PackRejects.OversizedThenChanged`
  and `PackRejects.MarkerShapedValue` are one-poll histories whose pack is issued
  and refused. For rows of older versions, `PackChain.IssuedPackAccepted` names
  what their stored form has to explain.
- **A chain of exports can stop early.** Following continuation cursors completes
  if and only if every cursor it reaches can be exported from
  (`PackCovers.CompletesIff`), which is so when no batch alone exceeds a budget
  (`PackCovers.BudgetsCoverAll`, `PackRuns.RunExportsAll`). A page of matching
  batches that have lost their events stops it although older batches are due
  (`PackRejects.UpgradedStops`); batches recorded by polls never do
  (`PackRuns.OnlyLegacyBlocks`). A first batch whose checkpoint link is older
  than the newest 10000 links of the page is refused as too large.
- **The mass-removal guard holds two polls only when no failure is on record.**
  `docs/monitoring.md:42` and the comment at `internal/store/snapshots.go:451-455`
  promise two guarded responses. The guard counts responses in the collector's
  failure count, so with a failure on record it holds only one
  (`Reconcile.GuardHoldsTwiceIff`). Such a state is reached by the very first
  poll when that is a partial answer (`Reconcile.GuardHoldsOnce`).
- **A complete field list does not always give the new value back.** A non-empty
  identified list that becomes null or absent is reported exactly like one that
  becomes empty (`DiffPatch.VanishingLooksEmpty`, as `docs/monitoring.md:44`
  describes), and `DiffPatch.PatchedIffNothingVanishes` shows that nothing else
  is lost, although a path does not say by which key its elements were
  identified (`DiffPatch.ChosenKey`).
- **Paging can stop at one batch.** Following cursors reaches every shown batch
  if and only if each matching batch that alone exceeds the byte budget lies
  beyond all shown ones (`HistoryPaging.OlderCoversIff`,
  `HistoryPaging.NewerCoversIff`).

- **A high-severity field can be hidden in a schema summary.** The comment at
  `internal/notify/summary.go:96-98` says that changes of security relevant
  fields are always listed, but the code tests the severity of the first field
  of a group only, and a severity can depend on the value (`authorized` newly
  present as false, then as true). `Summary.HighSummarised` is a batch with a
  high-severity field in a summary, `Summary.HighStaysListed` says when one is
  listed, and `Summary.InSchemaIff` says exactly which fields are summarised.

A manual dead-letter retry is outside the delivery order
(`OutboxOrder.RetryReopens`).

## Model

| member | source | states |
|---|---|---|
| Crypto.FramingInjective | internal/store/signing.go:549-558 | previous hash, newline and payload determine the predecessor and the payload, because a predecessor is empty or hexadecimal |
| Crypto.DigestPinsBoth | internal/store/signing.go:549-558 | equal entry hashes have equal predecessors and payloads, or exhibit a colliding pair of texts |
| LedgerInvariant.AppendKeeps | internal/store/signing.go:420-446 | an append adds at most one correctly linked and signed entry for a batch whose rows are complete, and never changes an older one |
| LedgerInvariant.BackfillKeeps | internal/store/signing.go:270-344 | one backfill chunk, committed or rolled back, keeps the whole invariant and only extends the ledger |
| LedgerInvariant.StepKeeps | internal/store/snapshots.go:585-671 | recording, backfill, each retention delete and checkpoints keep a contiguous signed chain that still matches every stored batch |
| LedgerInvariant.StepKeepsPayload | internal/store/status.go:677-691 | no transaction changes the events or trigger links a stored batch was signed with |
| LedgerInvariant.AnchorNeverLost | internal/store/checkpoint.go:253-265 | the integrity errors of the checkpoint scheduler cannot occur in a reachable store |
| LedgerEffects.RecordStores | internal/store/snapshots.go:585-671 | a recorded poll stores one batch row with the first trigger, a link per trigger, an event per change in order, and the signed entry over all of it; when that entry hash is taken, or nothing changed, it stores nothing |
| LedgerEffects.PayloadDescribes | internal/store/signing.go:448-513 | what is signed for a stored batch is its row, all of its events in order, and its positive trigger links, or its own trigger when it has none |
| LedgerEffects.ChunkIs | internal/store/signing.go:284-338 | a backfill chunk is the first 64 batches above the cursor and within the cutoff whose counted events are all stored |
| LedgerEffects.BatchesExpire | internal/store/status.go:677 | retention deletes chosen old batches and exactly the events of those, and leaves the other rows in order |
| LedgerEffects.EventsExpire | internal/store/status.go:685 | events expire on their own only when they are old and belong to no stored batch |
| LedgerEffects.LinksExpire | internal/store/status.go:691 | a trigger link expires if and only if its batch is gone and it sorts below the first batch that is kept |
| LedgerRuns.AuditAcceptsEveryRun | internal/store/audit.go:156-301 | after any interleaving of transactions the full audit accepts and counts every entry once |
| LedgerRuns.SignedContentKept | internal/store/status.go:872-922 | a batch recorded anywhere in a run keeps its signed content for as long as its row is stored |
| LedgerRuns.CheckpointsStayAnchored | internal/store/checkpoint.go:253-316 | checkpoint sequences strictly increase over a run and each is still in the ledger with its head at the end |
| LedgerRuns.CheckpointSentIff | internal/store/checkpoint.go:227-321 | in every reachable store a checkpoint of the newest entry is sent if and only if the ledger has grown, the interval has passed or the clock was set back, and the destination is active |
| LedgerPrefix.RowPinned | internal/store/audit.go:257-269 | two audited rows with the same hash have the same payload and predecessor, or a hash collision is shown |
| LedgerPrefix.HeadPinsPrefix | internal/store/audit.go:236-273 | two audited ledgers that agree on the hash at one sequence agree on every batch and payload up to it |
| LedgerPrefix.CheckpointPinsHistory | internal/store/audit.go:341-364 | a ledger that passes an audit against a checkpoint has the history the checkpoint was taken from |
| Audit.PagedEqualsWhole | internal/store/audit.go:156-301 | for any ledger and page size, resuming from the next cursor gives exactly the result of one walk over all entries |
| Audit.PageAdvances | cmd/tailstate/main.go:597-631 | every page that continues strictly reduces the distance between the latest sequence and the cursor |
| Audit.AuditIsChain | internal/store/audit.go:236-335 | the audit accepts if and only if the chain, the signatures and the stored payloads hold, the metadata head is the hash of the last entry, and the ledger still has the expected checkpoint |
| Audit.FailureIsFirst | internal/store/audit.go:236-296 | a failing audit names the first entry that does not hold and a check that it fails, or else the head, or else the checkpoint |
| Audit.LastPageChecks | internal/store/audit.go:276-296 | whatever page completes the audit has compared the stored head and the checkpoint |
| AuditPaging.StartIff | internal/store/audit.go:197-209 | a page starts if and only if the entry at its cursor is there, well formed and signed; otherwise it names the cursor and says whether the entry is missing |
| AuditPaging.PageIff | internal/store/audit.go:156-301 | one page from any cursor verifies if and only if its anchor is sound, every row it reads continues the one before it and is signed and bound to its batch, and the last page finds head and checkpoint |
| LedgerStore.EvidenceStore.AppendEvidenceLedger | internal/store/signing.go:420-446 | appends the batch once, or fails without a change |
| LedgerStore.EvidenceStore.RecordChangeBatch | internal/store/snapshots.go:585-671 | batch row, trigger links, events and ledger entry all appear, or nothing changes |
| LedgerStore.EvidenceStore.BackfillChunk | internal/store/signing.go:276-341 | the next 64 eligible batches are appended and the cursor moves to the last of them |
| LedgerStore.EvidenceStore.BackfillEvidenceLedgerUpTo | internal/store/signing.go:270-344 | repeats chunks until nothing eligible is left, and terminates |
| LedgerStore.ChunkProgress | internal/store/signing.go:284-338 | every imported batch leaves the eligible set for the ledger and none is skipped |
| LedgerStore.EvidenceStore.SelectExpiredBatches | internal/store/status.go:677 | selects the longest run of the oldest expired batches that fits the budget, and at least one |
| LedgerStore.EvidenceStore.DeleteExpiredBatches | internal/store/status.go:872-922 | removes each selected batch together with all of its events, oldest first, as many as the budget allows |
| LedgerStore.RemovedTwice | internal/store/status.go:872-922 | deleting batches one by one is deleting them together |
| LedgerStore.EvidenceStore.DeleteOrphanEvents | internal/store/status.go:685 | removes only old events that no batch row owns, the oldest ones, all of them when the limit allows |
| LedgerStore.EvidenceStore.DeleteOrphanLinks | internal/store/status.go:691 | removes, in key order, only trigger links below the first retained batch that no batch row owns |
| LedgerStore.EvidenceStore.EnqueueLedgerCheckpointIfDue | internal/store/checkpoint.go:227-321 | sends a checkpoint of the newest entry exactly when one is due |
| LedgerStore.EvidenceStore.AuditEvidenceLedger | internal/store/audit.go:156-301 | one page of the audit is the specified page |
| LedgerStore.EvidenceStore.AuditCommand | cmd/tailstate/main.go:597-631 | the page loop terminates with the result of the whole audit |
| History.ReverseBatches | internal/store/history.go:113-115 | reverses the loaded batches in place |
| History.LoadBatches | internal/store/history.go:78-101 | reads candidates until the byte budget would be exceeded, charging shown batches only |
| History.ListOlder | internal/store/history.go:74-154 | the older direction computes the specified page and cursors |
| History.ListNewer | internal/store/history.go:74-125 | the newer direction reads upwards and shows newest first |
| History.ListHistory | internal/store/history.go:25-159 | an older cursor wins over a newer one |
| HistoryPaging.FitIsExact | internal/store/history.go:79-100 | what was read stays within the budget and the refused batch would not |
| HistoryPaging.OlderPageIsTopRun | internal/store/history.go:33-141 | a page below a cursor is the highest-id run of matching batches under it, within count and byte budget |
| HistoryPaging.HasNextIsExact | internal/store/history.go:74-141 | has-next holds if and only if a matching batch under the cursor was not examined |
| HistoryPaging.OlderPageHasPrev | internal/store/history.go:142-153 | has-prev holds if and only if a matching batch is newer than the page |
| HistoryPaging.OlderCursorAdvances | internal/store/history.go:126-141 | the next cursor is a matching batch under the old cursor that separates shown from unshown |
| HistoryPaging.FollowOlderCoversAll | internal/store/history.go:126-141 | following next cursors shows every shown batch exactly once, newest first |
| HistoryPaging.NewerPageIsBottomRun | internal/store/history.go:33-125 | a page above a cursor is the lowest-id run over it |
| HistoryPaging.NewerPageHasNext | internal/store/history.go:116-125 | has-next of a newer page holds if and only if an older matching batch exists |
| HistoryPaging.FollowNewerCoversAll | internal/store/history.go:102-125 | following previous cursors shows every newer batch exactly once |
| HistoryPaging.OlderCoversIff | internal/store/history.go:78-141 | following next cursors reaches every shown batch if and only if each matching batch that alone exceeds the byte budget is older than all shown ones |
| HistoryPaging.NewerCoversIff | internal/store/history.go:78-125 | following previous cursors reaches every shown newer batch if and only if each matching batch that alone exceeds the byte budget is newer than all shown ones |
| HistoryPaging.RequestIsRun | internal/store/history.go:25-159 | what a request answers is the longest run of matching batches next to its cursor within count and byte budget; an older cursor wins over a newer one, and the page size is 20 by default and 100 at most |
| PackVerify.VerifyPayloadBinding | internal/store/evidence_verify.go:171-248 | accepts exactly the batches whose fields and shown events match the signed payload, each event once |
| PackVerify.ValidateLedgerBatchState | internal/store/evidence_verify.go:146-163 | accepts exactly the packs that do not mix ledgered and other batches |
| PackVerify.CheckLinks | internal/store/evidence_verify.go:423-470 | accepts exactly the gapless, chained and signed link lists |
| PackVerify.CheckChain | internal/store/evidence_verify.go:353-512 | links span one before the smallest to the largest exported sequence and match every batch |
| PackVerify.VerifyEvidencePack | internal/store/evidence_verify.go:35-106 | the whole verifier decides acceptance |
| PackSound.AcceptedSigned | internal/store/evidence_verify.go:83-101 | an accepted pack carries the hash of its content, the fingerprint of its key, the auditor's key when one is given, and that key's signature over version, hash, head and time |
| PackSound.SameHashSameContent | internal/store/evidence_verify.go:83-101 | two packs accepted under one trusted key with the same signed hash have the same content, or their encodings collide |
| PackSound.AcceptedEnvelope | internal/store/evidence_verify.go:35-82 | size, version, continuation and version-dependent fields of an accepted pack, and that it does not mix ledgered and other batches |
| PackSound.AcceptedTogether | internal/store/evidence_verify.go:353-422 | in an accepted pack no sequence occurs twice, and a batch that follows another in the ledger carries its hash |
| PackSound.AcceptedChain | internal/store/evidence_verify.go:353-512 | an accepted pack has exactly one signed link for every sequence from one before the smallest exported one to the largest, each carrying the hash of the one before |
| PackSound.AcceptedBatch | internal/store/evidence_verify.go:171-269 | every batch of an accepted pack is the one its link names, rehashes from its payload, counts the signed changes, and shows only signed events, each once, agreeing in every column and size metadata |
| PackComplete.MetaExact | internal/store/evidence_verify.go:250-269 | the size metadata of a displayed value passes exactly when the stored value explains it |
| PackRuns.WrittenSide | internal/store/storage_limits.go:147-175 | size metadata as an event row is written with passes if and only if the value is not mistaken for the marker of another one |
| PackComplete.EventExact | internal/store/evidence_verify.go:217-248 | a displayed event matches its signed event exactly when it explains itself |
| PackComplete.BatchOkExact | internal/store/evidence.go:381-447 | an exported ledgered batch passes payload binding exactly when its shown events explain themselves |
| PackExport.EvidenceBatchesWithinCaps | internal/store/evidence.go:306-322 | counts the leading batches within the event cap and the fetched links |
| PackExport.EvidenceLinksFor | internal/store/evidence.go:326-348 | selects the links a prefix of the batches needs |
| PackExport.BuildPart | internal/store/evidence.go:255-277 | refuses a truncated part that cannot name its last batch |
| PackExport.LargestFittingPrefix | internal/store/evidence.go:282-301 | the binary search returns a fitting prefix whose successor does not fit |
| PackExport.CutAndSign | internal/store/evidence.go:247-301 | every outcome of the cut is the one its reading determines |
| PackExport.ExportEvidencePack | internal/store/evidence.go:221-302 | an export reads one older page and ends as specified |
| PackShown.IssuedShows | internal/store/history.go:189-318 | in an issued pack the events of every batch are, by ascending ID and each once, exactly the stored events of that batch that meet the filter's terms, shown with their stored columns; a narrowed filter counts them |
| PackShown.DueIff | internal/store/history.go:33-101 | a batch is due for export if and only if it is below the cursor, meets the batch terms and has an event that meets the event terms |
| PackShown.UnreadableIff | internal/store/history.go:373-390 | an export fails for unreadable rows if and only if a wanted event of its page has a field list that is not empty and does not decode |
| PackBounds.PartStopsAt | internal/store/evidence.go:247-322 | an issued part is a start of its page within 100 batches, 2000 events and five megabytes, and ends early only where one more batch would show too many events, need a link 10000 entries or more behind the newest, or be too large |
| PackBounds.PageIs | internal/store/evidence.go:221-246 | an export reads the page of history that a request for as many batches, up to 100, is answered with |
| PackExport.NeverOversized | internal/store/evidence.go:278-301 | an issued pack never exceeds the byte limit, whatever was read |
| PackExport.LargestWhenMonotone | internal/store/evidence.go:282-301 | when size grows with the batches, the issued prefix is the longest that fits |
| PackTheorem.PartLedgerExact | internal/store/evidence_verify.go:353-512 | the ledger checks pass on a part exactly when its ledgered batches explain themselves |
| PackTheorem.IssuedPartAccepted | internal/store/evidence.go:221-366 | a built part is accepted by the verifier if and only if its batches explain themselves |
| PackChain.IssuedPackAccepted | internal/store/evidence.go:221-366 | on any store with a sound ledger, rows of older versions included, an issued pack is accepted if and only if the stored form of its batches explains itself |
| PackRuns.RunPackAccepted | internal/store/snapshots.go:688-707 | in every state that polls, backfill, retention and checkpoints reach on a new installation, an issued pack is accepted if and only if no shown value is mistaken for a truncation marker |
| PackRuns.SincePackAccepted | internal/store/snapshots.go:688-707 | the same for the batches that any store has recorded since a start without a ledger |
| PackRuns.RunOutcomes | internal/store/evidence.go:221-302 | on a new installation every export is issued or too large |
| PackRejects.FirstAccepted | internal/store/evidence.go:221-302 | the export after the first poll issues one pack, accepted if and only if no recorded side is mistaken for a marker |
| PackRejects.OversizedThenChanged | internal/store/snapshots.go:349-396 | a resource stored cut that then changes gives a pack that is issued and refused |
| PackRejects.MarkerShapedValue | internal/store/storage_limits.go:188-194 | a provider value in the form of a marker gives a pack that is issued and refused |
| PackChain.PartIsTopRun | internal/store/evidence.go:255-277 | an issued part carries exactly the due batches from its continuation cursor up, newest first |
| PackCovers.CompletesIff | internal/store/evidence.go:213-302 | when parts grow with their batches, repeating the export with each continuation cursor completes if and only if every cursor it reaches can be exported from |
| PackCovers.BudgetsCoverAll | internal/store/evidence.go:213-302 | when no batch alone exceeds a budget, repeating the export completes and has covered every due batch exactly once, newest first |
| PackRuns.RunExportsAll | internal/store/evidence.go:213-302 | on a new installation the budgets of single batches are enough for that, and each part is accepted if and only if its values are clear |
| PackChain.UnfinishedIsBounded | internal/store/evidence.go:213-220 | a run of truncated parts is no longer than the number of due batches |
| PackChain.ExportableIssues | internal/store/evidence.go:218-302 | a part is issued when its page can be read and its first batch alone fits |
| PackChain.OnlyExportableIssues | internal/store/evidence.go:218-302 | when parts grow with their batches, nothing else is issued |
| PackRejects.UpgradedStops | internal/store/evidence.go:255-275 | a store whose newer batch has lost its events stops the export of one batch a part, although an older batch is due |
| PackRuns.OnlyLegacyBlocks | internal/store/evidence.go:255-275 | only a batch without events from before the run stops an export that way |
| OutboxFence.StepKeeps | internal/store/outbox.go:63-180 | enqueue, claim, finish, renew, destination changes, identity change, dead-letter retry and retention keep rows and lease log in agreement |
| OutboxFence.EveryRunIsFenced | internal/store/outbox.go:147-173 | after any run a row is processing exactly while it holds the token of its latest open claim, and its attempts are claims minus releases since it was last queued |
| OutboxFence.OnlyTheLatestClaim | internal/store/outbox.go:291-376 | a finish or renewal changes only the row whose latest, still open claim carries that token |
| OutboxFence.FinishedAtMostOnce | internal/store/outbox.go:291-351 | after one finish took effect its token changes nothing in any continuation |
| OutboxFence.SameTokenSameRow | internal/store/outbox.go:147-173 | two rows never hold the same token |
| OutboxSafety.ClaimedShape | internal/store/outbox.go:82-173 | a claim leases its rows under fresh tokens in order and touches no other row except to expire, return or dead-letter it |
| OutboxSafety.ClaimTakesPrefix | internal/store/outbox.go:97-113 | of every destination a claim takes an id-prefix of the rows that stay live |
| OutboxSafety.NoStaleClaim | internal/store/outbox.go:87-96 | no row first attempted 24 hours ago or more is claimed |
| OutboxOutcome.ClaimTakesIff | internal/store/outbox.go:63-180 | a claim hands out a row if and only if it is free, less than 24 hours old and due, its destination is enabled, not deleted and readable, no older row of that destination is backing off or in flight, and fewer than the limit qualify before it |
| OutboxOutcome.ClaimLeaves | internal/store/outbox.go:82-173 | the whole effect of a claim on each row: which are returned, expire, are leased, or are dead for an unreadable destination |
| OutboxOutcome.ClaimNeverBuries | internal/store/outbox.go:82-96 | a claim never gives up a row first attempted less than 24 hours ago, whatever lease it lost, unless its destination is unreadable |
| OutboxOutcome.ClaimItems | internal/store/outbox.go:147-180 | the items come oldest first, say what their rows store, count this attempt, and carry fresh tokens that the rows carry too |
| OutboxSafety.SettledIsFinal | internal/store/outbox.go:467-495 | delivered rows never change and dead rows leave only by a manual retry |
| OutboxSafety.StepLive | internal/store/destinations.go:101-180 | every transaction keeps live rows within enabled destinations and the current generation |
| OutboxSafety.LiveRowsBelong | internal/store/settings.go:160-173 | in every reachable state a live row belongs to an enabled, undeleted destination, and a stored batch of it is of the current generation |
| OutboxOrder.TickKeeps | internal/monitor/delivery.go:44-61 | a claim leaves no older live row of a claimed destination behind |
| OutboxOrder.SettleKeeps | internal/monitor/delivery.go:114-180 | recording a send outcome, or failing to record it, keeps the order |
| OutboxOrder.PerformKeeps | internal/monitor/delivery.go:36-80 | every step of the worker and of everything else keeps the order |
| OutboxOrder.HandedInOrder | internal/monitor/delivery.go:57-77 | in every run, whenever a row is with the sender every older row of its destination was sent, is dead, or cannot be prepared |
| OutboxStore.Outbox.EnqueueOutbox | internal/store/outbox.go:252-277 | one pending row per active destination |
| OutboxStore.Outbox.EnqueueOutboxFor | internal/store/admin_audit.go:211-227 | one pending row per listed active destination, without repetition |
| OutboxStore.Outbox.RecordDigest | internal/store/routing.go:163-219 | every row carries exactly the changes its destination's own rules route, although payloads are shared |
| OutboxRows.RoutedExactly | internal/store/routing.go:99-114 | a rule set routes exactly the changes that are severe enough, of a wanted collector that is not excluded and of a wanted kind, each once and in order |
| OutboxRows.SystemRows | internal/store/outbox.go:252-277 | a system notification adds one pending row for every destination that is enabled and not deleted, and no other |
| OutboxRows.TargetedRows | internal/store/admin_audit.go:210-223 | a targeted notification adds one row for the first mention of every such destination, in the order of the list |
| OutboxRows.DigestRows | internal/store/routing.go:163-219 | a recorded batch adds one row for every such destination that wants one of its changes; a batch of an outdated generation adds nothing |
| Routing.KeyInjective | internal/store/routing.go:116-118 | normalized rule sets with the same joined key are the same, so sharing a payload by key is sound |
| OutboxStore.Outbox.ClaimDueOutbox | internal/store/outbox.go:63-180 | the claim transaction is the specified claim and returns its items |
| OutboxStore.Outbox.FinishClaimed | internal/store/outbox.go:291-351 | completes, retries or releases exactly the owned claim |
| OutboxStore.Outbox.RenewClaimed | internal/store/outbox.go:358-376 | extends exactly the owned lease |
| OutboxStore.Outbox.SaveDestination | internal/store/destinations.go:101-127 | creates or updates a destination and dead-letters its live rows when it is disabled |
| OutboxStore.Outbox.SetDestinationEnabled | internal/store/destinations.go:132-156 | toggles a destination and dead-letters its live rows when it is disabled |
| OutboxStore.Outbox.DeleteDestination | internal/store/destinations.go:163-180 | soft-deletes a destination and dead-letters its live rows |
| OutboxStore.Outbox.ChangeIdentity | internal/store/settings.go:153-174 | dead-letters the live rows of every other generation |
| OutboxStore.Outbox.RetryDeadOutbox | internal/store/outbox.go:467-495 | requeues exactly the retryable dead letters of an active destination, with a new window, and counts them (in raw columns: `OutboxRows.RetriedEffect`) |
| OutboxSafety.CleanupKeepsClaims | internal/store/status.go:670 | the cleanup pass leaves running leases alone, and every later claim hands out exactly what it would have handed out without it |
| OutboxSafety.DiscardKeepsClaims | internal/store/status.go:699-700 | retention of rows changes neither what a claim hands out nor who owns a row |
| OutboxStore.TurnIsPlay | internal/monitor/delivery.go:65-77 | one turn of the delivery loop is one or two steps of the interleaved model |
| OutboxStore.DeliveryWorker.DeliverItem | internal/monitor/delivery.go:114-180 | contacts the provider only for payloads that can be prepared and records the outcome under the claim's token |
| OutboxOutcome.SettledRow | internal/monitor/delivery.go:114-180 | an accepted notification is delivered; a refused one is dead when the refusal is permanent or 24 hours are over, and otherwise due again after the delay; one that cannot be prepared is dead |
| OutboxStore.DeliveryWorker.DeliverBatch | internal/monitor/delivery.go:57-77 | after a destination's first failed send its younger items are returned unsent |
| OutboxRows.DeliveredBatch | internal/monitor/delivery.go:57-77 | one delivered batch, row by row: after a refusal the younger items of that destination go back as if unclaimed, every other item is settled by its own answer, and no other row is touched |
| Reconcile.AnswerShape | internal/store/snapshots.go:263-310 | what one answer does to every stored resource |
| Reconcile.EventsAgreeWithSnapshots | internal/store/snapshots.go:263-412 | over any sequence of polls the created and removed events turn the initial resource set into the stored one, each recorded in place |
| Reconcile.StoredFromLastAnswer | internal/store/snapshots.go:336-412 | every stored hash is that of the last applied response containing the resource |
| Reconcile.MissIsEarlierOmission | internal/store/snapshots.go:489-530 | a stored miss means exactly one earlier unguarded complete answer without the resource |
| Reconcile.RemovedIff | internal/store/snapshots.go:489-530 | a poll removes a resource if and only if it and one earlier complete unguarded poll omitted it with no answer containing it in between |
| Reconcile.FourCompletePolls | internal/store/snapshots.go:417-471 | four identical complete polls remove everything they omit, whatever the guard's state |
| Reconcile.GuardHoldsTwiceIff | internal/store/snapshots.go:451-471 | the guard holds a second poll if and only if no failure was on record when it engaged |
| Reconcile.GuardHoldsOnce | internal/store/snapshots.go:417-471 | after a first partial answer with three resources, the first of two empty complete answers is held back and the second is not |
| ReconcileStore.Collector.UpsertResource | internal/store/snapshots.go:336-406 | stores one returned resource and records its created or changed event |
| ReconcileStore.Collector.MassRemovalGuard | internal/store/snapshots.go:417-471 | counts the omitted resources and decides whether to hold them |
| ReconcileStore.Collector.ReconcileMissing | internal/store/snapshots.go:489-530 | removes resources missing twice, in order, and counts the others |
| ReconcileStore.Collector.ApplyCollector | internal/store/snapshots.go:263-310 | one supported result is the specified answer |
| ReconcileEvents.AnswerRecords | internal/store/snapshots.go:336-406 | everything one answer records, each event exactly once: comparable changes of stored resources, appearances that are not absorbed, and removals, and nothing before the baseline |
| ReconcileEvents.ChangeRecordedIff | internal/store/snapshots.go:369-393 | over whole runs, an answer records a change of a resource if and only if the last answer that contained it, while it is still stored, had a comparably different content |
| ReconcileEvents.AnswerInOrder | internal/store/snapshots.go:263-310 | appearances and changes are recorded in the order of the answer, then the removals by ID |
| ReconcileEvents.StateRow | internal/store/snapshots.go:536-583 | the whole collector row after any poll: baseline, support, failure count and note, with the guard's condition on the stored rows |
| Reconcile.DemotedByTwoUnsupported | internal/store/snapshots.go:218-247 | in every reachable state a supported baseline is demoted exactly by an unsupported answer that directly follows another |
| Reconcile.FailuresKeepResources | internal/store/snapshots.go:805-835 | any number of failed polls is counted and keeps snapshots, events and the baseline |
| Diff.NoChangeIffEquivalent | internal/model/model.go:430-493 | no change is counted if and only if the trees are equal up to the order of identified lists whose order is not kept |
| Diff.OtherKeyMatches | internal/model/model.go:542-549 | whichever key matches two lists, the preferred key matches the same elements |
| Diff.WholeUnlessByElement | internal/model/model.go:456-493 | two different values are one change, unless they are lists, or away from the root a list and nothing, that a key identifies and whose order is not kept: then every change is of one element |
| Diff.BothInOrder | internal/model/model.go:430-457 | the changes come in the order of their paths, by field name and element identity |
| Json.IdentityIff | internal/model/model.go:569-586 | an element is identified by a text or number that is not empty, takes at most 128 bytes and has no bracket and no control character |
| DiffPatch.ChosenKey | internal/model/model.go:542-549 | the key by which a list was compared is determined by the old list and the reported identities, although no path names it |
| DiffPatch.PatchBoth | internal/model/model.go:430-493 | patching a present value with all its changes gives the new one exactly when nothing vanishes in it |
| DiffPatch.PatchedIffNothingVanishes | internal/model/model.go:430-493 | the complete field list applied to the old value gives the new one, up to reordering, if and only if no identified list vanished |
| DiffPatch.VanishingLooksEmpty | internal/model/model.go:462-475 | a list that becomes null or absent has the field list of one that becomes empty |
| Differ.Comparison.Diff | internal/model/model.go:430-493 | the recursive comparison appends exactly the specified changes under its path |
| Differ.Comparison.DiffKeyed | internal/model/model.go:592-614 | lists are compared element by element in identity order |
| Differ.DiffDetailed | internal/model/model.go:407-423 | all changes are counted, the first 24 are kept, truncation is exact, a zero count means equivalence, an untruncated list patches, and a text that is no tree is one change |
| Expiry.WarnedExactlyOnce | internal/expiry/expiry.go:242-283 | in one check an item inside some window is warned exactly once, for its tightest window, unless it was already, and every warning lists its items soonest first |
| Expiry.StateHoldsInside | internal/expiry/expiry.go:248-274 | the state holds exactly the items inside some window, with every window they are inside marked |
| Expiry.WarnedAtMostOnce | internal/expiry/expiry.go:236-283 | an item held at every check in between is not warned twice for one window, even when windows change |
| Expiry.OncePerWindow | internal/expiry/expiry.go:236-283 | with fixed windows and time that does not run backwards, an item with an unchanged expiry is warned at most once per window |
| Expiry.UniqueCovers | internal/expiry/expiry.go:307-322 | the window list keeps exactly the positive values |
| ExpiryRuns.WarnedIff | internal/expiry/expiry.go:236-283 | in every run from an empty state a check warns of an item for a window if and only if that is the tightest window it is inside, and no earlier check found it inside that window with every check since seeing it unchanged and inside some window |
| ExpiryRuns.WarningsSorted | internal/expiry/expiry.go:275-305 | warnings come largest window first and none is empty; inside one the items come by expiry, kind and ID |
| Expiry.Plan | internal/expiry/expiry.go:242-283 | one pass groups the items by their tightest window, sorts each group and builds the next state |
| Summary.EveryFieldOnce | internal/notify/summary.go:50-205 | every field of every change is in exactly one of share lines, schema summaries, fleet lines and one position of the list, and each summary has the resources it claims |
| Summary.RemainingLists | internal/notify/summary.go:183-202 | the list that remains holds, in order, exactly the unsummarised fields of each change, and misses a change if and only if all its fields are summarised and none was cut off |
| Summary.InSchemaIff | internal/notify/summary.go:66-130 | which fields a schema summary takes: those that appear or vanish alike in every resource of the collector, two at least, unless the first of them is of high severity |
| Summary.HighStaysListed | internal/notify/summary.go:95-99 | when every field that changed alike is of high severity, none of them is put into a schema summary |
| Summary.HighSummarised | internal/notify/summary.go:95-99 | a batch in which a high-severity field is put into a schema summary |
| Summary.InFleetIff | internal/notify/summary.go:132-180 | which of the other fields a fleet line takes: those with the same transition in five resources of the collector at least |
| Summary.ResourcesDistinct | internal/notify/summary.go:54-64 | the resource list of a summary names every resource once |
| Summary.Collect | internal/notify/summary.go:66-94 | one pass counts resources, not field occurrences |
| Summary.Summarize | internal/notify/summary.go:50-205 | the whole division of a batch |
| Text.PartitionLines | internal/notify/chunks.go:12-51 | terminates, keeps every chunk within the bound, and loses or reorders nothing but white space |
| Text.LinesKeepInk | internal/notify/chunks.go:24 | splitting into lines loses line breaks only |
| Text.TruncateBytes | internal/notify/budget.go:131-140 | the longest prefix within the limit that does not split a rune |
| Text.CutMeans | internal/notify/budget.go:131-140 | a cut text ends before a byte that starts a rune, and only continuation bytes lie between there and the limit |
| Text.JoinSplitAfter | internal/notify/budget.go:74 | keeping all lines keeps the message |
| Text.FitMessageFor | internal/notify/budget.go:63-108 | never exceeds a positive limit and keeps the largest number of whole lines that fits with an exact count of the dropped ones |
| Text.ShortenedMeans | internal/notify/budget.go:75-88 | a shortened message is the start of the message up to the text of a kept line, and the note that counts the lines behind it that are not blank |
| Text.Shorten | internal/notify/formats.go:247-258 | stays within a positive limit and keeps the footer when it may take half of the room |
| Text.ReserveTitle | internal/notify/formats.go:274-288 | title, separator and body fit the limit if and only if the title leaves room for a body, which every known limit does |

## Left out

- SQLite itself, locking, backup, compaction, page limits, migrations and file ownership: each transaction is one atomic method.
- JSON, base64, hex and timestamp text: trees, integers and abstract codecs stand for them; only what the checks need of the codecs is assumed (`Pack.SoundWorld`, `LedgerSpec.Sound`).
- Normalisation and redaction of API responses, severity tables, attribution matching, mute rules and message rendering.
- Extraction of expiring items from snapshots: `Expiry` starts from the list of items.
- Summary.Summarize: share lines are a given set of fields, element identities are already replaced by the generic path, and the display order of the summaries is not modelled.
- Text.ReserveTitle: line-break tags of HTML e-mail, which are added after fitting, and rendering itself.
- Pack.Content: the format name, the description of the filter, the delivery outcomes of a batch and the refusal of unknown or trailing JSON are not modelled; the content hash covers whatever the abstract encoding covers.
- Webhook triggers, the Tailscale client, the web interface, metrics and logging.
- OutboxSpec.Claimed: lease tokens are fresh numbers instead of random text; a collision of random tokens is not modelled.
- OutboxOrder.HandedInOrder: covers one worker and no manual dead-letter retry; a retry makes an older dead row pending again while younger rows may already be with the sender.
- ReconcileSpec.Concluded: the attribution start kept while the guard holds and the health notices are not modelled; resource IDs are numbers, and the text of a failure or partial answer is assumed not to start with the guard's own prefix.
- Reconcile.EventsAgreeWithSnapshots: excludes device details, which record no lifecycle events, and the one poll that absorbs pre-existing shared users.
- Diff.Keying: whether a list keeps its order depends on the field names of its path and not on element identities inside it; an identity that spells a whole dotted segment such as `.nameservers.` in a DNS value is not modelled.
- DiffPatch.Patch: paths are lists of field names and element identities; their text, in which a field name may hold a dot or a bracket and the empty path is `value`, is not modelled, and the shortening of long values is taken as identity.
- PackExport.LargestFittingPrefix: encoded size is an abstract function; that the search finds the longest prefix needs size to grow with the batches, as the code assumes.
- LedgerPrefix.HeadPinsPrefix: a collision-free 256-bit hash does not exist, so the result is equality or an explicit collision.
