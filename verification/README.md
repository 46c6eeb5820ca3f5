# Kamiyo protocol: verified models of the operational state machines and codecs

The project models the parts of the repository whose correctness spans many runs or many functions: the
scripts under `ops/openclaw` that are started again and again against persisted state, the operator logbook,
the dispute settlement, and the encoders that prepare keys and proofs. One module stands for one component.

| module | component |
|---|---|
| `InflowRouter`, `InflowRuns`, `InflowShare`, `InflowRecovery` | creator-fee inflow router: baseline, adoption of on-chain routes, rebase, partial routes; the exact bounds on what it routes, and what the lookup of lost routes repairs |
| `DistributionEngine`, `DistributionOutcome`, `DistributionLaws`, `DistributionCrashes` | outbound dispatch with fallbacks, daily caps, cooldowns, hash cache, receipts; runs that die before the state write |
| `ClawMart`, `ClawMartScans`, `ClawMartMonitor` | sales settlement: staking router and its payments, the two receipt scans, the revenue ledger |
| `ReceiptSync`, `ReceiptRestart` | cursor-driven copy of finished jobs into the receipt file; deleted rows and replaced tables |
| `Logbook`, `LogbookFiles`, `LogbookCadence` | log creation, the automatic reflective rule, the validator |
| `MedianSettlement` | median of the oracle scores and the payout tiers |
| `Numerals`, `Base58`, `BigEndian`, `MerkleFold`, `MerkleTree` | positional numerals, Base58, three 32-byte encoders, point packing, Merkle paths and the tree they open |
| `Intake` | rank, deduplicate and truncate marketplace opportunities |
| `TextTools`, `MemoryBlock`, `MemoryText`, `MemoryCleaning`, `MemoryMerge`, `MemoryReruns`, `MemoryReadback` | the managed block of the memory file, the merge that feeds it, reruns on unchanged notes, and what the block says when it is read back |

Scripts that rewrite state are classes whose methods are proved equal to a specification function; the laws
over whole histories are lemmas about those functions. Environment steps (deposits, crashes, failed
transfers, send results, clock readings, sales readings, inserted rows) are events or parameters and range
over everything the stated side conditions allow. Amounts are whole lamports, times are integers.

For each script one module states what a single run does in terms of the readings, the keys of the records and
the state file alone, without the functions that compute it (`InflowRuns`, `DistributionOutcome`,
`ClawMartScans`, `LogbookFiles`, `MemoryText`, `MemoryCleaning`, and `MerkleTree` for the path folding).

Results that came out negative, each with its exact condition or a witness:

- The inflow router keeps max(configured share, 50%) of the inflow over every history of complete runs, and no
  smaller rate (`ShareBoundExactly`); with a share below 50% repeated runs go beyond the share itself. Once a run
  may die between its transfer and the state file and the lookup of routes on chain may fail, no rate below
  100% holds, unless the script never routes (`CrashBoundExactly`); what survives is that no inflow is routed
  twice (`CrashesNeverOverspend`). When the next run always finds the lost route, before the wallet falls below
  what the route left, the rate of complete runs is restored exactly for scripts whose smallest route leaves
  more than epsilon above the baseline; a smaller one is never adopted (`RecoveryExactly`).
- A dispatch run that dies before its state write is forgotten: later runs send again what it sent, and its sends
  come on top of the daily cap (`DeadRunsAreForgotten`, `CapExactly`).
- The receipts of the staking router cover every sale once, but a run that dies between its transfer and its
  receipt pays for sales that the next run pays for again: a sale up to the checkpoint is paid for once plus
  once for each such run that covered it (`PaidExactlyOnce`, `CrashPaysTwice`).
- The revenue ledger is gap-free after any crash, and reaches the highest total seen exactly when some run that
  read this total got all its rows into the ledger (`LedgerCompleteExactly`; `CrashLeavesGap` is a history
  without such a run).
- The receipt file mirrors the job table exactly when interrupted runs left no receipt in it
  (`MirrorsExactly`); otherwise receipts repeat, but none is lost or invented. When the operator deletes rows, no
  remaining or new row is skipped unless a new row revives a cursor that lay beyond the table
  (`EveryRowEmitted`, `InsertExactly`); such a row can be lost for good (`RevivedCursorLosesRow`).
- Log files from serial 10000 on no longer match the file-name pattern; the reflective schedule then
  degenerates to reflective logs only (`FiveDigitCadence`).
- Facts written to the memory file read back exactly when its markers are in order (`ReadsBackExactly`);
  a stray end marker hides the block, a stray start marker leaks bullets into it.
- The facts that a run stores never share a signature, but an undated one that looks dated is read back with
  that date and a shorter text; the block then can hold one text twice (`StoredBlock`, `DatedLookTwice`).
- Cleaning a fact takes off one leading run of bullets only. From a memory without facts, reruns on unchanged
  notes append nothing exactly when no candidate starts with a bullet (`RerunsExactly`); one that does is
  appended again by the third run (`UnstableFactReturns`). From any memory, durable facts stay as they are
  exactly when no candidate is known to the state file only (`UnchangedNotes`).
- The hexadecimal encoder agrees with the shifting encoders exactly below the bound; above it the result is
  too long instead of truncated (`HexEncoderAgrees`).

## Model

| member | source | states |
|---|---|---|
| InflowRouter.Router.Run | ops/openclaw/kamiyo-agent-creator-fee-inflow-route.py:448-846 | a run rewrites the state file as the plan (skip, initialise, rebase, ask) and the answer of the pool demand, for every reading, snapshot and transfer result |
| InflowRuns.FirstRun | ops/openclaw/kamiyo-agent-creator-fee-inflow-route.py:512-545 | without a stored baseline a run starts from the balance the newest route left, when that is not above the wallet by more than epsilon, and otherwise ends initialized with the balance; what it then requests, stores and reports |
| InflowRuns.LaterRun | ops/openclaw/kamiyo-agent-creator-fee-inflow-route.py:547-776 | with a stored baseline, exactly a newer route that left more than the baseline and not more than the wallet, up to epsilon, replaces it; what the run then requests, stores and reports |
| InflowRuns.NoRun | ops/openclaw/kamiyo-agent-creator-fee-inflow-route.py:451-494 | disabled, without wallet or without reading the run changes nothing, in this order |
| InflowRouter.Router.WriteState | ops/openclaw/kamiyo-agent-creator-fee-inflow-route.py:424-436 | baseline, observed balance and last signature are replaced together |
| InflowRouter.BaselineAfterRoute | ops/openclaw/kamiyo-agent-creator-fee-inflow-route.py:141-144 | the new baseline is the smaller of the observed balance and the advanced baseline |
| InflowRouter.Share | ops/openclaw/kamiyo-agent-creator-fee-inflow-route.py:596-597 | the requested amount is the largest whole number of lamports within the basis-point share, and never more than the pending amount |
| InflowRouter.StoredBaselineBounded | ops/openclaw/kamiyo-agent-creator-fee-inflow-route.py:518-830 | after every outcome that writes balances, 0 <= baseline <= observed + epsilon; the other outcomes leave the state alone |
| InflowRouter.WaitingLosesNothing | ops/openclaw/kamiyo-agent-creator-fee-inflow-route.py:545-761 | blocked, failed, pending and up-to-date runs never lower the baseline and keep the pending inflow, unless (and only if) they adopt an on-chain route |
| InflowRouter.NoRouteCountsTwice | ops/openclaw/kamiyo-agent-creator-fee-inflow-route.py:512-555 | a route that was adopted, or made by the script itself, is not adopted again by the next run |
| InflowRouter.BaselineFallsOnShortfall | ops/openclaw/kamiyo-agent-creator-fee-inflow-route.py:566-594 | without adoption or route the baseline changes exactly when the balance is more than epsilon below it, and then to the observed balance |
| InflowRouter.TickAccounts | ops/openclaw/kamiyo-agent-creator-fee-inflow-route.py:763-776 | a run that moves m of p pending leaves at most max(0, p - 2m) plus what arrived meanwhile |
| InflowRouter.RoutePays | ops/openclaw/kamiyo-agent-creator-fee-inflow-route.py:141-144 | the potential step: 10000 m + k max(0, p - 2m) <= k p for every rate k of at least the share and one half |
| InflowRouter.StepKeepsCover | ops/openclaw/kamiyo-agent-creator-fee-inflow-route.py:448-846 | every deposit, withdrawal and complete run keeps 10000 routed + k pending <= k inflow |
| InflowRouter.RoutedShareBounded | ops/openclaw/kamiyo-agent-creator-fee-inflow-route.py:141-144 | over every history without crashes, 10000 routed <= max(share, 5000) x inflow |
| InflowRouter.CrashesNeverOverspend | ops/openclaw/kamiyo-agent-creator-fee-inflow-route.py:705-830 | over every history, crashes between transfer and state write included, routed <= inflow |
| InflowRouter.CrashBreaksShare | ops/openclaw/kamiyo-agent-creator-fee-inflow-route.py:705-830 | the smallest instance of CrashBoundExactly: two lost state files route 75 of 100 lamports at a 50% share |
| InflowShare.ShareBoundExactly | ops/openclaw/kamiyo-agent-creator-fee-inflow-route.py:448-846 | a rate bounds what every history of complete runs routes iff it is at least the configured share and one half, or the script never routes |
| InflowShare.CrashBoundExactly | ops/openclaw/kamiyo-agent-creator-fee-inflow-route.py:705-830 | when lookups may fail, a rate bounds what every history with crashed runs routes iff it is 100%, or the script never routes |
| InflowShare.WhichScriptsKeepTheirShare | ops/openclaw/kamiyo-agent-creator-fee-inflow-route.py:74 | when lookups may fail, the bound of complete runs survives crashes iff the script routes nothing or everything; the configured share alone bounds complete runs iff it is zero or at least one half |
| InflowRecovery.LookupRestoresCover | ops/openclaw/kamiyo-agent-creator-fee-inflow-route.py:501-555 | a run that finds the lost route adopts it, and the potential of complete runs holds again for what came in since |
| InflowRecovery.CrashKeepsRepaired | ops/openclaw/kamiyo-agent-creator-fee-inflow-route.py:501-555 | the route of a run that died can be adopted later and pays for itself, however many runs die in a row |
| InflowRecovery.HistoryKeepsRepaired | ops/openclaw/kamiyo-agent-creator-fee-inflow-route.py:501-830 | over every history in which lost routes are looked up in time, routes stay within every rate of at least the share and one half, at every moment |
| InflowRecovery.SmallLossesRun | ops/openclaw/kamiyo-agent-creator-fee-inflow-route.py:535-555 | the smallest route of a script that is not repairable is never adopted: each loss moves another minimum |
| InflowRecovery.RecoveryExactly | ops/openclaw/kamiyo-agent-creator-fee-inflow-route.py:501-830 | with lookups, a rate bounds every history iff it bounds the complete runs and the minimum transfer leaves more than epsilon, or it is 100%, or the script never routes |
| InflowRouter.ExactRun | ops/openclaw/kamiyo-agent-creator-fee-inflow-route.py:596-776 | an exact run in a quiet world moves the share and leaves max(0, p - 2m), or leaves everything as it was |
| InflowRouter.Settles | ops/openclaw/kamiyo-agent-creator-fee-inflow-route.py:596-628 | exact runs come to rest within as many runs as lamports are pending, at a pending share below the minimum transfer (or below one lamport); up to a 50% share pending + 2 routed is conserved |
| DistributionEngine.Engine.Run | ops/openclaw/kamiyo-agent-distribution-engine.py:263-400 | a run computes the dispatch of all candidates from the normalised state |
| DistributionEngine.Engine.Place | ops/openclaw/kamiyo-agent-distribution-engine.py:295-378 | one candidate: skip silently, walk the route, or write a skip receipt with the last obstacle |
| DistributionEngine.Engine.Try | ops/openclaw/kamiyo-agent-distribution-engine.py:327-362 | one attempt: receipt, counters, and the state update of success or failure |
| DistributionEngine.Engine.Normalize | ops/openclaw/kamiyo-agent-distribution-engine.py:95-115 | a new day clears counts and hashes and keeps streaks and cooldowns |
| DistributionOutcome.RunServes | ops/openclaw/kamiyo-agent-distribution-engine.py:264-378 | a run takes up the state file and serves its messages in order: each goes out on the first channel of its route (preferred, then the fallbacks without it) that is enabled, not cooling down, under the cap, without a recent equal hash and accepting; earlier channels were blocked or have a failure receipt; without such a channel there is one skip receipt with the last reason |
| DistributionOutcome.WalkTurns | ops/openclaw/kamiyo-agent-distribution-engine.py:305-362 | one message on its route, channel by channel, with the state that each attempt leaves |
| DistributionOutcome.ServedLeavesReceipt | ops/openclaw/kamiyo-agent-distribution-engine.py:287-378 | a message that is neither blank nor unsafe ends with a success, or with a skip receipt for its own channel |
| DistributionOutcome.CacheComesFromSends | ops/openclaw/kamiyo-agent-distribution-engine.py:246-260 | over any sequence of runs every entry of the hash cache is the time of a send of the day |
| DistributionLaws.AttemptKeepsCounts | ops/openclaw/kamiyo-agent-distribution-engine.py:319-348 | an admitted attempt keeps every daily count equal to the successful receipts of the day and within the cap |
| DistributionLaws.AttemptKeepsReplay | ops/openclaw/kamiyo-agent-distribution-engine.py:354-361 | streaks and cooldowns are what replaying the run's receipts gives: trailing failures below the threshold, else streak zero and a cooldown from the run start |
| DistributionLaws.AttemptKeepsMemory | ops/openclaw/kamiyo-agent-distribution-engine.py:247-260 | a send is in the hash cache, or pruned only after twice the content cooldown |
| DistributionLaws.AttemptKeepsSpacing | ops/openclaw/kamiyo-agent-distribution-engine.py:236-244 | the recency check against the run-start clock keeps equal sends a content cooldown apart |
| DistributionLaws.OfferKeeps | ops/openclaw/kamiyo-agent-distribution-engine.py:295-378 | a candidate succeeds once or is skipped once, never both |
| DistributionLaws.RunLaws | ops/openclaw/kamiyo-agent-distribution-engine.py:287-400 | after every run: candidates = successful + skipped, receipts = attempted + undispatched, attempted = successful + failed = sum of the channel statistics; attempts only on enabled, uncapped channels neither cooling down nor tripped |
| DistributionLaws.StatsSum | ops/openclaw/kamiyo-agent-distribution-engine.py:329-355 | the per-channel attempts sum to the attempts of the run |
| DistributionLaws.EveryRunKeepsTheWorld | ops/openclaw/kamiyo-agent-distribution-engine.py:95-115 | over any sequence of complete enabled runs on any days: counts equal the day's successes and respect the cap, streaks stay below the threshold, the cache and the spacing hold, the log only grows |
| DistributionLaws.FromNothing | ops/openclaw/kamiyo-agent-distribution-engine.py:95-115 | every history that starts from an empty state file has these properties |
| DistributionLaws.SpacedInRealTime | ops/openclaw/kamiyo-agent-distribution-engine.py:236-260 | two successful sends of one message on one channel within a day are at least the content cooldown apart |
| DistributionLaws.CooldownHolds | ops/openclaw/kamiyo-agent-distribution-engine.py:228-233 | no run that starts before the end of a cooldown attempts the channel, on whatever day |
| DistributionLaws.TrippedChannelRests | ops/openclaw/kamiyo-agent-distribution-engine.py:356-361 | a channel that reaches the failure threshold is left alone by every run that starts within the cooldown |
| DistributionLaws.DayChange | ops/openclaw/kamiyo-agent-distribution-engine.py:95-115 | a day change forgets counts and sent content, but neither streaks nor cooldowns |
| DistributionCrashes.DeadRunsComeOnTop | ops/openclaw/kamiyo-agent-distribution-engine.py:323-400 | with runs that die at any receipt: the sends of complete runs on a date are the stored count under the cap, those of dead runs come on top, at most a cap each |
| DistributionCrashes.CapExactly | ops/openclaw/kamiyo-agent-distribution-engine.py:318-346 | all sends of the date respect the cap iff those of dead runs fit what the stored count leaves |
| DistributionCrashes.DeadRunsAreForgotten | ops/openclaw/kamiyo-agent-distribution-engine.py:400 | state file and recorded receipts are those of the history without the dead runs |
| DistributionLaws.RouteFacts | ops/openclaw/kamiyo-agent-distribution-engine.py:305-306 | the preferred channel comes first and once, followed by the fallbacks |
| DistributionLaws.FirstTakerGetsIt | ops/openclaw/kamiyo-agent-distribution-engine.py:310-364 | a message goes out on the first channel of its route that is free and accepts it, and is handed back exactly when none does |
| ClawMart.StakingCheckpoint | ops/openclaw/kamiyo-agent-clawmart-staking-route.py:150-181 | the router's scan returns the highest routed total and the number of matching receipts |
| ClawMart.StakingRouteCheckpoint | ops/openclaw/kamiyo-agent-clawmart-monitor.py:328-377 | the monitor's scan returns the same checkpoint and count, and the latest time among the receipts that carry the checkpoint |
| ClawMartScans.CountsExactly | ops/openclaw/kamiyo-agent-clawmart-staking-route.py:131-181 | a line counts iff it is a receipt for the pool, from ClawMart by source or channel, whose first present key carries a positive total |
| ClawMartScans.ScansExactly | ops/openclaw/kamiyo-agent-clawmart-monitor.py:328-377 | the checkpoint is the largest total that a line carries, the count the number of lines that count, the time the latest among those with the checkpoint |
| ClawMart.StakingRouter.Run | ops/openclaw/kamiyo-agent-clawmart-staking-route.py:275-428 | a run appends what the step function appends and reports its outcome |
| ClawMartScans.RouterOutcomes | ops/openclaw/kamiyo-agent-clawmart-staking-route.py:275-428 | the exact condition of every outcome, in the order in which the script asks |
| ClawMartScans.RoutedReceipt | ops/openclaw/kamiyo-agent-clawmart-staking-route.py:405-419 | the receipt of a routed run: pool, source, total, uncovered sales, time |
| ClawMart.RunAppends | ops/openclaw/kamiyo-agent-clawmart-staking-route.py:319-428 | a run routes exactly when enabled, above the checkpoint, worth a transfer and successful, and then appends one receipt for exactly the uncovered sales |
| ClawMart.StepKeepsExactlyOnce | ops/openclaw/kamiyo-agent-clawmart-staking-route.py:319-428 | one more run or foreign line keeps the intervals of the receipts a partition of 1..checkpoint |
| ClawMart.SalesRoutedExactlyOnce | ops/openclaw/kamiyo-agent-clawmart-staking-route.py:150-428 | for every sequence of readings, failures, crashes and foreign lines, each sale up to the checkpoint is covered by exactly one receipt and the deltas sum to the checkpoint |
| ClawMart.PaymentsAccount | ops/openclaw/kamiyo-agent-clawmart-staking-route.py:378-428 | how often a sale is paid for is the number of receipts that came to cover it plus the number of crashed runs that paid for it |
| ClawMart.PaidExactlyOnce | ops/openclaw/kamiyo-agent-clawmart-staking-route.py:319-428 | a sale that the checkpoint passed is paid for once plus once per crashed run that covered it, a sale above it by crashed runs only |
| ClawMart.CrashPaysTwice | ops/openclaw/kamiyo-agent-clawmart-staking-route.py:378-428 | from any log, a run that dies before its receipt and a rerun on the same reading pay twice for every uncovered sale |
| ClawMart.OutlayAccounts | ops/openclaw/kamiyo-agent-clawmart-staking-route.py:319-428 | the wallet pays the price of each sale the checkpoint passed, and beyond that exactly what crashed runs moved |
| ClawMart.UnmatchedLogStarts | ops/openclaw/kamiyo-agent-clawmart-staking-route.py:150-181 | a log without matching lines has checkpoint zero and is a valid start |
| ClawMartMonitor.ExistingOrderCheckpoints | ops/openclaw/kamiyo-agent-clawmart-monitor.py:272-293 | the scan collects exactly the positive checkpoints of paid ClawMart orders |
| ClawMartMonitor.Monitor.AppendSalesLedgerRows | ops/openclaw/kamiyo-agent-clawmart-monitor.py:296-325 | appends, in order, one row per sale of the interval that is not recorded yet |
| ClawMartMonitor.Monitor.Run | ops/openclaw/kamiyo-agent-clawmart-monitor.py:474-769 | the sales part of a run: ledger rows, stored totals, and compliance iff no sale is unrouted |
| ClawMartMonitor.StepKeepsLedger | ops/openclaw/kamiyo-agent-clawmart-monitor.py:296-325 | any run, crash at any row, lost state file or foreign row keeps the ledger exactly 1..n, each order once |
| ClawMartMonitor.LedgerIsExact | ops/openclaw/kamiyo-agent-clawmart-monitor.py:272-325 | over every history the ledger holds 1..n once each, where n follows from the readings and crashes alone and lies between the highest completed reading and the highest reading seen |
| ClawMartMonitor.LedgerCompleteExactly | ops/openclaw/kamiyo-agent-clawmart-monitor.py:485-532 | the ledger ends at the highest total seen iff it started there or some run that read this total wrote all the rows it owed |
| ClawMartMonitor.RerunCompletesLedger | ops/openclaw/kamiyo-agent-clawmart-monitor.py:485-532 | a sufficient schedule: crashed runs are followed by completed ones that read at least as much |
| ClawMartMonitor.CrashLeavesGap | ops/openclaw/kamiyo-agent-clawmart-monitor.py:307-324 | a history in which no run that read the highest total wrote all its rows: the highest order is missing |
| ClawMartMonitor.StoredCheckpointAgrees | ops/openclaw/kamiyo-agent-clawmart-monitor.py:533-536 | after every history shared with the router (lost state files included) a monitor run stores the router's checkpoint, and a reading is compliant iff a receipt covers each sale |
| ReceiptSync.ReceiptAccounts | ops/openclaw/kamiyo-agent-receipt-sync.py:137-171 | exactly finished jobs give a receipt with its rounded amounts; profit and cost miss the revenue, and fee and payment the cost, by at most one unit of the eighth decimal |
| ReceiptSync.ReceiptPayment | ops/openclaw/kamiyo-agent-receipt-sync.py:142-147 | the payment on a receipt times the price is the payment in dollars, to within half a unit at that price; the fee is the configured one; no positive payment, no payment |
| ReceiptSync.Syncer.Run | ops/openclaw/kamiyo-agent-receipt-sync.py:207-247 | a run appends the filter-map of its batch, moves the cursor to the batch's last row and adds to the total |
| ReceiptRestart.SyncResumes | ops/openclaw/kamiyo-agent-receipt-sync.py:108-134 | for every cursor, a run reads the next rows after it, or from the first row when it lies beyond the table, and moves it to the last row read |
| ReceiptSync.FileMirrorsTable | ops/openclaw/kamiyo-agent-receipt-sync.py:174-260 | for any interleaving of inserts and runs with any batch sizes, the file is the ordered filter-map of the rows up to the cursor and the total its length |
| ReceiptSync.NothingIsLost | ops/openclaw/kamiyo-agent-receipt-sync.py:216-280 | with interrupted runs the filter-map is still a subsequence of the file: nothing is missing or out of order |
| ReceiptSync.NothingIsInvented | ops/openclaw/kamiyo-agent-receipt-sync.py:216-280 | with interrupted runs every receipt in the file is still the receipt of a table row |
| ReceiptSync.FileLength | ops/openclaw/kamiyo-agent-receipt-sync.py:216-247 | the file grows by the receipts of the passed rows and by what interrupted runs left; the counter by the former |
| ReceiptSync.MirrorsExactly | ops/openclaw/kamiyo-agent-receipt-sync.py:207-260 | the file equals the filter-map up to the cursor iff interrupted runs left no receipt in it |
| ReceiptSync.CatchesUp | ops/openclaw/kamiyo-agent-receipt-sync.py:108-134 | rows over batch size, rounded up, complete runs pass the whole table |
| ReceiptRestart.InsertExactly | ops/openclaw/kamiyo-agent-receipt-sync.py:109-111 | a new row leaves no row skipped iff it does not make a cursor beyond the table valid above rows without receipt |
| ReceiptRestart.ReplaceExactly | ops/openclaw/kamiyo-agent-receipt-sync.py:111 | a table that takes the place of another is read from its first row iff the cursor lies beyond it or below its first row |
| ReceiptRestart.EveryRowEmitted | ops/openclaw/kamiyo-agent-receipt-sync.py:108-247 | through deletions, replaced tables, inserts, complete and interrupted runs, with no such insert or replacement, every row of the table has its receipt after enough runs |
| ReceiptRestart.BelowTheCursor | ops/openclaw/kamiyo-agent-receipt-sync.py:108-134 | with the cursor inside the table, no complete run reads a row at or below it |
| ReceiptRestart.RevivedCursorLosesRow | ops/openclaw/kamiyo-agent-receipt-sync.py:109-111 | after a deletion a new row with the id of the cursor is not read by any later run |
| Logbook.Store.CreateNewLog | scripts/operator-logbook.ts:255-301 | a new log gets the next serial, the resolved mode, its name and its content; a dry run changes nothing |
| Logbook.WriteFacts | scripts/operator-logbook.ts:135-157 | writing a file keeps the listing in serial order, adds the file and replaces the file of the same name and no other |
| Logbook.Store.ValidateLogs | scripts/operator-logbook.ts:303-344 | the validator lists every serial gap and every wrong header of the visible history |
| LogbookFiles.HeaderNames | scripts/operator-logbook.ts:25-40 | the header names its serial: padded to four digits, and different for different serials |
| LogbookFiles.PadSerialSpells | scripts/operator-logbook.ts:38-40 | at least four decimal digits that spell the serial, longer ones without a leading zero |
| LogbookFiles.Layout | scripts/operator-logbook.ts:205-253 | the lines of a new file in order: header, title or its default, body, template; and its name |
| LogbookFiles.NextSerialExactly | scripts/operator-logbook.ts:179-185 | the stored serial when positive, else one after the last recognised file, else one |
| LogbookFiles.ModeExactly | scripts/operator-logbook.ts:187-203 | a requested mode is taken; the automatic rule in terms of the last reflective file |
| LogbookFiles.ReflectiveExactly | scripts/operator-logbook.ts:129-134 | a file is reflective by the tag in its name or the marker line |
| LogbookFiles.GapsExactly | scripts/operator-logbook.ts:307-316 | one issue for each file out of sequence, in order, with the expected and the found serial |
| LogbookFiles.HeadersExactly | scripts/operator-logbook.ts:318-327 | one issue for each file with a wrong first line, in order |
| Logbook.RecognisedAs | scripts/operator-logbook.ts:129-134 | a reflective log is always recognised; an operational one is mistaken exactly when its title or body has the marker line |
| LogbookCadence.EmptyBookCadence | scripts/operator-logbook.ts:187-203 | from an empty book a log is reflective iff its serial is a multiple of seven, up to serial 9999 |
| LogbookCadence.FiveDigitCadence | scripts/operator-logbook.ts:26-39 | beyond serial 9999 a log is reflective iff its serial is at least 10003 |
| LogbookCadence.NextIsNext | scripts/operator-logbook.ts:187-203 | the closed form of the next reflective serial after any reflective one |
| LogbookCadence.ConsecutiveGap | scripts/operator-logbook.ts:187-203 | from any history consecutive automatic reflective logs are 5 to 8 apart |
| LogbookCadence.SelfStabilises | scripts/operator-logbook.ts:187-203 | within four further reflective logs after any one the schedule locks onto the multiples of seven |
| LogbookCadence.BookFollowsSchedule | scripts/operator-logbook.ts:255-287 | in any book whose next serial lies above its files, clean automatic logs carry consecutive serials and are reflective as the schedule says |
| LogbookCadence.EmptyBookSchedule | scripts/operator-logbook.ts:179-287 | from an empty book the i-th file has serial i + 1 and is reflective iff that is a multiple of seven |
| LogbookCadence.CreateKeepsBook | scripts/operator-logbook.ts:255-287 | every created log continues the serials, has its header and rewrites no earlier file |
| LogbookCadence.CreatedLogsValidate | scripts/operator-logbook.ts:303-327 | whatever sequence of modes and texts is created from a well-kept book, the validator finds no issue |
| MedianSettlement.MedianByCount | noir/examples/dispute-resolution.ts:68-69 | the median is below a bound iff more than half of the scores (rounded down) are |
| MedianSettlement.PayoutByCount | noir/examples/dispute-resolution.ts:68-89 | each payout tier is reached exactly when at most half of the scores (rounded down) fall short of 80, 65 or 50 |
| MedianSettlement.SharesSum | noir/examples/dispute-resolution.ts:74-89 | refund and payment sum to 100, without scores too |
| MedianSettlement.NoScores | noir/examples/dispute-resolution.ts:68-89 | without scores the agent is refunded in full |
| MedianSettlement.OrderDoesNotMatter | noir/examples/dispute-resolution.ts:68-89 | equal multisets of scores settle equally |
| MedianSettlement.MinorityProof | noir/examples/dispute-resolution.ts:68-89 | a strict majority within [lo, hi] keeps median and payout between those of lo and hi |
| MedianSettlement.HalfIsNotEnough | noir/examples/dispute-resolution.ts:68-69 | exactly half of the scores does not suffice |
| MedianSettlement.RaisingNeverLowers | noir/examples/dispute-resolution.ts:68-89 | raising scores never lowers the median or the provider's share |
| Base58.B58Encode | scripts/verify-meishi-onchain.py:24-37 | the loop computes a '1' per leading zero byte followed by the base-58 numeral |
| Base58.DecodeEncode | scripts/verify-meishi-onchain.py:24-37 | decoding recovers every byte string, empty and all-zero ones included |
| Base58.EncodeDecode | scripts/verify-meishi-onchain.py:21-37 | every text over the alphabet is the encoding of what it decodes to |
| Base58.EncodeInjective | scripts/verify-meishi-onchain.py:24-37 | different byte strings have different texts |
| Base58.PaddingIsExact | scripts/verify-meishi-onchain.py:30-37 | the letter after the padding is never a '1', and there is none exactly for all-zero strings |
| Base58.AlphabetExactly | scripts/verify-meishi-onchain.py:21 | the letters are those of ASCII without 0, I, O and l, in ascending order |
| BigEndian.BytesToBigint | scripts/reputation-proof-demo.ts:64-70 | the shift loop computes the big-endian value |
| BigEndian.BigintToBytes32 | scripts/reputation-proof-demo.ts:72-80 | the array loop writes the 32 lowest base-256 digits |
| BigEndian.DecToBigEndian32 | circuits/scripts/export-vote-bid-vk.js:18-27 | the unshift loop writes the same 32 digits |
| BigEndian.ToBigEndianBytes | circuits/scripts/export-solana-verifier.js:19-37 | the padded hexadecimal text is read two digits at a time |
| BigEndian.HexEncoderAgrees | circuits/scripts/export-solana-verifier.js:31-36 | the hexadecimal encoder gives the fixed-width bytes iff the number fits, and only then the right length |
| BigEndian.EncodersWrap | scripts/reputation-proof-demo.ts:72-80 | the shifting encoders keep any number modulo 2^256 |
| BigEndian.EncodersAgree | circuits/scripts/export-vote-bid-vk.js:18-27 | below 2^256 all three encoders give the same 32 bytes and decoding reads the number back |
| BigEndian.DecodeThenEncode | scripts/reputation-proof-demo.ts:64-80 | encoding the value of 32 bytes gives the bytes back |
| BigEndian.G1Packing | circuits/scripts/export-solana-verifier.js:49-53 | both exporters pack a G1 point into the same 64 bytes, which determine it |
| BigEndian.G2Packing | circuits/scripts/export-vote-bid-vk.js:39-45 | both exporters pack a G2 point into the same 128 bytes, which determine it |
| MerkleFold.MerkleRoot | scripts/reputation-proof-demo.ts:111-129 | the loop folds the commitment with its siblings on the side of the index bit and encodes the top node |
| MerkleTree.FoldReachesRoot | scripts/reputation-proof-demo.ts:111-129 | every leaf of a complete binary tree, folded with the roots of its sibling subtrees along the binary digits of its index, gives the bytes of the root: the hash of the left half and the right half |
| MerkleTree.EveryLeafOpens | scripts/reputation-proof-demo.ts:111-129 | for every leaf of every tree there is such an opening of 32-byte nodes |
| MerkleFold.PathBinding | scripts/reputation-proof-demo.ts:111-129 | at every depth, two openings along the same bits with the same root bytes are equal, or one level of them exhibits a hash collision |
| MerkleFold.EqualNodes | scripts/reputation-proof-demo.ts:114-123 | without a collision met below it, equal nodes at a level mean equal leaves and siblings |
| Intake.RankOrderFacts | ops/openclaw/kamiyo-agent-marketplace-intake.py:320-328 | the ranking lists every row once, each after all rows that precede it |
| Intake.Dedupe | ops/openclaw/kamiyo-agent-marketplace-intake.py:319-340 | the loop with its early exit returns the rows the specification keeps |
| Intake.DedupeSelects | ops/openclaw/kamiyo-agent-marketplace-intake.py:330-340 | the result is the best row of each kept key (earliest on ties), ranked, one per key; a missing row's key is represented or the list is full of rows ranked before it |
| Intake.KeptAreRanked | ops/openclaw/kamiyo-agent-marketplace-intake.py:320-340 | kept rows stand by confidence, then dollars, then SOL, highest first, equal ones as listed; no row of the same key outranks a kept one |
| Intake.KeyExactly | ops/openclaw/kamiyo-agent-marketplace-intake.py:333 | the key is source and identifier in lower case, direct or unknown where missing |
| Intake.SelectionUnique | ops/openclaw/kamiyo-agent-marketplace-intake.py:319-340 | that declarative form determines the result |
| Intake.DedupeIdempotent | ops/openclaw/kamiyo-agent-marketplace-intake.py:319-340 | applying it to its own result changes nothing |
| MemoryBlock.ParseManagedBlock | ops/openclaw/kamiyo-agent-memory-extract.py:160-180 | the loop collects the dated and undated bullets between the markers |
| MemoryBlock.FormatManagedBlock | ops/openclaw/kamiyo-agent-memory-extract.py:183-198 | the loop prints heading, markers and one row per fact that is not blank |
| MemoryText.OutsideStays | ops/openclaw/kamiyo-agent-memory-extract.py:201-218 | with the markers in order the text above the start marker's line and below the end marker's line stays, but for whitespace next to the block |
| MemoryText.TextStays | ops/openclaw/kamiyo-agent-memory-extract.py:220-223 | otherwise the whole text stays in front of the block |
| MemoryText.BlockLines | ops/openclaw/kamiyo-agent-memory-extract.py:183-198 | the lines of the block: heading, start marker, a row per fact or the placeholder, end marker |
| MemoryCleaning.LineExactly | ops/openclaw/kamiyo-agent-memory-extract.py:166-172 | an indented bullet with a body is read as that body, the placeholder as none |
| MemoryCleaning.BodyExactly | ops/openclaw/kamiyo-agent-memory-extract.py:173-179 | a bracketed date, whitespace and a text are a dated fact, anything else an undated one |
| MemoryCleaning.OtherLine | ops/openclaw/kamiyo-agent-memory-extract.py:167-169 | any other line is no fact |
| MemoryBlock.RowReadsBack | ops/openclaw/kamiyo-agent-memory-extract.py:167-196 | a one-line fact reads back as itself iff its row cannot be taken for a placeholder, a dated fact or an undated one |
| MemoryBlock.StoredReadsBack | ops/openclaw/kamiyo-agent-memory-extract.py:201-223 | in text without markers or with markers in order, clean facts that are written read back in order with their dates |
| MemoryBlock.StrayEndHidesBlock | ops/openclaw/kamiyo-agent-memory-extract.py:160-164 | after a stray end marker nothing that is written is read back |
| MemoryBlock.StrayStartLeaks | ops/openclaw/kamiyo-agent-memory-extract.py:160-180 | after a stray start marker the bullets below it are read in front of the block's facts |
| MemoryBlock.ReadsBackExactly | ops/openclaw/kamiyo-agent-memory-extract.py:160-223 | the exact condition on the text for written facts to read back |
| MemoryMerge.Extractor.CollectExisting | ops/openclaw/kamiyo-agent-memory-extract.py:249-259 | the facts of the block are cleaned and reduced to the first of each signature |
| MemoryCleaning.SpacedOnce | ops/openclaw/kamiyo-agent-memory-extract.py:96-97 | cleaning keeps the words, one space apart |
| MemoryCleaning.StripBulletsMeans | ops/openclaw/kamiyo-agent-memory-extract.py:98 | one longest run of bullets in front goes, with the whitespace behind it |
| MemoryCleaning.RejectedExactly | ops/openclaw/kamiyo-agent-memory-extract.py:99-109 | a text is rejected iff it is shorter than twelve, bracketed as a whole, or says one of the placeholder words in any case |
| MemoryCleaning.ExistingExactly | ops/openclaw/kamiyo-agent-memory-extract.py:249-259 | of the facts in the block those first of their signature are kept, cleaned, in order |
| MemoryCleaning.AppendedExactly | ops/openclaw/kamiyo-agent-memory-extract.py:262-270 | behind them stand the new candidates, first of their signature, in order, with the date of the run |
| MemoryMerge.Extractor.Run | ops/openclaw/kamiyo-agent-memory-extract.py:226-287 | a run rewrites block and known signatures from the merged and trimmed facts and counts what it appended |
| MemoryMerge.Trim | ops/openclaw/kamiyo-agent-memory-extract.py:272 | the newest facts are kept, as many as fit |
| MemoryMerge.StoredFactsDistinct | ops/openclaw/kamiyo-agent-memory-extract.py:249-273 | the list of facts that a run prints never holds one signature twice |
| MemoryReadback.PrintableReadsBack | ops/openclaw/kamiyo-agent-memory-extract.py:160-198 | collapsed facts with or without a date read back in order, an undated one that looks dated with that date |
| MemoryReadback.StoredBlock | ops/openclaw/kamiyo-agent-memory-extract.py:160-287 | the stored block reads back as the facts of the run iff no undated one looks dated; then it holds no signature twice |
| MemoryReadback.DatedLookTwice | ops/openclaw/kamiyo-agent-memory-extract.py:160-273 | a bulleted line that looks dated beside the same text: after the next run the block holds the text twice |
| MemoryMerge.UnchangedNotes | ops/openclaw/kamiyo-agent-memory-extract.py:240-287 | while durable facts fit, the next run stores the same facts iff no candidate was known to the state file only, and then any number of reruns keeps the block |
| MemoryReruns.CandidatesExactly | ops/openclaw/kamiyo-agent-memory-extract.py:96-109 | cleaning produces exactly the non-empty texts that are stripped, collapsed and not rejected, with or without a bullet in front |
| MemoryReruns.StableExactly | ops/openclaw/kamiyo-agent-memory-extract.py:96-109 | cleaning leaves such a text alone iff it starts with no bullet, and otherwise shortens it |
| MemoryReruns.BulletedCandidate | ops/openclaw/kamiyo-agent-memory-extract.py:96-109 | the note `memory: - - c` yields the candidate `- c`, which cleaning turns into `c` |
| MemoryReruns.RerunsExactly | ops/openclaw/kamiyo-agent-memory-extract.py:240-287 | from a memory without facts, every rerun on the notes appends nothing iff no candidate starts with a bullet; the third run decides it |
| MemoryReruns.UnstableFactReturns | ops/openclaw/kamiyo-agent-memory-extract.py:226-287 | in the stored text: a note with a second bullet loses it in the second run and stands beside the bare fact after the third |

## Left out

- RoutedShareBounded: assumes that a transfer moves what it reports and at most what was requested; a dry run, which reports an amount and moves nothing, is outside it.
- WaitingLosesNothing: balances are read truthfully; stale readings of the RPC node are not modelled.
- NoRouteCountsTwice: compares with the last signature only, as the code does; an older route that resurfaces later is not excluded.
- EveryRunKeepsTheWorld: complete enabled runs only; a disabled run overwrites the state file, and for runs that die see DeadRunsComeOnTop. Malformed values inside the state file are not modelled.
- DeadRunsComeOnTop: a run that dies between a dispatch and its receipt is not modelled; nothing records that send.
- OutlayAccounts: a transfer moves the computed amount; the amount that the pool reports back is not modelled.
- EveryRowEmitted: rows are immutable; a job whose status changes after the cursor passed it is not read again.
- RecoveryExactly: the lookup returns the newest route of the wallet, and every route has a signature of its own.
- FileMirrorsTable: a missing execution time is stamped with the clock of the sync; the stamp is not part of the modelled receipt.
- BookFollowsSchedule: assumes that the next serial lies above the files, as it does unless a state file was edited by hand or a run died between its two writes; files of one serial and different names are listed in no particular order.
- NewFile: the running text of the two templates stands as "..."; their section lines are exact.
- ValidateLogs: first lines are given without surrounding whitespace.
- RecognisedAs: titles and bodies are lists of lines; case folding is the ASCII part of the pattern's flag.
- PathBinding: the two-input hash is a parameter; commitments and siblings have 32 bytes.
- MinorityProof: scores are integers, as the oracles submit them.
- Dedupe: ranks are real numbers without NaN; keys are lower-cased in the ASCII range; the library sort is modelled as the stable insertion order that its documentation promises.
- Sanitize: lower-casing covers ASCII letters; the signature hash is a parameter, free of collisions where RerunsExactly needs it.
- RerunsExactly: candidates have different signatures, as the extraction makes sure, none holds the end marker, and all fit the limit.
- Extractor.Run: the scan of the daily notes for candidate lines is an input; the heading above a replaced block piles up in the text, which affects no parsed fact.
- Solana, Ethereum, snarkjs and DKG clients, deployment and registration scripts: thin calls into programs that are not part of this model.
- JSON, file, HTTP, subprocess and environment handling: replaced by typed values and nondeterministic results.
- Floating-point representation of SOL and USD: whole lamports, and in receipts real numbers that are rounded to eight decimals.
- Dashboards, banners, prompts, promotional copy, mission control, revenue guard, artifact contracts and operator log: display, flag tables, field checks and sums, which decide nothing across runs.
