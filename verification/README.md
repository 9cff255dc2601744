# Verification of the finance and job-run core

A Dafny model of the parts of the backend whose correctness rests on more than one function: the
balance series derived from a bank ledger, recurring bills and their matching pass, the idempotent
finance ingest with its sync watermark, OAuth refresh-token rotation, scheduled job runs, and the
point budget of the balance tools. `dafny verify dfyconfig.toml` checks all of it.

Where the program updates state step by step (store methods, folding and emission loops, the
allocator, the sweeps) the model does too: classes and arrays with loops. Each such method is proved
equal to a function of its inputs, and the properties are proved of that function. Protocols with
several actors are state machines over their individual reads and writes, so the theorems quantify
over every interleaving.

| modules | what they model |
|---|---|
| `Prelude`, `Grid`, `Calendar` | truncating division, strictly increasing instants, the Gregorian calendar on day numbers |
| `Occurrences`, `BillMatching`, `Reconcile`, `ReconcileProperties`, `ReconcileCounts`, `BoundedPass` | due dates, the match rule, the matching pass, its bounds and the payment table |
| `Buckets`, `LedgerBuckets`, `LedgerSeries`, `LedgerSeriesDerivation`, `LedgerSeriesTruth`, `LedgerSeriesWindows`, `LedgerSeriesRange`, `LedgerErrors`, `LedgerErrorPoints`, `LedgerInstants`, `SnapshotSeries` | bucketed balance series, on buckets and on instants |
| `DedupHash`, `Ingest`, `IngestProperties`, `IngestTables`, `Watermarks`, `WatermarkRaces` | the append-only ledger, its ordinals, the sync windows, and ingests interleaved |
| `OAuthTokens`, `RefreshRotation` | one-time codes and refresh rotation, alone and interleaved |
| `JobRuns`, `Artifacts`, `WorkApi`, `RunLifecycle`, `RunLifecycleProperties`, `RunWitnesses`, `Scheduler` | run rows, sweeps, artifacts and the work API, the interleaved lifecycle, and the ticker |
| `AllotPoints` | water-filling of a point budget |

How things are represented. Money is `real`. A finance date is its day number, because every stored
date is normalised to UTC midnight. A time zone is any strictly increasing function from day numbers
to the instants of local midnight, so days of 23 and 25 hours are included. Go's integer division is
`TruncDiv` and `TruncMod`. SHA-256 is injective (a hash is the text it digests) and random tokens are
fresh numbers. Tables are sequences or maps with their unique indexes written out, and a conditional
update is one atomic step. A cron schedule is any function to a strictly later instant.

## Findings

Where the code does less than its comments or a reader may expect, the model follows the code and
states exactly when it holds.

- A terminal run status is not final. `finishRun`, `completeFinanceSync`, `completeWork` and the
  force-start's failure path write by id without re-checking the status. `FinalExactlyWhenSettled` says
  exactly when a closed run can still change, from any moment on: a writer is under way for it, or one of
  its artifacts was ever claimed by a runner, or one is still pending at a job outside runners work for.
  `UnclaimableWorkIsFinal` is the other side, and `ReapedRunCanSucceed` is a reachable run that the reaper
  failed and that then succeeds.
- The reaper never closes a force-started run of an ordinary job whose worker died, because that
  bucket is limited to scheduled runs: `MissedByTheReaper`, an equivalence over reachable states, and
  `ForceStartedRunIsStuck`, such a state.
- The running-balance check cannot see a missing first or last row (`MissingEndUnseen`). A missing
  interior row shows on the series, in any window, exactly when it exceeds the tolerance
  (`MissingRowFlagged`, `MissingRowShows`); for a repeated row the conditions are in `DoubledRowFlagged`.
- Stepping a bill month by month is not stepping from its anchor: 31 January 2025 gives 28 March by way of
  February and 31 March at once (`ClampDoesNotCompose`). `StepsComposeExactly` says when the two agree.
  Occurrences are always derived from the anchor.
- Rotation leaves the old access token valid until it expires. Over every run an access token works exactly
  while its family is unswept and it is unexpired, for its audience and scope (`AccessExactly`), and only a
  replay sweeps a family (`OnlyAReplaySweeps`).
- The sync watermark can move back. Ingests that only mention an account read its row without locking it,
  and write the watermark without looking again: two such runs begun at 5 take it to 9 and back to 7
  (`MentioningRunsCanLower`). With newcomers that declare the account it can fall from here on if and only
  if a run under way does not declare it and has yet to write, or has written below it (`FallPossibleExactly`).
- Approving a run that is already approved is described as a no-op, but it replaces the approval time, by
  which the runs are leased; `ReapprovalKeepsPlaceExactly` says when the run keeps its place, and
  `SecondApprovalCostsThePlace` is a reachable state in which it loses it.
- A job's stored next instant can move back, since a ticker writes it without looking again: exactly when
  the ticker's clock is an activation behind the one it was set by (`PointerFallsExactly`). Activations may then be
  answered by two runs (`StalledTickerAnswersTwice`); there is still one run per job and instant.
- A series walked from a reading is off by what was posted after the reading in the same bucket. Points are
  true exactly when the query loads a running balance or the newest reading is the level at its bucket's end
  (`TrueExactly`, `WalkedErrorAt`, with an instance in `LaterRowNotSeen`).
- A row of an account whose name holds a bar can share its dedup key with another account's row
  (`BarInNameConfuses`), and a later ingest then drops it as a duplicate (`ConfusedRowIsDropped`). Equal
  keys mean equal fields exactly when the two names hold equally many bars (`KeyDecidesFields`).
- The pass bounded by the ingested dates misses an older row dated past the day of the last pass
  (`RowDatedAheadIsMissed`); without such rows it misses nothing, over any run of days (`BoundedRunSuffices`).
- In the month search of `dueOrdinal` the comment speaks of the last step or two; it is at most one
  step back and exactly one forward (`FindDueOrdinal`).

## Model

| member | source | states |
|---|---|---|
| `Grid.FloorAdjoint` | backend/internal/finance/balance_series.go:246-289 | in any strictly increasing sequence of instants, member i is at or before t exactly when i is at most the floor's index, and only the floor's member and successor enclose t |
| `Calendar.MonthLengths` | backend/internal/finance/bills.go:191-195 | the lengths that fall out of day numbers are the civil month lengths, leap years included |
| `Calendar.MonthOfUnique` | backend/internal/finance/bills.go:197-211 | each day lies in exactly one month |
| `Calendar.EpochIsAThursday` | backend/internal/finance/balance_series.go:254-263 | the day count's reference point: 1 January 1970 is a Thursday, which fixes where the weeks begin |
| `Occurrences.CeilDiv` | backend/internal/finance/bills.go:222-230 | rounds toward plus infinity for numerators of either sign, out of Go's truncating division |
| `Occurrences.ClampStaysInMonth` | backend/internal/finance/bills.go:197-211 | stepping n months lands in exactly the n-th month, on the same day of the month or on the month's last day if it is shorter |
| `Occurrences.StepsComposeExactly` | backend/internal/finance/bills.go:197-220 | m months and then n more reach the date of m + n at once if and only if the month between has the anchor's day or the last month is no longer than it |
| `Occurrences.ClampDoesNotCompose` | backend/internal/finance/bills.go:197-220 | from 31 January 2025, one month twice is 28 March while two months are 31 March |
| `Occurrences.OccurrencesIncrease` | backend/internal/finance/bills.go:212-220 | due dates are strictly increasing over all signed ordinals, despite clamping |
| `Occurrences.DueOrdinalIsLeast` | backend/internal/finance/bills.go:232-251 | an occurrence is on or after today exactly when its ordinal is at least the due ordinal, for every anchor, cadence, date and ordinal |
| `Occurrences.EstimateIsClose` | backend/internal/finance/bills.go:242-250 | the truncated month quotient is within one of the due ordinal, on both sides of the anchor |
| `Occurrences.FindDueOrdinal` | backend/internal/finance/bills.go:236-251 | the estimate-then-walk search returns the due ordinal; on the month path it steps back at most once and forward exactly once |
| `Occurrences.PrevAndNextAreAdjacent` | backend/internal/finance/bills.go:253-262 | prev_due lies before the date, next_due on or after it, and no due date lies strictly between |
| `Occurrences.LastOccurrenceIsLast` | backend/internal/finance/bills.go:264-273 | the cap ended_on sets is a due date on or before the date, and every other such due date is no later |
| `Occurrences.IsOccurrenceDecides` | backend/internal/finance/bills.go:275-279 | probing one occurrence decides membership in the whole infinite sequence |
| `Occurrences.NearestIsNearest` | backend/internal/finance/bills.go:302-313 | the nearest occurrence is a due date, minimises the day distance over every ordinal, and wins ties by being earlier |
| `Occurrences.ListOccurrences` | backend/internal/finance/bills.go:281-300 | the listing loop, which stops on seeing an occurrence past the window or at the cap, returns the window's occurrences by ordinal |
| `Occurrences.ListedInOrder` | backend/internal/finance/bills.go:281-300 | what is listed is strictly ascending |
| `Occurrences.ListedAreOccurrences` | backend/internal/finance/bills.go:281-300 | everything listed is a due date inside the inclusive window |
| `Occurrences.ListedExactly` | backend/internal/finance/bills.go:281-300 | a due date of the window is listed if and only if it is among the window's first 10000 |
| `BillMatching.BestRowIsBest` | backend/internal/finance/bills.go:673-683 | whenever some row is eligible one is chosen, and no eligible row is preferred to it by (gap, day, id) |
| `BillMatching.BestRowUnique` | backend/internal/finance/bills.go:673-683 | an eligible row that no eligible row is preferred to is that row, so re-runs are deterministic |
| `BillMatching.IndexByDay` | backend/internal/finance/bills.go:777-784 | the per-day index holds each loaded row under its own day, in order, and nothing else |
| `BillMatching.MatchesExactly` | backend/internal/finance/bills.go:644-672 | the rule clause by clause: the text is part of the description or merchant, the account is the bill's if it names one, the magnitude lies within the percentage of the expected amount unless that varies, the day within the window of the due date |
| `BillMatching.SignDoesNotMatter` | backend/internal/finance/bills.go:668-671 | a debit matches as the credit of the same size does |
| `BillMatching.BestMatch` | backend/internal/finance/bills.go:684-703 | examining only the days of the match window finds the row a scan of all loaded rows prefers; the work reported is the number of unused rows in those days |
| `BillMatching.WindowSuffices` | backend/internal/finance/bills.go:742-775 | loading a window that covers a cycle's own days gives the same row as the whole ledger |
| `BillMatching.UnusedAreLoaded` | backend/internal/finance/bills.go:742-775 | the rows a cycle is compared with number the same in the loaded window as in the ledger |
| `BillMatching.UsedOnlyShrinksChoice` | backend/internal/finance/bills.go:684-703 | a cycle with no row to take has none after more rows are used up |
| `Reconcile.UniqueInsert` | backend/ent/schema/billpayment.go:52-59 | inserting keeps both unique indexes exactly when it conflicts with neither |
| `Reconcile.BillStore.Create` | backend/internal/finance/bills.go:803-817 | a guarded insert: a conflict inserts nothing and is reported |
| `Reconcile.PlanCycles` | backend/internal/finance/bills.go:735-763 | each bill gets the cycles of its clipped window, and the union range covers every cycle's candidate days |
| `Reconcile.OneMoreCycle` | backend/internal/finance/bills.go:793-822 | one cycle further, the best row and the rows compared within the loaded window are those of the ledger |
| `Reconcile.BillStore.SettleBill` | backend/internal/finance/bills.go:786-822 | the indexed, set-mutating loop over a bill's cycles equals settling each cycle by a scan of the whole ledger |
| `Reconcile.BillStore.ReconcileBills` | backend/internal/finance/bills.go:720-824 | one pass over the loaded union window leaves the payments of the naive pass of every bill and cycle against the whole ledger, and reports the bills, unsettled cycles and compared rows of that pass; both unique indexes hold |
| `Reconcile.BillStore.LinkBillPayment` | backend/internal/finance/bills.go:870-932 | a hand-made link names a due date or the nearest one, replaces an auto link of that cycle only, yields exactly to a manual one, fails exactly when another cycle of the bill has the row, and any failure leaves the payments as they were |
| `ReconcileProperties.PassKeepsUnique` | backend/internal/finance/bills.go:705-824 | after any pass there is at most one payment per (bill, cycle) and per (bill, transaction) |
| `ReconcileProperties.PassLinksOnlyMatches` | backend/internal/finance/bills.go:644-682 | existing links are a prefix of the result, and every new link is an auto link of a real cycle to a ledger row that meets the rule's clauses, each written out |
| `ReconcileProperties.PassGetsDone` | backend/internal/finance/bills.go:786-822 | after a pass every cycle tried is settled, or no unused row of the ledger matches it |
| `ReconcileProperties.TriedExactly` | backend/internal/finance/bills.go:315-353 | below the listing cap, the cycles tried are the due dates from the anchor to the bill's end, by today plus the window, within the window of the covered days and of the days asked for |
| `ReconcileProperties.PassPaysWhatItCan` | backend/internal/finance/bills.go:786-822 | after a pass, a cycle it tried is linked, or every ledger row that would pay it is linked to another cycle of the bill |
| `ReconcileProperties.PassIsIdempotent` | backend/internal/finance/bills.go:705-719 | a second pass over the same ledger, bills, bounds and day links nothing |
| `ReconcileProperties.CutCyclesMatchNothing` | backend/internal/finance/bills.go:315-335 | a cycle cut by the coverage bound can match no row of the ledger |
| `ReconcileProperties.CoverageBoundLosesNothing` | backend/internal/finance/bills.go:315-353 | settling only covered cycles gives the same payments as settling every cycle from the anchor, while those fit the listing cap |
| `ReconcileProperties.OverdueIsGenuine` | backend/internal/finance/bills.go:534-581 | a bill still overdue after an unbounded pass has no unused ledger row that matches its missed cycle |
| `ReconcileCounts.OverdueExactly` | backend/internal/finance/bills.go:534-581 | a bill is overdue if and only if it is active with a text, its latest due date before today is over a window back, is its own and within the ledger's reach, and no payment settles it |
| `ReconcileCounts.ReportExactly` | backend/internal/finance/bills.go:720-824 | the summary counts the bills with a cycle to try and the cycles unsettled before the pass, and links no more than it checked or compared |
| `ReconcileCounts.UnusedExactly` | backend/internal/finance/bills.go:684-703 | the rows compared are the unused rows of the window, each once |
| `BoundedPass.CoverageCostsNothing` | backend/internal/finance/bills.go:315-335 | over any bills, the pass with the coverage bound leaves the payments of the pass over every cycle from each anchor, below the listing cap |
| `BoundedPass.NarrowerIsPart` | backend/internal/finance/bills.go:281-353 | narrowing a window on both sides lists a contiguous part of what the wider one lists |
| `BoundedPass.DoneCyclesCanBeSkipped` | backend/internal/finance/bills.go:786-822 | cycles that are settled or match no unused row can be left out, before and after the others |
| `BoundedPass.BoundedPassSuffices` | backend/internal/finance/bills.go:315-353 | the pass bounded by the ingested dates, on the day of the last pass or any later one, leaves the payments of the pass over every cycle, unless an old row is dated past the last pass's day and outside the ingested dates |
| `BoundedPass.StaysReconciled` | backend/internal/finance/bills.go:315-326 | so from one day to the next every covered cycle stays settled or without an unused matching row |
| `BoundedPass.BoundedRunSuffices` | backend/internal/finance/bills.go:848-866 | from an empty ledger on, over any run of ingests on any days, bounded passes leave the payments of unbounded ones and every covered cycle settled or matchless |
| `BoundedPass.RowDatedAheadIsMissed` | backend/internal/finance/bills.go:315-326 | the condition on dates is needed: a row dated 20, there on day 10, is not linked on day 20 by a pass bounded to 15 and is by the unbounded one |
| `Buckets.BucketStartIsEdge` | backend/internal/finance/balance_series.go:254-270 | the calendar arithmetic of bucketStart gives the edge of the bucket containing the instant, for day, week and month |
| `Buckets.NextIsNextEdge` | backend/internal/finance/balance_series.go:272-286 | nextBucketStart of an edge is the following edge, across month ends and clock changes |
| `Buckets.BucketsPartitionTime` | backend/internal/finance/balance_series.go:246-286 | every instant lies in [start, next) of exactly one bucket |
| `Buckets.BucketStarts` | backend/internal/finance/balance_series.go:602-609 | iterating next from the first bucket reaches every bucket start up to the last exactly once |
| `Buckets.EdgeBoundsSelectBuckets` | backend/internal/finance/balance_series.go:293-298 | filtering instants by bucket edges is filtering them by bucket |
| `Buckets.BucketOfMonotone` | backend/internal/finance/balance_series.go:246-270 | a later instant never falls in an earlier bucket, whatever the zone |
| `LedgerBuckets.NetIsStep` | backend/internal/finance/balance_series.go:611-623 | a bucket's net is the step in the running total of all rows between its two edges |
| `LedgerBuckets.FlowParts` | backend/internal/finance/read.go:238-261 | inflow, outflow, income, spend and transfers are each the sum of their own rows' magnitudes, and txns their number |
| `LedgerBuckets.ExternalFlowsTieOut` | backend/internal/finance/read.go:247-261 | external income less spend, plus internal legs, is the bucket's net |
| `LedgerBuckets.BucketsConserveRows` | backend/internal/finance/balance_series.go:602-644 | over any bucket range the nets sum to the amounts of exactly the rows in the range |
| `LedgerBuckets.RangeFolds` | backend/internal/finance/balance_series.go:592-644 | a bucket folded from a loaded range that contains it equals the bucket folded from the whole ledger |
| `LedgerSeriesDerivation.FoldRows` | backend/internal/finance/balance_series.go:602-644 | pre-seeding every bucket and folding each loaded row into its own gives each bucket exactly the rows of its key |
| `LedgerSeriesDerivation.CheckRunningBalance` | backend/internal/finance/balance_series.go:883-901 | the single walk with its resettable previous figure flags exactly the buckets of rows that break from their covered predecessor |
| `LedgerSeriesDerivation.WalkFromAnchor` | backend/internal/finance/balance_series.go:821-859 | the two in-place loops fill every close outward from the anchor's bucket, or report that it is out of range |
| `LedgerSeriesDerivation.Emit` | backend/internal/finance/balance_series.go:685-804 | the one stateful loop with its carried level emits the points of the specification, and drift and start_unverified with them |
| `LedgerSeriesDerivation.DeriveSeries` | backend/internal/finance/balance_series.go:465-804 | the whole imperative derivation equals the series function, notes and early returns included |
| `LedgerSeriesTruth.FlowKnowsLevels` | backend/internal/finance/balance_series.go:628-660 | from any covered row in it, a bucket's fold recovers the true level at both of its edges |
| `LedgerSeriesTruth.ConsistentNeverFlagged` | backend/internal/finance/balance_series.go:875-901 | a ledger consistent with some opening balance is never flagged in any bucket |
| `LedgerSeriesTruth.WalkIsShiftedSum` | backend/internal/finance/balance_series.go:810-859 | walked closes are the anchor's reading shifted by the running total, on both sides |
| `LedgerSeriesTruth.SeriesIsTrue` | backend/internal/finance/balance_series.go:445-804 | on any consistent ledger, with full, mixed or no coverage, every emitted close is the true balance at its bucket's end, every open the true balance before it, and no mismatch is reported; only a query that loads no running balance needs the newest reading to be the level at its bucket's end |
| `LedgerSeriesWindows.BankLevels` | backend/internal/finance/balance_series.go:674-756 | started cleanly, the emission loop's level is the newest bank figure accumulated over the rows after it, for any ledger |
| `LedgerSeriesWindows.DerivationStartsCleanly` | backend/internal/finance/balance_series.go:533-568 | reaching back to the newest covered row before the window makes the derivation start where no earlier level is known or where one is established |
| `LedgerSeriesWindows.PointIsWindowFree` | backend/internal/finance/balance_series.go:510-804 | every point of every window, on any ledger, consistent or not, equals a point defined without any window |
| `LedgerSeriesWindows.WindowsAgree` | backend/internal/finance/balance_series.go:510-568 | two windows of one account agree on every bucket both report |
| `LedgerSeriesWindows.SeriesIsSlice` | backend/internal/finance/balance_series.go:510-568 | with coverage all or nothing, a query gives one point per bucket of its emitted range, in order, each the window-free one |
| `LedgerSeriesRange.SliceOfAsked` | backend/internal/finance/balance_series.go:510-530 | with coverage all or nothing, the points are those of exactly the buckets the query asks for, written out from its from and to, in order |
| `LedgerSeriesRange.ReportedExactly` | backend/internal/finance/balance_series.go:510-804 | on any ledger and query, a bucket is reported if and only if it is asked for and a row up to it carries a running balance, or the series is walked; in ascending order, once each |
| `LedgerSeriesRange.ProbeSeesCoverage` | backend/internal/finance/balance_series.go:544-583 | the probe finds coverage exactly when some row up to the horizon has a running balance, however far before the window |
| `LedgerSeriesRange.NotesExactly` | backend/internal/finance/balance_series.go:465-590 | each note holds exactly in its case, and ledger_from is the first row's bucket |
| `LedgerSeriesRange.PointTellsSource` | backend/internal/finance/balance_series.go:705-804 | a point is carried exactly when no row falls in its bucket and rests on the bank's figure exactly when its last row has one |
| `LedgerSeriesRange.UnverifiedExactly` | backend/internal/finance/balance_series.go:799-803 | a series starts unverified if and only if it has a point and no running balance or, when walked, no reading comes before the first bucket asked for |
| `LedgerSeriesWindows.UnverifiedMeansUnknown` | backend/internal/finance/balance_series.go:799-803 | where the range holds a running balance, a series is flagged start_unverified exactly when it has a point and no level is known before its window |
| `LedgerSeriesWindows.MaxDriftIsWorst` | backend/internal/finance/balance_series.go:777-786 | the reported worst drift bounds every point's drift and, unless it is zero, is attained by one |
| `LedgerSeriesWindows.WalkedPoints` | backend/internal/finance/balance_series.go:705-789 | on the walked path of any ledger, close less open is the net, quiet buckets change nothing, the anchor's bucket closes on the reading and its drift is zero |
| `LedgerSeriesWindows.WalkedErrorIsReadings` | backend/internal/finance/balance_series.go:813-816 | every walked close and open is off by exactly what the reading is off by as its bucket's close |
| `LedgerSeriesWindows.TrueExactly` | backend/internal/finance/balance_series.go:810-859 | on a consistent ledger a point is true if and only if the query loads a running balance or the newest reading is the true level at the end of its bucket |
| `LedgerSeriesWindows.LaterRowNotSeen` | backend/internal/finance/balance_series.go:813-816 | read at 100 with five paid later in the bucket, the series closes it at 100 and the account at 95 |
| `LedgerSeriesWindows.WalkedSeriesTelescopes` | backend/internal/finance/balance_series.go:821-859 | last close less first open of a walked series is the net of all buckets between |
| `LedgerErrors.MissingRowFlagged` | backend/internal/finance/balance_series.go:875-901 | removing an interior row of a covered consistent ledger flags the following row's bucket and no other, if and only if its amount exceeds the tolerance |
| `LedgerErrors.MissingEndUnseen` | backend/internal/finance/balance_series.go:883-901 | removing the first or the last row flags nothing |
| `LedgerErrors.DoubledRowFlagged` | backend/internal/finance/balance_series.go:883-901 | a copy of a row sorted anywhere after it flags exactly the copy's bucket and the following row's, each if and only if the amounts concerned exceed the tolerance |
| `LedgerErrors.AdjacentDoubleFlagged` | backend/internal/finance/balance_series.go:883-901 | a copy right after its original flags its bucket exactly beyond the tolerance |
| `LedgerErrors.DoubleAlwaysCaught` | backend/internal/finance/balance_series.go:883-901 | wherever a copy sorts short of the end, an amount of over twice the tolerance is caught |
| `LedgerErrorPoints.MissingRowShows` | backend/internal/finance/balance_series.go:787-795 | in any window over a covered ledger that lost an interior row, a point has flow_mismatch if and only if it is the following row's bucket and the amount exceeds the tolerance |
| `LedgerErrorPoints.EveryBucketReported` | backend/internal/finance/balance_series.go:685-804 | a query over a covered ledger has a point for each bucket it asks for |
| `LedgerErrorPoints.FlagShows` | backend/internal/finance/balance_series.go:787-795 | a bucket the running-balance check flags shows as a point with flow_mismatch in every window that holds it |
| `LedgerErrorPoints.DoubledRowShows` | backend/internal/finance/balance_series.go:787-795 | a row doubled short of the end, of over twice the tolerance, shows at the copy's bucket or the following row's |
| `LedgerInstants.KeyedIsSorted` | backend/internal/finance/balance_series.go:246-270 | rows in (posted_date, id) order fall into buckets in order, in any zone |
| `LedgerInstants.LoadedByInstant` | backend/internal/finance/balance_series.go:592-601 | a load bounded by the instants of two bucket edges is exactly the buckets between |
| `LedgerInstants.TotalsAgree` | backend/internal/finance/balance_series.go:602-644 | what the buckets up to one sum to is what was posted before the next bucket's start |
| `LedgerInstants.SeriesIsTrueAt` | backend/internal/finance/balance_series.go:445-804 | over instants and any zone: each point closes on the true balance of everything posted before the next bucket's start and opens on that posted before its own, without a mismatch; a walked query needs the newest reading true at its bucket's end |
| `LedgerInstants.ReportedExactlyAt` | backend/internal/finance/balance_series.go:510-530 | over instants and any zone: a bucket has a point if and only if it ends after the first row and the query's from and starts by its to or, without one, by the last row or the newest reading |
| `LedgerInstants.WalkedErrorAt` | backend/internal/finance/balance_series.go:813-816 | if the newest reading was true at instant t, every point of a walked series is off by the amounts posted between t and the end of the reading's bucket |
| `LedgerInstants.WindowsAgreeAt` | backend/internal/finance/balance_series.go:510-568 | two queries of one account, bounded by any instants, agree wherever they report the same instant |
| `SnapshotSeries.DeriveSnapshots` | backend/internal/finance/balance_series.go:305-415 | the priming and carrying loop emits contiguous buckets, each the sample-and-hold of the whole reading table, carried exactly when no reading falls inside |
| `SnapshotSeries.ShownExactly` | backend/internal/finance/balance_series.go:330-370 | the buckets shown run from the first reading and the query's from to its to or, without one, to the newest reading's bucket or from's own |
| `SnapshotSeries.HeldIsLatest` | backend/internal/finance/balance_series.go:300-304 | a held balance is that of the last reading in (as_of, id) order before the bucket's end |
| `SnapshotSeries.NothingBackFilled` | backend/internal/finance/balance_series.go:330-349 | no bucket before the account's first reading is emitted, and every emitted one has a level |
| `DedupHash.HashInjective` | backend/internal/finance/hash.go:53-70 | the trailing ordinal is uniquely decodable whatever bars the key contains, so equal hashes mean equal keys and ordinals |
| `DedupHash.HashesDistinct` | backend/internal/finance/ingest.go:139-165 | no two rows of one payload share a hash, so the collision canary never fires |
| `DedupHash.HashesArePrefix` | backend/internal/finance/hash.go:31-48 | a payload's hashes for a key carry exactly the ordinals below the key's multiplicity in it |
| `DedupHash.KeyDecidesFields` | backend/internal/finance/hash.go:60-70 | of two rows with the same canonical key, the fields are the same if and only if the account names hold equally many bars; bars in descriptions do not matter |
| `DedupHash.HashDecidesFields` | backend/internal/finance/hash.go:53-70 | among accounts whose names hold equally many bars, hashes are equal if and only if the fields and the ordinals are |
| `DedupHash.BarInNameConfuses` | backend/internal/finance/hash.go:60-70 | account a and account "a, bar, 2025-07-10, bar, 1.00" have rows of different days and amounts with one key |
| `DedupHash.CollapseTwice` | backend/internal/finance/hash.go:96-100 | collapsing white space is idempotent and leaves none at the end |
| `DedupHash.SameExactlyInWords` | backend/internal/finance/hash.go:96-100 | two texts collapse to the same if and only if they have the same words |
| `DedupHash.TrimExactly` | backend/internal/finance/hash.go:63-64 | trimming takes the white space at both ends and nothing else |
| `Ingest.UpsertPosted` | backend/internal/finance/ingest.go:144-191 | the counting loop inserts if absent under each row's multiplicity hash, counts what it inserted and skipped, raises no collision, and fails exactly when a date does not parse |
| `Ingest.ReplacePendingSets` | backend/internal/finance/ingest.go:193-236 | for each account named, in first-appearance order, the pending rows become exactly the payload's; accounts and rows are counted |
| `Ingest.EveryPendingRowCounted` | backend/internal/finance/ingest.go:196-205 | grouping pending rows by account neither loses nor repeats a row, and names each account once |
| `Ingest.Store.Ingest` | backend/internal/finance/ingest.go:60-330 | the transaction as a whole: a clean real run leaves the specified database; dry, unreconciled and unparsable ones leave it untouched, each with its own error or a full summary, discrepancies named |
| `IngestTables.LandsExactly` | backend/internal/finance/ingest.go:60-330 | a run lands if and only if every date parses, it is real, its rows are as many as announced and its window's end parses |
| `IngestTables.ReadingsExactly` | backend/internal/finance/ingest.go:107-132 | after a landed ingest a balance reading is stored if and only if it was, or its account and time had none and it is the first the payload declares for them |
| `IngestTables.RepostReadsNothing` | backend/internal/finance/ingest.go:107-132 | declaring the same readings again stores none and changes none |
| `IngestTables.AccountsExactly` | backend/internal/finance/ingest.go:331-398 | after a landed ingest an account is there if and only if it was, or is declared, posted to, held or named by the window; bank columns are those of its last declaration, else its own, else a placeholder's; owner columns stay |
| `IngestTables.PostedExactly` | backend/internal/finance/ingest.go:144-191 | a newly stored row is one of the payload, under its hash, account and day |
| `IngestTables.PendingInOrder` | backend/internal/finance/ingest.go:196-205 | an account's pending rows are the payload's rows of its name, in order |
| `IngestProperties.LedgerIsMaxOfMultiplicities` | backend/internal/finance/hash.go:31-48 | over any run of attempts from an empty ledger, the stored ordinals of a key are exactly those below its largest multiplicity in any landed payload |
| `IngestProperties.RowCountIsMax` | backend/internal/finance/hash.go:31-48 | the stored row count of a key equals that largest multiplicity |
| `IngestProperties.RowOrderIrrelevant` | backend/internal/finance/hash.go:39-43 | reordering a payload's rows changes no multiplicity |
| `IngestProperties.OrderIrrelevant` | backend/internal/finance/hash.go:31-48 | runs that land the same payloads store the same hashes, whatever the order, repeats, row orders and failed attempts |
| `IngestProperties.RepostInsertsNothing` | backend/internal/finance/ingest.go:129-191 | re-posting a landed payload in any row order inserts nothing and alters nothing |
| `IngestProperties.ConfusedRowIsDropped` | backend/internal/finance/ingest.go:144-191 | two rows of different accounts that share a key, landed one after the other, leave the first alone in the ledger |
| `IngestProperties.PostedIsAppendOnly` | backend/internal/finance/ingest.go:129-191 | no attempt removes or alters a posted row |
| `IngestProperties.PendingReplaced` | backend/internal/finance/ingest.go:193-236 | a landed payload's pending rows replace those of the accounts it names and of no others |
| `IngestProperties.OwnerColumnsKept` | backend/internal/finance/ingest.go:337-372 | no ingest writes an owner-authored column of an existing account |
| `Watermarks.PlanWindows` | backend/internal/api/finance_sync.go:211-222 | one window per account in order: the full backfill without a watermark, else from the overlap before it, always to today |
| `Watermarks.WatermarkStep` | backend/internal/finance/ingest.go:275-327 | one ingest moves a watermark exactly when it lands and targets the account, to the larger of old and window end clamped to today |
| `IngestTables.WatermarkExactly` | backend/internal/finance/ingest.go:275-327 | written out: it lands, its window has an end, and the account is of its source and declared, posted to or named by the window; then to the earlier of end and today, if later |
| `Watermarks.WatermarkMonotone` | backend/internal/finance/ingest.go:275-327 | over any run of ingests one after another a watermark never decreases, and never passes the latest day of the run by moving |
| `Watermarks.EveryDayScraped` | backend/internal/finance/window.go:16-33 | over any interleaving of claims and ingests, when payloads cover a planned window, every day from the first landed start through the watermark lies in a landed window |
| `Watermarks.TwoSyncsCover` | backend/internal/finance/window.go:16-33 | a concrete run of two claims and two landed windows to which it applies, taking the watermark to 10 and to 20 |
| `WatermarkRaces.TraceKeepsInv` | backend/internal/finance/ingest.go:275-327 | over every interleaving of ingests of one account, whoever declared it or wrote its watermark holds the row's lock, and what a declared run read is still stored |
| `WatermarkRaces.FallsExactly` | backend/internal/finance/ingest.go:314-327 | the step that lowers the watermark is a commit of a run that did not declare the account, and the watermark had changed since that run read it |
| `WatermarkRaces.FallPossibleExactly` | backend/internal/finance/ingest.go:314-327 | from any state of the protocol, with newcomers that declare the account, some continuation lowers the watermark if and only if a run under way does not declare it and has not written, or has written below the watermark |
| `WatermarkRaces.DeclaredRunsNeverLower` | backend/internal/finance/ingest.go:337-372 | when every run declares the account the watermark never falls, however they interleave |
| `WatermarkRaces.MentioningRunsCanLower` | backend/internal/finance/ingest.go:374-398 | a concrete interleaving of two runs that only mention the account takes the watermark from 5 to 9 and back to 7 |
| `OAuthTokens.TokenStore.MintAuthCode` | backend/internal/oauth/store.go:67-86 | transition: one code not stored before is added, unused, with its sixty-second life; the store stays valid and nothing else changes |
| `OAuthTokens.TokenStore.RedeemAuthCode` | backend/internal/oauth/store.go:103-154 | succeeds if and only if the code is unused, unexpired, owned and of this client, redirect and challenge, and of the resource if one is given; only then burns it and starts one family with an hour of access and, with offline access, ninety days of refresh; a failure changes nothing |
| `OAuthTokens.TokenStore.RotateRefresh` | backend/internal/oauth/store.go:213-301 | succeeds if and only if the row is neither rotated nor revoked, owned, of this client and within its time, and then replaces it; a replayed row's family is revoked; anything else changes nothing |
| `OAuthTokens.RotationKeepsAccess` | backend/internal/oauth/store.go:302-325 | rotation keeps every access token valid that was, its own row's included |
| `OAuthTokens.ReplayKillsAccess` | backend/internal/oauth/store.go:253-277 | a replay revokes every row of the family, so none of its access tokens works at any later time |
| `RefreshRotation.CommitIsAtomic` | backend/internal/oauth/store.go:189-243 | however reads, locks and commits interleave, a rotation takes effect as one indivisible step at its commit |
| `RefreshRotation.LockWaitsForFamilyOnly` | backend/internal/oauth/store.go:189-243 | a rotation waits only behind one that holds the lock of the same family |
| `RefreshRotation.RunKeepsInv` | backend/internal/oauth/store.go:132-301 | the protocol invariant holds after every run of interleaved steps |
| `RefreshRotation.OneFamilyPerCode` | backend/internal/oauth/store.go:132-152 | one authorization code starts at most one family |
| `RefreshRotation.StartedWasChecked` | backend/internal/oauth/store.go:103-130 | over every run a family exists only because a request for its code passed every check of the code's own client, redirect, audience and challenge before it expired |
| `RefreshRotation.GrantIsTheCodes` | backend/internal/oauth/store.go:145-186 | over every run every row has the grant of the code its family was started by; no rotation widens it |
| `RefreshRotation.RotatesExactly` | backend/internal/oauth/store.go:244-301 | a commit rotates its row if and only if it is neither rotated nor revoked, owned, presented by its own client and within its ninety days |
| `RefreshRotation.FamilyHasOneLiveRow` | backend/internal/oauth/store.go:284-299 | in every reachable state a family has exactly one un-rotated row |
| `RefreshRotation.RotatesAtMostOnce` | backend/internal/oauth/store.go:213-301 | over a whole run no refresh token rotates successfully twice |
| `RefreshRotation.ReplaySweepsFamily` | backend/internal/oauth/store.go:253-277 | committing a replay leaves every row of the family revoked |
| `RefreshRotation.ReplayedTokenKillsFamily` | backend/internal/oauth/store.go:103-301 | a concrete run: a code is redeemed, its refresh token rotated, and the old token's replay revokes both rows |
| `RefreshRotation.AccessExactly` | backend/internal/oauth/store.go:302-325 | after every run, an access token is live if and only if its family was never swept and it is unexpired, for its audience, with the finance scope; rotation does not matter |
| `RefreshRotation.OnlyAReplaySweeps` | backend/internal/oauth/store.go:253-277 | a step sweeps a family if and only if it commits a request for one of its rows that has been rotated |
| `RefreshRotation.SweptForever` | backend/internal/oauth/store.go:189-206 | from a sweep on, under every continuation, the family gains no row and all its rows stay revoked, so no later rotation of it succeeds |
| `JobRuns.RunStore.RedriveQueued` | backend/internal/jobs/scheduler.go:361-388 | exactly the scheduled runs queued for over five minutes are sent again, passing over those the queue refuses; no row changes |
| `JobRuns.RedrivenExactly` | backend/internal/jobs/scheduler.go:361-388 | and in id order |
| `JobRuns.RunStore.CloseStuck` | backend/internal/jobs/scheduler.go:469-500 | of the given rows exactly those still at the source status are closed, with the reason, and counted; the others stay |
| `JobRuns.RunStore.ReapRunning` | backend/internal/jobs/scheduler.go:410-458 | a row is failed if and only if it is running and was started over four hours ago, if ack-gated, or is scheduled and was over half an hour ago |
| `JobRuns.RunStore.ExpireAwaitingAck` | backend/internal/jobs/scheduler.go:514-540 | a row is cancelled if and only if it is ack-gated, awaits approval and was created over twelve hours ago |
| `Artifacts.SweepTakesOnlyLapsed` | backend/internal/jobs/scheduler.go:542-572 | after a sweep an artifact is claimable at a later time if and only if it was and was not pending past its time; lapsed claims stay reclaimable |
| `Artifacts.SweepsAreOne` | backend/internal/jobs/scheduler.go:542-572 | sweeping at two times, in either order, is sweeping at the later one |
| `JobRuns.RunStore.Maintenance` | backend/internal/jobs/scheduler.go:172-180 | the pass acts on each run by itself, whatever the other rows are, and expires the lapsed artifacts |
| `JobRuns.SweptExactly` | backend/internal/jobs/scheduler.go:410-540 | a whole pass over one row by the clock, durations written out: failed, cancelled, or untouched, and of a closed row only how it ended changes |
| `JobRuns.GatedRunHasFourHours` | backend/internal/jobs/scheduler.go:436-458 | however many passes run, an ack-gated run is left alone for four hours from its lease |
| `JobRuns.GatedRunIsFailedAfter` | backend/internal/jobs/scheduler.go:436-458 | and any pass after that fails it, whatever passes come before or after |
| `JobRuns.SweepsAccumulate` | backend/internal/jobs/scheduler.go:172-192 | sweeping now and later closes the same runs with the same outcome as sweeping only later |
| `JobRuns.NeverSweptExactly` | backend/internal/jobs/scheduler.go:396-458 | no sweep ever closes a row exactly when it is over, queued, or a force-started ordinary run stuck running |
| `Artifacts.StoringAdvances` | backend/internal/digest/stages.go:47-140 | storing a scrape's artifacts, after clearing what its run left pending, adds rows of that run only and moves no other row backward |
| `Artifacts.StoredExactly` | backend/internal/digest/stages.go:47-140 | after a scrape its run has pending exactly the fresh artifacts, each claimable if the job is one for outside runners until a sweep over seven days on; every other is as it was |
| `Artifacts.UnpostableStays` | backend/internal/api/work.go:60-80 | whatever is claimed, consumed, finished or swept, a run whose work cannot be posted back stays so while it stores nothing new |
| `Artifacts.LeasingRetires` | backend/internal/api/work.go:197-232 | a claim leaves the oldest claimable artifact and its run's others unclaimable then, and other runs' as they were |
| `Artifacts.LeaseHoldsTenMinutes` | backend/internal/api/work.go:60-80 | a leased artifact can be claimed again from ten minutes on and not before |
| `WorkApi.WorkStore.ClaimWork` | backend/internal/api/work.go:176-262 | transition: the run of the lowest artifact on offer is taken for ten minutes with every artifact of it on offer and no other, or none is and there was none |
| `WorkApi.WorkStore.CompleteWork` | backend/internal/api/work.go:305-501 | transition: any refusal leaves both tables as they were; otherwise the runner's claimed artifacts of the run are done and the run is closed, whatever its status was |
| `WorkApi.RefusalExactly` | backend/internal/api/work.go:373-450 | 422 exactly without a run, 404 exactly without such a run, 409 exactly when the first named artifact the runner does not hold is on another's live lease, 403 in every other refusal |
| `WorkApi.CompletionNeedsAClaim` | backend/internal/api/work.go:373-450 | a completion that is not refused is for a run of that job, by a runner some artifact of the run is attributed to, and names only artifacts of the run attributed to it |
| `JobRuns.RunStore.ProcessScheduled` | backend/cmd/worker/main.go:132-180 | transition: a queued run is started and its outcome recorded; a duplicate changes nothing; the message is acked unless the claim errs |
| `JobRuns.RunStore.AckFinanceSync` | backend/internal/api/finance_sync.go:269-313 | transition: behind the ack token, an ack-gated run still waiting gets a new approval time; past that it changes nothing; other runs are not found |
| `JobRuns.ReapprovalKeepsPlaceExactly` | backend/internal/api/finance_sync.go:302-311 | approving the next run in line again leaves it next if and only if no other claimable run was approved before now |
| `RunWitnesses.SecondApprovalCostsThePlace` | backend/internal/api/finance_sync.go:302-311 | a reachable state with two approved runs, in which approving the next one again makes the other next |
| `JobRuns.RunStore.ClaimFinanceSync` | backend/internal/api/finance_sync.go:157-195 | transition: the earliest approved waiting run is leased under the runner's name, or none is and there was none |
| `JobRuns.RunStore.CompleteFinanceSync` | backend/internal/api/finance_sync.go:319-393 | transition: closes only a running ack-gated run, under the runner's name; the same outcome again succeeds without effect; 422, 404, 403 and 409 change nothing |
| `RunLifecycle.StepKeepsInv` | backend/cmd/worker/main.go:132-179 | each of the 31 steps of any actor keeps the lifecycle invariant |
| `RunLifecycle.TraceKeepsInv` | backend/cmd/worker/main.go:132-179 | the lifecycle invariant holds after every interleaving |
| `RunLifecycleProperties.PhaseNeverFalls` | backend/ent/schema/jobrun.go:24-27 | from any reachable state on, no run goes back from running to waiting or from over to running, and its job and tick never change |
| `RunLifecycleProperties.HandlerStartsAtMostOnce` | backend/cmd/worker/main.go:125-152 | with duplicates, redelivery, re-drives and crashes, a run's handler starts at most once |
| `RunLifecycleProperties.ExactlyOneExit` | backend/internal/api/finance_sync.go:177-192 | a run leaves waiting once; an ack-gated run by lease or by expiry and never both, cancelled exactly when the expiry won; no late write ever does it |
| `RunLifecycleProperties.WaitingHasNoExit` | backend/internal/jobs/scheduler.go:460-500 | a waiting run has been taken by nobody and its handler has not started |
| `RunLifecycleProperties.RaceHasOneWinner` | backend/internal/jobs/scheduler.go:460-500 | of a lease and an expiry poised on one run, in either order, the first takes it and the second changes nothing |
| `RunLifecycleProperties.UnapprovedNeverRuns` | backend/internal/api/finance_sync.go:132-166 | an ack-gated run nobody approved is waiting or cancelled, and no handler ran for it |
| `RunLifecycleProperties.MissedByTheReaper` | backend/internal/jobs/scheduler.go:396-458 | in reachable states, no sweep ever closes a run if and only if it is over, queued, or a force-started run of an ordinary job left running |
| `RunWitnesses.ForceStartedRunIsStuck` | backend/internal/jobs/scheduler.go:410-458 | a reachable state in which nobody is at work and a force-started ordinary run is running, which no sweep ever closes |
| `RunLifecycleProperties.SettledStays` | backend/cmd/worker/main.go:164-179 | a closed run with no unguarded writer under way and no work that can be posted back keeps its status under every continuation |
| `RunLifecycleProperties.FinalExactlyWhenSettled` | backend/internal/api/work.go:430-501 | from any moment on, a closed run can still change status if and only if an unguarded writer is under way for it, or an artifact of it was ever claimed, or one is pending at a job outside runners work for |
| `RunLifecycleProperties.UnclaimableWorkIsFinal` | backend/internal/api/work.go:60-80 | with nobody at work on it, a closed run whose artifacts were never claimed and are consumed, expired or a server job's keeps its status for ever |
| `RunLifecycleProperties.ReapedRunCanSucceed` | backend/cmd/worker/main.go:164-179 | a reachable state with one run, failed by the reaper, and a continuation that leaves it succeeded |
| `RunLifecycleProperties.WorkerAlone` | backend/cmd/worker/main.go:132-180 | without interference the worker's steps amount to the whole-message method, duplicates included |
| `RunLifecycleProperties.ReceiveAlone` | backend/cmd/worker/main.go:125-152 | a worker takes up only a message in the queue, which stays there until acknowledged |
| `RunLifecycleProperties.SweeperAlone` | backend/internal/jobs/scheduler.go:436-540 | without interference a row-wise sweep finds the rows of its kind a whole pass would close and makes the first what that pass would |
| `RunLifecycleProperties.ArtifactSweepAlone` | backend/internal/jobs/scheduler.go:542-572 | the artifact sweep expires exactly the pending artifacts past their time; a claimed one is left to its lease |
| `RunLifecycleProperties.DigestAlone` | backend/internal/digest/stages.go:158-268 | without interference the writing stage consumes the pending artifacts of the newest pending artifact's run, and no other |
| `RunLifecycleProperties.FireAlone` | backend/internal/jobs/scheduler.go:307-353 | without interference a fire inserts a waiting run unless the index has one for the instant |
| `RunLifecycleProperties.ForceStartAlone` | backend/internal/api/admin_jobs.go:535-615 | without interference a force-start inserts a manual run and sends it if the job is ordinary; if sending fails, the run fails with that reason |
| `RunLifecycleProperties.ClaimerAlone` | backend/internal/api/finance_sync.go:157-195 | without interference picking and leasing amount to the whole claim |
| `RunWitnesses.ApproverAlone` | backend/internal/api/finance_sync.go:302-311 | without interference an approval replaces the approval time of a waiting ack-gated run and touches nothing else |
| `RunLifecycleProperties.CompleterAlone` | backend/internal/api/finance_sync.go:355-388 | without interference the read and the unguarded write close only a running run |
| `RunLifecycleProperties.PosterAlone` | backend/internal/api/work.go:430-501 | without interference the check and the writes of a completion close the run whatever its status, as the whole completion does |
| `Scheduler.JobStore.Fire` | backend/internal/jobs/scheduler.go:307-353 | the run is inserted unless the index has it, and the pointer advances, together; a failed transaction leaves both tables as they were |
| `Scheduler.JobStore.Evaluate` | backend/internal/jobs/scheduler.go:196-279 | initialise, wait or fire; only a fresh ordinary run is enqueued |
| `Scheduler.AtMostOneRunPerTick` | backend/ent/schema/jobrun.go:77-84 | with any number of tickers acting on any stale reads there is at most one run per job and instant, and runs are only added |
| `Scheduler.PointerFallsExactly` | backend/internal/jobs/scheduler.go:337-345 | an evaluation moves the stored instant back if and only if it writes it and an activation lies after its clock and not after the clock the stored instant was set by |
| `Scheduler.InOrderNeverFalls` | backend/internal/jobs/scheduler.go:337-345 | evaluations that commit in the order of their clocks never move it back, however stale what they saw |
| `Scheduler.StalledTickerAnswersTwice` | backend/internal/jobs/scheduler.go:218-224 | a ticker that stalls between reading 10 and committing sets the pointer from 40 back to 20, and two runs then stand for 20 and for 30 |
| `Scheduler.DueTickFiresOnce` | backend/internal/jobs/scheduler.go:213-224 | a lone ticker's due tick inserts exactly one run, for the pointer's instant, and moves the pointer past now; a failed transaction does neither |
| `Scheduler.EveryActivationAnsweredOnce` | backend/internal/jobs/scheduler.go:218-224 | over any run of ticks the pointer only advances, and every activation passed is stood for by exactly one run: fired for it, or fired late across it |
| `Scheduler.DowntimeFiresOnce` | backend/internal/jobs/scheduler.go:221-224 | two runs of a job with ticks inside one stretch of time mean a tick ran inside it, so a downtime of any length leaves one run |
| `AllotPoints.SortBySize` | backend/internal/mcp/tools.go:744-754 | a stable ascending order listing every series once |
| `AllotPoints.ServeOne` | backend/internal/mcp/tools.go:756-768 | one pass keeps the filling invariant, and the common level never falls |
| `AllotPoints.ServeScarce` | backend/internal/mcp/tools.go:759-768 | with fewer points than series that want any, every pass gives one point to a non-empty series and none to an empty one |
| `AllotPoints.ServingOrderIrrelevant` | backend/internal/mcp/tools.go:744-769 | an allotment well shared in serving order is well shared in input order |
| `AllotPoints.AllotPoints` | backend/internal/mcp/tools.go:731-770 | for every budget: within it everything is whole; short of the total but with a point for each non-empty series, exactly the budget is allotted, a series within the equal share stays whole, and none is more than one point above a trimmed one; short even of that, each non-empty series gets exactly one |

## Left out

- Float64 rounding: money is `real`, and amounts reach the hash already rendered to two decimals.
- Text folding: in the bill match, descriptions, merchants and patterns arrive lowered and trimmed. In the hash, trimming and collapsing white space are modelled and nothing is lowered, as in the source. The internal-transfer regular expression is a flag on each row.
- `time.Duration` saturation beyond about 292 years, and `time.Time.IsZero` as the "unset" marker of the union window and snapshot range (modelled as an explicit flag).
- An unknown cadence, which the code treats as monthly: the cadence is one of the five declared.
- Reconcile.BillStore.ReconcileBills: passes run one at a time. The branch a concurrent pass would take, an insert that conflicts, is present, and `Create` states that it inserts nothing.
- ReconcileProperties.CoverageBoundLosesNothing: stated while the unclipped listing stays under the 10000 cap; beyond it the unclipped pass would stop early and the clipped one would not.
- ReconcileProperties.OverdueIsGenuine: stated while the pass's listing stays under the same cap.
- LedgerSeriesDerivation.DeriveSeries: dates enter as bucket indexes, for which `LedgerInstants` supplies the instants; ledger_from is reported as a bucket; the First/Last/Change roll-up of finalize is not modelled.
- Ingest.Store.Ingest: a discrepancy is a value, not its wording; a balance reading's available and limit figures are left out; database errors other than a failed parse or gate are not modelled.
- IngestProperties.OrderIrrelevant: the stored hashes agree; which of several rows with the same canonical key lies under an ordinal may differ in its non-key columns.
- Watermarks.EveryDayScraped: the start of the scraped range is supplied beside the payload, and payloads are assumed to cover a window some claim planned, and backfill claims to reach back at least to the day the run began.
- OAuthTokens.TokenStore.RotateRefresh: owner deletion during a rotation and the lock-free SQLite path are not modelled; PKCE compares the challenge computed from the verifier with the stored one.
- RefreshRotation.RunKeepsInv: a database error inside a step is an abandoned request; a redemption that dies between claiming its code and issuing tokens leaves the code burned, as in the code.
- JobRuns.RunStore.CompleteFinanceSync: the bearer check, database errors and notifications are not modelled.
- RunLifecycle.StepKeepsInv: the set of jobs outside runners work for is fixed, so an owner who edits a job's runner is outside the model; single-statement updates are atomic; `scheduled_for` and the clock are integers; a failed send is recorded without its cause.
- WorkApi.WorkStore.CompleteWork: the digest text it stores with the result, the presigned upload phase, the content limits and the failed download of uploaded content are not modelled.
- WatermarkRaces.FallPossibleExactly: one account whose row exists; row locks as under READ COMMITTED, with one watermark write a run; dates are any integers, without the clamp to today.
- Watermarks.WatermarkMonotone: ingests one after another; `WatermarkRaces` has them interleaved.
- BoundedPass.BoundedRunSuffices: the bills stay as they are and listings stay under the 10000 cap; links made by hand between passes are not part of the run.
- The admin check for an in-flight run before a force-start: it is check-then-create, so a second run in flight is possible and none of the proofs rely on it.
- Scheduler.JobStore.Evaluate: an edited or deleted job and its recomputed pointer are not modelled, nor are cron parsing and time zones of schedules.
- ListRecurringBills, billView and billTotals: filters, sorting and sums over the derived dates.
- HTTP, authentication, Ent and SQL, queue and notification clients, the MCP tools other than the allocator, digests, playlists, wishlist, WhatsApp and the frontend.
