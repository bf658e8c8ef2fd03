# Verification model

A Dafny model of the parts of this repository whose correctness is argued in comments and depends on arithmetic, on
order, or on what other processes do in between:

- **The telemetry archive** (`scripts/archive_telemetry.py`): a frozen table is exported in id ranges to an object
  store. `ArchiveProtocol` is the step machine, one step per bucket or database operation, with any number of runs that
  interleave, are killed, and start again with other chunk sizes, and with rows that may arrive. Its disciplines say
  what arrives: nothing (frozen), only ids below or above those that are there (outward), or anything while runs do not
  overlap (serial). `ArchiveInvariant` and `ArchiveSafety` hold what every step and every execution keeps under each,
  `ArchiveOverlap` exactly when overlapping runs break it, over executions built in `ArchiveStories`, `ArchiveHistory` what
  the age guard keeps out, `ArchiveSolo` that an undisturbed run ends and finishes an interrupted archive,
  `ArchiveSchedule` that any schedule with enough turns for one run does, `ArchiveRun` the sequential program over a
  bucket object, proved to do what the step machine does alone, `ArchiveWitnesses` an execution that shows what resuming
  can hide, and `ArchiveLayout` the object keys.
- **Cluster statistics** (`scripts/cluster_stats.py`), exact over the reals: `Binomial` (tails), `SuccessBound`
  (Clopper-Pearson by bisection), `Clusters` and `FailedClusters` (grouping, Kish), `Bootstrap` (percentiles, ratio
  bootstrap), `Contrast` and `ContrastReplicates` (two-arm contrasts).
- **The live-trading ledger** (`kalshi_bot/repository.py`): `LiveOrders` (money committed against open tickers),
  `Attempts` (entry gate), `Positions` (newest-snapshot scans), `TwinEpochs`, `GameTape` and `SpotCandles`.
- **Order-book replay** (`scripts/evo_order_probe.py`): `OrderBook`.
- **Configuration** (`kalshi_bot/config.py`): `SharedPairs` (parser, printer, lookup) and `TwinPairs`, over `Text`,
  `Decimal` and `Numerals`.
- **The report sanitizer** (`scripts/desk_diag.py`): `Sanitizer`, `DeskReport` and `Redaction`, over `IsoTime`.

`Prelude`, `Reals` and `Sorting` are shared. `dafny verify dfyconfig.toml` checks the whole project.

Functions state what a piece of code computes; methods carry the loops and updates of the source and are proved equal to
those functions; the lemmas say what the functions are for. Several properties that the source suggests turned out to
fail; each has a witness and the condition under which it holds:

- Cancelling a part-filled *closing* leg raises the strategy's exposure, although closing legs are documented as never
  counted: the client id that marks them plays no part once the order is cancelled
  (`LiveOrders.CancelReleasesTheUnfilledPart`). And an order can rest on a ticker whose newest snapshot is flat, where
  it counts as open but adds no money, which departs from the comment that says the two mirror each other
  (`LiveOrders.RestingOnAFlatTicker`, `LiveOrders.OpenWithoutExposure`).
- The sanitizer is not idempotent on every input: a timestamp with a fraction of a second and an offset with a fraction
  grows past the 40 characters that are read back (`Sanitizer.LongStampIsLost`, `Sanitizer.Idempotent`). And it raises
  on an integer too large for a float (`Sanitizer.RaisesExactly`), as the order-book parser does
  (`OrderBook.RaisesOnALevel`).
- Distinct live books can get one twin (`TwinPairs.TwoBooksOneTwin`, `TwinPairs.ListedTwinsShared`), and a live tag
  longer than its column keeps superseded epochs open (`TwinEpochs.LongLiveTagKeepsTwo`,
  `TwinEpochs.OneEpochPerLiveTag`).
- The age check of the archive sees only the row with the greatest id, so a row can still arrive below it. When one
  appears between two rows that are there, and only then, overlapping runs can leave a manifest beside other data
  (`ArchiveOverlap.OverlapBreaksExactly`), and COMPLETE.json can miss a row although the count agrees, exactly when a
  resumed chunk does not cover the snapshot's rows of its range (`ArchiveWitnesses.ResumedChunkCanHideAMissingRow`,
  `ArchiveSafety.CheckedRunHoldsItsSnapshot`).
- Sanitizing relies on its schema: it is stable exactly when every field named "error" gives only codes
  (`Sanitizer.StableExactly`), which the report's schema meets.
- The executor's guard against twins knows only the configured ones: with twins switched off the tag of a former twin
  matches the prefix of its live tag and passes (`TwinPairs.SuffixedTwinIsRefused`).
- A cancelled attempt that turns out to have filled leaves two committed buys (`Attempts.RevivalBreaksIt`,
  `Attempts.OneCommittedBuy`); and a minute key that is not aligned can violate the unique constraint
  (`SpotCandles.UnalignedKeyIsRefused`, `SpotCandles.WhenABatchIsStored`).

## Model

| member | source | states |
|---|---|---|
| ArchiveInvariant.AdvanceKeeps | scripts/archive_telemetry.py:316-338 | one operation of a run, on a table whose ids between its ends stay as they are or as the only live run on a growing one, loses or changes no stored data or manifest and keeps the invariant of bucket and run |
| ArchiveInvariant.RunUndisturbed | scripts/archive_telemetry.py:464-508 | on such a table nothing another run stores disturbs what a run relies on between its look and its upload |
| ArchiveInvariant.PinnedCount | scripts/archive_telemetry.py:507-509 | on such a table tiled chunks always add up to its row count over their interval |
| ArchiveInvariant.TilesCount | scripts/archive_telemetry.py:464-466 | ranges that meet end to end count every row of the interval once |
| ArchiveSafety.StepKeeps | scripts/archive_telemetry.py:316-338 | with no rows added or only rows beyond both ends, under any overlap, or with any rows added but no overlap, every step, start, kill or new row keeps the system invariant and everything stored |
| ArchiveSafety.Reachable | scripts/archive_telemetry.py:431-530 | under each of the three disciplines the invariant holds in every state reachable from an empty bucket |
| ArchiveSafety.ManifestsMatchData | scripts/archive_telemetry.py:323-338 | under each discipline, in every reachable state, a stored manifest has its data stored beside it with the manifest's digest; in particular for any overlap while new rows lie beyond both ends |
| ArchiveSafety.CompleteHoldsEveryRow | scripts/archive_telemetry.py:464-528 | with no rows added or only rows beyond both ends: a stored COMPLETE.json tiles an interval between two ids of the table, its chunks are stored and counted, and each row of the interval is in exactly one of them, unchanged; on a frozen table the interval is the whole table |
| ArchiveSafety.SerialCompleteIsBacked | scripts/archive_telemetry.py:507-528 | with rows arriving but no overlapping runs, COMPLETE.json is still a tiling of stored, counted, matching chunks |
| ArchiveSafety.PutOnceIsForever | scripts/archive_telemetry.py:316-321 | under each discipline no continuation changes a stored data file or manifest, nor COMPLETE.json while runs do not overlap |
| ArchiveSafety.RunsFailOnlyAtTheEnds | scripts/archive_telemetry.py:447-528 | with no rows added or only rows beyond both ends, a run can fail only for an empty or recently written table or an overlapping run's COMPLETE.json, never for anything else it finds |
| ArchiveSafety.CountCheckIsExact | scripts/archive_telemetry.py:507-509 | if rows were only added since the snapshot, archived_rows == count passes exactly when every chunk equals the snapshot's rows of its range |
| ArchiveSafety.CheckedRunHoldsItsSnapshot | scripts/archive_telemetry.py:464-528 | under each discipline a run past the count check has archived its snapshot exactly if and only if every chunk it resumed covers the snapshot's rows of its range; always when it resumed none, and always when no row appeared between two others; its result lists these chunks, and without overlap is what COMPLETE.json holds |
| ArchiveHistory.SnapshotsWereOld | scripts/archive_telemetry.py:445-460 | over every execution, whatever overlaps and whatever rows arrive, a run that has its snapshot took it by one of its own operations, from the table as it then was, when its row with the greatest id was at least as old as that operation asks |
| ArchiveHistory.ChunksAreWide | scripts/archive_telemetry.py:464-466 | over every execution a run's chunks cover the number of ids it was given, or all that are left |
| ArchiveHistory.ReadingBackCompares | scripts/archive_telemetry.py:316-321 | reading back data, manifest or COMPLETE.json fails exactly when another object is stored there, or none, whatever else the bucket holds |
| ArchiveHistory.ResultsWereStored | scripts/archive_telemetry.py:440-528 | under every overlap, what a finished run returns was stored as COMPLETE.json at some point of the execution |
| ArchiveSolo.AdvanceDescends | scripts/archive_telemetry.py:464-506 | every operation of a live run brings it strictly nearer its end, whatever bucket and table hold |
| ArchiveSolo.SoloFinishes | scripts/archive_telemetry.py:464-530 | from any point of an undisturbed run over a frozen table, COMPLETE.json ends up stored and valid |
| ArchiveSolo.InterruptedArchiveCompletes | scripts/archive_telemetry.py:431-528 | after any execution on a frozen table, with whatever killed runs and chunk sizes, one more undisturbed run with any chunk size completes the archive |
| ArchiveSchedule.EndedMeansComplete | scripts/archive_telemetry.py:431-528 | on a frozen and old enough table, in every interleaving with any starts and kills, once any run has ended COMPLETE.json is stored and archives the whole table |
| ArchiveSchedule.EnoughTurnsEnd | scripts/archive_telemetry.py:464-528 | whatever the other runs do, a run that is not killed ends within a number of its own turns |
| ArchiveSchedule.EnoughTurnsComplete | scripts/archive_telemetry.py:431-528 | so every schedule that gives one run 50 turns for each id between the ends of the table, and 50 more, completes the archive |
| ArchiveRun.ArchiveBucket.PutOnce | scripts/archive_telemetry.py:316-321 | uploads only when absent, never replaces an object, and succeeds exactly when the stored bytes are the local ones |
| ArchiveRun.ArchiveBucket.Upload | scripts/archive_telemetry.py:323-338 | stores the manifest only after the data has been read back equal |
| ArchiveRun.ArchiveBucket.ArchiveChunk | scripts/archive_telemetry.py:465-505 | one turn of the loop does to the bucket what the step machine's undisturbed run does for that range; it refuses a stored manifest of another range, one whose data is missing or has another digest, and stored data other than the table's rows, each with its reason and the bucket untouched |
| ArchiveRun.ArchiveBucket.ArchiveTable | scripts/archive_telemetry.py:431-530 | the whole program leaves the bucket and the outcome of the step machine's undisturbed run; it refuses chunk sizes under 1000, an empty table and a newest row younger than the age limit, and returns a COMPLETE.json found stored, all with the bucket untouched; what it stores itself states the snapshot, the chunk size and the time |
| ArchiveOverlap.OverlapBreaksExactly | scripts/archive_telemetry.py:316-321 | for every table, age limit and one new id: some overlap of runs leaves a manifest beside other data, because look and upload are two operations, if and only if the id lies between two ids of the table |
| ArchiveOverlap.RunsOutward | scripts/archive_telemetry.py:448-456 | where the one new id lies beyond both ends, every execution is one of those that keep the pairs |
| ArchiveWitnesses.ResumedChunkCanHideAMissingRow | scripts/archive_telemetry.py:451-486 | even past the age check, which looks only at the row with the greatest id, a resumed chunk can make the count agree while a snapshot row is in no stored data |
| ArchiveLayout.KeysNeverCollide | scripts/archive_telemetry.py:439-470 | object keys are equal exactly when table and object are |
| ArchiveLayout.KeysSpelled | scripts/archive_telemetry.py:208-239 | the keys in full, for any spelling of the two ids with twelve digits, or more and no zero in front |
| Decimal.PaddedSpells | scripts/archive_telemetry.py:224-225 | padding gives the one such spelling of a number |
| ArchiveLayout.UploadAndResumeAgree | scripts/archive_telemetry.py:208-239 | the prefix that upload derives from an exported manifest gives exactly the keys the resume check looks for |
| ArchiveLayout.PrefixIdentifiesExport | scripts/archive_telemetry.py:228-239 | a manifest gets a prefix exactly when an export of a valid range of a frozen table wrote it, and the prefix determines the manifest's range, table and file |
| Decimal.PaddedReads | scripts/archive_telemetry.py:224-225 | zero-padded ids read back as themselves, also beyond twelve digits |
| Binomial.ChooseFactorial | scripts/cluster_stats.py:436-440 | the factorial quotient that the log-gamma terms stand for is Pascal's coefficient |
| Binomial.ExactlyIsWeight | scripts/cluster_stats.py:438-440 | the chance of exactly k successes is the binomial weight |
| Binomial.TermIsExactly | scripts/cluster_stats.py:438-440 | each term of the sum is the chance of exactly i successes |
| Binomial.TailDifference | scripts/cluster_stats.py:437-444 | consecutive tails differ by the chance of exactly k |
| Binomial.BinomTailGe | scripts/cluster_stats.py:430-445 | the summation loop computes P(X >= k), with p clamped to [0, 1] and k outside 0..n included |
| Binomial.TailMonotone | scripts/cluster_stats.py:482-487 | P(X >= k) never falls as p grows, which the bisection relies on |
| Binomial.TailStrict | scripts/cluster_stats.py:482-487 | it grows strictly for 1 <= k <= n |
| Binomial.AllSucceed | scripts/cluster_stats.py:476-478 | P(X >= n) is p^n |
| Binomial.TailMoreTrials | scripts/cluster_stats.py:430-445 | one trial more for the same target never lowers the tail, one success more on one trial more never raises it |
| SuccessBound.ClusterSuccessLowerBound | scripts/cluster_stats.py:464-489 | the method counts clusters and failed clusters; its bound rejects every smaller positive chance at level alpha and none from 1 / 2^200 above it on, through either branch, and is absent exactly for no rows |
| SuccessBound.HalvedIs | scripts/cluster_stats.py:482-487 | n halvings leave a 2^n-th of the length |
| SuccessBound.BisectBrackets | scripts/cluster_stats.py:482-488 | the loop keeps a rejected lower and an accepted upper end and halves their distance each step |
| SuccessBound.BoundIsClopperPearson | scripts/cluster_stats.py:476-489 | with failures, every positive chance up to the bound is rejected, none from 2^-200 above it is, so the exact root lies within 2^-200 |
| SuccessBound.ZeroFailureBoundIsExact | scripts/cluster_stats.py:476-478 | without failures the power branch returns the exact root of the same equation, below which all chances are rejected |
| SuccessBound.BisectAntitone | scripts/cluster_stats.py:482-488 | a tail that is nowhere smaller never bisects to a higher bound, across all 200 diverging steps |
| SuccessBound.LowerAntitone | scripts/cluster_stats.py:476-489 | the same across the switch between the two branches |
| SuccessBound.MoreFailuresNeverRaise | scripts/cluster_stats.py:464-489 | one more failed cluster never raises the bound |
| SuccessBound.FailingRowNeverRaises | scripts/cluster_stats.py:464-489 | a failing row put in anywhere, landing in an old or a new cluster, never raises the bound |
| SuccessBound.PassingRowNeverLowers | scripts/cluster_stats.py:464-489 | a passing row put in anywhere never lowers it, and inside a known cluster changes nothing |
| SuccessBound.MissChanceIsTail | scripts/cluster_stats.py:448-463 | the chances of the counts whose bound lies above the true chance add up to one upper tail, from the least such count on |
| SuccessBound.Coverage | scripts/cluster_stats.py:448-463 | for every true chance p the bound lies above p with chance at most alpha, and one count less among those that miss would reach alpha at p + 2^-200 |
| FailedClusters.CountsMoved | scripts/cluster_stats.py:464-466 | the numbers of clusters and of failed clusters do not depend on where a row stands, although rows without an id are keyed by position |
| FailedClusters.CountFailed | scripts/cluster_stats.py:464-466 | a cluster is counted as failed exactly when some row of it fails |
| Clusters.GroupByCluster | scripts/cluster_stats.py:67-75 | the dictionary files every row under its id, or under its own position when it has none, in order |
| Clusters.KeysAre | scripts/cluster_stats.py:67-75 | each key is listed once, exactly when some row has it |
| Clusters.SizesSum | scripts/cluster_stats.py:85-92 | grouping is a partition: the cluster sizes add up to the rows |
| Clusters.CauchySchwarz | scripts/cluster_stats.py:89-98 | (sum of sizes)^2 <= clusters x sum of squares, with equality exactly for equal sizes |
| Clusters.KishBounds | scripts/cluster_stats.py:97-99 | 1 <= kish <= clusters, both equality cases, and kish >= 1 / largest_cluster_share |
| Bootstrap.PercentileMonotone | scripts/cluster_stats.py:54-64 | percentiles stay inside the data and never decrease in q |
| Bootstrap.PercentileAt | scripts/cluster_stats.py:54-64 | at position q (n - 1) = k + f the percentile is f of the way from the k-th to the next value |
| Bootstrap.CiCuts | scripts/cluster_stats.py:147-153 | with alpha (n - 1) = 2k the interval leaves out k of the n sorted replicates on each side |
| Bootstrap.PairsConserve | scripts/cluster_stats.py:103-124 | collapsing to clusters conserves both sums |
| Bootstrap.EventWeights | scripts/cluster_stats.py:103-124 | a cluster's pair is its two sums, or under event weighting its own mean with weight one, zero when the denominator is |
| Bootstrap.DrawsAdd | scripts/cluster_stats.py:127-146 | a draw adds up the pairs it names, each as often as it names it |
| Bootstrap.ReplicatesAdd | scripts/cluster_stats.py:127-146 | each draw adds the quotient of its sums to the replicates, or nothing when the denominator is zero |
| Bootstrap.WholeDraw | scripts/cluster_stats.py:127-146 | drawing every cluster once gives the sums over all rows |
| Bootstrap.Boot | scripts/cluster_stats.py:127-146 | the loops compute the replicates of the given draws and drop those with zero denominator |
| Bootstrap.Mediant | scripts/cluster_stats.py:127-146 | a ratio of sums lies between the least and the greatest ratio |
| Bootstrap.ReplicatesWithin | scripts/cluster_stats.py:127-146 | so does every replicate, whatever is drawn, and none is dropped |
| Bootstrap.IntervalWithinRatios | scripts/cluster_stats.py:127-153 | the interval is ordered and stays between the least and the greatest cluster ratio |
| Bootstrap.AllSuccessCollapses | scripts/cluster_stats.py:452-455 | an all-success sample gives [1, 1] under either weighting, which is why the exact bound exists |
| Contrast.ArmsRefineSplit | scripts/cluster_stats.py:285-375 | passing the two sides of a split as arms resamples the same cells and counts the same clusters exactly when no index key of one arm meets one of the other |
| Contrast.NamedRowsAgree | scripts/cluster_stats.py:345-375 | rows that all carry an id never meet, so both functions agree on them |
| Contrast.UnnamedRowsMerge | scripts/cluster_stats.py:71-75 | one row without an id on each side merges two clusters into one |
| ContrastReplicates.PointEstimatesAgree | scripts/cluster_stats.py:278-293 | both functions' cells add up to the counts their point estimates use, whether or not keys meet |
| ContrastReplicates.ArmCellsConserve | scripts/cluster_stats.py:369-375 | cells over the union of two arms' keys lose nothing and count nothing twice |
| ContrastReplicates.Resample | scripts/cluster_stats.py:377-391 | the replicate loops compute the contrast of each drawn total and drop the undefined ones |
| ContrastReplicates.ContrastIs | scripts/cluster_stats.py:270-276 | the contrast is defined exactly when both expected counts and both corrected observed counts are positive, and then it is their cross quotient |
| ContrastReplicates.DrawsAdd | scripts/cluster_stats.py:295-306 | a draw adds up the cells it names, each as often as it names it |
| ContrastReplicates.ReplicatesAre | scripts/cluster_stats.py:295-309 | draws give their replicates in turn, and drawing every cell once gives the contrast of the totals corrected by 0.5 |
| ContrastReplicates.SameReplicates | scripts/cluster_stats.py:295-309 | for cells in another order one permutation of the indices, with its inverse, turns every sequence of draws into one with the same replicates, so equally many draws give each outcome |
| ContrastReplicates.SplitAndArmsReplicateAlike | scripts/cluster_stats.py:295-391 | where no index keys meet, both contrast functions give the same replicates under one such permutation, whatever is drawn |
| ContrastReplicates.SwappingArmsInverts | scripts/cluster_stats.py:270-276 | exchanging the arms inverts the ratio and changes nothing about when it is defined |
| LiveOrders.EntriesAreShares | kalshi_bot/repository.py:1587-1597 | the two queries together give each order its share exactly once |
| LiveOrders.Ledger.LiveStrategyExposure | kalshi_bot/repository.py:1571-1610 | the scan returns the sum over orders of what each commits: its size while open, what it bought once cancelled |
| LiveOrders.GotAdds | kalshi_bot/repository.py:1543-1568 | what an order got is the sum of the quantities of its own fills, in whatever order they were stored |
| LiveOrders.FillRaisesExposure | kalshi_bot/repository.py:1571-1610 | one more fill of q contracts raises the exposure by exactly price x q when its order is a part-filled cancelled buy with a known price on a ticker that is not flat, and by nothing otherwise |
| LiveOrders.OneOrderCounts | kalshi_bot/repository.py:1583-1610 | an order alone counts price x size exactly when it is a buy of the book, not rejected, cancelled or not landed, and its client id does not begin with limmexitleg: |
| LiveOrders.Ledger.OpenLiveTickers | kalshi_bot/repository.py:1652-1692 | the result lists a ticker exactly when an order still works there, or something was bought there and the newest snapshot is not flat, with its first event name |
| LiveOrders.EventIsFirst | kalshi_bot/repository.py:1665-1692 | the event name is that of the first row of the ticker which has one |
| LiveOrders.StatusesMean | kalshi_bot/repository.py:1665-1684 | the collected status sets decide both questions |
| LiveOrders.CountedIsOpen | kalshi_bot/repository.py:1598-1610 | every counted order sits on an open ticker |
| LiveOrders.OpenWithoutExposure | kalshi_bot/repository.py:1577-1610 | an open ticker adds nothing exactly when all its orders are closing legs or lack price or size, or its newest snapshot is flat, and then an order still works there |
| LiveOrders.ZeroExposureBook | kalshi_bot/repository.py:1571-1692 | no money is committed exactly when every open ticker is of that kind |
| LiveOrders.RestingOnAFlatTicker | kalshi_bot/repository.py:1577-1606 | a resting order on a ticker whose snapshot reads zero is open with no exposure, against 5000 cents without the snapshot |
| LiveOrders.CancelReleasesTheUnfilledPart | kalshi_bot/repository.py:1543-1568 | cancelling a part-filled order releases exactly limit x (quantity - filled) and keeps the ticker open; a closing leg instead adds limit x filled |
| LiveOrders.CancelledClosingLegCounts | kalshi_bot/repository.py:1583-1600 | an exit leg of 100 at 85 cents adds nothing while it rests, and 3400 cents once cancelled with 40 bought |
| LiveOrders.WorkingMovesKeepExposure | kalshi_bot/repository.py:1511-1523 | status moves among working and filled leave exposure as it is |
| LiveOrders.Ledger.UpdateLiveOrderStatus | kalshi_bot/repository.py:1511-1523 | one order changes, and an omitted id or reason keeps the old one; a reason is cut to 300 characters |
| Attempts.HistoryOnlyGrows | kalshi_bot/repository.py:1630-1649 | no cancel, reject or status change takes an attempt back or moves the first-price anchor |
| Attempts.AttemptsAre | kalshi_bot/repository.py:1630-1649 | every buy of the book on the ticker adds one attempt whatever its status, and the first one's price is the anchor |
| Attempts.EntryAllowed | kalshi_bot/repository.py:1613-1627 | a buy may be placed exactly when all earlier ones of its book on its ticker are cancelled or not landed and fewer than the cap |
| Attempts.CapHolds | kalshi_bot/config.py:810-812 | over every gated run the attempts on a ticker stay within the cap, and a cap of 0 or 1 allows one |
| Attempts.OneCommittedBuy | kalshi_bot/repository.py:1613-1627 | a gated run never has two committed buys of a book on a ticker exactly when no status change revives an order while live_buy_exists_for_ticker holds |
| Attempts.RevivalBreaksIt | kalshi_bot/repository.py:1618-1620 | otherwise it can: a cancelled attempt is retried and then turns out to have filled |
| Positions.FirstsAreLatest | kalshi_bot/repository.py:2171-2175 | read newest first, the first row of every ticker is its newest snapshot |
| Positions.TotalExposure | kalshi_bot/repository.py:2345-2374 | the seen-set scan is the sum over the map from ticker to newest snapshot in the window, dust left out |
| Positions.RealizedPnlToday | kalshi_bot/repository.py:2327-2342 | the dictionary scan is the same sum of realized profit over snapshots that state one since midnight |
| Positions.OneSnapshot | kalshi_bot/repository.py:2327-2374 | one snapshot of size q at price a adds |q| x a / 100, its fractional size first, nothing as dust, without a price or before the window; and its profit since midnight |
| Positions.WithoutProfit | kalshi_bot/repository.py:2327-2342 | a snapshot that states no profit changes no total of profits |
| Positions.NewestDecidesFlat | kalshi_bot/repository.py:1601-1606 | a newer snapshot alone decides whether its ticker is flat: a fractional size of at most 0.01 either way, or a whole size of zero |
| Positions.AppendChangesOneTicker | kalshi_bot/repository.py:2331-2374 | storing a newer snapshot changes a total by that ticker's new minus old contribution and nothing else |
| TwinEpochs.TwinTable.Sync | kalshi_bot/repository.py:1106-1128 | get or create by tag; the row stored is cut to the column width and a clash there is refused |
| TwinEpochs.TwinTable.End | kalshi_bot/repository.py:1131-1141 | ends the row of the tag unless absent or ended |
| TwinEpochs.TwinTable.Reconcile | kalshi_bot/repository.py:1144-1185 | closes exactly the stale open rows, each once with its note, and returns their tags oldest first |
| TwinEpochs.SyncWrites | kalshi_bot/repository.py:1106-1128 | said row by row: the row of the tag with the comparison of its parameters, else a new open row of the tags cut to 24 and 32 characters, else a clash |
| TwinEpochs.EndWrites | kalshi_bot/repository.py:1131-1141 | exactly the open row of the tag gets the time, and the notes when there are some; it reports whether there was one |
| TwinEpochs.ReconcileWrites | kalshi_bot/repository.py:1172-1185 | an open row is closed exactly when no prefix begins its live tag, or the last pair for that tag names another twin, with the note for that reason |
| TwinEpochs.ReconcileReports | kalshi_bot/repository.py:1144-1185 | the tags returned are those of the rows it closes, earlier starts first |
| TwinEpochs.RunEvolves | kalshi_bot/repository.py:1106-1141 | over any run an epoch keeps its tags, start and parameters, and its end is written at most once and never cleared |
| TwinEpochs.DriftIsAgainstTheFirstParams | kalshi_bot/repository.py:1106-1128 | whatever happened since, a later sync finds the first row and reports drift exactly when the parameters differ from the creation's; a tag longer than its column is refused instead |
| TwinEpochs.ReconciledBook | kalshi_bot/repository.py:1147-1185 | afterwards every open epoch has an armed live tag, and a configured live tag of at most 32 characters has at most one, its configured twin |
| TwinEpochs.OneEpochPerLiveTag | kalshi_bot/repository.py:1120-1185 | at most one open epoch per live tag, whatever the table, exactly when the tag as it is stored is not armed or has a configured twin |
| TwinEpochs.LongLiveTagKeepsTwo | kalshi_bot/repository.py:1120-1185 | a configured live tag of more than 32 characters, synced with two twins, keeps both epochs open through a reconcile |
| TwinEpochs.SecondReconcileIsIdle | kalshi_bot/repository.py:1172-1185 | a second reconcile changes and closes nothing |
| GameTape.Tape.Insert | kalshi_bot/repository.py:2552-2580 | despite 400-id chunks and repeats in the batch the id set becomes the union, (venue, trade id) stays unique, the first form of a trade is stored, and the growth is returned |
| GameTape.PolledKeeps | kalshi_bot/repository.py:2552-2580 | the same of the rows a poll adds, with other venues untouched |
| GameTape.PollsSplit | kalshi_bot/repository.py:2553-2555 | two polls store exactly what one poll of both batches stores |
| GameTape.PollsLoseNothing | kalshi_bot/repository.py:2553-2555 | over any run of polls nothing is lost or stored twice, earlier rows stay, and the reported counts add up to the growth |
| SpotCandles.CandleTable.Insert | kalshi_bot/repository.py:2380-2403 | stores the closes of minutes the query did not find, all of them or, when that would break the unique constraint, none |
| SpotCandles.CandleTable.Load | kalshi_bot/repository.py:2463-2482 | the loop collects the closes of one product from a time on |
| SpotCandles.WhenABatchIsStored | kalshi_bot/repository.py:2385-2403 | a batch meets the unique constraint exactly when no two keys share a minute the query missed and none reaches back before the query to a stored minute |
| SpotCandles.UnalignedKeyIsRefused | kalshi_bot/repository.py:2390-2392 | a stored minute is skipped for its own key and refused for a key one second later |
| SpotCandles.InsertIsUnion | kalshi_bot/repository.py:2380-2482 | with minute-aligned keys, insert then load is the union of both maps and stored values win |
| OrderBook.ParseLevels | scripts/evo_order_probe.py:85-103 | the parser returns the readable levels sorted, or raises exactly when some level does |
| OrderBook.LevelReads | scripts/evo_order_probe.py:76-103 | a level of price p, in cents or in dollars, and size in [q, q + 1) is read as q contracts at p cents, whatever fields follow |
| OrderBook.RaisesOnALevel | scripts/evo_order_probe.py:76-98 | a level raises exactly when its price is infinite or an integer too large for a float, or its price is not nan and its size is infinite, nan or too large |
| OrderBook.FloatsOfIntegers | scripts/evo_order_probe.py:79 | an integer is a float exactly while it is smaller than 2^1024 - 2^970 in size |
| OrderBook.TooLargeIntegerRaises | scripts/evo_order_probe.py:79-95 | one integer of 2^1024 - 2^970 as a price or a size loses the whole book |
| OrderBook.ParsedBook | scripts/evo_order_probe.py:99-103 | a parsed book falls in price, holds only tradable levels, and loses and invents none of the readable ones |
| OrderBook.DollarsAndCents | scripts/evo_order_probe.py:76-82 | a price quoted in dollars and in cents is read as one price |
| OrderBook.Judge | scripts/evo_order_probe.py:183-228 | the verdict for every order, with the fill of the greedy walk |
| OrderBook.Walk | scripts/evo_order_probe.py:197-207 | the walk with its early breaks fills min(remaining, depth before the first refused level) |
| OrderBook.WalkReachesAllDepth | scripts/evo_order_probe.py:173-207 | on any parsed book that is all the depth at admissible prices, counted on the raw response in any order |
| OrderBook.OneLevelFill | scripts/evo_order_probe.py:173-207 | against one level of q contracts at p, buyers of the other side pay 100 - p and sellers of the same side receive p, up to the contracts that remain |
| OrderBook.OneLevelMaker | scripts/evo_order_probe.py:214-228 | maker orders see that price as the market, fill only when it is strictly better than their limit, and not without a level |
| OrderBook.FillMonotone | scripts/evo_order_probe.py:197-204 | loosening the limit never lowers the fill |
| OrderBook.MakerFillsOneInside | scripts/evo_order_probe.py:214-228 | a maker buy at L fills exactly when a taker buy at L - 1 gets a contract, dually for sells at L + 1 |
| SharedPairs.SharedMarketPairs | kalshi_bot/config.py:1973-2001 | the three loops return the parsed pairs whose tags are named once |
| SharedPairs.PairFor | kalshi_bot/config.py:2003-2008 | the lookup returns the one pair that holds the tag, or none when no pair does |
| SharedPairs.PairsDisjoint | kalshi_bot/config.py:1997-2001 | no two returned pairs share a tag, so the lookup does not depend on their order |
| SharedPairs.PairsAreGood | kalshi_bot/config.py:1978-1996 | each returned pair has two distinct non-blank, non-twin tags and positive bounds |
| SharedPairs.TypedEntry | kalshi_bot/config.py:1978-1996 | an entry of two tags, whole contracts and whole dollars reads as that pair, unless the tags are equal or twins or a bound is zero |
| SharedPairs.UnboundedEntry | kalshi_bot/config.py:1986-1994 | inf is a bound, nan and minus infinity are none |
| SharedPairs.AddingAnEntry | kalshi_bot/config.py:1973-2001 | an entry added at the start, at the end, in between or to an empty setting changes nothing when it does not parse, and otherwise can add only its own pair and removes exactly the pairs that share a tag with it |
| SharedPairs.EntryReads | kalshi_bot/config.py:43-45 | a printed pair parses to itself up to the rounding of its bound to cents |
| SharedPairs.PrintThenParse | kalshi_bot/config.py:1973-2001 | parse(print(parse(s))) == parse(s) exactly when all dollar bounds are whole cents or infinite |
| Numerals.TwoDecimalsReadBack | kalshi_bot/config.py:43-45 | a bound printed with two decimals reads back as itself exactly when it is whole cents or infinite |
| Numerals.IntReadsBack | kalshi_bot/config.py:43-45 | a printed count reads back as itself |
| Numerals.FloatReads | kalshi_bot/config.py:1988-1989 | a number with an optional sign, point, fraction and signed exponent reads as its digits scaled by both |
| Numerals.FloatsAre | kalshi_bot/config.py:1986-1991 | no other text is a number: a special name, or digits with underscores only between them, a sign, a point and an exponent or none of these |
| Numerals.IntsAre | kalshi_bot/config.py:1986-1991 | a count is exactly such digits after a sign or none, blanks around it aside |
| Numerals.DigitsReadBack | kalshi_bot/config.py:1987-1989 | digits alone read as their number, as a count also after a sign |
| Numerals.GroupsRead | kalshi_bot/config.py:1987-1989 | underscores are allowed exactly between digits and mean nothing |
| Numerals.PrintedCents | kalshi_bot/config.py:43-45 | any bound is printed as the nearest whole number of cents |
| Text.SplitAround | kalshi_bot/config.py:1980 | a separator splits a text into the parts on its left and those on its right |
| TwinPairs.LivePaperTwinPairs | kalshi_bot/config.py:1807-1836 | the sorted result holds a pair exactly when it is the derived twin of a live tag and not itself allowlisted; the last usable explicit entry wins over the suffix |
| TwinPairs.LastEntryNames | kalshi_bot/config.py:1819-1828 | a last entry a:b makes b, cut to 24 characters, the twin of a, and without b the suffixed tag; it changes no other tag |
| TwinPairs.AutoTwin | kalshi_bot/config.py:1818-1834 | a tag without an entry gets its suffixed tag cut to 24 characters exactly when it is allowlisted and that is on; the suffix is _pt when none is set |
| TwinPairs.TwinsAreNotAllowlisted | kalshi_bot/config.py:1813-1814 | a listed twin is neither its own nor any allowlisted tag, fits the 24-character column, and a live tag has one twin |
| TwinPairs.Allowed | kalshi_bot/live/executor.py:170-180 | a tag passes exactly when some allowlisted tag is a prefix of it and no configured pair has it as its twin |
| TwinPairs.TwinsNeverTrade | kalshi_bot/live/executor.py:170-180 | no configured twin passes, although prefixes are matched, and every allowlisted tag does |
| TwinPairs.SuffixedTwinIsRefused | kalshi_bot/live/executor.py:170-180 | a suffixed twin begins with its live tag exactly when that has at most 24 characters, so prefixes alone would pass it; with a matching prefix it is refused exactly while twins are on and it is not allowlisted itself, and passes once they are off |
| TwinPairs.DefaultTwinsCollide | kalshi_bot/config.py:1829-1834 | the suffixed twins of two tags coincide exactly when both tags agree on the 24 characters of the column, or the shorter one ends inside it and the longer one goes on there as the suffix does |
| TwinPairs.ListedTwinsShared | kalshi_bot/config.py:1819-1836 | two listed live tags share a twin exactly when their entries name the same, or one's entry names the other's suffixed tag, or neither has an entry and the suffixed tags collide |
| TwinPairs.TwoBooksOneTwin | kalshi_bot/config.py:1829-1836 | with the standing suffix and no entries, allowlisted books of 23 and 25 letters are both listed with one twin |
| IsoTime.PrintLength | scripts/desk_diag.py:222-229 | a printed time takes 25 characters, 7 more for a fraction of a second, 3 for seconds in its offset and 10 for a fraction there, so past 40 exactly with both fractions, and then 42 |
| IsoTime.PrintedExamples | scripts/desk_diag.py:222-229 | two printed times in full, with a year below 1000, a fraction, and offsets west of UTC and with seconds |
| IsoTime.TimeReadsBack | scripts/desk_diag.py:222-229 | a printed time reads back as itself |
| IsoTime.ShortReadsLong | scripts/desk_diag.py:222-229 | 2024-01-01T00:00:00.1+00:00:01.000001, 37 characters, reads as a time that prints with 42 |
| Sanitizer.RaisesExactly | scripts/desk_diag.py:212-219 | the projection raises exactly when a number field it reaches holds an integer of at least 2^1024 - 2^970 in size |
| Sanitizer.LargeIntegerRaises | scripts/desk_diag.py:212-219 | such an integer raises whatever the field's range |
| Sanitizer.FixedPoints | scripts/desk_diag.py:192-255 | projecting changes nothing exactly when the value holds only known keys, words, codes, timestamps, numbers in range and the redaction mark |
| Sanitizer.ImageConforms | scripts/desk_diag.py:192-255 | what the projection returns is of that kind exactly when no timestamp field it reaches holds a text of at most 40 characters that reads as a time with a fraction of a second and one in its offset |
| Sanitizer.Idempotent | scripts/desk_diag.py:192-255 | on every JSON value sanitizing raises or, under exactly that condition, sanitizing twice is sanitizing once; for every schema whose "error" fields give only codes and every reader of timestamps whose times print as texts that read the same |
| Sanitizer.ReadTimeReadsBack | scripts/desk_diag.py:222-229 | reading calendar dates in ISO form is such a reader |
| Sanitizer.LongStampIsLost | scripts/desk_diag.py:222-229 | the 37-character timestamp is printed with 42 characters and dropped by the second pass |
| Sanitizer.StableExactly | scripts/desk_diag.py:192-255 | that requirement on the schema is exact: some value is not stable, with no timestamp to blame, if and only if some "error" field can give anything but a code |
| Sanitizer.EnumReturnsCodes | scripts/desk_diag.py:192-255 | an enum as "error" field gives only codes exactly when each of its words is a code or the redaction mark |
| Sanitizer.FlagAsErrorIsUnstable | scripts/desk_diag.py:248-255 | a flag as "error" field is kept by the first pass and redacted by the second |
| DeskReport.SizeBounded | scripts/desk_diag.py:192-255 | the size of the output is bounded by the schema alone |
| DeskReport.ReportIsWellFormed | scripts/desk_diag.py:258-307 | every "error" field of the report's schema is checked as a code |
| DeskReport.SanitizedReport | scripts/desk_diag.py:310-314 | sanitizing raises exactly on a too large integer in a number field of the report; a report that passes the gate is bounded, and stable and made of allowed values exactly when no timestamp shows both fractions |
| Redaction.CodesStay | scripts/desk_diag.py:192-197 | a text in a code field stays exactly when it is a word of 2 to 80 lower-case letters, digits and underscores after a letter without eight digits or sixteen hexadecimal digits in a row, with or without a final line break, and is redacted otherwise |
| Redaction.CompoundsStay | scripts/desk_diag.py:200-205 | a text in a compound field stays exactly when it has at most 160 characters and is one such word or two with a colon between |
| Redaction.IdsStay | scripts/desk_diag.py:232-233 | a job id stays exactly in its form of kind, round, desk and run joined by dashes, a round id exactly as 1 to 100 letters, digits, underscores and dashes, each with or without a final line break |
| Redaction.NumbersStay | scripts/desk_diag.py:208-219 | numbers in range lose their fraction towards zero, all else in a number field is dropped; a flag is only a boolean |
| Redaction.WordsAndLists | scripts/desk_diag.py:232-241 | a listed word stays, other texts are redacted, and of a list its first items are kept up to the limit, each as its check gives it |
| Redaction.KnownFields | scripts/desk_diag.py:248-255 | of an object exactly the known fields are kept, each as its check gives it, and a lone error is read as a code |
| Redaction.GateIs | scripts/desk_diag.py:310-314 | a payload passes exactly when it raises nothing and states the schema and one of the three verdicts |
| Redaction.ReportIsVetted | scripts/desk_diag.py:192-314 | whatever the payload, every text of a sanitized report is the redaction mark, a listed word, a printed time, an id or made of such code words, and no text made of code words shows eight digits or sixteen hexadecimal digits in a row |
| Reals.FloatLimitIs | scripts/desk_diag.py:216 | the limit above which an integer overflows a float is 2^1024 - 2^970 |
| Sorting.SortSorts | scripts/evo_order_probe.py:102 | sorting by a rank orders the elements and keeps exactly them |
| Reals.RoundIsNearest | scripts/evo_order_probe.py:82 | rounding takes a nearest integer, and the even one of two |

## Left out

- S3, psycopg, COPY, gzip, CSV and file permissions: an export is a function of the table and the range, one upload is one atomic step, and a digest determines the bytes it was taken of.
- `restore_check`, the download of a restore test, day exports (`export_day`, the day branch of `object_prefix`) and the pause between chunks.
- Negative ids: ids are natural numbers, as the export requires of its ranges.
- Deleting or changing rows of an archived table: rows are only added.
- ArchiveRun.ArchiveBucket.ArchiveTable: takes the id bounds of the snapshot query as parameters, and reads the table once per run.
- Floating point: statistics, prices and bounds are exact reals; log-space sums are the sums they stand for, a log ratio is the ratio.
- The random generator: bootstrap methods take the drawn indices, so results hold for every generator.
- SuccessBound.ClusterSuccessLowerBound: the power `alpha ** (1/C)` is a parameter, required to be that root.
- The early return below eight clusters, `mean_ci`, `paired_mean_ci`, `design_effect`, `clusters_needed_for` and the report dictionaries.
- SQLAlchemy, sessions and savepoints: tables are sequences of rows in id order; a query that fixes no order is read in that order, so `LiveOrders.Ledger.OpenLiveTickers` picks the first event name of that order.
- Snapshots of one ticker with equal times: the model reads the earlier row, the database promises no order.
- Experiment OS admission, raw JSON columns, fees and timestamps of orders and fills.
- The executor apart from its allowlist, and the trackers: `Attempts` models a caller as the documented gate; the drift limit in cents is not part of it.
- TwinEpochs.TwinTable.Reconcile: one time stamps all rows that a call closes.
- `prune_spot_candles`, statement timeouts and the trade rows' own columns, which are one text.
- Order actions other than buy and sell, and the tolerant level parser of `evo_order_probe.py`.
- Numerals.ReadFloat: no rounding to doubles and no overflow of large exponents to infinity; digits are ASCII, and the length limit of `int` is not modelled.
- IsoTime.ReadTime: week dates and texts outside ASCII are not read; the sanitizer's results hold for any reader that keeps its own printed times.
- Sanitizer.Project: the order of fields is not observed.
- Fetching and authenticating the report, rendering, and `DiagError` other than the invalid response.
