# lancedb-robotics: bounded and restartable forms, proved

A Dafny model of six parts of lancedb-robotics.  They share one shape: a bounded, windowed
or restartable form has to agree with a simple one over the whole table, or a protocol of
several commits has to survive crashes and other writers.

- **Alignment** (`Alignment`, `SegmentAgreement`, `CellPromises`, `StreamStatistics`, `SegmentScan`,
  `SegmentLoading`, `AlignmentViews`, `AlignmentDifferences`, `AlignmentSummaries`).  Multi-rate
  streams are resampled onto ticks twice: over all observations in memory, and over tick segments that load
  only what is inside plus one row per stream on either side.  Both give the same view,
  statistics and summary, and where they can differ is said exactly.
- **Dedup of tick rows** (`TickWindows`, `TickRows`, `DedupProtocol`, `DedupSurvival`,
  `DedupRun`, `DedupPlanning`, `DedupRecovery`).  Canonical rows are re-added with a later time
  and the older copies deleted, by any number of runs that may crash between any two commits.
- **Migration of tick rows** (`TickMigration`, `MigrationProtocol`).  Insert-only merges,
  window by window, by any number of migrators.
- **Row-plan catalog** (`RowPlanChunks`, `RowPlanReads`, `RowPlanPages`, `TargetDigests`,
  `RowPlanValidation`, `RowPlanResume`, `RowPlanPageResume`, `RowPlanHeaders`, `RowPlanListing`,
  `RowPlanRetention`, `RowPlanFlips`, `RowPlanPrune`, `RowPlanPruneRuns`, `OrphanReclaim`).
  Chunked target storage, its readers and validator, header listing, retention by rank, and the
  reclamation of rows whose writer died before its header.
- **MP4 sample tables** (`Mp4Boxes`, `Mp4Tables`, `Mp4Files`, `Mp4Samples`).  The box walk, the
  tables of ISO/IEC 14496-12, byte ranges, timings and the keyframe map.
- **Manifest accounting** (`ManifestAccounting`).  A manifest that records a byte count which
  includes its own size.

`Ordering` holds sequences and stable sorting: what `sorted`, comprehensions and an engine's
`ORDER BY` mean to the rest.

## How the code is represented

A table is a sequence of rows (for orphan reclamation, with the set of published plan ids
beside it) and each add, delete or merge is one atomic commit.  Digests are injective: a
chunk id is the tuple it hashes, a target-id digest the text it hashes.  Times are integers,
string orders are integer ranks, floats are reals.  Clocks, the rows an engine returns and
how a delete goes are parameters.  Code that updates things step by step is a method with
its loops, on classes where the source has objects or tables that change; its contract ties
it to a function, and lemmas say what the source promises about that function.  A protocol
with several actors is a transition system over its commits.  A process that dies is a bound on
the commits it gets to make, or a crash step.

## Where the code does less than it says

Each comes with a failing input and the exact condition under which the code does what it says.

- The streaming path sees only rows whose chosen clock column is set; in memory a row without
  `raw_log_time_ns` falls back to `timestamp_ns`
  (`AlignmentDifferences.UnsetClockChangesTheView`).  The stored view agrees with the in-memory
  one if and only if a clocked row of the stream stands wherever one is picked
  (`StoredViewAgreesExactly`; over all ticks, `ViewsAgreeAtEveryTickExactly`).
- With equal corrected times just outside a segment the two alignment paths may pick different
  rows at the same time, already with the default `nearest` and with scan and sort order
  agreeing (`AlignmentDifferences.TiesMayPickAnotherRow`).  Sort keys being unique, the stored
  rows are the very in-memory rows if and only if each segment loads every row its ticks pick
  (`AlignmentViews.CreateStreamingView`, through `SegmentAgreement.SlicePicksTheSameExactly`).  On
  the table: a picked row lies inside the segment, or comes first in the outward scan among its
  stream's rows at its time, or another stream of the recipe loads it
  (`AlignmentViews.CellLoadedExactly`).
- A validated plan can still fail to resume from a cursor
  (`RowPlanResume.ValidatedPlanMayNotResume`, `RowPlanResume.StrayChunksGoUnseen`);
  `RowPlanResume.ResumeSucceedsExactly` says exactly when it resumes, and
  `RowPlanPageResume.ValidatedPagesAgreeExactly` when paging it gives all of it.
- Inline targets fewer than the header promises make a page return its own cursor
  (`RowPlanPages.CursorsProgressExactly`) and the page iterator serve empty pages for ever;
  `RowPlanPages.PagesEndExactly` says exactly when it ends.
- A target id with a newline can share its digest with two ids (`TargetDigests.NewlinesCollide`).
  A digest rules out longer sequences if and only if no id has a newline
  (`TargetDigests.LongestUnlessNewline`); digest and count together pin the ids if and only if
  there is at most one id or none has a newline (`TargetDigests.CountAndDigestPin`).
- A compile that stalls past the grace window before its header loses its chunks
  (`OrphanReclaim.StalledWriterLoses`); it can happen if and only if some writer in flight
  that has committed has no chunk younger than the window (`OrphanReclaim.FreshExactly`, `GraceWindowIsExact`).
- Windows are counted by division towards zero and scanned by rounding down, so a negative tick
  off a window's edge may lie in no scanned window (`DedupPlanning.EscapingDuplicate`).  A row is
  seen if and only if some tick is counted under its own window (`TickWindows.WindowsPartition`),
  and dedup leaves one row per key if and only if every duplicate is seen
  (`DedupPlanning.CleanUp`); migration refuses negative ticks.

## Model

| member | source | states |
|---|---|---|
| `ManifestAccounting.ThirdRoundSettles` | `src/lancedb_robotics/dataset_export.py:259-274` | for every size of the other bytes and every copied-byte count the count recorded by the third rewrite is the count then measured |
| `ManifestAccounting.SecondRoundCanFail` | `src/lancedb_robotics/dataset_export.py:259-274` | two rewrites are not enough: 98 other bytes need a third |
| `ManifestAccounting.OneCarryAtMost` | `src/lancedb_robotics/dataset_export.py:259-274` | the digit width of a measured count can still change once, never twice: the step that crosses a power of ten settles |
| `ManifestAccounting.DigitsReadBack` | `src/lancedb_robotics/dataset_export.py:259-274` | the digits whose number is counted are those of the count: they read back as it, without a leading 0 |
| `ManifestAccounting.ExportDirectory.WriteAccountedManifest` | `src/lancedb_robotics/dataset_export.py:254-275` | the count left in the manifest equals the count measured from the files after the final write |
| `Alignment.TimedRowsContents` | `src/lancedb_robotics/align.py:1066-1090` | a stream's rows are exactly its observations at their latency-corrected times, sorted |
| `Alignment.StreamRowsMeaning` | `src/lancedb_robotics/align.py:1066-1090` | in raw fields: a row stands at a time exactly when an observation of the stream, on the chosen clock or else its source time, is that time plus the latency; rows are in order of time and then sort key |
| `Alignment.FindPrevious` | `src/lancedb_robotics/align.py:1417-1423` | the loop picks the last row at or before the tick |
| `Alignment.FindExact` | `src/lancedb_robotics/align.py:1426-1432` | the loop picks the first row at the tick, if there is one |
| `Alignment.FindBracket` | `src/lancedb_robotics/align.py:1435-1448` | the loop picks the last row before and the first row after the tick |
| `Alignment.FindNearest` | `src/lancedb_robotics/align.py:1298-1302` | the loop picks the first row of least distance |
| `Alignment.NearestRow` | `src/lancedb_robotics/align.py:1298-1302` | no row of the stream is nearer, and no earlier row is as near |
| `Alignment.AlignedSourcesWithinTolerance` | `src/lancedb_robotics/align.py:1229-1357` | with a tolerance, every source of an aligned cell lies within it, both sources of a linear bracket included, and the bracket encloses the tick |
| `Alignment.StatsTable.RecordSourceError` | `src/lancedb_robotics/align.py:1205-1213` | updates the running count, sum and maximum of one stream and no other; the full list only where one is kept |
| `Alignment.StatsTable.SourceResult` | `src/lancedb_robotics/align.py:1313-1357` | aligned if and only if the source lies within the tolerance of the tick, with its time and signed error; otherwise out of tolerance; and the one step of the stream's statistics that follows |
| `Alignment.StatsTable.AlignOneStream` | `src/lancedb_robotics/align.py:1216-1310` | the loops give the cell that CellPromises.ViewIsRight is about, and the statistics step it causes |
| `Alignment.StatsTable.AlignTick` | `src/lancedb_robotics/align.py:277-325` | one aligned row over all streams, and all their statistics |
| `Alignment.RecordAccounts` | `src/lancedb_robotics/align.py:1205-1213` | one tick keeps aligned + missing = ticks, exceeded the number of cells out of tolerance, and error count, sum and maximum those of the error list |
| `Alignment.StatsAccountForEveryTick` | `src/lancedb_robotics/align.py:1205-1357` | over a whole view: aligned + missing = ticks, exceeded = cells out of tolerance, error count = aligned, the running error figures those of the full list, all else as at the start |
| `SegmentAgreement.StandIn` | `src/lancedb_robotics/align.py:853-922` | for each row outside a segment a sufficient slice holds one at least as close to it |
| `SegmentAgreement.PreviousAgrees` | `src/lancedb_robotics/align.py:1417-1423` | the previous row of a tick of the segment has the same time in the slice as in the whole stream |
| `SegmentAgreement.AfterAgrees` | `src/lancedb_robotics/align.py:1435-1448` | likewise the next row after |
| `SegmentAgreement.ExactAgrees` | `src/lancedb_robotics/align.py:1426-1432` | likewise the exact row |
| `SegmentAgreement.NearestAgrees` | `src/lancedb_robotics/align.py:1298-1302` | likewise the nearest row, ties broken alike |
| `SegmentAgreement.LinearPicksAgree` | `src/lancedb_robotics/align.py:1243-1297` | linear brackets over the slice and over the whole stream give the same status, times, error and confidence |
| `SegmentAgreement.CellsAgree` | `src/lancedb_robotics/align.py:1216-1310` | for every method, tolerance and tick of the segment the slice gives the same status, times, error and confidence; the very same rows where the slice holds each of them and no other row shares its time and sort key |
| `SegmentAgreement.SlicePicksTheSameExactly` | `src/lancedb_robotics/align.py:853-922` | with sort keys unique, as they end in the observation id: a cell over a slice is the whole stream's cell if and only if the slice holds every row the whole stream picks |
| `SegmentAgreement.RowTheSameExactly` | `src/lancedb_robotics/align.py:495-521` | a row over slices is the whole streams' row if and only if every slice holds its stream's picked rows |
| `SegmentAgreement.SlicesPickTheSameExactly` | `src/lancedb_robotics/align.py:853-922` | over the class of all slices that would do: each picks the same rows if and only if every picked row lies inside the segment or is the only row at its time; for the slice that is loaded this is enough, not needed |
| `SegmentAgreement.RowsTheSameExactly` | `src/lancedb_robotics/align.py:495-521` | the same over all families of slices that would do, for whole rows |
| `SegmentAgreement.RowsAgree` | `src/lancedb_robotics/align.py:495-521` | the same for whole rows over all streams |
| `SegmentAgreement.FoldAgrees` | `src/lancedb_robotics/align.py:495-521` | rows that agree leave the same statistics |
| `CellPromises.ViewIsRight` | `src/lancedb_robotics/align.py:1216-1357` | over the times of the rows alone: a cell is aligned if and only if, with `nearest`, some row lies within the tolerance of the tick; with `previous`, one at or before it does; with `linear`, one on each side (or at it) does. It is missing, and why, exactly when there is nothing to pick, else out of tolerance with the nearer row and the distance that failed. Sources, signed and absolute error, and confidence are pinned |
| `CellPromises.SourcesByKey` | `src/lancedb_robotics/align.py:1298-1302` | of rows at one time the last in sort order is taken where a method looks back from the tick, the first otherwise |
| `CellPromises.LinearValueOnLine` | `src/lancedb_robotics/align.py:1451-1474` | interpolation gives a value exactly when the two samples are alike, and then each component is the point at the tick of the line through the two |
| `CellPromises.CellKeepsPromises` | `src/lancedb_robotics/align.py:1216-1310` | all of that, and the value: the source's sample, or the point of the line, or a missing value exactly for unlike samples |
| `CellPromises.SliceKeepsPromises` | `src/lancedb_robotics/align.py:467-527` | a cell computed from a segment's slice keeps those promises towards the whole stream |
| `CellPromises.RowConfidenceIsRight` | `src/lancedb_robotics/align.py:277-325` | a row's confidence is the least of its cells', 0 for one without a source |
| `StreamStatistics.CountDropped` | `src/lancedb_robotics/align.py:1163-1202` | dropped frames counted against the median interval |
| `StreamStatistics.InitialStreamStats` | `src/lancedb_robotics/align.py:1163-1202` | the batch statistics of a stream's sorted rows |
| `StreamStatistics.ObserveRow` | `src/lancedb_robotics/align.py:758-812` | one scanned row advances exactly the streams it belongs to; it raises exactly on a selected row without a clock |
| `StreamStatistics.StreamingStreamStats` | `src/lancedb_robotics/align.py:758-850` | the one-pass statistics of every stream, or an error exactly when a selected row has no clock |
| `StreamStatistics.StreamTimesAgree` | `src/lancedb_robotics/align.py:758-806` | a clock-ordered scan meets a stream's corrected times in sorted order, when the stream's own rows have the clock set |
| `StreamStatistics.OnePassStatsAgree` | `src/lancedb_robotics/align.py:758-850` | one-pass and batch statistics of every stream are equal: count, positive intervals (so median and dropped frames), latency drift and drift flag; other streams' rows may lack the clock |
| `StreamStatistics.MedianIsRight` | `src/lancedb_robotics/align.py:1163-1202` | the median interval is the middle one by rank, or the floored mean of the two middle ones |
| `StreamStatistics.DropsAreRight` | `src/lancedb_robotics/align.py:1163-1202` | an interval of more than one and a half medians counts its length in medians, rounded half to even, less one, and at least one; any other nothing; and the count is their sum |
| `StreamStatistics.SpreadIsRight` | `src/lancedb_robotics/align.py:1163-1202` | drift is the greatest difference between the receive latencies of two observations that have both times |
| `StreamStatistics.StartIsRight` | `src/lancedb_robotics/align.py:1163-1202` | so a stream's statistics before alignment say of its rows: how many, the median gap, dropped frames, drift, and drift flagged exactly beyond the tolerance or half the step |
| `SegmentScan.TicksMeaning` | `src/lancedb_robotics/align.py:1144-1152` | the query ticks are exactly the multiples of the step from start to end |
| `SegmentScan.QueryTicks` | `src/lancedb_robotics/align.py:1144-1152` | the loop produces those ticks |
| `SegmentScan.NextSegment` | `src/lancedb_robotics/align.py:1048-1063` | the segments cut the same tick list into pieces of at most the batch size |
| `SegmentScan.RangeScanContents` | `src/lancedb_robotics/align.py:997-1040` | a bounded scan returns exactly the rows whose clock column is set and in range, ordered |
| `SegmentScan.FirstQualifying` | `src/lancedb_robotics/align.py:962-994` | the loop finds each stream's first qualifying row of the scan and stops when all are found |
| `SegmentScan.FirstHitIsClosest` | `src/lancedb_robotics/align.py:947-994` | the first qualifying row is the closest on that side of the boundary, over the whole table, latencies included |
| `SegmentScan.BoundaryRefs` | `src/lancedb_robotics/align.py:947-994` | finds, per stream, exactly its first hit of the outward scan, the closest row before or after a boundary whenever there is one |
| `SegmentScan.SegmentObservationRefs` | `src/lancedb_robotics/align.py:853-922` | loads exactly the clocked rows that lie inside the segment for some stream or are some stream's first hit on either side |
| `SegmentScan.LoadedSuffices` | `src/lancedb_robotics/align.py:853-944` | what is loaded suffices for each stream of the segment |
| `SegmentScan.LoadedMembers` | `src/lancedb_robotics/align.py:853-944` | a stream's slice is exactly those of its rows that are loaded for the segment |
| `SegmentLoading.FirstHitExactly` | `src/lancedb_robotics/align.py:947-994` | a closest row beyond a boundary is its stream's first hit if and only if it comes first in the scan among the stream's rows at its time |
| `SegmentLoading.SourceLoadedExactly` | `src/lancedb_robotics/align.py:853-994` | a picked row is loaded if and only if it lies inside the segment, or comes first in the outward scan among its stream's rows at its time, or another stream loads it |
| `AlignmentViews.ViewPromises` | `src/lancedb_robotics/align.py:270-326` | a row per tick with its index; every cell of every row keeps its promises, tied sources are picked by sort key, flags and confidence are the cells', and every stream's statistics start from its rows and account for all ticks |
| `AlignmentViews.HydrateAlignedRows` | `src/lancedb_robotics/align.py:1517-1575` | in place: every cell not yet read gets its source's sample or the point of the line through its two, flags follow, and status, sources, times, error and confidence stay |
| `AlignmentViews.CreateAlignmentView` | `src/lancedb_robotics/align.py:270-326` | the in-memory path computes the view of the whole table, with its statistics; every cell keeps its promises and of tied rows holds the right one |
| `AlignmentViews.StreamingMetrics.ObserveSegment` | `src/lancedb_robotics/align.py:92-115` | the running metrics stay those of all rows seen |
| `AlignmentViews.LoadSegment` | `src/lancedb_robotics/align.py:473-494` | the loaded slices suffice, and hold exactly the rows the segment loads |
| `AlignmentViews.SegmentAgrees` | `src/lancedb_robotics/align.py:495-527` | the hydrated rows of a segment are the in-memory view's rows for those ticks, the very same ones if (and, sort keys being unique, only if) every picked row is loaded |
| `AlignmentViews.CellLoadedExactly` | `src/lancedb_robotics/align.py:853-994` | a cell's picked rows are loaded if and only if each lies inside the segment, or comes first in the outward scan among its stream's rows at its time, or another stream loads it |
| `AlignmentViews.PinnedIsLoaded` | `src/lancedb_robotics/align.py:853-922` | where any sufficient slice would pick the same rows, the loaded one does |
| `AlignmentViews.StreamSegment` | `src/lancedb_robotics/align.py:467-527` | one turn of the segment loop reproduces its part of the view within the batch size and advances the statistics |
| `AlignmentViews.CreateStreamingView` | `src/lancedb_robotics/align.py:460-549` | for every table, latency, tolerance, method and batch size the segments together reproduce the in-memory view of the clocked rows: same ticks, status, times, error, confidence, with every cell keeping its promises; the very same rows if (and, sort keys being unique, only if) each segment loads every row its ticks pick |
| `AlignmentDifferences.CellsAgreeExactly` | `src/lancedb_robotics/align.py:1216-1310` | a cell over part of a stream shows what the whole stream shows if and only if the part has a row at every time the whole picks |
| `AlignmentDifferences.CellsAgreeAtEveryTickExactly` | `src/lancedb_robotics/align.py:1216-1310` | at every tick, for every method and tolerance: if and only if every time of the stream is a time of the part |
| `AlignmentDifferences.StoredViewAgreesExactly` | `src/lancedb_robotics/align.py:1030-1041` | the streaming rows show the in-memory view of the whole table if and only if, at each tick and for each stream, a row with its clock column set stands wherever one is picked |
| `AlignmentDifferences.ViewsAgreeAtEveryTickExactly` | `src/lancedb_robotics/align.py:1066-1083` | at every tick: if and only if every row that falls back to its source time has a clocked row of the stream at the same corrected time |
| `AlignmentDifferences.OtherRowsDoNotMatter` | `src/lancedb_robotics/align.py:1066-1083` | rows outside the selected streams may lack the clock |
| `AlignmentDifferences.UnsetClockChangesTheView` | `src/lancedb_robotics/align.py:1030-1041` | on the receive clock, the views of one row whose receive time is unset differ |
| `AlignmentDifferences.TiesMayPickAnotherRow` | `src/lancedb_robotics/align.py:947-994` | of two tied rows ranked alike by scan and sort key the boundary read loads the later one; previous agrees, nearest does not |
| `AlignmentSummaries.QualityFromMetrics` | `src/lancedb_robotics/align.py:1614-1684` | the running metrics give the quality summary of the full row list, overall maximum included |
| `AlignmentSummaries.QualityIsRight` | `src/lancedb_robotics/align.py:1614-1684` | the summary says what the rows say: per stream the largest and mean error of its aligned ticks, over all the largest error, mean and least confidence, and exactly the flags of the rows and of the streams' statistics |
| `AlignmentSummaries.StatisticsAgree` | `src/lancedb_robotics/align.py:447-549` | both paths end with the same per-stream statistics but for the error list |
| `AlignmentSummaries.QualitiesAgree` | `src/lancedb_robotics/align.py:1614-1684` | both paths report the same quality summary, and the same row flags where the rows are the same |
| `AlignmentSummaries.CreateStoredView` | `src/lancedb_robotics/align.py:393-590` | the streaming path end to end: it raises exactly when a selected row has no clock, otherwise stores the in-memory view of the clocked rows, and shows that of the whole table if and only if a clocked row stands wherever one is picked |
| `AlignmentSummaries.StoredViewMatchesInMemory` | `src/lancedb_robotics/align.py:393-590` | with every selected row's clock set, statistics and quality summary are those of the in-memory path, row flags too where segments loaded what they picked, or times are distinct |
| `TickWindows.OwnWindowHoldsTick` | `src/lancedb_robotics/aligned_tick_lifecycle.py:937-945` | a tick lies in the window it is counted under exactly when it is not negative or on a window's edge |
| `TickWindows.OccupiedWindows` | `src/lancedb_robotics/aligned_tick_lifecycle.py:944-950` | the sorted list of windows that hold a tick, each once |
| `TickWindows.TickIndexBounds` | `src/lancedb_robotics/aligned_tick_lifecycle.py:913-949` | least and greatest tick, count, and occupied windows; nothing exactly when there are no rows |
| `TickWindows.WindowsPartition` | `src/lancedb_robotics/aligned_tick_lifecycle.py:355-360` | a tick lies in at most one window, and in a listed one if and only if some tick, it or another, is counted under that window |
| `TickRows.Canonical` | `src/lancedb_robotics/aligned_tick_lifecycle.py:589-602` | the survivor is one of the copies and no copy beats it; TickRows.CanonicalIsPreferred says what beating means |
| `TickRows.CanonicalIsPreferred` | `src/lancedb_robotics/aligned_tick_lifecycle.py:589-602` | in raw fields: the survivor has the current recipe if any copy has; of the copies that have it or not as it does none is later, no time being the earliest; of those at its time none has a greater transform; and it is the first such copy |
| `TickRows.PreferredExactly` | `src/lancedb_robotics/aligned_tick_lifecycle.py:589-602` | a copy is preferred in that sense if and only if no copy beats it |
| `TickRows.DuplicatedKeys` | `src/lancedb_robotics/aligned_tick_lifecycle.py:546-556` | exactly the keys with more than one copy in the window |
| `TickRows.PlanRows` | `src/lancedb_robotics/aligned_tick_lifecycle.py:543-575` | each stamped row is its key's canonical copy at the window's marker, later than every copy of the key |
| `TickRows.StampedMeaning` | `src/lancedb_robotics/aligned_tick_lifecycle.py:543-575` | each stamped row is a preferred copy of its key but for its time, which is one past the latest of the window's duplicated rows, or past now when none has a time |
| `DedupProtocol.KeptThroughDelete` | `src/lancedb_robotics/aligned_tick_lifecycle.py:576-586` | a delete below a marker keeps what is at or above it, and through its own copy every older claim |
| `DedupProtocol.AddKeepsInvariant` | `src/lancedb_robotics/aligned_tick_lifecycle.py:571-572` | adding a chunk keeps the invariant |
| `DedupProtocol.DeleteKeepsInvariant` | `src/lancedb_robotics/aligned_tick_lifecycle.py:576-586` | a delete keeps the invariant of its own and every other run |
| `DedupProtocol.ScanKeepsInvariant` | `src/lancedb_robotics/aligned_tick_lifecycle.py:541-570` | a scan at any moment plans only preferred payloads |
| `DedupProtocol.PreferredPayloadIsKept` | `src/lancedb_robotics/aligned_tick_lifecycle.py:543-602` | over every interleaving of any number of runs with crashes anywhere, every preferred copy of a key, in raw fields, carries the payload the preferred copies carried at the start (a key fixes its tick; best copies unique; one recipe) |
| `DedupSurvival.AliveThroughDelete` | `src/lancedb_robotics/aligned_tick_lifecycle.py:576-586` | a row at or above every issued marker outlives every delete, missing timestamps included |
| `DedupSurvival.StepKeepsAlive` | `src/lancedb_robotics/aligned_tick_lifecycle.py:541-586` | every step of every run keeps a row per key at or above each marker it was stamped with |
| `DedupSurvival.NoKeyIsEverLost` | `src/lancedb_robotics/aligned_tick_lifecycle.py:520-586` | over every interleaving and crash, on any table at all and with a recipe of its own for every run, the keys that have rows are the keys that had rows |
| `DedupRun.WindowEffect` | `src/lancedb_robotics/aligned_tick_lifecycle.py:541-586` | a window's add and delete leave a duplicated key one stamped canonical row and every other key its rows |
| `DedupRun.WindowCount` | `src/lancedb_robotics/aligned_tick_lifecycle.py:553-558` | a window shrinks the table by exactly its extra copies |
| `DedupRun.PlanWindow` | `src/lancedb_robotics/aligned_tick_lifecycle.py:546-570` | the loop over the groups computes the stamped rows, the marker and the removed count |
| `DedupRun.TickTable.AddChunks` | `src/lancedb_robotics/aligned_tick_lifecycle.py:571-572` | chunked appends add the stamped rows in order |
| `DedupRun.TickTable.DedupWindow` | `src/lancedb_robotics/aligned_tick_lifecycle.py:541-586` | one window's commits, and the number of rows they remove |
| `DedupRun.TickTable.DedupAlignment` | `src/lancedb_robotics/aligned_tick_lifecycle.py:520-586` | an undisturbed run collapses the keys of the given windows to a preferred copy at a time later than any of its copies, touches no other, counts what it removes, and leaves one row per key if and only if the windows cover every duplicate |
| `DedupPlanning.ScanKeyWindows` | `src/lancedb_robotics/aligned_tick_lifecycle.py:329-389` | counts every row if and only if some tick is counted under each row's own window; exact counts of the rows it sees, and windows that hold exactly their duplicates |
| `DedupPlanning.CoversExactly` | `src/lancedb_robotics/aligned_tick_lifecycle.py:329-389` | the listed windows cover every duplicate if and only if every duplicated row is seen |
| `DedupPlanning.RemovedAsPlanned` | `src/lancedb_robotics/aligned_tick_lifecycle.py:409-470` | a run removes exactly what the scan counted, on any table whose keys fix their tick |
| `DedupPlanning.CleanUp` | `src/lancedb_robotics/aligned_tick_lifecycle.py:409-470` | planned and removed counts are equal, seen keys collapse to a preferred copy and others stay, one row per key is left if and only if every duplicate is seen, and a second run removes nothing and leaves the rows the first one left |
| `DedupPlanning.EscapingDuplicate` | `src/lancedb_robotics/aligned_tick_lifecycle.py:937-945` | at width 10 a duplicate at tick -3 is not seen, unless a row at tick -13 stands beside it |
| `DedupRecovery.LeftBehindTable` | `src/lancedb_robotics/aligned_tick_lifecycle.py:520-586` | after any interleaving and crashes a key still fixes its tick, no key is lost, and each prefers its original payload |
| `DedupRecovery.CleanUpAfterCrashes` | `src/lancedb_robotics/aligned_tick_lifecycle.py:409-586` | crashes anywhere, then one undisturbed run: every key keeps the payload its preferred copies had, in exactly one row where every duplicate is seen |
| `TickMigration.WindowsFindEveryTick` | `src/lancedb_robotics/aligned_tick_migration.py:374-389` | walking the occupied windows meets every tick with frames exactly once, in order |
| `TickMigration.TickStore.MergeChunks` | `src/lancedb_robotics/aligned_tick_migration.py:504-514` | the chunked merges append each missing row once |
| `TickMigration.TickStore.MigrateWindow` | `src/lancedb_robotics/aligned_tick_migration.py:440-515` | a window's expected, existing and written counts, and the rows a real run adds |
| `TickMigration.MissingLater` | `src/lancedb_robotics/aligned_tick_migration.py:470-474` | earlier windows never change what a later one finds missing |
| `TickMigration.MigrateJob` | `src/lancedb_robotics/aligned_tick_migration.py:309-401` | a negative tick fails the job; otherwise expected = existing + written, a real run appends exactly the missing ticks, a dry run changes nothing |
| `TickMigration.StatusMeaning` | `src/lancedb_robotics/aligned_tick_migration.py:390-401` | a real run reports already migrated, migrated or resumed exactly when all, none or some of the ticks with frames were stored before |
| `TickMigration.RanStoresEveryTick` | `src/lancedb_robotics/aligned_tick_migration.py:440-515` | after a run every tick with frames is stored |
| `TickMigration.PlanRunRerun` | `src/lancedb_robotics/aligned_tick_migration.py:104-132` | a dry run predicts what a lone real run writes, and a rerun writes nothing and reports already-migrated |
| `MigrationProtocol.MergeOnlyInserts` | `src/lancedb_robotics/aligned_tick_migration.py:104-132` | on any table a merge keeps every stored row in place, adds at most one row for a tick and none for a stored one, and stores its whole chunk |
| `MigrationProtocol.GrowthCounts` | `src/lancedb_robotics/aligned_tick_migration.py:104-132` | a stored tick's row count never changes, any other gets at most one row |
| `MigrationProtocol.ScanHolds` | `src/lancedb_robotics/aligned_tick_migration.py:461-503` | a scan at any moment accounts for its window's ticks as stored or pending |
| `MigrationProtocol.MergeHolds` | `src/lancedb_robotics/aligned_tick_migration.py:504-515` | a merge of any size beside other migrators keeps each migrator's account |
| `MigrationProtocol.StepKeepsInvariant` | `src/lancedb_robotics/aligned_tick_migration.py:374-515` | every step keeps every migrator's account |
| `MigrationProtocol.MigratorsConverge` | `src/lancedb_robotics/aligned_tick_migration.py:309-515` | over every interleaving and crash, on any table: stored rows stay, no tick's row count grows past one or past what it was, only rows the job implies are added, and a completed run has all ticks stored with its counts right |
| `MigrationProtocol.RerunsWriteNothing` | `src/lancedb_robotics/aligned_tick_migration.py:374-401` | once any run has completed the table is final and every later run writes nothing |
| `RowPlanChunks.ChunkTable.WriteRowPlanChunks` | `src/lancedb_robotics/curation_row_plans.py:855-942` | buffering, sealing and batched commits write exactly the plan's chunks; a writer that dies has committed exactly its first full batches |
| `RowPlanChunks.MergeNextBatch` | `src/lancedb_robotics/curation_row_plans.py:884-895` | commits of consecutive batches add up to one merge |
| `RowPlanChunks.AttemptExtends` | `src/lancedb_robotics/curation_row_plans.py:874-942` | an attempt that stops anywhere extends the stored prefix of the plan or changes nothing, and touches no other plan |
| `RowPlanChunks.RetriesConverge` | `src/lancedb_robotics/curation_row_plans.py:874-942` | after any number of died attempts, the one that finishes leaves exactly one undisturbed write's chunks, each once |
| `RowPlanChunks.WindowsJoin` | `src/lancedb_robotics/curation_row_plans.py:1086-1112` | neighbouring windows read what one read of both reads, ties included |
| `RowPlanChunks.ChunkRowsMeaning` | `src/lancedb_robotics/curation_row_plans.py:1086-1112` | a window holds exactly the plan's chunks that start in it, each as often as stored, by start ordinal and then index |
| `RowPlanChunks.IterChunkRows` | `src/lancedb_robotics/curation_row_plans.py:1065-1112` | the windowed reader returns the ordered rows of one scan |
| `RowPlanChunks.BaseIsFloored` | `src/lancedb_robotics/curation_row_plans.py:1081-1085` | a read begins at the ordinal rounded down to the width, never below 0 |
| `RowPlanChunks.IterChunkedTargets` | `src/lancedb_robotics/curation_row_plans.py:1115-1157` | the stream and how it ends: finished, non-contiguous or short |
| `RowPlanChunks.ReadsAreConsecutive` | `src/lancedb_robotics/curation_row_plans.py:1115-1157` | on any stored rows a read emits stored targets at consecutive ordinals, and one that does not raise emits at least as many as promised |
| `RowPlanReads.ChunksTail` | `src/lancedb_robotics/curation_row_plans.py:1065-1112` | the chunks from a boundary on are those of the targets from there on |
| `RowPlanReads.ReadsTheSuffix` | `src/lancedb_robotics/curation_row_plans.py:1065-1157` | any targets written at any positive width and read from any ordinal give exactly that suffix, rows stored in any order; a negative ordinal raises |
| `RowPlanReads.RetriedWriteReadsBack` | `src/lancedb_robotics/curation_row_plans.py:855-942` | reads after retried writes give the targets |
| `RowPlanReads.RetriedWriteCounts` | `src/lancedb_robotics/curation_row_plans.py:855-942` | and the plan has as many chunks as its target count calls for |
| `RowPlanReads.ChunkCount` | `src/lancedb_robotics/curation_row_plans.py:780-812` | the chunk count announced for a target count is the count sealed |
| `RowPlanReads.CompileThenWrite` | `src/lancedb_robotics/curation_row_plans.py:780-942` | the announced and the returned descriptors agree in width and counts |
| `RowPlanPages.FetchPage` | `src/lancedb_robotics/curation_row_plans.py:550-577` | one page from a cursor: its targets, the next cursor, or the error |
| `RowPlanPages.IterPages` | `src/lancedb_robotics/curation_row_plans.py:579-622` | the single pass slices one stream into the pages a consumer asks for, or rejects a negative cursor |
| `RowPlanPages.PagesEndExactly` | `src/lancedb_robotics/curation_row_plans.py:579-622` | the iteration ends if and only if the storage is chunked, or the start is past the promised total, or inline storage holds it |
| `RowPlanPages.EnoughEnds` | `src/lancedb_robotics/curation_row_plans.py:579-622` | asked for more pages than targets are left, it has ended with all its pages |
| `RowPlanPages.TooFewNeverEnds` | `src/lancedb_robotics/curation_row_plans.py:579-622` | otherwise every page asked for is served and none is the last |
| `RowPlanPages.InlineServes` | `src/lancedb_robotics/curation_row_plans.py:528-548` | inline storage serves its targets from every ordinal up to the promised total if and only if it holds that many |
| `RowPlanPages.WrittenServes` | `src/lancedb_robotics/curation_row_plans.py:528-548` | a written plan serves its targets from every ordinal |
| `RowPlanPages.SlicesCover` | `src/lancedb_robotics/curation_row_plans.py:579-622` | the pages strung together are the targets from the cursor on, up to at least the promised total |
| `RowPlanPages.PagesAgree` | `src/lancedb_robotics/curation_row_plans.py:550-622` | following returned cursors gives the pages of the single pass |
| `RowPlanPages.WalkIsTheSuffix` | `src/lancedb_robotics/curation_row_plans.py:550-622` | on a plan of its promised size the pages are the suffix, nothing lost or repeated |
| `RowPlanPages.CursorsProgressExactly` | `src/lancedb_robotics/curation_row_plans.py:550-577` | every cursor below the total moves on if and only if inline storage holds the promised total; otherwise one comes back unchanged |
| `RowPlanPageResume.PageServedExactly` | `src/lancedb_robotics/curation_row_plans.py:550-577` | on a validated plan a request gives the page of the whole plan if and only if a chunk starts on the page's boundary and a last page that is not full meets no stray chunk |
| `RowPlanPageResume.ValidatedPagesAgreeExactly` | `src/lancedb_robotics/curation_row_plans.py:550-622` | on a validated plan following the cursors gives the pages of the single pass if and only if every page does |
| `RowPlanValidation.ValidateOnePlan` | `src/lancedb_robotics/curation_row_plans.py:1737-1816` | reports exactly the issues the stored chunks deserve, each with its index or count, and none if and only if they are what the header promises |
| `RowPlanValidation.ScanChunks` | `src/lancedb_robotics/curation_row_plans.py:1750-1790` | one issue per repeated index, gap, wrong end and wrong count, exactly; and the counts and digest of the chunks whose index is new |
| `RowPlanValidation.SoundExactly` | `src/lancedb_robotics/curation_row_plans.py:1737-1816` | no issue is deserved if and only if indexes are distinct, starts contiguous, bounds and counts right, and the target count, chunk count and digest the header's |
| `RowPlanValidation.SoundPlansRead` | `src/lancedb_robotics/curation_row_plans.py:1115-1157` | a clean report means a read from 0 finishes with exactly the promised count and the header's digest |
| `TargetDigests.FoldInjective` | `src/lancedb_robotics/curation_row_plans.py:738-765` | the newline-terminated fold is injective on ids without newlines |
| `TargetDigests.NewlinesCollide` | `src/lancedb_robotics/curation_row_plans.py:738-765` | one id with a newline shares its digest with two ids |
| `TargetDigests.LongestUnlessNewline` | `src/lancedb_robotics/curation_row_plans.py:738-765` | no sequence with the same digest is longer if and only if no id has a newline |
| `TargetDigests.CountAndDigestPin` | `src/lancedb_robotics/curation_row_plans.py:738-765` | digest and count together determine the ids if and only if there is at most one id or none has a newline |
| `RowPlanValidation.CleanReportsPinTheIds` | `src/lancedb_robotics/curation_row_plans.py:1737-1816` | a clean report against a write's digest means reading gives the written ids, however the chunks came about |
| `RowPlanResume.ResumeSucceedsExactly` | `src/lancedb_robotics/curation_row_plans.py:1115-1157` | on a validated plan a read resumed at an ordinal gives exactly the rest if and only if a chunk starts at the boundary the header's width puts it in and no stray chunk lies in the stretch validation does not see |
| `RowPlanResume.ValidatedPlanMayNotResume` | `src/lancedb_robotics/curation_row_plans.py:1081-1112` | chunks narrower than the header's width validate and yet a cursor into them raises |
| `RowPlanResume.StrayChunksGoUnseen` | `src/lancedb_robotics/curation_row_plans.py:1081-1112` | a stray chunk beyond the validator's last window goes unreported and makes a resumed read raise |
| `RowPlanResume.CleanReportsPinExactly` | `src/lancedb_robotics/curation_row_plans.py:1737-1816` | every stored content with a clean report against a write's descriptor reads back the written ids if and only if there is at most one id or none has a newline |
| `RowPlanResume.WrittenPlansAreSound` | `src/lancedb_robotics/curation_row_plans.py:1737-1816` | what a write stores passes validation against the descriptor it returned |
| `RowPlanListing.NormalizePageSize` | `src/lancedb_robotics/curation_row_plans.py:1347-1353` | rejects sizes below 1; no request means the default size, any other the greatest size up to the request and the maximum |
| `RowPlanListing.EngineListing` | `src/lancedb_robotics/curation_row_plans.py:1366-1406` | the pushed-down scan followed by the client checks is the listing after the cursor |
| `RowPlanListing.ReadPlansOrdered` | `src/lancedb_robotics/curation_row_plans.py:1460-1515` | the ordered reader returns the first page of the listing, and whether more follows |
| `RowPlanListing.ReadPlansBoundedHeap` | `src/lancedb_robotics/curation_row_plans.py:1517-1552` | the bounded top-k reader returns the same page and flag |
| `RowPlanListing.ListRowPlans` | `src/lancedb_robotics/curation_row_plans.py:1555-1650` | whichever reader serves it, the same page and next cursor |
| `RowPlanListing.NextListing` | `src/lancedb_robotics/curation_row_plans.py:1555-1650` | the listing after a page's cursor is what was left after the page |
| `RowPlanListing.FollowingCursorsVisitsAll` | `src/lancedb_robotics/curation_row_plans.py:1555-1650` | following the cursors ends and visits the whole listing in order |
| `RowPlanListing.ListingIsEveryMatchOnce` | `src/lancedb_robotics/curation_row_plans.py:1555-1650` | in raw fields: the listing holds exactly the plans that have every column, flag and time asked for and come after the cursor, each once, in (created_at, plan_id) order |
| `RowPlanRetention.TwoPassIsSorted` | `src/lancedb_robotics/curation_row_plans.py:2058-2073` | the two stable passes order by series, then newest first, then greater id |
| `RowPlanRetention.OrderIsUnique` | `src/lancedb_robotics/curation_row_plans.py:2032-2073` | with unique ids there is only one such order |
| `RowPlanRetention.IterPlansForRetention` | `src/lancedb_robotics/curation_row_plans.py:2009-2073` | both paths scan the same sequence |
| `RowPlanRetention.ScanCountsRank` | `src/lancedb_robotics/curation_row_plans.py:2190-2195` | the counter per series is the number of newer plans of the series that are not pruned |
| `RowPlanRetention.PruningKeepsPlaces` | `src/lancedb_robotics/curation_row_plans.py:2184-2195` | removing pruned plans never moves a survivor into or out of the retained ranks |
| `RowPlanRetention.VerdictsExactly` | `src/lancedb_robotics/curation_row_plans.py:2184-2208` | in raw fields: a plan is pruned exactly when it is live, at least the retained number of live plans of its series are newer, it is unfrozen, copied nothing, has no artifact, is unreferenced and its creation is not after the cutoff; an active one past the retained ranks is otherwise retired |
| `RowPlanPrune.Catalog.DeletePlanChunks` | `src/lancedb_robotics/curation_row_plans.py:2290-2341` | what a delete removes, and that a plan is reported deleted only when nothing of it is left |
| `RowPlanFlips.FlipPlans` | `src/lancedb_robotics/curation_row_plans.py:2237-2287` | re-reads the named rows in full, flips and merges them: unnamed rows stay, named ones change only their lifecycle columns (and a pruned plan its summary and chunk count), and the first retirement time is kept |
| `RowPlanFlips.UpsertFlips` | `src/lancedb_robotics/curation_row_plans.py:2260-2286` | merging the fetched, rewritten rows by id flips exactly the named plans and inserts none |
| `RowPlanFlips.ScanRowsLoseBodies` | `src/lancedb_robotics/curation_row_plans.py:2245-2253` | merging scan rows instead would give the same table if and only if no named plan has anything in the columns the scan does not read |
| `RowPlanPrune.Catalog.ApplyState` | `src/lancedb_robotics/curation_row_plans.py:2237-2287` | on the catalog: unnamed headers stay, named ones keep every column outside the lifecycle ones |
| `RowPlanPrune.Catalog.DeferSupersede` | `src/lancedb_robotics/curation_row_plans.py:2132-2143` | queues an active plan once and flushes full batches |
| `RowPlanPrune.Catalog.PruneDeletable` | `src/lancedb_robotics/curation_row_plans.py:2163-2182` | chunk rows go first; headers are flipped only after a verified delete; a crash between the two leaves the header |
| `RowPlanPrune.Catalog.FlushPrune` | `src/lancedb_robotics/curation_row_plans.py:2145-2182` | evidence is checked before anything is deleted, and protected plans are retired instead |
| `RowPlanPrune.Catalog.VisitPlan` | `src/lancedb_robotics/curation_row_plans.py:2185-2208` | each scanned plan ends on exactly the list that rank, evidence and age (RowPlanRetention.VerdictsExactly) call for |
| `RowPlanPrune.Catalog.PruneRowPlans` | `src/lancedb_robotics/curation_row_plans.py:2076-2234` | in raw fields: wherever the pass stops, a header newly pruned or whose chunk rows shrank may be pruned, one newly superseded may be retired, and all else stays; a finished pass has pruned every plan that may be but for failed deletes, retired every other due one, and names them |
| `RowPlanPruneRuns.PrunedStayEmpty` | `src/lancedb_robotics/curation_row_plans.py:2163-2182` | between any two commits a header marked pruned has no chunk rows |
| `RowPlanPruneRuns.ProtectedAreKept` | `src/lancedb_robotics/curation_row_plans.py:2145-2208` | a plan that is frozen, bears an artifact, copied bytes, is referenced, is younger than the cutoff (or there is none), or has fewer newer live plans in its series than are retained, keeps all chunk rows, its summary and is not pruned; and no header loses identity or content |
| `RowPlanPruneRuns.RestOfTheWork` | `src/lancedb_robotics/curation_row_plans.py:2184-2212` | a pass stopped anywhere leaves exactly the rest of its work to the next one |
| `RowPlanPruneRuns.NothingLeftToDo` | `src/lancedb_robotics/curation_row_plans.py:2184-2212` | after a finished pass without failed deletes a second one changes nothing, however it goes |
| `RowPlanPruneRuns.PruneTwice` | `src/lancedb_robotics/curation_row_plans.py:2076-2234` | two passes with a fixed cutoff: the first prunes exactly the eligible plans, the second nothing |
| `RowPlanPruneRuns.PreviewThenPrune` | `src/lancedb_robotics/curation_row_plans.py:2214-2222` | a dry run names the plans a real run with clean deletes prunes and retires, and changes nothing |
| `OrphanReclaim.OrphanAges` | `src/lancedb_robotics/curation_row_plans.py:2399-2412` | the fold keeps each unpublished plan's newest chunk time |
| `OrphanReclaim.Catalog.CompactRowPlanChunks` | `src/lancedb_robotics/curation_row_plans.py:2374-2437` | alone, it removes all rows of every aged-out orphan and no other row, reports the rest in flight, and leaves no aged-out orphan |
| `OrphanReclaim.StepStaysCoherent` | `src/lancedb_robotics/curation_row_plans.py:2395-2427` | every step of writers and compactors keeps the rows of every plan whose writer has not died |
| `OrphanReclaim.ReclaimingIsSafe` | `src/lancedb_robotics/curation_row_plans.py:2395-2427` | over every interleaving in which writers found aged out have published or died by the header re-read, no chunk of a plan ever published is deleted |
| `OrphanReclaim.FreshIsPrompt` | `src/lancedb_robotics/curation_row_plans.py:100-104` | writers whose newest committed chunk is always younger than the grace window are prompt |
| `OrphanReclaim.GraceWindowIsSafe` | `src/lancedb_robotics/curation_row_plans.py:2374-2427` | so under that assumption no chunk of a plan ever published is deleted |
| `OrphanReclaim.SlowWritersCanLose` | `src/lancedb_robotics/curation_row_plans.py:2417-2427` | promptness is needed: a writer still in flight at the re-read can lose its chunks to the delete before it publishes |
| `OrphanReclaim.AgedWriterCanLose` | `src/lancedb_robotics/curation_row_plans.py:2374-2427` | from any coherent state, a writer in flight whose committed rows have all aged out can have them deleted by a compaction that starts now, and then publish |
| `OrphanReclaim.FreshExactly` | `src/lancedb_robotics/curation_row_plans.py:2374-2427` | a compaction that starts now cannot lose a row of a plan published after it if and only if every writer in flight that has committed is younger than the grace window |
| `OrphanReclaim.GraceWindowIsExact` | `src/lancedb_robotics/curation_row_plans.py:2374-2427` | along any run: writers in flight are always that young if and only if at no point a compaction could lose a row |
| `OrphanReclaim.StalledWriterLoses` | `src/lancedb_robotics/curation_row_plans.py:2417-2427` | a run in which a stalled writer publishes a header whose chunks are gone |
| `Mp4Boxes.AcceptedBoxesNest` | `src/lancedb_robotics/_mp4.py:185-231` | on every byte string the walk ends, and what it accepts nests: children inside parents, siblings apart |
| `Mp4Boxes.KindsByName` | `src/lancedb_robotics/_mp4.py:66-74` | which boxes nest and which open a track, by the letters of their names |
| `Mp4Boxes.NoByteCountedTwice` | `src/lancedb_robotics/_mp4.py:185-238` | the byte ranges read are disjoint |
| `Mp4Boxes.Mp4State.ParseBoxes` | `src/lancedb_robotics/_mp4.py:185-231` | the recursive walk updates tracks and byte count as the box tree says, and fails exactly on a malformed box |
| `Mp4Boxes.Mp4State.ParseFile` | `src/lancedb_robotics/_mp4.py:87-102` | on success brands and tracks are those of the box tree and the bytes read are at most the file's size |
| `Mp4Boxes.CollectKeepsOtherTracks` | `src/lancedb_robotics/_mp4.py:221-229` | leaf boxes go to the track they lie in; other tracks keep theirs |
| `Mp4Tables.ParseEntries` | `src/lancedb_robotics/_mp4.py:344-356` | the entry loop reads as many entries as announced or as fit |
| `Mp4Tables.EntriesDecode` | `src/lancedb_robotics/_mp4.py:344-448` | decoding gives back what was encoded, ignoring what follows and dropping a cut-off entry |
| `Mp4Tables.CutTableKeepsWholeEntries` | `src/lancedb_robotics/_mp4.py:344-448` | a table cut off inside its entries keeps the complete ones |
| `Mp4Tables.UniformSizes` | `src/lancedb_robotics/_mp4.py:392-406` | one non-zero sample size stands for all samples |
| `Mp4Tables.ParseTrack` | `src/lancedb_robotics/_mp4.py:252-280` | the loop sets the tables that the leaf boxes of a track stand for, in order; Mp4Tables.TrackRoundTrip says which |
| `Mp4Tables.LeafNames` | `src/lancedb_robotics/_mp4.py:252-280` | each name in the standard stands for one table |
| `Mp4Tables.TimescaleRoundTrip` | `src/lancedb_robotics/_mp4.py:297-305` | the timescale is read from a media header of either version, past 32-bit or 64-bit times |
| `Mp4Tables.ChunksDecode` | `src/lancedb_robotics/_mp4.py:423-448` | chunk offsets survive both as 32-bit and as 64-bit entries |
| `Mp4Tables.TrackRoundTrip` | `src/lancedb_robotics/_mp4.py:252-448` | a track's tables survive being written as leaf boxes and parsed again: 32-bit or 64-bit chunk offsets, signed or unsigned composition offsets, either version of the media header |
| `Mp4Files.AcceptedExactly` | `src/lancedb_robotics/_mp4.py:185-231` | the walk accepts a stretch of bytes if and only if a sequence of boxes stands there, sized by 32 bits, by 64 bits or to the end of its parent, and then exactly one does |
| `Mp4Files.FileMeaning` | `src/lancedb_robotics/_mp4.py:185-231` | a file in which boxes stand is accepted, and what is found is what they hold: the last brand list, and per track its leaf boxes in order |
| `Mp4Files.MovieRoundTrip` | `src/lancedb_robotics/_mp4.py:87-448` | end to end: a brand list and one track in a movie box, its tables nested at any depth and written in any form, are found in the file's bytes and parsed back |
| `Mp4Samples.SamplesPerChunk` | `src/lancedb_robotics/_mp4.py:541-547` | the loop finds the run in force at a chunk |
| `Mp4Samples.RunRulesItsChunks` | `src/lancedb_robotics/_mp4.py:541-547` | with ascending runs a run rules the chunks from its first to the next run's first |
| `Mp4Samples.ChunkOfSampleIsUnique` | `src/lancedb_robotics/_mp4.py:479-497` | a sample lies in at most one chunk |
| `Mp4Samples.SampleByteRanges` | `src/lancedb_robotics/_mp4.py:479-497` | assigned samples form a prefix and each has the range its chunk's offset and the sizes before it in the chunk give |
| `Mp4Samples.RangesTileChunks` | `src/lancedb_robotics/_mp4.py:479-497` | the first sample of a chunk starts at the chunk's offset, every other where the one before ends, and each is as long as its size |
| `Mp4Samples.ChunkHolds` | `src/lancedb_robotics/_mp4.py:541-547` | a chunk holds as many samples as the last run to begin at or before its number says, counting from one, or the first run |
| `Mp4Samples.SampleTimings` | `src/lancedb_robotics/_mp4.py:500-538` | decode times are running sums of the expanded durations, presentation times add the expanded offsets |
| `Mp4Samples.TimingsRun` | `src/lancedb_robotics/_mp4.py:500-538` | decode starts at 0 and each next sample follows by the duration of the one before; presentation is decode plus the composition offset, 0 past the table's end |
| `Mp4Samples.ValuesOfRun` | `src/lancedb_robotics/_mp4.py:500-538` | the values of a run stand after those of the runs before it |
| `Mp4Samples.SyncFrames` | `src/lancedb_robotics/_mp4.py:550-553` | exactly the frames whose number, counting from one, is in the table, each once, ascending; every frame without a table |
| `Mp4Samples.BuildKeyframeMap` | `src/lancedb_robotics/_mp4.py:556-611` | one GOP per keyframe, reaching to the next, with its frames, times and byte span |
| `Mp4Samples.GopOfFrameIsUnique` | `src/lancedb_robotics/_mp4.py:556-611` | no frame lies in two GOPs |
| `Mp4Samples.LookUpFrame` | `src/lancedb_robotics/_mp4.py:145-171` | finds exactly the frames from the first keyframe on, in their GOP, and answers with their byte range |
| `Mp4Samples.InspectAndRead` | `src/lancedb_robotics/_mp4.py:145-171` | end to end: a frame is answered with bytes exactly when it is at or after the first keyframe and assigned, and the range is the one the tables give |

## Left out

- `sub_frame_bound_ns` of a view: nothing in the code enforces it, so nothing is claimed.
- The two bound resolvers of alignment: they differ by design; start and end are given.
- AlignmentViews.CreateStreamingView: assumes that row ids identify rows, as the merge of loaded rows does.
- AlignmentViews.HydrateAlignedRows: leaves out the lookup of source rows by observation id and the flag for one that is missing.
- SegmentAgreement.SlicePicksTheSameExactly: assumes that two rows of a stream never share a sort key, which ends in the observation id.
- SegmentLoading.SourceLoadedExactly: assumes that two rows never share a scan rank, which ends in the observation id.
- StreamStatistics.OnePassStatsAgree: assumes a scan in clock order with the clock of the stream's own rows set; where an engine puts NULLs in the unbounded scan is left open.
- Alignment job records, materialized frame and tick tables, lineage rows, index maintenance and JSON bodies.
- DedupProtocol.PreferredPayloadIsKept: assumes that a key fixes its tick, that a best copy's payload is unique and that all runs plan with the same current recipe; `DedupSurvival.NoKeyIsEverLost` assumes none of these.
- DedupPlanning.ScanKeyWindows: assumes that a key fixes its tick and leaves out the fresh, stale and re-materialize counts and the recipe digest histogram.
- DedupPlanning.CleanUp: assumes that a key fixes its tick and is for one alignment; the report over several, where the dry-run summary skips retained orphans that apply still dedups, is not modelled.
- TickMigration.MigrateJob: leaves out the skip on a stale recipe digest, verification of stored rows and its failure reports; rows are built by an uninterpreted function of the tick.
- `replace=True` migration: its delete up front can remove a peer's rows.
- Retries after commit conflicts: a step that is attempted again is another step.
- RowPlanChunks.RetriesConverge: is about retries with the same targets and width, one writer at a time.
- RowPlanListing.ListRowPlans: assumes unique plan ids, non-null columns and a catalog that does not change between pages.
- RowPlanPrune.Catalog.PruneRowPlans: the set of referenced plans does not change during the pass, and one delete covers at most one `IN` group; counts of deleted rows and cleared bytes are not tracked.
- RowPlanValidation.ValidateOnePlan: leaves out the row-id staleness issues of its report.
- RowPlanPrune.Catalog.ApplyState: one group of ids per commit; the count of cleared summary bytes is left out.
- OrphanReclaim.Catalog.CompactRowPlanChunks: leaves out deletes that fail or stop half-way and their report.
- OrphanReclaim.ReclaimingIsSafe: leaves out a plan id written again after its first writer died; insert-only merges keep the old chunk times then.
- Row-id staleness of targets, fragment signatures and header summaries.
- Mp4Tables.TrackRoundTrip: leaves out handler, dimensions, durations, codec tags and profiles, and the choice of the video track.
- Brand lists, frame rate, GOP size inference and reading bytes from object stores.
- Dataset writers, MCAP decoding, captions, embeddings, benchmarks and the command line.
