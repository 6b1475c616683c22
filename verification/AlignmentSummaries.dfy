/** The whole streaming view against the whole in-memory view: rows, per-stream
    statistics and the quality summary. */
module AlignmentSummaries {
  import opened Ordering
  import opened Alignment
  import opened SegmentAgreement
  import opened SegmentScan
  import opened SegmentLoading
  import opened StreamStatistics
  import opened AlignmentViews
  import opened AlignmentDifferences

  // --------------------------------------------------------- quality summary

  datatype StreamSummary = StreamSummary(
    observations: nat, alignedCount: nat, missingCount: nat, toleranceExceeded: nat, maxError: Option<int>,
    meanError: Option<real>, medianInterval: Option<int>, droppedFrames: nat, latencyDrift: int, driftDetected: bool)

  /** A running value of zero falls back to the kept error list. */
  function SummaryOf(st: StreamStats): StreamSummary {
    var errors: seq<int> := match st.sourceErrors { case None => [] case Some(es) => es };
    var count := if st.errorCount != 0 then st.errorCount else |errors|;
    var sum := if st.errorSum != 0 then st.errorSum else Sum(errors);
    var maxError: Option<int> :=
      match st.maxError { case Some(m) => Some(m) case None => if errors == [] then None else Some(MaxOf(errors)) };
    StreamSummary(st.observations, st.alignedCount, st.missingCount, st.toleranceExceeded, maxError,
                  if count == 0 then None else Some(sum as real / count as real),
                  st.medianInterval, st.droppedFrames, st.latencyDrift, st.driftDetected)
  }

  function StreamReasons(st: StreamStats): set<Reason> {
    (if st.observations == 0 then {StreamMissing} else {}) +
    (if st.toleranceExceeded != 0 then {ToleranceExceeded} else {}) +
    (if st.droppedFrames != 0 then {DroppedFrames} else {}) +
    (if st.driftDetected then {ClockDrift} else {})
  }

  function StreamFlags(stats: seq<StreamStats>): set<(nat, Reason)> {
    set k: nat, reason | k < |stats| && reason in StreamReasons(stats[k]) :: (k, reason)
  }

  /** The largest error of any stream. */
  function OverallMax(streams: seq<StreamSummary>): (most: Option<int>)
    ensures most.None? <==> forall s <- streams :: s.maxError.None?
    ensures most.Some? ==> exists s <- streams :: s.maxError == most
    ensures most.Some? ==> forall s <- streams :: s.maxError.Some? ==> s.maxError.value <= most.value
  {
    if streams == [] then None
    else
      var rest, last := OverallMax(streams[..|streams| - 1]), streams[|streams| - 1];
      assert streams == streams[..|streams| - 1] + [last];
      if last.maxError.Some? && (rest.None? || last.maxError.value > rest.value) then last.maxError else rest
  }

  datatype Quality = Quality(rows: nat, streams: seq<StreamSummary>, maxError: Option<int>, confidence: real,
                             leastConfidence: real, flags: set<(nat, Reason)>)

  /** The summary of a view whose rows are at hand. */
  function QualityOf(rows: seq<AlignedRow>, stats: seq<StreamStats>): Quality {
    Quality(|rows|, Map(stats, SummaryOf), OverallMax(Map(stats, SummaryOf)),
            if rows == [] then 0.0 else ConfidenceSum(rows) / |rows| as real,
            match LeastConfidence(rows) { case None => 0.0 case Some(c) => c },
            AllFlags(rows) + StreamFlags(stats))
  }

  /** The summary from running metrics, without the rows. */
  method QualityFromMetrics(metrics: StreamingMetrics, stats: seq<StreamStats>, ghost rows: seq<AlignedRow>)
    returns (quality: Quality)
    requires metrics.Summarizes(rows)
    ensures quality == QualityOf(rows, stats)
  {
    var confidence := if metrics.rowCount == 0 then 0.0 else metrics.confidenceSum / metrics.rowCount as real;
    var least := if metrics.leastConfidence.Some? then metrics.leastConfidence.value else 0.0;
    var streams := Map(stats, SummaryOf);
    quality := Quality(metrics.rowCount, streams, OverallMax(streams), confidence, least,
                       metrics.flags + StreamFlags(stats));
  }

  // ------------------------------------------------------ what the summary means

  /** One stream's summary against its column's errors: their number, largest and mean. */
  ghost predicate RightSummary(summary: StreamSummary, st: StreamStats, errors: seq<int>) {
    && summary.observations == st.observations && summary.alignedCount == |errors|
    && summary.missingCount == st.missingCount && summary.toleranceExceeded == st.toleranceExceeded
    && summary.medianInterval == st.medianInterval && summary.droppedFrames == st.droppedFrames
    && summary.latencyDrift == st.latencyDrift && summary.driftDetected == st.driftDetected
    && if errors == [] then summary.maxError.None? && summary.meanError.None?
       else
         && summary.maxError.Some? && summary.maxError.value in errors
         && (forall e <- errors :: e <= summary.maxError.value)
         && summary.meanError.Some? && summary.meanError.value * |errors| as real == Sum(errors) as real
  }

  lemma MeanTimesCount(sum: real, count: nat)
    requires count > 0
    ensures (sum / count as real) * count as real == sum
  {
  }

  lemma SummaryIsRight(initial: StreamStats, end: StreamStats, ticks: nat, exceeded: nat, errors: seq<int>)
    requires AccountsFor(initial, end, ticks, exceeded, errors)
    ensures RightSummary(SummaryOf(end), end, errors)
  {
    if errors == [] {
      assert end.sourceErrors.Some? ==> end.sourceErrors.value == [] by {
        assert end.sourceErrors.Some? ==> end.sourceErrors.value == errors;
      }
    } else {
      MeanTimesCount(Sum(errors) as real, |errors|);
      if end.sourceErrors.Some? {
        assert end.sourceErrors.value == errors;
      }
    }
  }

  ghost predicate InSomeColumn(e: int, rows: seq<AlignedRow>, streams: nat)
    requires forall row <- rows :: |row.cells| == streams
  {
    exists k: nat :: k < streams && e in ColumnErrors(rows, k)
  }

  /** Why a stream as a whole is flagged. */
  predicate Flagged(st: StreamStats, reason: Reason) {
    match reason
    case StreamMissing => st.observations == 0
    case ToleranceExceeded => st.toleranceExceeded > 0
    case DroppedFrames => st.droppedFrames > 0
    case ClockDrift => st.driftDetected
    case _ => false
  }

  /** The quality summary against the rows and the statistics. */
  ghost predicate RightQuality(quality: Quality, rows: seq<AlignedRow>, stats: seq<StreamStats>)
    requires forall row <- rows :: |row.cells| == |stats|
  {
    && quality.rows == |rows| && |quality.streams| == |stats|
    && (forall k :: 0 <= k < |stats| ==> RightSummary(quality.streams[k], stats[k], ColumnErrors(rows, k)))
    && RightOverallMax(quality.maxError, rows, |stats|)
    && RightConfidences(quality.confidence, quality.leastConfidence, rows)
    && RightQualityFlags(quality.flags, rows, stats)
  }

  ghost predicate RightOverallMax(most: Option<int>, rows: seq<AlignedRow>, streams: nat)
    requires forall row <- rows :: |row.cells| == streams
  {
    && (most.Some? ==> InSomeColumn(most.value, rows, streams))
    && forall e | InSomeColumn(e, rows, streams) :: most.Some? && e <= most.value
  }

  ghost predicate RightConfidences(mean: real, least: real, rows: seq<AlignedRow>) {
    if rows == [] then mean == least == 0.0
    else
      && mean * |rows| as real == ConfidenceSum(rows)
      && (exists row <- rows :: row.confidence == least) && forall row <- rows :: least <= row.confidence
  }

  ghost predicate RightQualityFlags(flags: set<(nat, Reason)>, rows: seq<AlignedRow>, stats: seq<StreamStats>) {
    forall k: nat, reason: Reason :: (k, reason) in flags <==>
      (exists row <- rows :: (k, reason) in row.flags) || (k < |stats| && Flagged(stats[k], reason))
  }

  lemma {:induction false} LeastIsRight(rows: seq<AlignedRow>)
    requires rows != []
    ensures LeastConfidence(rows).Some?
    ensures exists row <- rows :: row.confidence == LeastConfidence(rows).value
    ensures forall row <- rows :: LeastConfidence(rows).value <= row.confidence
  {
    var before, last := rows[..|rows| - 1], rows[|rows| - 1];
    assert rows == before + [last];
    if before != [] {
      LeastIsRight(before);
    }
  }

  lemma {:induction false} FlagsOfRows(rows: seq<AlignedRow>, flag: (nat, Reason))
    ensures flag in AllFlags(rows) <==> exists row <- rows :: flag in row.flags
  {
    if rows != [] {
      var before, last := rows[..|rows| - 1], rows[|rows| - 1];
      FlagsOfRows(before, flag);
      assert rows == before + [last];
    }
  }

  lemma FlaggedExactly(stats: seq<StreamStats>, k: nat, reason: Reason)
    ensures (k, reason) in StreamFlags(stats) <==> k < |stats| && Flagged(stats[k], reason)
  {
  }

  lemma FlagsOfQuality(rows: seq<AlignedRow>, stats: seq<StreamStats>)
    ensures RightQualityFlags(AllFlags(rows) + StreamFlags(stats), rows, stats)
  {
    forall k: nat, reason: Reason
      ensures (k, reason) in AllFlags(rows) + StreamFlags(stats) <==>
                (exists row <- rows :: (k, reason) in row.flags) || (k < |stats| && Flagged(stats[k], reason))
    {
      FlaggedExactly(stats, k, reason);
      FlagsOfRows(rows, (k, reason));
    }
  }

  lemma OverallMaxIsRight(streams: seq<StreamSummary>, stats: seq<StreamStats>, rows: seq<AlignedRow>)
    requires |streams| == |stats| && forall row <- rows :: |row.cells| == |stats|
    requires forall k :: 0 <= k < |stats| ==> RightSummary(streams[k], stats[k], ColumnErrors(rows, k))
    ensures RightOverallMax(OverallMax(streams), rows, |stats|)
  {
    var most := OverallMax(streams);
    if most.Some? {
      var k: nat :| k < |streams| && streams[k].maxError == most;
      assert most.value in ColumnErrors(rows, k);
    }
    forall e | InSomeColumn(e, rows, |stats|) ensures most.Some? && e <= most.value {
      var k: nat :| k < |stats| && e in ColumnErrors(rows, k);
      assert streams[k] in streams && e <= streams[k].maxError.value;
    }
  }

  lemma ConfidencesAreRight(rows: seq<AlignedRow>, mean: real)
    requires if rows == [] then mean == 0.0 else mean * |rows| as real == ConfidenceSum(rows)
    ensures RightConfidences(mean, match LeastConfidence(rows) { case None => 0.0 case Some(c) => c }, rows)
  {
    if rows != [] {
      LeastIsRight(rows);
    }
  }

  /** The summary of a view says what its rows and statistics say. */
  lemma QualityIsRight(rows: seq<AlignedRow>, stats: seq<StreamStats>, initial: seq<StreamStats>)
    requires StatsOfRows(stats, initial, rows) && forall st <- initial :: Fresh(st)
    ensures RightQuality(QualityOf(rows, stats), rows, stats)
  {
    forall k | 0 <= k < |stats| ensures RightSummary(SummaryOf(stats[k]), stats[k], ColumnErrors(rows, k)) {
      StatsAccountForEveryTick(initial[k], rows, k);
      SummaryIsRight(initial[k], stats[k], |rows|, ColumnExceeded(rows, k), ColumnErrors(rows, k));
    }
    OverallMaxIsRight(Map(stats, SummaryOf), stats, rows);
    if rows != [] {
      MeanTimesCount(ConfidenceSum(rows), |rows|);
    }
    ConfidencesAreRight(rows, if rows == [] then 0.0 else ConfidenceSum(rows) / |rows| as real);
    FlagsOfQuality(rows, stats);
  }

  // -------------------------------------------------- statistics of the two paths

  function WithoutErrorList(st: StreamStats): StreamStats { st.(sourceErrors := None) }

  lemma {:induction false} FoldWithoutErrorList(st: StreamStats, rows: seq<AlignedRow>, stream: nat)
    requires forall row <- rows :: stream < |row.cells|
    ensures FoldStream(WithoutErrorList(st), rows, stream) == WithoutErrorList(FoldStream(st, rows, stream))
  {
    if rows != [] {
      FoldWithoutErrorList(st, rows[..|rows| - 1], stream);
    }
  }

  /** The statistics of both paths agree on everything but the kept error list. */
  lemma StatisticsAgree(streaming: seq<StreamStats>, batch: seq<StreamStats>, initial: seq<StreamStats>,
                        rows: seq<AlignedRow>, full: seq<AlignedRow>, same: bool)
    requires SameView(rows, full, same)
    requires StatsOfRows(batch, initial, full)
    requires StatsOfRows(streaming, Map(initial, WithoutErrorList), rows)
    ensures streaming == Map(batch, WithoutErrorList)
  {
    assert Map(rows, ViewOfRow) == Map(full, ViewOfRow);
    forall k | 0 <= k < |initial| ensures streaming[k] == WithoutErrorList(batch[k]) {
      FoldAgrees(WithoutErrorList(initial[k]), rows, full, k);
      FoldWithoutErrorList(initial[k], full, k);
    }
  }

  /** Without its error list a stream reports the same maximum and mean error. */
  lemma SummaryWithoutErrorList(initial: StreamStats, end: StreamStats, ticks: nat, exceeded: nat, errors: seq<int>)
    requires AccountsFor(initial, end, ticks, exceeded, errors) && initial.sourceErrors.Some?
    ensures SummaryOf(WithoutErrorList(end)) == SummaryOf(end)
  {
    assert end.sourceErrors.value == errors;
    if errors == [] {
      assert Sum([]) == 0;
    }
  }

  lemma {:induction false} RowMeasuresAgree(rows: seq<AlignedRow>, full: seq<AlignedRow>)
    requires Map(rows, ViewOfRow) == Map(full, ViewOfRow)
    ensures ConfidenceSum(rows) == ConfidenceSum(full) && LeastConfidence(rows) == LeastConfidence(full)
  {
    assert |Map(rows, ViewOfRow)| == |Map(full, ViewOfRow)|;
    if rows != [] {
      var n := |rows| - 1;
      assert ViewOfRow(rows[n]) == Map(rows, ViewOfRow)[n] == Map(full, ViewOfRow)[n] == ViewOfRow(full[n]);
      assert Map(rows[..n], ViewOfRow) == Map(rows, ViewOfRow)[..n] == Map(full, ViewOfRow)[..n]
             == Map(full[..n], ViewOfRow);
      RowMeasuresAgree(rows[..n], full[..n]);
    }
  }

  /** The two quality summaries: row count, per-stream counts, means and maxima,
      overall maximum, overall and least confidence; the flags too where the rows are the same. */
  lemma QualitiesAgree(streaming: seq<StreamStats>, batch: seq<StreamStats>, initial: seq<StreamStats>,
                       rows: seq<AlignedRow>, full: seq<AlignedRow>, same: bool)
    requires SameView(rows, full, same)
    requires StatsOfRows(batch, initial, full)
    requires StatsOfRows(streaming, Map(initial, WithoutErrorList), rows)
    requires forall st <- initial :: Fresh(st) && st.sourceErrors.Some?
    ensures QualityOf(rows, streaming).(flags := {}) == QualityOf(full, batch).(flags := {})
    ensures same ==> QualityOf(rows, streaming) == QualityOf(full, batch)
  {
    StatisticsAgree(streaming, batch, initial, rows, full, same);
    forall k | 0 <= k < |batch| ensures SummaryOf(streaming[k]) == SummaryOf(batch[k]) {
      StatsAccountForEveryTick(initial[k], full, k);
      SummaryWithoutErrorList(initial[k], batch[k], |full|, ColumnExceeded(full, k), ColumnErrors(full, k));
    }
    assert Map(streaming, SummaryOf) == Map(batch, SummaryOf);
    assert Map(rows, ViewOfRow) == Map(full, ViewOfRow);
    RowMeasuresAgree(rows, full);
    assert StreamFlags(streaming) == StreamFlags(batch) by {
      forall k | 0 <= k < |batch| ensures StreamReasons(streaming[k]) == StreamReasons(batch[k]) {
      }
    }
  }

  // ------------------------------------------------------------ the whole path

  datatype StoredView = StoredView(rows: seq<AlignedRow>, preview: seq<AlignedRow>, stats: seq<StreamStats>,
                                   quality: Quality)

  /** Every row of a selected stream has its clock column set. */
  ghost predicate SelectedClocked(table: seq<Observation>, r: Recipe) {
    forall s <- r.streams :: StreamClocked(table, r.clock, s)
  }

  lemma InitialStatsAgree(table: seq<Observation>, scan: seq<Observation>, r: Recipe)
    requires OrderedScan(scan, table, r.clock) && SelectedClocked(table, r)
    ensures Map(RunningAll(scan, r), (run: Running) => FinalizedRun(run, r))
            == Map(BatchStatsAll(table, r), WithoutErrorList)
  {
    var a := Map(RunningAll(scan, r), (run: Running) => FinalizedRun(run, r));
    var b := Map(BatchStatsAll(table, r), WithoutErrorList);
    forall k | 0 <= k < |r.streams| ensures a[k] == b[k] {
      assert r.streams[k] in r.streams;
      OnePassStatsAgree(table, scan, r.streams[k], r);
    }
  }

  lemma SameStreamsLoadAlike(table: seq<Observation>, r: Recipe, lo: int, hi: int, t: int)
    requires RowsByStream(Clocked(table, r.clock), r) == RowsByStream(table, r)
    ensures RowLoaded(Clocked(table, r.clock), r, lo, hi, t) <==> RowLoaded(table, r, lo, hi, t)
  {
    forall o: Observation ensures LoadedFor(o, Clocked(table, r.clock), r, lo, hi) <==> LoadedFor(o, table, r, lo, hi) {
      LoadingIgnoresUnclocked(o, table, r, lo, hi);
    }
    forall k: nat | k < |r.streams|
      ensures CellLoaded(Clocked(table, r.clock), r, k, lo, hi, t) <==> CellLoaded(table, r, k, lo, hi, t)
    {
    }
  }

  lemma SegmentsLoadAlike(table: seq<Observation>, r: Recipe, segment: seq<int>)
    requires RowsByStream(Clocked(table, r.clock), r) == RowsByStream(table, r)
    ensures LoadedSegment(Clocked(table, r.clock), r, segment) <==> LoadedSegment(table, r, segment)
  {
    if segment != [] {
      var lo, hi := segment[0], segment[|segment| - 1];
      forall t | t in segment
        ensures LoadsTick(Clocked(table, r.clock), r, lo, hi)(t) <==> LoadsTick(table, r, lo, hi)(t)
      {
        SameStreamsLoadAlike(table, r, lo, hi, t);
      }
    }
  }

  lemma {:induction false} EverySegmentAlike(a: seq<int> -> bool, b: seq<int> -> bool, ticks: seq<int>, batch: nat)
    requires batch >= 1 && forall segment: seq<int> :: a(segment) <==> b(segment)
    ensures EverySegment(a, ticks, batch) <==> EverySegment(b, ticks, batch)
    decreases |ticks|
  {
    if ticks != [] {
      EverySegmentAlike(a, b, ticks[|FirstOf(ticks, batch)|..], batch);
    }
  }

  lemma ViewsLoadAlike(table: seq<Observation>, r: Recipe, ticks: seq<int>, batch: nat)
    requires batch >= 1 && RowsByStream(Clocked(table, r.clock), r) == RowsByStream(table, r)
    ensures LoadedView(Clocked(table, r.clock), r, ticks, batch) <==> LoadedView(table, r, ticks, batch)
  {
    var a, b := LoadsSegment(Clocked(table, r.clock), r), LoadsSegment(table, r);
    forall segment: seq<int> ensures a(segment) <==> b(segment) {
      SegmentsLoadAlike(table, r, segment);
    }
    EverySegmentAlike(a, b, ticks, batch);
  }

  lemma SameStreamsSameRows(a: seq<Observation>, b: seq<Observation>, r: Recipe, ticks: seq<int>)
    requires RowsByStream(a, r) == RowsByStream(b, r)
    ensures ViewRows(a, r, 0, ticks) == ViewRows(b, r, 0, ticks)
  {
    forall j | 0 <= j < |ticks| ensures ViewRowAt(a, r)(j, ticks[j]) == ViewRowAt(b, r)(j, ticks[j]) {
    }
  }

  /** A view depends on a table only through the rows of its streams. */
  lemma SameStreamsSameView(rows: seq<AlignedRow>, a: seq<Observation>, b: seq<Observation>, r: Recipe,
                            ticks: seq<int>, same: bool)
    requires RowsByStream(a, r) == RowsByStream(b, r) && Reproduces(rows, a, r, 0, ticks, When(a, r, same))
    ensures Reproduces(rows, b, r, 0, ticks, When(b, r, same))
  {
    SameStreamsSameRows(a, b, r, ticks);
    forall row | row in rows ensures RowKeepsPromises(b, r, row) {
      assert RowKeepsPromises(a, r, row);
    }
  }

  /** The streaming path end to end.  Its error case is a selected row without any
      timestamp.  Otherwise the stored rows are the in-memory view of the rows whose
      clock column is set, and show that of the whole table exactly when such a row stands
      wherever one is picked; when every selected row is clocked, the in-memory path's
      statistics and quality summary are reproduced as well. */
  method CreateStoredView(table: seq<Observation>, scan: seq<Observation>, r: Recipe, start: int, end: int, batch: nat)
    returns (view: Option<StoredView>)
    requires r.Valid() && batch >= 1 && UniqueRowIds(table)
    requires OrderedScan(scan, table, r.clock)
    ensures view.None? <==> exists o <- table :: Untimed(o, r)
    ensures view.Some? ==>
              && Reproduces(view.value.rows, Clocked(table, r.clock), r, 0, Ticks(start, end, r.step),
                            When(Clocked(table, r.clock), r,
                                 LoadedView(Clocked(table, r.clock), r, Ticks(start, end, r.step), batch)))
              && view.value.preview == view.value.rows[..Min(batch, |view.value.rows|)]
              && view.value.quality == QualityOf(view.value.rows, view.value.stats)
    ensures view.Some? ==>
              (SameView(view.value.rows, ViewRows(table, r, 0, Ticks(start, end, r.step)), false)
               <==> forall t <- Ticks(start, end, r.step) :: PicksClocked(table, r, t))
    ensures view.Some? && SelectedClocked(table, r) ==>
              && Reproduces(view.value.rows, table, r, 0, Ticks(start, end, r.step),
                            When(table, r, LoadedView(table, r, Ticks(start, end, r.step), batch)))
              && StatsOfRows(view.value.stats, Map(BatchStatsAll(table, r), WithoutErrorList), view.value.rows)
  {
    var initial := StreamingStreamStats(scan, r);
    PermutationMembers(scan, table);
    if initial.None? {
      return None;
    }
    var rows, preview, stats, metrics := CreateStreamingView(table, r, start, end, batch, initial.value);
    var quality := QualityFromMetrics(metrics, stats, rows);
    view := Some(StoredView(rows, preview, stats, quality));
    ghost var ticks := Ticks(start, end, r.step);
    ghost var loaded := LoadedView(Clocked(table, r.clock), r, ticks, batch);
    StoredViewAgreesExactly(rows, table, r, ticks, When(Clocked(table, r.clock), r, loaded));
    if SelectedClocked(table, r) {
      OtherRowsDoNotMatter(table, r);
      ViewsLoadAlike(table, r, ticks, batch);
      SameStreamsSameView(rows, Clocked(table, r.clock), table, r, ticks, loaded);
      InitialStatsAgree(table, scan, r);
    }
  }

  /** A stored view and an in-memory view of one table, given what their methods
      ensure: same statistics but for the error list, same quality summary, with the same
      flags where segments loaded what they picked, or times are distinct. */
  lemma StoredViewMatchesInMemory(view: StoredView, table: seq<Observation>, r: Recipe, ticks: seq<int>, same: bool,
                                  stats: seq<StreamStats>)
    requires Reproduces(view.rows, table, r, 0, ticks, When(table, r, same))
    requires StatsOfRows(view.stats, Map(BatchStatsAll(table, r), WithoutErrorList), view.rows)
    requires view.quality == QualityOf(view.rows, view.stats)
    requires StatsOfRows(stats, BatchStatsAll(table, r), ViewRows(table, r, 0, ticks))
    ensures view.stats == Map(stats, WithoutErrorList)
    ensures var inMemory := QualityOf(ViewRows(table, r, 0, ticks), stats);
            && view.quality.(flags := {}) == inMemory.(flags := {})
            && (same || DistinctStreamTimes(table, r) ==> view.quality == inMemory)
  {
    ReproducedView(view.rows, table, r, ticks, same);
    SummariesMatch(view, ViewRows(table, r, 0, ticks), BatchStatsAll(table, r), stats,
                   same || DistinctStreamTimes(table, r));
  }

  lemma ReproducedView(rows: seq<AlignedRow>, table: seq<Observation>, r: Recipe, ticks: seq<int>, same: bool)
    requires Reproduces(rows, table, r, 0, ticks, When(table, r, same))
    ensures SameView(rows, ViewRows(table, r, 0, ticks), same || DistinctStreamTimes(table, r))
    ensures forall st <- BatchStatsAll(table, r) :: Fresh(st) && st.sourceErrors.Some?
  {
  }

  lemma SummariesMatch(view: StoredView, full: seq<AlignedRow>, initial: seq<StreamStats>, stats: seq<StreamStats>,
                       equal: bool)
    requires SameView(view.rows, full, equal) && view.quality == QualityOf(view.rows, view.stats)
    requires StatsOfRows(view.stats, Map(initial, WithoutErrorList), view.rows) && StatsOfRows(stats, initial, full)
    requires forall st <- initial :: Fresh(st) && st.sourceErrors.Some?
    ensures view.stats == Map(stats, WithoutErrorList)
    ensures view.quality.(flags := {}) == QualityOf(full, stats).(flags := {})
    ensures equal ==> view.quality == QualityOf(full, stats)
  {
    StatisticsAgree(view.stats, stats, initial, view.rows, full, equal);
    QualitiesAgree(view.stats, stats, initial, view.rows, full, equal);
  }
}
