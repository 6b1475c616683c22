/** The two ways an aligned view is built, and that they build the same view. */
module AlignmentViews {
  import opened Ordering
  import opened Alignment
  import opened SegmentAgreement
  import opened CellPromises
  import opened SegmentScan
  import opened SegmentLoading
  import opened StreamStatistics

  // ------------------------------------------------------------- hydration

  lemma HydratedSources(cell: Cell, t: int)
    ensures Sources(HydrateCell(cell, t)) == Sources(cell)
  {
  }

  function Hydrating(t: int): Cell -> Cell { (cell: Cell) => HydrateCell(cell, t) }

  function HydrateRow(row: AlignedRow): (hydrated: AlignedRow)
    ensures ViewOfRow(hydrated) == ViewOfRow(row)
  {
    var cells := Map(row.cells, Hydrating(row.timestamp));
    assert Map(cells, ViewOf) == Map(row.cells, ViewOf);
    row.(cells := cells, flags := RowFlags(cells))
  }

  /** A cell with one source, or with neighbours on both sides of the tick, whose value is yet to be read. */
  predicate Unread(cell: Cell, t: int) {
    && cell.Aligned? && 1 <= |cell.sources| <= 2 && !cell.valueMissing
    && (|cell.sources| == 2 ==> cell.sources[0].time < t < cell.sources[1].time)
  }

  predicate CellRead(cell: Cell, was: Cell, t: int) {
    && ViewOf(cell) == ViewOf(was) && Sources(cell) == Sources(was)
    && (Unread(was, t) ==> RightValue(cell.sources, cell.value, cell.valueMissing, t))
  }

  /** A row with its values read: the flags follow, and nothing else of it changes. */
  ghost predicate RowRead(row: AlignedRow, was: AlignedRow) {
    && row.index == was.index && row.timestamp == was.timestamp && row.confidence == was.confidence
    && RightFlags(row.cells, row.flags) && |row.cells| == |was.cells|
    && forall k :: 0 <= k < |row.cells| ==> CellRead(row.cells[k], was.cells[k], row.timestamp)
  }

  lemma CellIsRead(cell: Cell, t: int)
    ensures CellRead(HydrateCell(cell, t), cell, t)
  {
    HydratedSources(cell, t);
    if Unread(cell, t) {
      HydratedValue(cell, t);
    }
  }

  lemma RowIsRead(row: AlignedRow)
    ensures RowRead(HydrateRow(row), row)
  {
    var cells := HydrateRow(row).cells;
    FlagsAreRight(cells);
    forall k | 0 <= k < |cells| ensures CellRead(cells[k], row.cells[k], row.timestamp) {
      CellIsRead(row.cells[k], row.timestamp);
    }
  }

  /** Fills in values and flags, row by row in place. */
  method HydrateAlignedRows(rows: array<AlignedRow>)
    modifies rows
    ensures rows[..] == Map(old(rows[..]), HydrateRow)
    ensures forall k :: 0 <= k < rows.Length ==> RowRead(rows[k], old(rows[k]))
  {
    for i := 0 to rows.Length
      invariant forall k :: 0 <= k < i ==> rows[k] == HydrateRow(old(rows[k])) && RowRead(rows[k], old(rows[k]))
      invariant forall k :: i <= k < rows.Length ==> rows[k] == old(rows[k])
    {
      RowIsRead(rows[i]);
      rows[i] := HydrateRow(rows[i]);
    }
  }

  // -------------------------------------------------------- in-memory path

  function StreamRows(table: seq<Observation>, clock: Clock): StreamSpec -> seq<TimedRow> {
    (s: StreamSpec) => TimedRows(table, clock, s)
  }

  function RowsByStream(table: seq<Observation>, r: Recipe): (rows: seq<seq<TimedRow>>)
    ensures |rows| == |r.streams|
  {
    Map(r.streams, StreamRows(table, r.clock))
  }

  /** The row of one tick of an aligned view. */
  function ViewRow(table: seq<Observation>, r: Recipe, index: nat, t: int): AlignedRow {
    HydrateRow(TickRow(RowsByStream(table, r), r, index, t))
  }

  ghost predicate CellsKeepPromises(fulls: seq<seq<TimedRow>>, r: Recipe, cells: seq<Cell>, t: int)
    requires |fulls| == |r.streams|
  {
    && |cells| == |r.streams|
    && forall k :: 0 <= k < |r.streams| ==> KeepsPromises(fulls[k], r.streams[k].interpolation, cells[k], t, r)
  }

  /** Each cell of a row keeps its promises towards its stream in the table, and flags and
      confidence are those of the cells. */
  ghost predicate RowKeepsPromises(table: seq<Observation>, r: Recipe, row: AlignedRow) {
    && RightFlags(row.cells, row.flags) && RightRowConfidence(row.cells, row.confidence)
    && CellsKeepPromises(RowsByStream(table, r), r, row.cells, row.timestamp)
  }

  lemma HydratedRow(row: AlignedRow)
    requires row.confidence == MinConfidence(row.cells)
    ensures var h := HydrateRow(row); RightFlags(h.cells, h.flags) && RightRowConfidence(h.cells, h.confidence)
    ensures HydrateRow(row).cells == Map(row.cells, Hydrating(row.timestamp))
  {
    var cells := HydrateRow(row).cells;
    assert Map(cells, ViewOf) == Map(row.cells, ViewOf);
    MinConfidenceAgrees(row.cells, cells);
    FlagsAreRight(cells);
    RowConfidenceIsRight(cells);
  }

  /** Each cell of an aligned row, read from its sources, with the row's flags and confidence. */
  lemma TickRowHydrated(rowsByStream: seq<seq<TimedRow>>, r: Recipe, index: nat, t: int)
    requires |rowsByStream| == |r.streams|
    ensures var h := HydrateRow(TickRow(rowsByStream, r, index, t));
            && |h.cells| == |r.streams| && h.index == index && h.timestamp == t
            && RightFlags(h.cells, h.flags) && RightRowConfidence(h.cells, h.confidence)
            && forall k :: 0 <= k < |r.streams| ==>
                 h.cells[k] == HydrateCell(AlignCell(rowsByStream[k], r.streams[k].interpolation, t, r), t)
  {
    HydratedRow(TickRow(rowsByStream, r, index, t));
  }

  lemma AlignedCellsKeepPromises(fulls: seq<seq<TimedRow>>, r: Recipe, cells: seq<Cell>, t: int)
    requires |fulls| == |r.streams| == |cells| && forall rows <- fulls :: SortedBy(rows, TimedLe)
    requires forall k :: 0 <= k < |r.streams| ==>
               cells[k] == HydrateCell(AlignCell(fulls[k], r.streams[k].interpolation, t, r), t)
    ensures CellsKeepPromises(fulls, r, cells, t)
  {
    forall k | 0 <= k < |r.streams| ensures KeepsPromises(fulls[k], r.streams[k].interpolation, cells[k], t, r) {
      assert fulls[k] in fulls;
      CellKeepsPromises(fulls[k], r.streams[k].interpolation, t, r);
    }
  }

  lemma ViewRowKeepsPromises(table: seq<Observation>, r: Recipe, index: nat, t: int)
    ensures RowKeepsPromises(table, r, ViewRow(table, r, index, t))
    ensures ViewRow(table, r, index, t).index == index && ViewRow(table, r, index, t).timestamp == t
  {
    RowsByStreamSorted(table, r);
    TickRowHydrated(RowsByStream(table, r), r, index, t);
    AlignedCellsKeepPromises(RowsByStream(table, r), r, ViewRow(table, r, index, t).cells, t);
  }

  /** Every source of a cell is the right one of the rows at its time. */
  ghost predicate RowPicksByKey(table: seq<Observation>, r: Recipe, row: AlignedRow) {
    |row.cells| == |r.streams| &&
    forall k :: 0 <= k < |r.streams| ==>
      forall x <- Sources(row.cells[k]) ::
        RightRow(RowsByStream(table, r)[k], r.streams[k].interpolation, x, row.timestamp)
  }

  lemma ViewRowPicksByKey(table: seq<Observation>, r: Recipe, index: nat, t: int)
    ensures RowPicksByKey(table, r, ViewRow(table, r, index, t))
  {
    var fulls := RowsByStream(table, r);
    RowsByStreamSorted(table, r);
    TickRowHydrated(fulls, r, index, t);
    forall k | 0 <= k < |r.streams|
      ensures forall x <- Sources(ViewRow(table, r, index, t).cells[k]) ::
                RightRow(fulls[k], r.streams[k].interpolation, x, t)
    {
      assert fulls[k] in fulls;
      HydratedSources(AlignCell(fulls[k], r.streams[k].interpolation, t, r), t);
      SourcesByKey(fulls[k], r.streams[k].interpolation, t, r);
    }
  }

  function Enumerated<T>(row: (nat, int) -> T, first: nat, ticks: seq<int>): seq<T> {
    seq(|ticks|, j requires 0 <= j < |ticks| => row(first + j, ticks[j]))
  }

  lemma EnumeratedNext<T>(row: (nat, int) -> T, first: nat, ticks: seq<int>, j: nat)
    requires j < |ticks|
    ensures Enumerated(row, first, ticks[..j + 1]) == Enumerated(row, first, ticks[..j]) + [row(first + j, ticks[j])]
  {
  }

  lemma EnumeratedAppend<T>(row: (nat, int) -> T, first: nat, a: seq<int>, b: seq<int>)
    ensures Enumerated(row, first, a + b) == Enumerated(row, first, a) + Enumerated(row, first + |a|, b)
  {
  }

  function ViewRowAt(table: seq<Observation>, r: Recipe): (nat, int) -> AlignedRow {
    (index: nat, t: int) => ViewRow(table, r, index, t)
  }

  /** Consecutive rows of the aligned view: each tick against every observation. */
  function ViewRows(table: seq<Observation>, r: Recipe, first: nat, ticks: seq<int>): seq<AlignedRow> {
    Enumerated(ViewRowAt(table, r), first, ticks)
  }

  function ViewStats(table: seq<Observation>, r: Recipe, rows: seq<AlignedRow>, k: nat): StreamStats
    requires k < |r.streams| && forall row <- rows :: |row.cells| == |r.streams|
  {
    FoldStream(BatchStatsAll(table, r)[k], rows, k)
  }

  /** Every stream's statistics start with those of its rows and account for all ticks. */
  ghost predicate StatsAccount(table: seq<Observation>, r: Recipe, rows: seq<AlignedRow>)
    requires forall row <- rows :: |row.cells| == |r.streams|
  {
    forall k :: 0 <= k < |r.streams| ==>
      && RightStart(TimedRows(table, r.clock, r.streams[k]), BatchStatsAll(table, r)[k], r)
      && AccountsFor(BatchStatsAll(table, r)[k], ViewStats(table, r, rows, k), |rows|, ColumnExceeded(rows, k),
                     ColumnErrors(rows, k))
  }

  /** What a view promises: a row per tick, every cell its status, sources, numbers and value, of
      tied rows the right one, and every stream an account of all ticks. */
  lemma ViewPromises(table: seq<Observation>, r: Recipe, first: nat, ticks: seq<int>)
    ensures var rows := ViewRows(table, r, first, ticks);
            && |rows| == |ticks|
            && (forall j :: 0 <= j < |rows| ==> rows[j].index == first + j && rows[j].timestamp == ticks[j])
            && (forall row <- rows :: RowKeepsPromises(table, r, row) && RowPicksByKey(table, r, row))
            && StatsAccount(table, r, rows)
  {
    var rows := ViewRows(table, r, first, ticks);
    forall j | 0 <= j < |rows|
      ensures rows[j].index == first + j && rows[j].timestamp == ticks[j]
      ensures RowKeepsPromises(table, r, rows[j]) && RowPicksByKey(table, r, rows[j])
    {
      ViewRowKeepsPromises(table, r, first + j, ticks[j]);
      ViewRowPicksByKey(table, r, first + j, ticks[j]);
    }
    ViewAccounts(table, r, rows);
  }

  lemma ViewAccounts(table: seq<Observation>, r: Recipe, rows: seq<AlignedRow>)
    requires forall row <- rows :: |row.cells| == |r.streams|
    ensures StatsAccount(table, r, rows)
  {
    forall k | 0 <= k < |r.streams|
      ensures RightStart(TimedRows(table, r.clock, r.streams[k]), BatchStatsAll(table, r)[k], r)
      ensures AccountsFor(BatchStatsAll(table, r)[k], ViewStats(table, r, rows, k), |rows|, ColumnExceeded(rows, k),
                          ColumnErrors(rows, k))
    {
      StartIsRight(TimedRows(table, r.clock, r.streams[k]), r);
      StatsAccountForEveryTick(BatchStatsAll(table, r)[k], rows, k);
    }
  }

  function BatchStatsAll(table: seq<Observation>, r: Recipe): seq<StreamStats> {
    Map(r.streams, s => BatchStats(TimedRows(table, r.clock, s), r))
  }

  lemma RowsByStreamSorted(table: seq<Observation>, r: Recipe)
    ensures forall rows <- RowsByStream(table, r) :: SortedBy(rows, TimedLe)
  {
    forall k | 0 <= k < |r.streams| ensures SortedBy(RowsByStream(table, r)[k], TimedLe) {
      TimedRowsContents(table, r.clock, r.streams[k]);
    }
  }

  /** Each stream's statistics are those of its column over the view's rows. */
  ghost predicate StatsOfRows(stats: seq<StreamStats>, initial: seq<StreamStats>, rows: seq<AlignedRow>) {
    && |stats| == |initial|
    && (forall row <- rows :: |row.cells| == |stats|)
    && forall k :: 0 <= k < |stats| ==> stats[k] == FoldStream(initial[k], rows, k)
  }

  lemma StatsOfRowsStep(stats: seq<StreamStats>, initial: seq<StreamStats>, rows: seq<AlignedRow>, row: AlignedRow)
    requires StatsOfRows(stats, initial, rows) && |row.cells| == |stats|
    ensures StatsOfRows(RecordAll(stats, row.cells), initial, rows + [row])
  {
    assert (rows + [row])[..|rows|] == rows;
  }

  lemma StatsOfRowsAgree(stats: seq<StreamStats>, initial: seq<StreamStats>, a: seq<AlignedRow>, b: seq<AlignedRow>)
    requires StatsOfRows(stats, initial, a) && Map(a, ViewOfRow) == Map(b, ViewOfRow)
    ensures StatsOfRows(stats, initial, b)
  {
    forall i | 0 <= i < |b| ensures |b[i].cells| == |stats| {
      assert |Map(a, ViewOfRow)| == |a|;
      assert ViewOfRow(b[i]) == Map(b, ViewOfRow)[i] == Map(a, ViewOfRow)[i] == ViewOfRow(a[i]);
      assert |ViewOfRow(b[i]).cells| == |b[i].cells| && a[i] in a;
    }
    forall k | 0 <= k < |stats| ensures stats[k] == FoldStream(initial[k], b, k) {
      FoldAgrees(initial[k], a, b, k);
    }
  }

  function BatchOf(r: Recipe): seq<TimedRow> -> StreamStats { (rows: seq<TimedRow>) => BatchStats(rows, r) }

  lemma MapNext<T, U>(xs: seq<T>, k: nat, f: T -> U)
    requires k < |xs|
    ensures Map(xs[..k + 1], f) == Map(xs[..k], f) + [f(xs[k])]
  {
  }

  method InitialStats(rowsByStream: seq<seq<TimedRow>>, r: Recipe) returns (initial: seq<StreamStats>)
    ensures initial == Map(rowsByStream, BatchOf(r))
  {
    initial := [];
    for k := 0 to |rowsByStream|
      invariant initial == Map(rowsByStream[..k], BatchOf(r))
    {
      var st := InitialStreamStats(rowsByStream[k], r);
      MapNext(rowsByStream, k, BatchOf(r));
      initial := initial + [st];
    }
    assert rowsByStream[..|rowsByStream|] == rowsByStream;
  }

  function TickRowAt(rowsByStream: seq<seq<TimedRow>>, r: Recipe): (nat, int) -> AlignedRow
    requires |rowsByStream| == |r.streams|
  {
    (index: nat, t: int) => TickRow(rowsByStream, r, index, t)
  }

  function PlainRows(rowsByStream: seq<seq<TimedRow>>, r: Recipe, first: nat, ticks: seq<int>): seq<AlignedRow>
    requires |rowsByStream| == |r.streams|
  {
    Enumerated(TickRowAt(rowsByStream, r), first, ticks)
  }

  /** Aligns one tick and accumulates its statistics after those of `done`. */
  method AlignNext(rowsByStream: seq<seq<TimedRow>>, r: Recipe, index: nat, t: int, board: StatsTable,
                   ghost initial: seq<StreamStats>, ghost done: seq<AlignedRow>)
    returns (row: AlignedRow)
    requires |rowsByStream| == |r.streams| == |board.stats|
    requires forall stream <- rowsByStream :: SortedBy(stream, TimedLe)
    requires StatsOfRows(board.stats, initial, done)
    modifies board
    ensures row == TickRow(rowsByStream, r, index, t)
    ensures |board.stats| == |r.streams| && StatsOfRows(board.stats, initial, done + [row])
  {
    ghost var before := board.stats;
    row := board.AlignTick(rowsByStream, r, index, t);
    StatsOfRowsStep(before, initial, done, row);
  }

  /** Aligns consecutive ticks and accumulates statistics after those of `done`. */
  method AlignTicks(rowsByStream: seq<seq<TimedRow>>, r: Recipe, first: nat, ticks: seq<int>, board: StatsTable,
                    ghost initial: seq<StreamStats>, ghost done: seq<AlignedRow>)
    returns (rows: seq<AlignedRow>)
    requires |rowsByStream| == |r.streams| == |board.stats|
    requires forall stream <- rowsByStream :: SortedBy(stream, TimedLe)
    requires StatsOfRows(board.stats, initial, done)
    modifies board
    ensures rows == PlainRows(rowsByStream, r, first, ticks)
    ensures |board.stats| == |r.streams| && StatsOfRows(board.stats, initial, done + rows)
  {
    rows := [];
    assert done + rows == done;
    for j := 0 to |ticks|
      invariant |board.stats| == |r.streams| && StatsOfRows(board.stats, initial, done + rows)
      invariant rows == PlainRows(rowsByStream, r, first, ticks[..j])
    {
      var row := AlignNext(rowsByStream, r, first + j, ticks[j], board, initial, done + rows);
      Regroup(done, rows, [row]);
      EnumeratedNext(TickRowAt(rowsByStream, r), first, ticks, j);
      rows := rows + [row];
    }
    assert ticks[..|ticks|] == ticks;
  }

  /** Values are read in place; statistics stay those of the rows. */
  method Hydrate(plain: seq<AlignedRow>, ghost stats: seq<StreamStats>, ghost initial: seq<StreamStats>,
                 ghost done: seq<AlignedRow>)
    returns (rows: seq<AlignedRow>)
    requires StatsOfRows(stats, initial, done + plain)
    ensures rows == Map(plain, HydrateRow)
    ensures StatsOfRows(stats, initial, done + rows)
  {
    var cells := new AlignedRow[|plain|](i requires 0 <= i < |plain| => plain[i]);
    assert cells[..] == plain;
    HydrateAlignedRows(cells);
    rows := cells[..];
    assert Map(done + plain, ViewOfRow) == Map(done + rows, ViewOfRow);
    StatsOfRowsAgree(stats, initial, done + plain, done + rows);
  }

  /** The in-memory path over resolved bounds. */
  method CreateAlignmentView(table: seq<Observation>, r: Recipe, start: int, end: int)
    returns (rows: seq<AlignedRow>, stats: seq<StreamStats>)
    requires r.Valid()
    ensures rows == ViewRows(table, r, 0, Ticks(start, end, r.step))
    ensures StatsOfRows(stats, BatchStatsAll(table, r), rows)
    ensures forall row <- rows :: RowKeepsPromises(table, r, row) && RowPicksByKey(table, r, row)
  {
    var rowsByStream := RowsByStream(table, r);
    RowsByStreamSorted(table, r);
    var ticks := QueryTicks(start, end, r.step);
    var initial := InitialStats(rowsByStream, r);
    assert initial == BatchStatsAll(table, r);
    var board := new StatsTable(initial);
    var plain := AlignTicks(rowsByStream, r, 0, ticks, board, initial, []);
    rows := Hydrate(plain, board.stats, initial, []);
    stats := board.stats;
    assert rows == ViewRows(table, r, 0, ticks);
    assert [] + rows == rows;
    ViewPromises(table, r, 0, ticks);
  }

  // --------------------------------------------------------- streaming path

  /** The confidences of the rows, added up. */
  function ConfidenceSum(rows: seq<AlignedRow>): real {
    if rows == [] then 0.0 else ConfidenceSum(rows[..|rows| - 1]) + rows[|rows| - 1].confidence
  }

  function LeastConfidence(rows: seq<AlignedRow>): Option<real> {
    if rows == [] then None
    else
      var last := rows[|rows| - 1].confidence;
      match LeastConfidence(rows[..|rows| - 1])
      case None => Some(last)
      case Some(least) => Some(if last < least then last else least)
  }

  function AllFlags(rows: seq<AlignedRow>): set<(nat, Reason)> {
    if rows == [] then {} else AllFlags(rows[..|rows| - 1]) + rows[|rows| - 1].flags
  }

  class StreamingMetrics {
    var segmentCount: nat
    var rowCount: nat
    var largestSegment: nat
    var confidenceSum: real
    var leastConfidence: Option<real>
    var flags: set<(nat, Reason)>

    ghost predicate Summarizes(rows: seq<AlignedRow>)
      reads this
    {
      && rowCount == |rows|
      && confidenceSum == ConfidenceSum(rows)
      && leastConfidence == LeastConfidence(rows)
      && flags == AllFlags(rows)
    }

    constructor ()
      ensures Summarizes([]) && segmentCount == largestSegment == 0
    {
      segmentCount, rowCount, largestSegment := 0, 0, 0;
      confidenceSum, leastConfidence, flags := 0.0, None, {};
    }

    method ObserveSegment(rows: seq<AlignedRow>, ghost seen: seq<AlignedRow>)
      requires Summarizes(seen)
      modifies this
      ensures Summarizes(seen + rows)
      ensures segmentCount == old(segmentCount) + 1
      ensures largestSegment == Max(old(largestSegment), |rows|)
    {
      segmentCount := segmentCount + 1;
      largestSegment := Max(largestSegment, |rows|);
      assert seen + rows[..0] == seen;
      for i := 0 to |rows|
        invariant Summarizes(seen + rows[..i])
        invariant segmentCount == old(segmentCount) + 1 && largestSegment == Max(old(largestSegment), |rows|)
      {
        ghost var all := seen + rows[..i + 1];
        assert all[..|all| - 1] == seen + rows[..i] && all[|all| - 1] == rows[i];
        var confidence := rows[i].confidence;
        rowCount := rowCount + 1;
        confidenceSum := confidenceSum + confidence;
        if leastConfidence.None? || confidence < leastConfidence.value {
          leastConfidence := Some(confidence);
        }
        flags := flags + rows[i].flags;
      }
      assert rows[..|rows|] == rows;
    }
  }

  /** Every stream's corrected times are distinct. */
  ghost predicate DistinctStreamTimes(table: seq<Observation>, r: Recipe) {
    forall rows <- RowsByStream(table, r) :: DistinctTimes(rows)
  }

  /** The same rows up to which of a stream's rows at one time was picked; the very
      same rows where `same` holds. */
  ghost predicate SameView(rows: seq<AlignedRow>, full: seq<AlignedRow>, same: bool) {
    && |rows| == |full|
    && (forall i :: 0 <= i < |rows| ==> ViewOfRow(rows[i]) == ViewOfRow(full[i]))
    && (same ==> rows == full)
  }

  /** No two rows of one stream share a corrected time and a sort key; sort keys end in the
      observation id. */
  ghost predicate UniqueStreamKeys(table: seq<Observation>, r: Recipe) {
    forall rows <- RowsByStream(table, r) :: UniqueKeys(rows)
  }

  /** When rows are the very same: if `same` holds, and only then where `unique` holds; where
      `distinct` holds they always are. */
  datatype Sameness = Sameness(same: bool, unique: bool, distinct: bool)

  /** What is known of a table's streams: whether sort keys, or even times, are unique. */
  ghost function When(table: seq<Observation>, r: Recipe, same: bool): Sameness {
    Sameness(same, UniqueStreamKeys(table, r), DistinctStreamTimes(table, r))
  }

  /** One row against the whole streams' row. */
  ghost predicate SameRowWhen(row: AlignedRow, full: AlignedRow, how: Sameness) {
    && ViewOfRow(row) == ViewOfRow(full)
    && (how.same || how.distinct ==> row == full) && (how.unique && row == full ==> how.same)
  }

  ghost predicate SameViewWhen(rows: seq<AlignedRow>, full: seq<AlignedRow>, how: Sameness) {
    && SameView(rows, full, how.same || how.distinct)
    && (how.unique && rows == full ==> how.same)
  }

  lemma HoldsThroughout(ticks: seq<int>, holds: int -> bool)
    ensures (forall t <- ticks :: holds(t)) <==> forall j: nat :: j < |ticks| ==> holds(ticks[j])
  {
    forall t | t in ticks && forall j: nat :: j < |ticks| ==> holds(ticks[j]) ensures holds(t) {
      var j: nat :| j < |ticks| && ticks[j] == t;
      assert holds(ticks[j]);
    }
    if forall t <- ticks :: holds(t) {
      forall j: nat | j < |ticks| ensures holds(ticks[j]) {
        assert ticks[j] in ticks;
      }
    }
  }

  lemma SameRowsWhen(rows: seq<AlignedRow>, full: seq<AlignedRow>, ticks: seq<int>, how: Sameness, holds: int -> bool)
    requires |rows| == |full| == |ticks|
    requires forall j: nat :: j < |rows| ==> SameRowWhen(rows[j], full[j], how.(same := holds(ticks[j])))
    ensures SameViewWhen(rows, full, how.(same := forall t <- ticks :: holds(t)))
  {
    HoldsThroughout(ticks, holds);
    var all := forall t <- ticks :: holds(t);
    forall j: nat | j < |rows|
      ensures ViewOfRow(rows[j]) == ViewOfRow(full[j]) && (all || how.distinct ==> rows[j] == full[j])
      ensures how.unique && rows == full ==> holds(ticks[j])
    {
      assert SameRowWhen(rows[j], full[j], how.(same := holds(ticks[j])));
    }
  }

  lemma SameViewAppend(a: seq<AlignedRow>, fullA: seq<AlignedRow>, b: seq<AlignedRow>, fullB: seq<AlignedRow>,
                       same: bool)
    requires SameView(a, fullA, same) && SameView(b, fullB, same)
    ensures SameView(a + b, fullA + fullB, same)
  {
  }

  lemma SameAppendWhen(a: seq<AlignedRow>, fullA: seq<AlignedRow>, b: seq<AlignedRow>, fullB: seq<AlignedRow>,
                    how: Sameness, here: bool)
    requires SameViewWhen(a, fullA, how) && SameViewWhen(b, fullB, how.(same := here))
    ensures SameViewWhen(a + b, fullA + fullB, how.(same := how.same && here))
  {
    SameInParts(a, fullA, b, fullB);
    SameViewAppend(a, fullA, b, fullB, (how.same && here) || how.distinct);
  }

  /** The stored rows reproduce the in-memory view of `table`, every cell keeping its promises. */
  ghost predicate Reproduces(rows: seq<AlignedRow>, table: seq<Observation>, r: Recipe, first: nat, ticks: seq<int>,
                             how: Sameness) {
    && |rows| == |ticks| && SameViewWhen(rows, ViewRows(table, r, first, ticks), how)
    && forall row <- rows :: RowKeepsPromises(table, r, row)
  }

  /** The sources of a stream's cell are loaded for the segment [lo, hi], and no other row can be
      taken for them. */
  ghost predicate CellLoaded(table: seq<Observation>, r: Recipe, k: nat, lo: int, hi: int, t: int)
    requires k < |r.streams|
  {
    var full := RowsByStream(table, r)[k];
    forall x <- Sources(AlignCell(full, r.streams[k].interpolation, t, r)) ::
      LoadedFor(x.obs, table, r, lo, hi) && OnlyKey(full, x)
  }

  ghost predicate RowLoaded(table: seq<Observation>, r: Recipe, lo: int, hi: int, t: int) {
    forall k: nat :: k < |r.streams| ==> CellLoaded(table, r, k, lo, hi, t)
  }

  lemma ClockedStream(table: seq<Observation>, r: Recipe, k: nat)
    requires k < |r.streams|
    ensures forall y <- RowsByStream(Clocked(table, r.clock), r)[k] :: ClockColumn(y.obs, r.clock).Some?
  {
    forall y | y in TimedRows(Clocked(table, r.clock), r.clock, r.streams[k])
      ensures ClockColumn(y.obs, r.clock).Some?
    {
      ClockedRow(table, r.clock, r.streams[k], y);
    }
  }

  /** On the table: a cell's sources are loaded exactly when each lies inside the segment, or is
      first in the outward scan among its stream's rows at its time, or another stream of the
      recipe loads it. */
  lemma CellLoadedExactly(table: seq<Observation>, r: Recipe, k: nat, lo: int, hi: int, t: int)
    requires r.Valid() && k < |r.streams| && lo <= t <= hi
    requires var clocked := Clocked(table, r.clock); UniqueScanRanks(clocked) && UniqueStreamKeys(clocked, r)
    ensures var clocked := Clocked(table, r.clock);
            var full := RowsByStream(clocked, r)[k];
            CellLoaded(clocked, r, k, lo, hi, t) <==>
              forall x <- Sources(AlignCell(full, r.streams[k].interpolation, t, r)) ::
                || lo <= x.time <= hi
                || FirstInScan(full, x, x.time < lo)
                || OtherStreamLoads(x.obs, clocked, r, k, lo, hi)
  {
    var clocked := Clocked(table, r.clock);
    var full := RowsByStream(clocked, r)[k];
    ClockedStream(table, r, k);
    RowsByStreamSorted(clocked, r);
    assert full in RowsByStream(clocked, r);
    SourcesAreRows(full, r.streams[k].interpolation, t, r);
    forall x | x in Sources(AlignCell(full, r.streams[k].interpolation, t, r))
      ensures LoadedFor(x.obs, clocked, r, lo, hi) && OnlyKey(full, x)
         <==> || lo <= x.time <= hi
              || FirstInScan(full, x, x.time < lo)
              || OtherStreamLoads(x.obs, clocked, r, k, lo, hi)
    {
      SourceLoadedExactly(clocked, r, k, lo, hi, t, x);
    }
  }

  /** Where every sufficient slice would do, the loaded one does. */
  lemma PinnedIsLoaded(table: seq<Observation>, r: Recipe, lo: int, hi: int, t: int)
    requires r.Valid() && lo <= t <= hi && RowPinned(RowsByStream(Clocked(table, r.clock), r), r, t, lo, hi)
    ensures RowLoaded(Clocked(table, r.clock), r, lo, hi, t)
  {
    var clocked := Clocked(table, r.clock);
    var fulls := RowsByStream(clocked, r);
    forall k: nat | k < |r.streams| ensures CellLoaded(clocked, r, k, lo, hi, t) {
      assert Pinned(fulls[k], AlignCell(fulls[k], r.streams[k].interpolation, t, r), lo, hi);
      ClockedStream(table, r, k);
      forall x | x in Sources(AlignCell(fulls[k], r.streams[k].interpolation, t, r))
        ensures LoadedFor(x.obs, clocked, r, lo, hi) && OnlyKey(fulls[k], x)
      {
        SettledIsLoaded(clocked, r, k, lo, hi, t, x);
      }
    }
  }

  ghost function LoadsTick(table: seq<Observation>, r: Recipe, lo: int, hi: int): int -> bool {
    (t: int) => RowLoaded(table, r, lo, hi, t)
  }

  /** Every row that a segment's ticks pick is among those it loads. */
  ghost predicate LoadedSegment(table: seq<Observation>, r: Recipe, segment: seq<int>) {
    segment != [] ==> forall t <- segment :: LoadsTick(table, r, segment[0], segment[|segment| - 1])(t)
  }

  ghost function LoadsSegment(table: seq<Observation>, r: Recipe): seq<int> -> bool {
    (segment: seq<int>) => LoadedSegment(table, r, segment)
  }

  /** Something holds of every segment of `batch` ticks. */
  ghost predicate EverySegment(holds: seq<int> -> bool, ticks: seq<int>, batch: nat)
    requires batch >= 1
    decreases |ticks|
  {
    ticks != [] ==> holds(FirstOf(ticks, batch)) && EverySegment(holds, ticks[|FirstOf(ticks, batch)|..], batch)
  }

  /** Every segment loads the rows it picks. */
  ghost predicate LoadedView(table: seq<Observation>, r: Recipe, ticks: seq<int>, batch: nat)
    requires batch >= 1
  {
    EverySegment(LoadsSegment(table, r), ticks, batch)
  }

  lemma DistinctTimesPinRow(table: seq<Observation>, r: Recipe, t: int, lo: int, hi: int)
    requires DistinctStreamTimes(table, r)
    ensures RowPinned(RowsByStream(table, r), r, t, lo, hi)
  {
    var fulls := RowsByStream(table, r);
    RowsByStreamSorted(table, r);
    forall i | 0 <= i < |fulls|
      ensures Pinned(fulls[i], AlignCell(fulls[i], r.streams[i].interpolation, t, r), lo, hi)
    {
      assert fulls[i] in fulls;
      SourcesAreRows(fulls[i], r.streams[i].interpolation, t, r);
    }
  }

  lemma ViewRowsAppend(table: seq<Observation>, r: Recipe, done: seq<int>, segment: seq<int>)
    ensures ViewRows(table, r, 0, done + segment) == ViewRows(table, r, 0, done) + ViewRows(table, r, |done|, segment)
  {
    EnumeratedAppend(ViewRowAt(table, r), 0, done, segment);
  }

  lemma ReproducesExtends(rows: seq<AlignedRow>, done: seq<int>, more: seq<AlignedRow>, segment: seq<int>,
                          table: seq<Observation>, r: Recipe, how: Sameness, here: bool)
    requires Reproduces(rows, table, r, 0, done, how)
    requires Reproduces(more, table, r, |rows|, segment, how.(same := here))
    ensures Reproduces(rows + more, table, r, 0, done + segment, how.(same := how.same && here))
  {
    ViewRowsAppend(table, r, done, segment);
    SameAppendWhen(rows, ViewRows(table, r, 0, done), more, ViewRows(table, r, |rows|, segment), how, here);
  }

  lemma SameInParts<T>(a: seq<T>, fullA: seq<T>, b: seq<T>, fullB: seq<T>)
    requires |a| == |fullA| && |b| == |fullB|
    ensures a + b == fullA + fullB <==> a == fullA && b == fullB
  {
    if a + b == fullA + fullB {
      assert a == (a + b)[..|a|] && b == (a + b)[|a|..];
      assert fullA == (fullA + fullB)[..|a|] && fullB == (fullA + fullB)[|a|..];
    }
  }

  /** The slices are exactly the rows of the streams that the segment loads. */
  ghost predicate SlicesLoaded(segs: seq<seq<TimedRow>>, table: seq<Observation>, r: Recipe, lo: int, hi: int)
    requires |segs| == |r.streams|
  {
    forall k: nat :: k < |segs| ==> SliceLoaded(segs[k], RowsByStream(table, r)[k], table, r, lo, hi)
  }

  ghost predicate SliceLoaded(seg: seq<TimedRow>, full: seq<TimedRow>, table: seq<Observation>, r: Recipe, lo: int,
                              hi: int) {
    forall x :: x in seg <==> x in full && LoadedFor(x.obs, table, r, lo, hi)
  }

  /** The rows of each stream that one segment needs. */
  method LoadSegment(table: seq<Observation>, r: Recipe, lo: int, hi: int) returns (rowsByStream: seq<seq<TimedRow>>)
    requires r.Valid() && UniqueRowIds(table)
    ensures |rowsByStream| == |r.streams|
    ensures SufficesAll(rowsByStream, RowsByStream(Clocked(table, r.clock), r), lo, hi)
    ensures SlicesLoaded(rowsByStream, Clocked(table, r.clock), r, lo, hi)
  {
    var refs := SegmentObservationRefs(table, r, lo, hi);
    rowsByStream := RowsByStream(refs, r);
    forall k: nat | k < |r.streams|
      ensures Suffices(rowsByStream[k], RowsByStream(Clocked(table, r.clock), r)[k], lo, hi)
      ensures SliceLoaded(rowsByStream[k], RowsByStream(Clocked(table, r.clock), r)[k], Clocked(table, r.clock), r,
                          lo, hi)
    {
      LoadedSuffices(refs, table, r, lo, hi, k);
      LoadedSlice(refs, table, r, lo, hi, k);
    }
  }

  lemma LoadedSlice(refs: seq<Observation>, table: seq<Observation>, r: Recipe, lo: int, hi: int, k: nat)
    requires Loaded(refs, table, r, lo, hi) && k < |r.streams|
    ensures SliceLoaded(RowsByStream(refs, r)[k], RowsByStream(Clocked(table, r.clock), r)[k],
                        Clocked(table, r.clock), r, lo, hi)
  {
    LoadedMembers(refs, table, r, lo, hi, k);
    forall o: Observation ensures LoadedFor(o, Clocked(table, r.clock), r, lo, hi) <==> LoadedFor(o, table, r, lo, hi) {
      LoadingIgnoresUnclocked(o, table, r, lo, hi);
    }
  }

  /** Where a stream's sources are loaded, its slice holds them. */
  lemma LoadedIsHeld(segs: seq<seq<TimedRow>>, table: seq<Observation>, r: Recipe, lo: int, hi: int, t: int)
    requires |segs| == |r.streams| && SlicesLoaded(segs, table, r, lo, hi) && RowLoaded(table, r, lo, hi, t)
    ensures RowHeld(segs, RowsByStream(table, r), r, t)
  {
    var fulls := RowsByStream(table, r);
    RowsByStreamSorted(table, r);
    forall i: nat | i < |fulls|
      ensures CellHeld(segs[i], fulls[i], AlignCell(fulls[i], r.streams[i].interpolation, t, r))
    {
      assert fulls[i] in fulls && CellLoaded(table, r, i, lo, hi, t);
      SourcesAreRows(fulls[i], r.streams[i].interpolation, t, r);
      assert SliceLoaded(segs[i], fulls[i], table, r, lo, hi);
    }
  }

  /** Conversely, a cell that is the whole stream's has its sources loaded. */
  lemma SameCellIsLoaded(segs: seq<seq<TimedRow>>, table: seq<Observation>, r: Recipe, lo: int, hi: int, t: int, k: nat)
    requires |segs| == |r.streams| && SlicesLoaded(segs, table, r, lo, hi) && k < |r.streams|
    requires SortedBy(segs[k], TimedLe) && UniqueStreamKeys(table, r)
    requires var m := r.streams[k].interpolation;
             HydrateCell(AlignCell(segs[k], m, t, r), t)
             == HydrateCell(AlignCell(RowsByStream(table, r)[k], m, t, r), t)
    ensures CellLoaded(table, r, k, lo, hi, t)
  {
    var m, full := r.streams[k].interpolation, RowsByStream(table, r)[k];
    HydratedSources(AlignCell(segs[k], m, t, r), t);
    HydratedSources(AlignCell(full, m, t, r), t);
    SourcesAreRows(segs[k], m, t, r);
    assert full in RowsByStream(table, r) && SliceLoaded(segs[k], full, table, r, lo, hi);
  }

  lemma SliceCellsKeepPromises(segs: seq<seq<TimedRow>>, fulls: seq<seq<TimedRow>>, r: Recipe, lo: int, hi: int,
                               cells: seq<Cell>, t: int)
    requires |fulls| == |r.streams| == |cells| && SufficesAll(segs, fulls, lo, hi) && lo <= t <= hi
    requires forall k :: 0 <= k < |r.streams| ==>
               cells[k] == HydrateCell(AlignCell(segs[k], r.streams[k].interpolation, t, r), t)
    ensures CellsKeepPromises(fulls, r, cells, t)
  {
    forall k | 0 <= k < |r.streams| ensures KeepsPromises(fulls[k], r.streams[k].interpolation, cells[k], t, r) {
      SliceKeepsPromises(segs[k], fulls[k], lo, hi, r.streams[k].interpolation, t, r);
    }
  }

  lemma SegmentRowKeepsPromises(segs: seq<seq<TimedRow>>, table: seq<Observation>, r: Recipe, lo: int, hi: int,
                                index: nat, t: int)
    requires |segs| == |r.streams| && SufficesAll(segs, RowsByStream(table, r), lo, hi) && lo <= t <= hi
    ensures RowKeepsPromises(table, r, HydrateRow(TickRow(segs, r, index, t)))
  {
    TickRowHydrated(segs, r, index, t);
    SliceCellsKeepPromises(segs, RowsByStream(table, r), r, lo, hi, HydrateRow(TickRow(segs, r, index, t)).cells, t);
  }

  /** A segment's row shows what the whole streams' row shows, and is that very row exactly when
      every row it picks is loaded. */
  lemma SegmentRowAgrees(segs: seq<seq<TimedRow>>, table: seq<Observation>, r: Recipe, lo: int, hi: int, index: nat,
                         t: int)
    requires |segs| == |r.streams| && SufficesAll(segs, RowsByStream(table, r), lo, hi) && lo <= t <= hi
    requires SlicesLoaded(segs, table, r, lo, hi)
    ensures var row, full := HydrateRow(TickRow(segs, r, index, t)), ViewRow(table, r, index, t);
            SameRowWhen(row, full, When(table, r, RowLoaded(table, r, lo, hi, t)))
  {
    var fulls := RowsByStream(table, r);
    RowsAgree(segs, fulls, lo, hi, r, index, t);
    if RowLoaded(table, r, lo, hi, t) {
      LoadedIsHeld(segs, table, r, lo, hi, t);
    }
    if DistinctStreamTimes(table, r) {
      DistinctTimesPinRow(table, r, t, lo, hi);
      RowPinnedIsHeld(segs, fulls, lo, hi, r, t);
    }
    var row, full := HydrateRow(TickRow(segs, r, index, t)), ViewRow(table, r, index, t);
    if UniqueStreamKeys(table, r) && row == full {
      forall k: nat | k < |r.streams| ensures CellLoaded(table, r, k, lo, hi, t) {
        assert row.cells[k] == full.cells[k];
        SameCellIsLoaded(segs, table, r, lo, hi, t, k);
      }
    }
  }

  lemma SegmentAgrees(segs: seq<seq<TimedRow>>, table: seq<Observation>, r: Recipe, first: nat, segment: seq<int>)
    requires segment != [] && forall t <- segment :: segment[0] <= t <= segment[|segment| - 1]
    requires |segs| == |r.streams|
    requires SufficesAll(segs, RowsByStream(table, r), segment[0], segment[|segment| - 1])
    requires SlicesLoaded(segs, table, r, segment[0], segment[|segment| - 1])
    ensures Reproduces(Map(PlainRows(segs, r, first, segment), HydrateRow), table, r, first, segment,
                       When(table, r, LoadedSegment(table, r, segment)))
  {
    var rows, full := Map(PlainRows(segs, r, first, segment), HydrateRow), ViewRows(table, r, first, segment);
    var holds := LoadsTick(table, r, segment[0], segment[|segment| - 1]);
    forall j: nat | j < |segment|
      ensures SameRowWhen(rows[j], full[j], When(table, r, true).(same := holds(segment[j])))
      ensures RowKeepsPromises(table, r, rows[j])
    {
      SegmentRowAt(segs, table, r, first, segment, j);
    }
    SameRowsWhen(rows, full, segment, When(table, r, true), holds);
  }

  lemma SegmentRowAt(segs: seq<seq<TimedRow>>, table: seq<Observation>, r: Recipe, first: nat, segment: seq<int>,
                     j: nat)
    requires j < |segment| && forall t <- segment :: segment[0] <= t <= segment[|segment| - 1]
    requires |segs| == |r.streams|
    requires SufficesAll(segs, RowsByStream(table, r), segment[0], segment[|segment| - 1])
    requires SlicesLoaded(segs, table, r, segment[0], segment[|segment| - 1])
    ensures var row := Map(PlainRows(segs, r, first, segment), HydrateRow)[j];
            && SameRowWhen(row, ViewRows(table, r, first, segment)[j],
                        When(table, r, LoadsTick(table, r, segment[0], segment[|segment| - 1])(segment[j])))
            && RowKeepsPromises(table, r, row)
  {
    var lo, hi := segment[0], segment[|segment| - 1];
    assert segment[j] in segment;
    SegmentRowKeepsPromises(segs, table, r, lo, hi, first + j, segment[j]);
    SegmentRowAgrees(segs, table, r, lo, hi, first + j, segment[j]);
  }

  /** One segment: load its observations, align its ticks, read the values. */
  method AlignSegment(table: seq<Observation>, r: Recipe, first: nat, segment: seq<int>, board: StatsTable,
                      ghost initial: seq<StreamStats>, ghost done: seq<AlignedRow>)
    returns (rows: seq<AlignedRow>)
    requires r.Valid() && UniqueRowIds(table) && segment != []
    requires forall t <- segment :: segment[0] <= t <= segment[|segment| - 1]
    requires |board.stats| == |r.streams| && StatsOfRows(board.stats, initial, done)
    modifies board
    ensures Reproduces(rows, Clocked(table, r.clock), r, first, segment,
                       When(Clocked(table, r.clock), r, LoadedSegment(Clocked(table, r.clock), r, segment)))
    ensures |board.stats| == |r.streams| && StatsOfRows(board.stats, initial, done + rows)
  {
    var rowsByStream := LoadSegment(table, r, segment[0], segment[|segment| - 1]);
    assert forall k :: 0 <= k < |rowsByStream| ==> SortedBy(rowsByStream[k], TimedLe);
    var plain := AlignTicks(rowsByStream, r, first, segment, board, initial, done);
    rows := Hydrate(plain, board.stats, initial, done);
    SegmentAgrees(rowsByStream, Clocked(table, r.clock), r, first, segment);
  }

  /** Counts a finished segment and keeps the first `batch` rows as a preview. */
  method EmitSegment(segmentRows: seq<AlignedRow>, batch: nat, ghost rows: seq<AlignedRow>, preview: seq<AlignedRow>,
                     metrics: StreamingMetrics)
    returns (shown: seq<AlignedRow>)
    requires preview == rows[..Min(batch, |rows|)] && metrics.Summarizes(rows)
    modifies metrics
    ensures shown == (rows + segmentRows)[..Min(batch, |rows + segmentRows|)]
    ensures metrics.Summarizes(rows + segmentRows)
    ensures metrics.largestSegment == Max(old(metrics.largestSegment), |segmentRows|)
  {
    metrics.ObserveSegment(segmentRows, rows);
    shown := preview;
    if |preview| < batch {
      var remaining := batch - |preview|;
      shown := preview + segmentRows[..Min(remaining, |segmentRows|)];
    }
  }

  /** Ticks `timestamp..end` are still to come after the stored rows. */
  ghost predicate Progress(rows: seq<AlignedRow>, done: seq<int>, table: seq<Observation>, r: Recipe, start: int,
                           timestamp: int, end: int, batch: nat, how: Sameness, holds: seq<int> -> bool)
    requires r.step >= 1 && batch >= 1
  {
    && Reproduces(rows, table, r, 0, done, how)
    && done + Ticks(timestamp, end, r.step) == Ticks(start, end, r.step)
    && (EverySegment(holds, Ticks(start, end, r.step), batch)
        <==> how.same && EverySegment(holds, Ticks(timestamp, end, r.step), batch))
  }

  lemma NextSegmentHolds(holds: seq<int> -> bool, ticks: seq<int>, segment: seq<int>, rest: seq<int>, batch: nat)
    requires batch >= 1 && ticks != [] && segment == FirstOf(ticks, batch) && segment + rest == ticks
    ensures EverySegment(holds, ticks, batch) <==> holds(segment) && EverySegment(holds, rest, batch)
  {
    assert ticks[|segment|..] == rest;
  }

  lemma ProgressStep(rows: seq<AlignedRow>, done: seq<int>, more: seq<AlignedRow>, segment: seq<int>,
                     table: seq<Observation>, r: Recipe, start: int, timestamp: int, next: int, end: int, batch: nat,
                     how: Sameness, holds: seq<int> -> bool)
    requires r.step >= 1 && batch >= 1 && segment != []
    requires Progress(rows, done, table, r, start, timestamp, end, batch, how, holds)
    requires Reproduces(more, table, r, |rows|, segment, how.(same := holds(segment)))
    requires segment == FirstOf(Ticks(timestamp, end, r.step), batch)
    requires segment + Ticks(next, end, r.step) == Ticks(timestamp, end, r.step)
    ensures Progress(rows + more, done + segment, table, r, start, next, end, batch,
                     how.(same := how.same && holds(segment)), holds)
  {
    NextSegmentHolds(holds, Ticks(timestamp, end, r.step), segment, Ticks(next, end, r.step), batch);
    ReproducesExtends(rows, done, more, segment, table, r, how, holds(segment));
    Regroup(done, segment, Ticks(next, end, r.step));
  }

  lemma SegmentComesFirst(segment: seq<int>, rest: seq<int>, ticks: seq<int>, batch: nat)
    requires segment + rest == ticks && |segment| <= batch && (|segment| == batch || rest == [])
    ensures segment == FirstOf(ticks, batch)
  {
    assert ticks[..|segment|] == segment;
  }

  /** One turn of the segment loop: the next ticks, their rows, their statistics. */
  method StreamSegment(table: seq<Observation>, r: Recipe, timestamp: int, end: int, batch: nat, first: nat,
                       board: StatsTable, ghost initial: seq<StreamStats>, ghost rows: seq<AlignedRow>)
    returns (segmentRows: seq<AlignedRow>, next: int, ghost segment: seq<int>)
    requires r.Valid() && batch >= 1 && UniqueRowIds(table) && timestamp <= end
    requires |board.stats| == |r.streams| && StatsOfRows(board.stats, initial, rows)
    modifies board
    ensures segment != [] && segment == FirstOf(Ticks(timestamp, end, r.step), batch)
    ensures Reproduces(segmentRows, Clocked(table, r.clock), r, first, segment,
                       When(Clocked(table, r.clock), r, LoadedSegment(Clocked(table, r.clock), r, segment)))
    ensures segment + Ticks(next, end, r.step) == Ticks(timestamp, end, r.step) && next > timestamp
    ensures |segmentRows| <= batch
    ensures |board.stats| == |r.streams| && StatsOfRows(board.stats, initial, rows + segmentRows)
  {
    var ticks;
    ticks, next := NextSegment(timestamp, end, r.step, batch);
    segment := ticks;
    SegmentComesFirst(ticks, Ticks(next, end, r.step), Ticks(timestamp, end, r.step), batch);
    segmentRows := AlignSegment(table, r, first, ticks, board, initial, rows);
  }

  ghost predicate StreamedUpTo(rows: seq<AlignedRow>, done: seq<int>, table: seq<Observation>, r: Recipe, start: int,
                               timestamp: int, end: int, batch: nat, held: bool)
    requires r.step >= 1 && batch >= 1
  {
    Progress(rows, done, table, r, start, timestamp, end, batch, When(table, r, held), LoadsSegment(table, r))
  }

  lemma StreamStarts(table: seq<Observation>, r: Recipe, start: int, end: int, batch: nat)
    requires r.step >= 1 && batch >= 1
    ensures StreamedUpTo([], [], table, r, start, start, end, batch, true)
  {
  }

  lemma StreamEnds(rows: seq<AlignedRow>, done: seq<int>, table: seq<Observation>, r: Recipe, start: int,
                   timestamp: int, end: int, batch: nat, held: bool)
    requires r.step >= 1 && batch >= 1 && timestamp > end
    requires StreamedUpTo(rows, done, table, r, start, timestamp, end, batch, held)
    ensures Reproduces(rows, table, r, 0, Ticks(start, end, r.step),
                       When(table, r, LoadedView(table, r, Ticks(start, end, r.step), batch)))
  {
    assert done + [] == done;
  }

  /** One turn of the loop: a segment is stored, shown, counted, and checked off. */
  method StreamNext(table: seq<Observation>, r: Recipe, ghost start: int, timestamp: int, end: int, batch: nat,
                    stored: seq<AlignedRow>, preview: seq<AlignedRow>, board: StatsTable, metrics: StreamingMetrics,
                    ghost initial: seq<StreamStats>, ghost done: seq<int>, ghost same: bool)
    returns (rows: seq<AlignedRow>, shown: seq<AlignedRow>, next: int, ghost reached: seq<int>, ghost held: bool)
    requires r.Valid() && batch >= 1 && UniqueRowIds(table) && timestamp <= end
    requires StreamedUpTo(stored, done, Clocked(table, r.clock), r, start, timestamp, end, batch, same)
    requires preview == stored[..Min(batch, |stored|)] && metrics.Summarizes(stored) && metrics.largestSegment <= batch
    requires |board.stats| == |r.streams| && StatsOfRows(board.stats, initial, stored)
    modifies board, metrics
    ensures StreamedUpTo(rows, reached, Clocked(table, r.clock), r, start, next, end, batch, held) && next > timestamp
    ensures shown == rows[..Min(batch, |rows|)] && metrics.Summarizes(rows) && metrics.largestSegment <= batch
    ensures |board.stats| == |r.streams| && StatsOfRows(board.stats, initial, rows)
  {
    ghost var segment;
    var segmentRows;
    segmentRows, next, segment := StreamSegment(table, r, timestamp, end, batch, |stored|, board, initial, stored);
    shown := EmitSegment(segmentRows, batch, stored, preview, metrics);
    ghost var clocked := Clocked(table, r.clock);
    ProgressStep(stored, done, segmentRows, segment, clocked, r, start, timestamp, next, end, batch,
                 When(clocked, r, same), LoadsSegment(clocked, r));
    rows, reached := stored + segmentRows, done + segment;
    held := same && LoadsSegment(clocked, r)(segment);
  }

  /** The streaming path over resolved bounds: the rows it stores are the in-memory
      view of the rows whose clock column is set, in status, times, errors and
      confidence always, and row for row exactly where each segment loads every row it picks. */
  method CreateStreamingView(table: seq<Observation>, r: Recipe, start: int, end: int, batch: nat,
                             initial: seq<StreamStats>)
    returns (rows: seq<AlignedRow>, preview: seq<AlignedRow>, stats: seq<StreamStats>, metrics: StreamingMetrics)
    requires r.Valid() && batch >= 1 && UniqueRowIds(table)
    requires |initial| == |r.streams|
    ensures Reproduces(rows, Clocked(table, r.clock), r, 0, Ticks(start, end, r.step),
                       When(Clocked(table, r.clock), r,
                            LoadedView(Clocked(table, r.clock), r, Ticks(start, end, r.step), batch)))
    ensures preview == rows[..Min(batch, |rows|)]
    ensures StatsOfRows(stats, initial, rows)
    ensures fresh(metrics) && metrics.Summarizes(rows) && metrics.largestSegment <= batch
  {
    metrics := new StreamingMetrics();
    var board := new StatsTable(initial);
    rows, preview := [], [];
    var timestamp := start;
    ghost var done: seq<int> := [];
    ghost var clocked := Clocked(table, r.clock);
    ghost var held := true;
    StreamStarts(clocked, r, start, end, batch);
    while timestamp <= end
      invariant StreamedUpTo(rows, done, clocked, r, start, timestamp, end, batch, held)
      invariant preview == rows[..Min(batch, |rows|)]
      invariant |board.stats| == |r.streams| && StatsOfRows(board.stats, initial, rows)
      invariant fresh(board) && fresh(metrics) && metrics.Summarizes(rows) && metrics.largestSegment <= batch
      decreases end - timestamp
    {
      rows, preview, timestamp, done, held := StreamNext(table, r, start, timestamp, end, batch, rows, preview, board,
                                                         metrics, initial, done, held);
    }
    stats := board.stats;
    StreamEnds(rows, done, clocked, r, start, timestamp, end, batch, held);
  }
}
