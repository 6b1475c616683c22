/** One aligned cell: picking source rows for a query tick, the tolerance cut, and
    the statistics a stream accumulates.  Both alignment paths share this code. */
module Alignment {
  import opened Ordering

  // ------------------------------------------------------------- data model

  datatype Clock = TimestampNs | RawLogTimeNs
  datatype Interpolation = Nearest | Previous | Linear
  datatype Sample = NoSample | Scalar(x: real) | Vector(xs: seq<real>)

  /** One observation row.  `scanRank` and `sortRank` are its ranks in the engine's
      tie-break order and in Python's observation sort key; `keys` are its normalised
      topic, sensor, modality and channel names. */
  datatype Observation = Observation(
    rowId: nat, timestamp: Option<int>, rawLogTime: Option<int>,
    scanRank: int, sortRank: int, keys: set<string>, sample: Sample)

  datatype StreamSpec = StreamSpec(key: string, interpolation: Interpolation, latency: int)

  datatype Recipe = Recipe(clock: Clock, streams: seq<StreamSpec>, tolerance: Option<nat>, step: nat) {
    predicate Valid() { step >= 1 && streams != [] }
  }

  datatype TimedRow = TimedRow(time: int, obs: Observation)

  function ClockColumn(o: Observation, clock: Clock): Option<int> {
    match clock case TimestampNs => o.timestamp case RawLogTimeNs => o.rawLogTime
  }

  /** A missing clock column falls back to `timestamp_ns`. */
  function ClockValue(o: Observation, clock: Clock): Option<int> {
    if ClockColumn(o, clock).Some? then ClockColumn(o, clock) else o.timestamp
  }

  predicate Matches(o: Observation, s: StreamSpec) { s.key in o.keys }

  function TimeOf(o: Observation, clock: Clock, s: StreamSpec): int {
    (match ClockValue(o, clock) case Some(v) => v case None => 0) - s.latency
  }

  predicate TimedLe(a: TimedRow, b: TimedRow) {
    a.time < b.time || (a.time == b.time && a.obs.sortRank <= b.obs.sortRank)
  }

  predicate InStream(o: Observation, clock: Clock, s: StreamSpec) {
    Matches(o, s) && ClockValue(o, clock).Some?
  }

  function Selecting(clock: Clock, s: StreamSpec): Observation -> bool { (o: Observation) => InStream(o, clock, s) }

  function Stamping(clock: Clock, s: StreamSpec): Observation -> TimedRow {
    (o: Observation) => TimedRow(TimeOf(o, clock, s), o)
  }

  /** A stream's rows on the query clock, in time order. */
  function TimedRows(table: seq<Observation>, clock: Clock, s: StreamSpec): (rows: seq<TimedRow>) {
    StableSort(Map(Filter(table, Selecting(clock, s)), Stamping(clock, s)), TimedLe)
  }

  lemma StampedMember(table: seq<Observation>, clock: Clock, s: StreamSpec, x: TimedRow)
    ensures x in Map(Filter(table, Selecting(clock, s)), Stamping(clock, s))
       <==> x.obs in table && InStream(x.obs, clock, s) && x.time == TimeOf(x.obs, clock, s)
  {
    var picked := Filter(table, Selecting(clock, s));
    var timed := Map(picked, Stamping(clock, s));
    if x in timed {
      var i :| 0 <= i < |timed| && timed[i] == x;
      assert timed[i] == Stamping(clock, s)(picked[i]) && picked[i] in picked && Selecting(clock, s)(picked[i]);
    }
    if x.obs in table && InStream(x.obs, clock, s) && x.time == TimeOf(x.obs, clock, s) {
      assert Selecting(clock, s)(x.obs) && x.obs in picked;
      var i :| 0 <= i < |picked| && picked[i] == x.obs;
      assert timed[i] == x;
    }
  }

  /** The corrected time of an observation: its clock column, or its source time where the
      receive time is unset, is `latency` later. */
  predicate At(o: Observation, clock: Clock, latency: int, time: int) {
    match clock
    case TimestampNs => o.timestamp == Some(time + latency)
    case RawLogTimeNs => Some(time + latency) == if o.rawLogTime.None? then o.timestamp else o.rawLogTime
  }

  /** Rows in time order, those at one time in the order of their sort keys. */
  ghost predicate InTimeOrder(rows: seq<TimedRow>) {
    forall i, j | 0 <= i < j < |rows| ::
      && rows[i].time <= rows[j].time
      && (rows[i].time == rows[j].time ==> rows[i].obs.sortRank <= rows[j].obs.sortRank)
  }

  lemma TimedRowsContents(table: seq<Observation>, clock: Clock, s: StreamSpec)
    ensures SortedBy(TimedRows(table, clock, s), TimedLe)
    ensures forall x: TimedRow :: x in TimedRows(table, clock, s) <==>
              x.obs in table && InStream(x.obs, clock, s) && x.time == TimeOf(x.obs, clock, s)
  {
    var timed := Map(Filter(table, Selecting(clock, s)), Stamping(clock, s));
    SortSorts(timed, TimedLe);
    SortMembers(timed, TimedLe);
    forall x: TimedRow
      ensures x in timed <==> x.obs in table && InStream(x.obs, clock, s) && x.time == TimeOf(x.obs, clock, s)
    {
      StampedMember(table, clock, s, x);
    }
  }

  lemma CorrectedTime(o: Observation, clock: Clock, s: StreamSpec, time: int)
    ensures InStream(o, clock, s) && time == TimeOf(o, clock, s) <==> s.key in o.keys && At(o, clock, s.latency, time)
  {
  }

  /** A stream's rows in raw fields. */
  lemma StreamRowsMeaning(table: seq<Observation>, clock: Clock, s: StreamSpec)
    ensures InTimeOrder(TimedRows(table, clock, s))
    ensures forall x: TimedRow :: x in TimedRows(table, clock, s) <==>
              x.obs in table && s.key in x.obs.keys && At(x.obs, clock, s.latency, x.time)
  {
    TimedRowsContents(table, clock, s);
    TimeOrderMeaning(TimedRows(table, clock, s));
    forall x: TimedRow
      ensures x in TimedRows(table, clock, s) <==>
                x.obs in table && s.key in x.obs.keys && At(x.obs, clock, s.latency, x.time)
    {
      CorrectedTime(x.obs, clock, s, x.time);
    }
  }

  lemma TimeOrderMeaning(rows: seq<TimedRow>)
    requires SortedBy(rows, TimedLe)
    ensures InTimeOrder(rows)
  {
  }

  // ------------------------------------------------------------ row pickers

  /** Length of the leading run of rows at or before `t`. */
  function UpTo(rows: seq<TimedRow>, t: int): (n: nat)
    ensures n <= |rows|
    ensures forall i :: 0 <= i < n ==> rows[i].time <= t
    ensures n < |rows| ==> rows[n].time > t
  {
    if rows == [] || rows[0].time > t then 0 else 1 + UpTo(rows[1..], t)
  }

  function PreviousRow(rows: seq<TimedRow>, t: int): Option<TimedRow> {
    var n := UpTo(rows, t);
    if n == 0 then None else Some(rows[n - 1])
  }

  function BeforeRow(rows: seq<TimedRow>, t: int): Option<TimedRow> {
    PreviousRow(rows, t - 1)
  }

  function ExactRow(rows: seq<TimedRow>, t: int): Option<TimedRow> {
    var n := UpTo(rows, t - 1);
    if n < |rows| && rows[n].time == t then Some(rows[n]) else None
  }

  function AfterRow(rows: seq<TimedRow>, t: int): Option<TimedRow> {
    var n := UpTo(rows, t);
    if n < |rows| then Some(rows[n]) else None
  }

  function Abs(x: int): nat { if x < 0 then -x else x }

  /** Python's tuple order on (distance, time, sort key). */
  predicate Closer(a: TimedRow, b: TimedRow, t: int) {
    var da, db := Abs(a.time - t), Abs(b.time - t);
    da < db || (da == db && (a.time < b.time || (a.time == b.time && a.obs.sortRank < b.obs.sortRank)))
  }

  function NearestRow(rows: seq<TimedRow>, t: int): (best: TimedRow)
    requires rows != []
    ensures best in rows
    ensures forall x <- rows :: !Closer(x, best, t)
  {
    var last := rows[|rows| - 1];
    if |rows| == 1 then last
    else
      assert rows == rows[..|rows| - 1] + [last];
      var best := NearestRow(rows[..|rows| - 1], t);
      if Closer(last, best, t) then last else best
  }

  method FindPrevious(rows: seq<TimedRow>, t: int) returns (candidate: Option<TimedRow>)
    ensures candidate == PreviousRow(rows, t)
  {
    candidate := None;
    for i := 0 to |rows|
      invariant i <= UpTo(rows, t)
      invariant candidate == if i == 0 then None else Some(rows[i - 1])
    {
      if rows[i].time > t {
        break;
      }
      candidate := Some(rows[i]);
    }
  }

  method FindExact(rows: seq<TimedRow>, t: int) returns (exact: Option<TimedRow>)
    ensures exact == ExactRow(rows, t)
  {
    for i := 0 to |rows|
      invariant i <= UpTo(rows, t - 1)
    {
      if rows[i].time == t {
        return Some(rows[i]);
      }
      if rows[i].time > t {
        return None;
      }
    }
    return None;
  }

  method FindBracket(rows: seq<TimedRow>, t: int) returns (before: Option<TimedRow>, after: Option<TimedRow>)
    requires SortedBy(rows, TimedLe)
    ensures before == BeforeRow(rows, t) && after == AfterRow(rows, t)
  {
    before, after := None, None;
    for i := 0 to |rows|
      invariant i <= UpTo(rows, t)
      invariant before
                == if i <= UpTo(rows, t - 1) then (if i == 0 then None else Some(rows[i - 1])) else BeforeRow(rows, t)
    {
      if rows[i].time < t {
        before := Some(rows[i]);
        continue;
      }
      if rows[i].time > t {
        after := Some(rows[i]);
        break;
      }
    }
  }

  method FindNearest(rows: seq<TimedRow>, t: int) returns (best: TimedRow)
    requires rows != []
    ensures best == NearestRow(rows, t)
  {
    best := rows[0];
    for i := 1 to |rows|
      invariant best == NearestRow(rows[..i], t)
    {
      assert rows[..i + 1][..i] == rows[..i];
      if Closer(rows[i], best, t) {
        best := rows[i];
      }
    }
    assert rows[..|rows|] == rows;
  }

  // ------------------------------------------------------- one aligned cell

  datatype Reason = StreamMissing | NoPreviousSample | NoLinearBracket | ToleranceExceeded | LinearValueMissing
    | DroppedFrames | ClockDrift

  datatype Cell =
    | Missing(reason: Reason)
    | OutOfTolerance(nearest: TimedRow, absoluteError: nat)
    | Aligned(sources: seq<TimedRow>, sourceTime: int, error: int, absoluteError: nat,
              confidence: real, value: Sample, valueMissing: bool)

  function Confidence(absoluteError: nat, tolerance: Option<nat>, step: nat): (c: real)
    ensures 0.0 <= c <= 1.0
    ensures absoluteError == 0 ==> c == 1.0
  {
    if absoluteError == 0 then 1.0
    else match tolerance {
      case Some(bound) =>
        if bound == 0 then 0.0
        else
          var c := 1.0 - absoluteError as real / bound as real;
          if c < 0.0 then 0.0 else c
      case None =>
        var scale := if step == 0 then 1.0 else step as real;
        1.0 / (1.0 + absoluteError as real / scale)
    }
  }

  function SourceCell(candidate: TimedRow, t: int, r: Recipe): Cell {
    var error := candidate.time - t;
    if r.tolerance.Some? && Abs(error) > r.tolerance.value then OutOfTolerance(candidate, Abs(error))
    else
      var confidence := Confidence(Abs(error), r.tolerance, r.step);
      Aligned([candidate], candidate.time, error, Abs(error), confidence, NoSample, false)
  }

  function LinearCell(exact: Option<TimedRow>, before: Option<TimedRow>, after: Option<TimedRow>, t: int,
                      r: Recipe): Cell {
    if exact.Some? then SourceCell(exact.value, t, r)
    else if before.None? || after.None? then Missing(NoLinearBracket)
    else
      var left, right := Abs(t - before.value.time), Abs(after.value.time - t);
      if r.tolerance.Some? && (left > r.tolerance.value || right > r.tolerance.value) then
        OutOfTolerance(if left <= right then before.value else after.value, if left >= right then left else right)
      else Aligned([before.value, after.value], t, 0, 0, 1.0, NoSample, false)
  }

  function AlignCell(rows: seq<TimedRow>, method_: Interpolation, t: int, r: Recipe): Cell {
    if rows == [] then Missing(StreamMissing)
    else match method_ {
      case Previous =>
        var candidate := PreviousRow(rows, t);
        if candidate.None? then Missing(NoPreviousSample) else SourceCell(candidate.value, t, r)
      case Linear => LinearCell(ExactRow(rows, t), BeforeRow(rows, t), AfterRow(rows, t), t, r)
      case Nearest => SourceCell(NearestRow(rows, t), t, r)
    }
  }

  /** What an aligned cell of a linear bracket, or of one source, rests on. */
  ghost predicate RestsWithin(cell: Cell, rows: seq<TimedRow>, t: int, bound: nat) {
    cell.Aligned? ==>
      && 1 <= |cell.sources| <= 2
      && (forall x <- cell.sources :: x in rows && Abs(x.time - t) <= bound)
      && (|cell.sources| == 2 ==> cell.sources[0].time < t < cell.sources[1].time)
  }

  lemma LinearRestsWithin(rows: seq<TimedRow>, t: int, r: Recipe)
    requires SortedBy(rows, TimedLe) && r.tolerance.Some?
    ensures RestsWithin(LinearCell(ExactRow(rows, t), BeforeRow(rows, t), AfterRow(rows, t), t, r), rows, t,
                        r.tolerance.value)
  {
  }

  lemma SourceRestsWithin(x: TimedRow, rows: seq<TimedRow>, t: int, r: Recipe)
    requires x in rows && r.tolerance.Some?
    ensures RestsWithin(SourceCell(x, t, r), rows, t, r.tolerance.value)
  {
  }

  lemma PreviousRestsWithin(rows: seq<TimedRow>, t: int, r: Recipe)
    requires rows != [] && r.tolerance.Some?
    ensures RestsWithin(AlignCell(rows, Previous, t, r), rows, t, r.tolerance.value)
  {
    var candidate := PreviousRow(rows, t);
    if candidate.Some? {
      SourceRestsWithin(candidate.value, rows, t, r);
    }
  }

  /** With a tolerance, no aligned cell rests on a source outside it: one source, or
      both sources of a linear bracket. */
  lemma AlignedSourcesWithinTolerance(rows: seq<TimedRow>, method_: Interpolation, t: int, r: Recipe)
    requires SortedBy(rows, TimedLe) && r.tolerance.Some?
    ensures var cell := AlignCell(rows, method_, t, r);
            cell.Aligned? ==>
              && 1 <= |cell.sources| <= 2
              && (forall x <- cell.sources :: x in rows && Abs(x.time - t) <= r.tolerance.value)
              && (|cell.sources| == 2 ==> cell.sources[0].time < t < cell.sources[1].time)
  {
    if rows != [] {
      match method_
      case Previous => PreviousRestsWithin(rows, t, r);
      case Nearest => SourceRestsWithin(NearestRow(rows, t), rows, t, r);
      case Linear => LinearRestsWithin(rows, t, r);
      assert RestsWithin(AlignCell(rows, method_, t, r), rows, t, r.tolerance.value);
    }
  }

  // ---------------------------------------------------------- stream statistics

  /** `sourceErrors` is the full list on the in-memory path and `None` on the
      streaming path, which keeps only the running count, sum and maximum. */
  datatype StreamStats = StreamStats(
    observations: nat, alignedCount: nat, missingCount: nat, toleranceExceeded: nat,
    sourceErrors: Option<seq<nat>>, errorCount: nat, errorSum: nat, maxError: Option<nat>,
    medianInterval: Option<int>, droppedFrames: nat, latencyDrift: int, driftDetected: bool)

  function Max(a: int, b: int): int { if a >= b then a else b }
  function Min(a: int, b: int): int { if a <= b then a else b }

  function RecordError(st: StreamStats, absoluteError: nat): StreamStats {
    st.(sourceErrors := match st.sourceErrors { case None => None case Some(es) => Some(es + [absoluteError]) },
        errorCount := st.errorCount + 1,
        errorSum := st.errorSum + absoluteError,
        maxError := Some(match st.maxError { case None => absoluteError case Some(m) => Max(m, absoluteError) }))
  }

  function Record(st: StreamStats, cell: Cell): StreamStats {
    match cell
    case Missing(_) => st.(missingCount := st.missingCount + 1)
    case OutOfTolerance(_, _) =>
      st.(missingCount := st.missingCount + 1, toleranceExceeded := st.toleranceExceeded + 1)
    case Aligned(_, _, _, absoluteError, _, _, _) =>
      RecordError(st, absoluteError).(alignedCount := st.alignedCount + 1)
  }

  function RecordAll(stats: seq<StreamStats>, cells: seq<Cell>): (after: seq<StreamStats>)
    requires |stats| == |cells|
    ensures |after| == |stats|
  {
    seq(|stats|, i requires 0 <= i < |stats| => Record(stats[i], cells[i]))
  }

  datatype AlignedRow = AlignedRow(index: nat, timestamp: int, cells: seq<Cell>, flags: set<(nat, Reason)>,
                                   confidence: real)

  function CellConfidence(cell: Cell): real {
    if cell.Aligned? then cell.confidence else 0.0
  }

  function CellReasons(cell: Cell): set<Reason> {
    match cell
    case Missing(reason) => {reason}
    case OutOfTolerance(_, _) => {ToleranceExceeded}
    case Aligned(_, _, _, _, _, _, missing) => if missing then {LinearValueMissing} else {}
  }

  function RowFlags(cells: seq<Cell>): set<(nat, Reason)> {
    set i: nat, reason | i < |cells| && reason in CellReasons(cells[i]) :: (i, reason)
  }

  function MinConfidence(cells: seq<Cell>): real {
    if cells == [] then 0.0
    else
      var last := CellConfidence(cells[|cells| - 1]);
      var rest := MinConfidence(cells[..|cells| - 1]);
      if |cells| == 1 || last < rest then last else rest
  }

  /** The row of one tick, before values are read. */
  function TickRow(rowsByStream: seq<seq<TimedRow>>, r: Recipe, index: nat, t: int): AlignedRow
    requires |rowsByStream| == |r.streams|
  {
    var cells := seq(|r.streams|, i requires 0 <= i < |r.streams| =>
      AlignCell(rowsByStream[i], r.streams[i].interpolation, t, r));
    AlignedRow(index, t, cells, RowFlags(cells), MinConfidence(cells))
  }

  /** The `stats` dictionary of a view under construction, one entry per stream. */
  class StatsTable {
    var stats: seq<StreamStats>

    constructor (initial: seq<StreamStats>)
      ensures stats == initial
    {
      stats := initial;
    }

    method RecordSourceError(stream: nat, absoluteError: nat)
      requires stream < |stats|
      modifies this
      ensures stats == old(stats)[stream := RecordError(old(stats)[stream], absoluteError)]
    {
      var st := stats[stream];
      if st.sourceErrors.Some? {
        st := st.(sourceErrors := Some(st.sourceErrors.value + [absoluteError]));
      }
      st := st.(errorCount := st.errorCount + 1, errorSum := st.errorSum + absoluteError);
      var currentMax := st.maxError;
      st := st.(maxError := if currentMax.None? then Some(absoluteError)
                            else Some(Max(currentMax.value, absoluteError)));
      stats := stats[stream := st];
    }

    method CountMissing(stream: nat, toleranceExceeded: bool)
      requires stream < |stats|
      modifies this
      ensures stats == old(stats)[stream := old(stats)[stream].(
                missingCount := old(stats)[stream].missingCount + 1,
                toleranceExceeded := old(stats)[stream].toleranceExceeded + if toleranceExceeded then 1 else 0)]
    {
      var st := stats[stream];
      st := st.(missingCount := st.missingCount + 1);
      if toleranceExceeded {
        st := st.(toleranceExceeded := st.toleranceExceeded + 1);
      }
      stats := stats[stream := st];
    }

    method SourceResult(stream: nat, candidate: TimedRow, t: int, r: Recipe) returns (cell: Cell)
      requires stream < |stats|
      modifies this
      ensures cell == SourceCell(candidate, t, r)
      ensures cell.Aligned? <==>
                (r.tolerance.Some? ==> t - r.tolerance.value <= candidate.time <= t + r.tolerance.value)
      ensures cell.Aligned? ==> cell.sources == [candidate] && cell.sourceTime == candidate.time == t + cell.error
      ensures stats == old(stats)[stream := Record(old(stats)[stream], cell)]
    {
      var error := candidate.time - t;
      var absoluteError := Abs(error);
      if r.tolerance.Some? && absoluteError > r.tolerance.value {
        CountMissing(stream, true);
        return OutOfTolerance(candidate, absoluteError);
      }
      stats := stats[stream := stats[stream].(alignedCount := stats[stream].alignedCount + 1)];
      RecordSourceError(stream, absoluteError);
      return Aligned([candidate], candidate.time, error, absoluteError,
                     Confidence(absoluteError, r.tolerance, r.step), NoSample, false);
    }

    method AlignOneStream(stream: nat, t: int, rows: seq<TimedRow>, r: Recipe) returns (cell: Cell)
      requires stream < |stats| == |r.streams| && SortedBy(rows, TimedLe)
      modifies this
      ensures cell == AlignCell(rows, r.streams[stream].interpolation, t, r)
      ensures stats == old(stats)[stream := Record(old(stats)[stream], cell)]
    {
      if rows == [] {
        CountMissing(stream, false);
        return Missing(StreamMissing);
      }
      match r.streams[stream].interpolation {
        case Previous =>
          var candidate := FindPrevious(rows, t);
          if candidate.None? {
            CountMissing(stream, false);
            return Missing(NoPreviousSample);
          }
          cell := SourceResult(stream, candidate.value, t, r);
        case Linear =>
          var exact := FindExact(rows, t);
          if exact.Some? {
            cell := SourceResult(stream, exact.value, t, r);
            return;
          }
          var before, after := FindBracket(rows, t);
          if before.None? || after.None? {
            CountMissing(stream, false);
            return Missing(NoLinearBracket);
          }
          var left, right := Abs(t - before.value.time), Abs(after.value.time - t);
          if r.tolerance.Some? && (left > r.tolerance.value || right > r.tolerance.value) {
            CountMissing(stream, true);
            return OutOfTolerance(if left <= right then before.value else after.value, Max(left, right));
          }
          stats := stats[stream := stats[stream].(alignedCount := stats[stream].alignedCount + 1)];
          RecordSourceError(stream, 0);
          return Aligned([before.value, after.value], t, 0, 0, 1.0, NoSample, false);
        case Nearest =>
          var candidate := FindNearest(rows, t);
          cell := SourceResult(stream, candidate, t, r);
      }
    }

    /** One tick over every stream: the row, and every stream's statistics. */
    method AlignTick(rowsByStream: seq<seq<TimedRow>>, r: Recipe, index: nat, t: int) returns (row: AlignedRow)
      requires |stats| == |r.streams| == |rowsByStream|
      requires forall rows <- rowsByStream :: SortedBy(rows, TimedLe)
      modifies this
      ensures row == TickRow(rowsByStream, r, index, t)
      ensures stats == RecordAll(old(stats), row.cells)
    {
      ghost var spec := TickRow(rowsByStream, r, index, t);
      var cells: seq<Cell> := [];
      for i := 0 to |r.streams|
        invariant |stats| == |r.streams| && cells == spec.cells[..i]
        invariant forall k :: 0 <= k < i ==> stats[k] == Record(old(stats)[k], cells[k])
        invariant forall k :: i <= k < |stats| ==> stats[k] == old(stats)[k]
      {
        var cell := AlignOneStream(i, t, rowsByStream[i], r);
        cells := cells + [cell];
      }
      assert cells == spec.cells;
      row := AlignedRow(index, t, cells, RowFlags(cells), MinConfidence(cells));
    }
  }

  // ----------------------------------------------------------- whole-view laws

  /** What a stream's statistics become over the rows of a view. */
  function FoldStream(st: StreamStats, rows: seq<AlignedRow>, stream: nat): StreamStats
    requires forall row <- rows :: stream < |row.cells|
  {
    if rows == [] then st
    else Record(FoldStream(st, rows[..|rows| - 1], stream), rows[|rows| - 1].cells[stream])
  }

  function CellErrors(cell: Cell): seq<int> {
    if cell.Aligned? then [cell.absoluteError] else []
  }

  function ColumnErrors(rows: seq<AlignedRow>, stream: nat): seq<int>
    requires forall row <- rows :: stream < |row.cells|
  {
    if rows == [] then []
    else ColumnErrors(rows[..|rows| - 1], stream) + CellErrors(rows[|rows| - 1].cells[stream])
  }

  /** How many of a stream's cells are out of tolerance. */
  function ColumnExceeded(rows: seq<AlignedRow>, stream: nat): nat
    requires forall row <- rows :: stream < |row.cells|
  {
    if rows == [] then 0
    else
      ColumnExceeded(rows[..|rows| - 1], stream) + if rows[|rows| - 1].cells[stream].OutOfTolerance? then 1 else 0
  }

  function MaxOf(xs: seq<int>): (m: int)
    requires xs != []
    ensures m in xs && forall x <- xs :: x <= m
  {
    var last := xs[|xs| - 1];
    if |xs| == 1 then last
    else
      assert xs == xs[..|xs| - 1] + [last];
      Max(MaxOf(xs[..|xs| - 1]), last)
  }

  function MinOf(xs: seq<int>): (m: int)
    requires xs != []
    ensures m in xs && forall x <- xs :: m <= x
  {
    var last := xs[|xs| - 1];
    if |xs| == 1 then last
    else
      assert xs == xs[..|xs| - 1] + [last];
      Min(MinOf(xs[..|xs| - 1]), last)
  }

  /** Counters that have seen no tick yet. */
  predicate Fresh(st: StreamStats) {
    && st.alignedCount == st.missingCount == st.toleranceExceeded == st.errorCount == st.errorSum == 0
    && st.maxError == None && st.sourceErrors in {None, Some([])}
  }

  /** The statistics `end` of a stream after `ticks` ticks, `exceeded` of them out of tolerance,
      whose aligned cells had the given absolute errors. */
  ghost predicate AccountsFor(start: StreamStats, end: StreamStats, ticks: nat, exceeded: nat, errors: seq<int>) {
    && end.alignedCount + end.missingCount == ticks
    && end.toleranceExceeded == exceeded <= end.missingCount
    && end.errorCount == end.alignedCount == |errors|
    && end.errorSum == Sum(errors)
    && (end.maxError == if errors == [] then None else Some(MaxOf(errors)))
    && (start.sourceErrors.Some? ==> end.sourceErrors.Some? && end.sourceErrors.value == errors)
    && (start.sourceErrors.None? ==> end.sourceErrors.None?)
    && end.observations == start.observations && end.medianInterval == start.medianInterval
    && end.droppedFrames == start.droppedFrames
    && end.latencyDrift == start.latencyDrift && end.driftDetected == start.driftDetected
  }

  lemma RecordAccounts(start: StreamStats, end: StreamStats, ticks: nat, exceeded: nat, errors: seq<int>, cell: Cell)
    requires AccountsFor(start, end, ticks, exceeded, errors)
    ensures AccountsFor(start, Record(end, cell), ticks + 1, exceeded + if cell.OutOfTolerance? then 1 else 0,
                        errors + CellErrors(cell))
  {
    if cell.Aligned? {
      var all := errors + [cell.absoluteError];
      assert all[..|all| - 1] == errors;
    } else {
      assert errors + [] == errors;
    }
  }

  /** Every tick is counted once as aligned or missing, a tolerance miss is a missing
      tick, and the running error count, sum and maximum are those of the error list,
      which the in-memory path also keeps in full. */
  lemma {:induction false} StatsAccountForEveryTick(st: StreamStats, rows: seq<AlignedRow>, stream: nat)
    requires Fresh(st)
    requires forall row <- rows :: stream < |row.cells|
    ensures AccountsFor(st, FoldStream(st, rows, stream), |rows|, ColumnExceeded(rows, stream),
                        ColumnErrors(rows, stream))
  {
    if rows != [] {
      var before := rows[..|rows| - 1];
      StatsAccountForEveryTick(st, before, stream);
      RecordAccounts(st, FoldStream(st, before, stream), |before|, ColumnExceeded(before, stream),
                     ColumnErrors(before, stream), rows[|rows| - 1].cells[stream]);
    }
  }
}
