/** Exactly when the streaming view and the in-memory view of one table differ. */
module AlignmentDifferences {
  import opened Ordering
  import opened Alignment
  import opened SegmentAgreement
  import opened CellPromises
  import opened SegmentScan
  import opened StreamStatistics
  import opened AlignmentViews

  // ---------------------------------------------- rows without the clock column

  function Picked(row: Option<TimedRow>): seq<TimedRow> { if row.Some? then [row.value] else [] }

  function LinearPicks(exact: Option<TimedRow>, before: Option<TimedRow>, after: Option<TimedRow>): seq<TimedRow> {
    if exact.Some? then [exact.value] else if before.Some? && after.Some? then [before.value, after.value] else []
  }

  /** The rows of a stream that decide its cell at `t`. */
  function Picks(rows: seq<TimedRow>, m: Interpolation, t: int): seq<TimedRow> {
    match m
    case Previous => Picked(PreviousRow(rows, t))
    case Nearest => if rows == [] then [] else [NearestRow(rows, t)]
    case Linear => LinearPicks(ExactRow(rows, t), BeforeRow(rows, t), AfterRow(rows, t))
  }

  /** Part of a stream has a row wherever the whole stream picks one. */
  ghost predicate KeepsPicks(seg: seq<TimedRow>, full: seq<TimedRow>, m: Interpolation, t: int) {
    (seg == [] ==> full == []) && forall x <- Picks(full, m, t) :: HasTime(seg, x.time)
  }

  ghost predicate PartOf(seg: seq<TimedRow>, full: seq<TimedRow>) {
    SortedBy(seg, TimedLe) && SortedBy(full, TimedLe) && forall x <- seg :: x in full
  }

  /** A pick of the part against the pick of the whole. */
  ghost predicate PicksMatch(seg: seq<TimedRow>, a: Option<TimedRow>, b: Option<TimedRow>) {
    && (a.Some? ==> b.Some? && HasTime(seg, a.value.time))
    && (b.Some? && HasTime(seg, b.value.time) ==> a.Some? && a.value.time == b.value.time)
  }

  lemma PreviousMatches(seg: seq<TimedRow>, full: seq<TimedRow>, t: int)
    requires PartOf(seg, full)
    ensures PicksMatch(seg, PreviousRow(seg, t), PreviousRow(full, t))
  {
    PreviousIsLatest(seg, t);
    PreviousIsLatest(full, t);
  }

  lemma AfterMatches(seg: seq<TimedRow>, full: seq<TimedRow>, t: int)
    requires PartOf(seg, full)
    ensures PicksMatch(seg, AfterRow(seg, t), AfterRow(full, t))
  {
    AfterIsEarliest(seg, t);
    AfterIsEarliest(full, t);
  }

  lemma ExactMatches(seg: seq<TimedRow>, full: seq<TimedRow>, t: int)
    requires PartOf(seg, full)
    ensures PicksMatch(seg, ExactRow(seg, t), ExactRow(full, t))
    ensures ExactRow(full, t).Some? ==> ExactRow(full, t).value.time == t
    ensures ExactRow(seg, t).Some? ==> ExactRow(seg, t).value.time == t
  {
    ExactIsFound(seg, t);
    ExactIsFound(full, t);
  }

  lemma NearestMatches(seg: seq<TimedRow>, full: seq<TimedRow>, t: int)
    requires PartOf(seg, full) && seg != [] && full != []
    ensures PicksMatch(seg, Some(NearestRow(seg, t)), Some(NearestRow(full, t)))
  {
    var a, b := NearestRow(seg, t), NearestRow(full, t);
    if HasTime(seg, b.time) {
      var y :| y in seg && y.time == b.time;
      assert !Closer(y, a, t) && !Closer(a, b, t);
    }
  }

  /** The view of a cell gives away the time of its one source. */
  lemma SourceCellShowsTime(a: TimedRow, b: TimedRow, t: int, r: Recipe)
    ensures ViewOf(SourceCell(a, t, r)) == ViewOf(SourceCell(b, t, r)) <==> a.time == b.time
  {
    if a.time == b.time {
      SourceCellAgrees(a, b, t, r);
    }
  }

  lemma BracketShowsTimes(before: TimedRow, after: TimedRow, before': TimedRow, after': TimedRow, t: int, r: Recipe)
    requires before.time < t < after.time && before'.time < t < after'.time
    ensures ViewOf(LinearCell(None, Some(before), Some(after), t, r))
            == ViewOf(LinearCell(None, Some(before'), Some(after'), t, r))
       <==> before.time == before'.time && after.time == after'.time
  {
    var a, b := LinearCell(None, Some(before), Some(after), t, r), LinearCell(None, Some(before'), Some(after'), t, r);
    if a.Aligned? && b.Aligned? && ViewOf(a) == ViewOf(b) {
      assert Times(a.sources)[0] == Times(b.sources)[0] && Times(a.sources)[1] == Times(b.sources)[1];
    }
    if before.time == before'.time && after.time == after'.time {
      BracketsAgree(before, after, before', after', t, r);
    }
  }

  lemma BracketIsNotExact(before: TimedRow, after: TimedRow, x: TimedRow, t: int, r: Recipe)
    requires before.time < t < after.time && x.time == t
    ensures ViewOf(LinearCell(None, Some(before), Some(after), t, r)) != ViewOf(SourceCell(x, t, r))
  {
    var a, b := LinearCell(None, Some(before), Some(after), t, r), SourceCell(x, t, r);
    if a.Aligned? {
      assert |Times(a.sources)| == 2 && |Times(b.sources)| == 1;
    }
  }

  lemma PreviousCellsExactly(seg: seq<TimedRow>, full: seq<TimedRow>, t: int, r: Recipe)
    requires PartOf(seg, full) && seg != [] && full != []
    ensures ViewOf(AlignCell(seg, Previous, t, r)) == ViewOf(AlignCell(full, Previous, t, r))
       <==> KeepsPicks(seg, full, Previous, t)
  {
    PreviousMatches(seg, full, t);
    var a, b := PreviousRow(seg, t), PreviousRow(full, t);
    if a.Some? && b.Some? {
      SourceCellShowsTime(a.value, b.value, t, r);
    }
  }

  lemma NearestCellsExactly(seg: seq<TimedRow>, full: seq<TimedRow>, t: int, r: Recipe)
    requires PartOf(seg, full) && seg != [] && full != []
    ensures ViewOf(AlignCell(seg, Nearest, t, r)) == ViewOf(AlignCell(full, Nearest, t, r))
       <==> KeepsPicks(seg, full, Nearest, t)
  {
    NearestMatches(seg, full, t);
    SourceCellShowsTime(NearestRow(seg, t), NearestRow(full, t), t, r);
  }

  lemma LinearCellsExactly(seg: seq<TimedRow>, full: seq<TimedRow>, t: int, r: Recipe)
    requires PartOf(seg, full) && seg != [] && full != []
    ensures ViewOf(AlignCell(seg, Linear, t, r)) == ViewOf(AlignCell(full, Linear, t, r))
       <==> KeepsPicks(seg, full, Linear, t)
  {
    ExactMatches(seg, full, t);
    PreviousMatches(seg, full, t - 1);
    AfterMatches(seg, full, t);
    BracketSides(seg, t);
    BracketSides(full, t);
    LinearPicksExactly(seg, ExactRow(seg, t), BeforeRow(seg, t), AfterRow(seg, t),
                       ExactRow(full, t), BeforeRow(full, t), AfterRow(full, t), t, r);
  }

  lemma BracketSides(rows: seq<TimedRow>, t: int)
    ensures BeforeRow(rows, t).Some? ==> BeforeRow(rows, t).value.time < t
    ensures AfterRow(rows, t).Some? ==> AfterRow(rows, t).value.time > t
  {
  }

  lemma LinearPicksExactly(seg: seq<TimedRow>, exact: Option<TimedRow>, before: Option<TimedRow>,
                           after: Option<TimedRow>,
                           exact': Option<TimedRow>, before': Option<TimedRow>, after': Option<TimedRow>, t: int,
                           r: Recipe)
    requires PicksMatch(seg, exact, exact') && PicksMatch(seg, before, before') && PicksMatch(seg, after, after')
    requires (exact.Some? ==> exact.value.time == t) && (exact'.Some? ==> exact'.value.time == t)
    requires (before.Some? ==> before.value.time < t) && (before'.Some? ==> before'.value.time < t)
    requires (after.Some? ==> after.value.time > t) && (after'.Some? ==> after'.value.time > t)
    ensures ViewOf(LinearCell(exact, before, after, t, r)) == ViewOf(LinearCell(exact', before', after', t, r))
       <==> forall x <- LinearPicks(exact', before', after') :: HasTime(seg, x.time)
  {
    if exact'.Some? {
      assert LinearPicks(exact', before', after')[0] == exact'.value;
      if exact.Some? {
        SourceCellShowsTime(exact.value, exact'.value, t, r);
      } else if before.Some? && after.Some? {
        BracketIsNotExact(before.value, after.value, exact'.value, t, r);
      }
    } else if before'.Some? && after'.Some? {
      var picks := LinearPicks(exact', before', after');
      assert picks[0] == before'.value && picks[1] == after'.value;
      if before.Some? && after.Some? {
        BracketShowsTimes(before.value, after.value, before'.value, after'.value, t, r);
      }
    }
  }

  /** A cell over part of a stream shows the same status, times, error and confidence as over
      the whole exactly when the part has a row at every time the whole picks. */
  lemma CellsAgreeExactly(seg: seq<TimedRow>, full: seq<TimedRow>, m: Interpolation, t: int, r: Recipe)
    requires PartOf(seg, full)
    ensures ViewOf(AlignCell(seg, m, t, r)) == ViewOf(AlignCell(full, m, t, r)) <==> KeepsPicks(seg, full, m, t)
  {
    if seg != [] {
      assert seg[0] in full;
      match m
      case Previous => PreviousCellsExactly(seg, full, t, r);
      case Nearest => NearestCellsExactly(seg, full, t, r);
      case Linear => LinearCellsExactly(seg, full, t, r);
    }
  }

  lemma PicksAreRowsAt(rows: seq<TimedRow>, m: Interpolation, t: int)
    requires SortedBy(rows, TimedLe)
    ensures forall x <- Picks(rows, m, t) :: x in rows
  {
    PicksAreRows(rows, t);
  }

  lemma PicksItsOwnTime(rows: seq<TimedRow>, m: Interpolation, x: TimedRow)
    requires SortedBy(rows, TimedLe) && x in rows
    ensures exists y <- Picks(rows, m, x.time) :: y.time == x.time
  {
    PreviousIsLatest(rows, x.time);
    ExactIsFound(rows, x.time);
    assert !Closer(x, NearestRow(rows, x.time), x.time);
    assert Picks(rows, m, x.time)[0].time == x.time;
  }

  /** At every tick: exactly when the part has a row at every time of the whole. */
  lemma CellsAgreeAtEveryTickExactly(seg: seq<TimedRow>, full: seq<TimedRow>, m: Interpolation, r: Recipe)
    requires PartOf(seg, full)
    ensures (forall t: int :: ViewOf(AlignCell(seg, m, t, r)) == ViewOf(AlignCell(full, m, t, r)))
       <==> forall x <- full :: HasTime(seg, x.time)
  {
    if forall x <- full :: HasTime(seg, x.time) {
      assert seg == [] && full != [] ==> HasTime(seg, full[0].time);
      forall t: int ensures ViewOf(AlignCell(seg, m, t, r)) == ViewOf(AlignCell(full, m, t, r)) {
        PicksAreRowsAt(full, m, t);
        CellsAgreeExactly(seg, full, m, t, r);
      }
    }
    forall x | x in full && forall t: int :: ViewOf(AlignCell(seg, m, t, r)) == ViewOf(AlignCell(full, m, t, r))
      ensures HasTime(seg, x.time)
    {
      CellsAgreeExactly(seg, full, m, x.time, r);
      PicksItsOwnTime(full, m, x);
    }
  }

  // ---------------------------------------------------------------- whole tables

  lemma ClockedIsPart(table: seq<Observation>, r: Recipe, k: nat)
    requires k < |r.streams|
    ensures PartOf(RowsByStream(Clocked(table, r.clock), r)[k], RowsByStream(table, r)[k])
  {
    TimedRowsContents(Clocked(table, r.clock), r.clock, r.streams[k]);
    TimedRowsContents(table, r.clock, r.streams[k]);
  }

  ghost predicate PicksClockedIn(table: seq<Observation>, r: Recipe, k: nat, t: int)
    requires k < |r.streams|
  {
    KeepsPicks(RowsByStream(Clocked(table, r.clock), r)[k], RowsByStream(table, r)[k], r.streams[k].interpolation, t)
  }

  /** At `t`, the rows with their clock column set have one wherever a stream picks one. */
  ghost predicate PicksClocked(table: seq<Observation>, r: Recipe, t: int) {
    forall k :: 0 <= k < |r.streams| ==> PicksClockedIn(table, r, k, t)
  }

  lemma RowViewsAgreeExactly(a: AlignedRow, b: AlignedRow)
    requires a.index == b.index && a.timestamp == b.timestamp && |a.cells| == |b.cells|
    requires a.confidence == MinConfidence(a.cells) && b.confidence == MinConfidence(b.cells)
    ensures ViewOfRow(a) == ViewOfRow(b) <==> forall k :: 0 <= k < |a.cells| ==>
              ViewOf(a.cells[k]) == ViewOf(b.cells[k])
  {
    if forall k :: 0 <= k < |a.cells| ==> ViewOf(a.cells[k]) == ViewOf(b.cells[k]) {
      assert Map(a.cells, ViewOf) == Map(b.cells, ViewOf);
      MinConfidenceAgrees(a.cells, b.cells);
    }
    forall k | 0 <= k < |a.cells| && ViewOfRow(a) == ViewOfRow(b) ensures ViewOf(a.cells[k]) == ViewOf(b.cells[k]) {
      assert ViewOf(a.cells[k]) == ViewOfRow(a).cells[k] == ViewOfRow(b).cells[k];
    }
  }

  lemma RowsAgreeExactly(table: seq<Observation>, r: Recipe, index: nat, t: int)
    ensures ViewOfRow(ViewRow(Clocked(table, r.clock), r, index, t)) == ViewOfRow(ViewRow(table, r, index, t))
       <==> PicksClocked(table, r, t)
  {
    var segs, fulls := RowsByStream(Clocked(table, r.clock), r), RowsByStream(table, r);
    var a, b := TickRow(segs, r, index, t), TickRow(fulls, r, index, t);
    RowViewsAgreeExactly(a, b);
    forall k | 0 <= k < |r.streams|
      ensures ViewOf(a.cells[k]) == ViewOf(b.cells[k]) <==> PicksClockedIn(table, r, k, t)
    {
      ClockedIsPart(table, r, k);
      CellsAgreeExactly(segs[k], fulls[k], r.streams[k].interpolation, t, r);
    }
  }

  /** The streaming path's rows show the in-memory view of the whole table exactly when, at
      each tick and for each stream, a clocked row stands wherever a row is picked. */
  lemma StoredViewAgreesExactly(rows: seq<AlignedRow>, table: seq<Observation>, r: Recipe, ticks: seq<int>,
                                how: Sameness)
    requires Reproduces(rows, Clocked(table, r.clock), r, 0, ticks, how)
    ensures SameView(rows, ViewRows(table, r, 0, ticks), false) <==> forall t <- ticks :: PicksClocked(table, r, t)
  {
    var full := ViewRows(table, r, 0, ticks);
    forall j | 0 <= j < |ticks| ensures ViewOfRow(rows[j]) == ViewOfRow(full[j]) <==> PicksClocked(table, r, ticks[j]) {
      RowsAgreeExactly(table, r, j, ticks[j]);
      assert ViewOfRow(rows[j]) == ViewOfRow(ViewRows(Clocked(table, r.clock), r, 0, ticks)[j]);
    }
  }

  /** The stream has a clocked row at this corrected time. */
  ghost predicate ClockedAt(table: seq<Observation>, clock: Clock, s: StreamSpec, time: int) {
    exists p <- table :: Matches(p, s) && ClockColumn(p, clock).Some? && TimeOf(p, clock, s) == time
  }

  /** Every row of a stream that falls back to its source time has a clocked row beside it. */
  ghost predicate FallbacksShadowed(table: seq<Observation>, clock: Clock, s: StreamSpec) {
    forall o <- table :: InStream(o, clock, s) && ClockColumn(o, clock).None? ==>
      ClockedAt(table, clock, s, TimeOf(o, clock, s))
  }

  lemma ClockedTimes(table: seq<Observation>, clock: Clock, s: StreamSpec, time: int)
    ensures HasTime(TimedRows(Clocked(table, clock), clock, s), time) <==> ClockedAt(table, clock, s, time)
  {
    var clocked := Clocked(table, clock);
    var seg := TimedRows(clocked, clock, s);
    TimedRowsContents(clocked, clock, s);
    if HasTime(seg, time) {
      var x :| x in seg && x.time == time;
      assert x.obs in table && ClockColumn(x.obs, clock).Some?;
    }
    if ClockedAt(table, clock, s, time) {
      var p :| p in table && Matches(p, s) && ClockColumn(p, clock).Some? && TimeOf(p, clock, s) == time;
      assert TimedRow(time, p) in seg;
    }
  }

  lemma ShadowedTimes(table: seq<Observation>, clock: Clock, s: StreamSpec)
    ensures (forall x <- TimedRows(table, clock, s) :: HasTime(TimedRows(Clocked(table, clock), clock, s), x.time))
       <==> FallbacksShadowed(table, clock, s)
  {
    var full := TimedRows(table, clock, s);
    TimedRowsContents(table, clock, s);
    forall x | x in full
      ensures HasTime(TimedRows(Clocked(table, clock), clock, s), x.time) <==> ClockedAt(table, clock, s, x.time)
    {
      ClockedTimes(table, clock, s, x.time);
    }
    forall o | o in table && InStream(o, clock, s) ensures TimedRow(TimeOf(o, clock, s), o) in full {
    }
  }

  ghost predicate PicksAlwaysClocked(table: seq<Observation>, r: Recipe, k: nat)
    requires k < |r.streams|
  {
    forall t: int :: PicksClockedIn(table, r, k, t)
  }

  ghost predicate ViewsAgreeAt(table: seq<Observation>, r: Recipe, t: int) {
    ViewOfRow(ViewRow(Clocked(table, r.clock), r, 0, t)) == ViewOfRow(ViewRow(table, r, 0, t))
  }

  lemma AgreeingViewsAreClocked(table: seq<Observation>, r: Recipe, k: nat)
    requires k < |r.streams| && forall t: int :: ViewsAgreeAt(table, r, t)
    ensures PicksAlwaysClocked(table, r, k)
  {
    forall t: int ensures PicksClockedIn(table, r, k, t) {
      assert ViewsAgreeAt(table, r, t);
      RowsAgreeExactly(table, r, 0, t);
    }
  }

  lemma ClockedPicksAgree(table: seq<Observation>, r: Recipe, t: int)
    requires forall k :: 0 <= k < |r.streams| ==> PicksAlwaysClocked(table, r, k)
    ensures ViewsAgreeAt(table, r, t)
  {
    forall k | 0 <= k < |r.streams| ensures PicksClockedIn(table, r, k, t) {
      assert PicksAlwaysClocked(table, r, k);
    }
    RowsAgreeExactly(table, r, 0, t);
  }

  /** Both views of a table agree at every tick, whatever the methods and tolerance, exactly
      when every row that falls back is shadowed. */
  lemma ViewsAgreeAtEveryTickExactly(table: seq<Observation>, r: Recipe)
    ensures (forall t: int :: ViewsAgreeAt(table, r, t))
       <==> forall s <- r.streams :: FallbacksShadowed(table, r.clock, s)
  {
    if forall t: int :: ViewsAgreeAt(table, r, t) {
      forall k | 0 <= k < |r.streams| ensures FallbacksShadowed(table, r.clock, r.streams[k]) {
        AgreeingViewsAreClocked(table, r, k);
        StreamAgreesExactly(table, r, k);
      }
    }
    if forall s <- r.streams :: FallbacksShadowed(table, r.clock, s) {
      forall k | 0 <= k < |r.streams| ensures PicksAlwaysClocked(table, r, k) {
        assert r.streams[k] in r.streams;
        StreamAgreesExactly(table, r, k);
      }
      forall t: int ensures ViewsAgreeAt(table, r, t) {
        ClockedPicksAgree(table, r, t);
      }
    }
  }

  lemma StreamAgreesExactly(table: seq<Observation>, r: Recipe, k: nat)
    requires k < |r.streams|
    ensures PicksAlwaysClocked(table, r, k) <==> FallbacksShadowed(table, r.clock, r.streams[k])
  {
    var m := r.streams[k].interpolation;
    var seg, full := RowsByStream(Clocked(table, r.clock), r)[k], RowsByStream(table, r)[k];
    ClockedIsPart(table, r, k);
    ShadowedTimes(table, r.clock, r.streams[k]);
    CellsAgreeAtEveryTickExactly(seg, full, m, r);
    forall t: int
      ensures PicksClockedIn(table, r, k, t) <==> ViewOf(AlignCell(seg, m, t, r)) == ViewOf(AlignCell(full, m, t, r))
    {
      CellsAgreeExactly(seg, full, m, t, r);
    }
  }

  /** Where every stream's own rows have their clock column set, leaving out the rest of the
      table changes nothing. */
  lemma OtherRowsDoNotMatter(table: seq<Observation>, r: Recipe)
    requires forall s <- r.streams :: StreamClocked(table, r.clock, s)
    ensures RowsByStream(Clocked(table, r.clock), r) == RowsByStream(table, r)
  {
    var clock := r.clock;
    forall k | 0 <= k < |r.streams|
      ensures TimedRows(Clocked(table, clock), clock, r.streams[k]) == TimedRows(table, clock, r.streams[k])
    {
      var s := r.streams[k];
      assert s in r.streams;
      FilterFilter(table, HasClock(clock), Selecting(clock, s), Selecting(clock, s));
    }
  }

  /** A row whose receive time is unset falls back to its source time in memory, but no bounded
      read returns it: on the receive clock the views of this one row differ. */
  lemma UnsetClockChangesTheView()
    ensures var o := Observation(0, Some(10), None, 0, 0, {"cam"}, NoSample);
            var r := Recipe(RawLogTimeNs, [StreamSpec("cam", Nearest, 0)], None, 1);
            ViewOfRow(ViewRow([o], r, 0, 10)) != ViewOfRow(ViewRow(Clocked([o], r.clock), r, 0, 10))
  {
    var o := Observation(0, Some(10), None, 0, 0, {"cam"}, NoSample);
    var s := StreamSpec("cam", Nearest, 0);
    var r := Recipe(RawLogTimeNs, [s], None, 1);
    TimedRowsContents([o], r.clock, s);
    var full := RowsByStream([o], r)[0];
    assert TimedRow(10, o) in full;
    assert Clocked([o], r.clock) == [];
    assert RowsByStream([], r)[0] == [];
    assert !KeepsPicks([], full, Nearest, 10);
    RowsAgreeExactly([o], r, 0, 10);
  }

  // ------------------------------------------------------------- rows at one time

  /** Two rows at one time, ranked alike by the scan and by the sort key. */
  function Earlier(): Observation { Observation(0, Some(0), None, 0, 0, {"cam"}, NoSample) }

  function Later(): Observation { Observation(1, Some(0), None, 1, 1, {"cam"}, NoSample) }

  function Camera(): StreamSpec { StreamSpec("cam", Nearest, 0) }

  function CameraOnly(): Recipe { Recipe(TimestampNs, [Camera()], None, 1) }

  /** Of two tied rows before a segment the boundary read loads the later one, and nothing else
      is loaded.  `previous` picks that row on both paths; `nearest` does not, because in memory
      the earlier row wins the tie. */
  lemma TiesMayPickAnotherRow()
    ensures var r, s, table := CameraOnly(), Camera(), [Earlier(), Later()];
            && FirstHit(BoundaryScan(table, r, 5, true), Qualifier(r.clock, s, 5, true)) == Some(Later())
            && FirstHit(BoundaryScan(table, r, 5, false), Qualifier(r.clock, s, 5, false)) == None
            && (forall o <- table :: !InSegment(o, r, 5, 5))
    ensures var r, s, table := CameraOnly(), Camera(), [Earlier(), Later()];
            var loaded, full := TimedRows([Later()], r.clock, s), TimedRows(table, r.clock, s);
            && AlignCell(loaded, Previous, 5, r) == AlignCell(full, Previous, 5, r)
            && AlignCell(loaded, Nearest, 5, r) != AlignCell(full, Nearest, 5, r)
  {
    TiedScan();
    TiedRows();
    TiedCells(TimedRow(0, Earlier()), TimedRow(0, Later()), CameraOnly());
  }

  lemma TiedCells(a: TimedRow, b: TimedRow, r: Recipe)
    requires a.time == b.time == 0 && a.obs.sortRank < b.obs.sortRank
    ensures AlignCell([b], Previous, 5, r) == AlignCell([a, b], Previous, 5, r)
    ensures AlignCell([b], Nearest, 5, r) != AlignCell([a, b], Nearest, 5, r)
  {
    assert UpTo([b], 5) == 1 && UpTo([a, b], 5) == 2;
    assert [a, b][..1] == [a] && NearestRow([a], 5) == a;
    assert a in Sources(AlignCell([a, b], Nearest, 5, r)) && b in Sources(AlignCell([b], Nearest, 5, r));
  }

  lemma TiedScan()
    ensures var r, s, table := CameraOnly(), Camera(), [Earlier(), Later()];
            && FirstHit(BoundaryScan(table, r, 5, true), Qualifier(r.clock, s, 5, true)) == Some(Later())
            && FirstHit(BoundaryScan(table, r, 5, false), Qualifier(r.clock, s, 5, false)) == None
            && (forall o <- table :: !InSegment(o, r, 5, 5))
  {
    assert LatencyOf(CameraOnly()) == [0];
    TiedBefore(CameraOnly());
    FirstHitIsClosest([Earlier(), Later()], CameraOnly(), 5, false, 0);
    TiedOutside(CameraOnly());
  }

  lemma TiedOutside(r: Recipe)
    requires r == CameraOnly()
    ensures forall o <- [Earlier(), Later()] :: !InSegment(o, r, 5, 5) && !Qualifies(o, r.clock, Camera(), 5, false)
  {
  }

  lemma TiedBefore(r: Recipe)
    requires r == CameraOnly() && LatencyOf(r) == [0]
    ensures FirstHit(BoundaryScan([Earlier(), Later()], r, 5, true), Qualifier(r.clock, Camera(), 5, true))
            == Some(Later())
  {
    var a, b := Earlier(), Later();
    FilterAll([a, b], WithinRange(r.clock, BoundaryLow(r, 5, true), BoundaryHigh(r, 5, true)));
    TiedOrder(ScanOrder(r.clock, false));
    HitFirst(b, [a], Qualifier(r.clock, Camera(), 5, true));
    assert [b] + [a] == [b, a];
  }

  lemma HitFirst(o: Observation, rest: seq<Observation>, keep: Observation -> bool)
    requires keep(o)
    ensures FirstHit([o] + rest, keep) == Some(o)
  {
    FirstHitAppend([o], rest, keep);
    HitOfOne(o, keep);
  }

  lemma TiedOrder(order: (Observation, Observation) -> bool)
    requires !order(Earlier(), Later())
    ensures StableSort([Earlier(), Later()], order) == [Later(), Earlier()]
  {
    var a, b := Earlier(), Later();
    assert [b][1..] == [] && [a, b][1..] == [b];
    assert StableSort([b], order) == Insert(b, [], order) == [b];
    assert Insert(a, [b], order) == [b] + Insert(a, [b][1..], order) == [b, a];
  }

  lemma TiedRows()
    ensures TimedRows([Later()], TimestampNs, Camera()) == [TimedRow(0, Later())]
    ensures TimedRows([Earlier(), Later()], TimestampNs, Camera()) == [TimedRow(0, Earlier()), TimedRow(0, Later())]
  {
    var a, b, s := Earlier(), Later(), Camera();
    FilterAll([b], Selecting(TimestampNs, s));
    FilterAll([a, b], Selecting(TimestampNs, s));
    assert Map([b], Stamping(TimestampNs, s)) == [TimedRow(0, b)];
    assert Map([a, b], Stamping(TimestampNs, s)) == [TimedRow(0, a), TimedRow(0, b)];
    TiedSort(TimedRow(0, a), TimedRow(0, b));
  }

  lemma TiedSort(x: TimedRow, y: TimedRow)
    requires TimedLe(x, y)
    ensures StableSort([y], TimedLe) == [y] && StableSort([x, y], TimedLe) == [x, y]
  {
    assert [y][1..] == [] && [x, y][1..] == [y];
    assert StableSort([y], TimedLe) == Insert(y, [], TimedLe) == [y];
  }
}
