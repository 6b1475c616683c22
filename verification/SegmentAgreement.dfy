/** Why a tick segment needs only its own rows plus one row on either side: every
    picker gives the same answer on that slice as on the whole stream. */
module SegmentAgreement {
  import opened Ordering
  import opened Alignment

  ghost predicate CoveredBelow(seg: seq<TimedRow>, x: TimedRow, lo: int) {
    exists y <- seg :: x.time <= y.time < lo
  }

  ghost predicate CoveredAbove(seg: seq<TimedRow>, x: TimedRow, hi: int) {
    exists y <- seg :: hi < y.time <= x.time
  }

  /** `seg` keeps, of the stream `full`, at least the rows inside [lo, hi], one latest
      row before it and one earliest row after it. */
  ghost predicate Suffices(seg: seq<TimedRow>, full: seq<TimedRow>, lo: int, hi: int) {
    && SortedBy(seg, TimedLe) && SortedBy(full, TimedLe)
    && (forall x <- seg :: x in full)
    && (forall x <- full :: lo <= x.time <= hi ==> x in seg)
    && (forall x {:trigger CoveredBelow(seg, x, lo)} | x in full && x.time < lo :: CoveredBelow(seg, x, lo))
    && (forall x {:trigger CoveredAbove(seg, x, hi)} | x in full && hi < x.time :: CoveredAbove(seg, x, hi))
  }

  /** A stand-in in the slice for any row of the stream, on the same side of it. */
  lemma StandIn(seg: seq<TimedRow>, full: seq<TimedRow>, lo: int, hi: int, x: TimedRow) returns (y: TimedRow)
    requires Suffices(seg, full, lo, hi) && lo <= hi + 1 && x in full
    ensures y in seg && y in full
    ensures x.time < lo ==> x.time <= y.time < lo
    ensures lo <= x.time <= hi ==> y == x
    ensures hi < x.time ==> hi < y.time <= x.time
  {
    if x.time < lo {
      assert CoveredBelow(seg, x, lo);
      y :| y in seg && x.time <= y.time < lo;
    } else if hi < x.time {
      assert CoveredAbove(seg, x, hi);
      y :| y in seg && hi < y.time <= x.time;
    } else {
      y := x;
    }
  }

  ghost predicate DistinctTimes(rows: seq<TimedRow>) {
    forall x, y | x in rows && y in rows && x.time == y.time :: x == y
  }

  /** No other row shares the corrected time of `x`. */
  ghost predicate OnlyAt(rows: seq<TimedRow>, x: TimedRow) { forall y <- rows :: y.time == x.time ==> y == x }

  /** No other row shares its corrected time and sort key. */
  ghost predicate OnlyKey(rows: seq<TimedRow>, x: TimedRow) {
    forall y <- rows :: y.time == x.time && y.obs.sortRank == x.obs.sortRank ==> y == x
  }

  /** A pick the slice holds, and no other row can be taken for. */
  ghost predicate Held(seg: seq<TimedRow>, full: seq<TimedRow>, x: TimedRow) { x in seg && OnlyKey(full, x) }

  /** A pick that every sufficient slice for [lo, hi] shares: inside the segment the sort key
      decides ties, outside it there must be none. */
  ghost predicate Settled(full: seq<TimedRow>, x: TimedRow, lo: int, hi: int) {
    OnlyAt(full, x) || (lo <= x.time <= hi && OnlyKey(full, x))
  }

  /** A cell with every source row replaced by its corrected time. */
  datatype CellView =
    | MissingView(reason: Reason)
    | OutOfToleranceView(nearestTime: int, absoluteError: nat)
    | AlignedView(sourceTimes: seq<int>, sourceTime: int, error: int, absoluteError: nat, confidence: real)

  function Times(rows: seq<TimedRow>): seq<int> { Map(rows, (x: TimedRow) => x.time) }

  function ViewOf(cell: Cell): CellView {
    match cell
    case Missing(reason) => MissingView(reason)
    case OutOfTolerance(nearest, absoluteError) => OutOfToleranceView(nearest.time, absoluteError)
    case Aligned(sources, sourceTime, error, absoluteError, confidence, _, _) =>
      AlignedView(Times(sources), sourceTime, error, absoluteError, confidence)
  }

  /** The source rows a cell records. */
  function Sources(cell: Cell): seq<TimedRow> {
    match cell
    case Missing(_) => []
    case OutOfTolerance(nearest, _) => [nearest]
    case Aligned(sources, _, _, _, _, _, _) => sources
  }

  /** Every source of a cell over the whole stream is settled for [lo, hi]. */
  ghost predicate Pinned(full: seq<TimedRow>, cell: Cell, lo: int, hi: int) {
    forall x <- Sources(cell) :: Settled(full, x, lo, hi)
  }

  /** The slice holds every source of a cell over the whole stream. */
  ghost predicate CellHeld(seg: seq<TimedRow>, full: seq<TimedRow>, cell: Cell) {
    forall x <- Sources(cell) :: Held(seg, full, x)
  }

  /** Two picks at the same time; the same row where the slice holds the second. */
  ghost predicate SamePick(a: Option<TimedRow>, b: Option<TimedRow>, seg: seq<TimedRow>, full: seq<TimedRow>) {
    && (a.Some? <==> b.Some?)
    && (b.Some? ==> a.value.time == b.value.time)
    && (b.Some? && Held(seg, full, b.value) ==> a == b)
  }

  ghost predicate SameCell(a: Cell, b: Cell, same: bool) {
    ViewOf(a) == ViewOf(b) && (same ==> a == b)
  }

  lemma PreviousIsLatest(rows: seq<TimedRow>, t: int)
    requires SortedBy(rows, TimedLe)
    ensures PreviousRow(rows, t).None? ==> forall x <- rows :: x.time > t
    ensures PreviousRow(rows, t).Some? ==>
              var p := PreviousRow(rows, t).value;
              p in rows && p.time <= t && forall x <- rows :: x.time <= t ==> TimedLe(x, p)
  {
  }

  lemma AfterIsEarliest(rows: seq<TimedRow>, t: int)
    requires SortedBy(rows, TimedLe)
    ensures AfterRow(rows, t).None? ==> forall x <- rows :: x.time <= t
    ensures AfterRow(rows, t).Some? ==>
              var p := AfterRow(rows, t).value;
              p in rows && p.time > t && forall x <- rows :: x.time > t ==> TimedLe(p, x)
  {
  }

  lemma ExactIsFound(rows: seq<TimedRow>, t: int)
    requires SortedBy(rows, TimedLe)
    ensures ExactRow(rows, t).None? ==> forall x <- rows :: x.time != t
    ensures ExactRow(rows, t).Some? ==>
              var p := ExactRow(rows, t).value;
              p in rows && p.time == t && forall x <- rows :: x.time == t ==> TimedLe(p, x)
  {
  }

  lemma PreviousAgrees(seg: seq<TimedRow>, full: seq<TimedRow>, lo: int, hi: int, t: int)
    requires Suffices(seg, full, lo, hi) && lo <= hi && lo - 1 <= t <= hi
    ensures SamePick(PreviousRow(seg, t), PreviousRow(full, t), seg, full)
  {
    PreviousIsLatest(seg, t);
    PreviousIsLatest(full, t);
    if PreviousRow(full, t).Some? {
      var y := StandIn(seg, full, lo, hi, PreviousRow(full, t).value);
    }
  }

  lemma AfterAgrees(seg: seq<TimedRow>, full: seq<TimedRow>, lo: int, hi: int, t: int)
    requires Suffices(seg, full, lo, hi) && lo <= t <= hi
    ensures SamePick(AfterRow(seg, t), AfterRow(full, t), seg, full)
  {
    AfterIsEarliest(seg, t);
    AfterIsEarliest(full, t);
    if AfterRow(full, t).Some? {
      var y := StandIn(seg, full, lo, hi, AfterRow(full, t).value);
    }
  }

  lemma ExactAgrees(seg: seq<TimedRow>, full: seq<TimedRow>, lo: int, hi: int, t: int)
    requires Suffices(seg, full, lo, hi) && lo <= t <= hi
    ensures SamePick(ExactRow(seg, t), ExactRow(full, t), seg, full)
  {
    ExactIsFound(seg, t);
    ExactIsFound(full, t);
  }

  lemma NearestAgrees(seg: seq<TimedRow>, full: seq<TimedRow>, lo: int, hi: int, t: int)
    requires Suffices(seg, full, lo, hi) && lo <= t <= hi && full != []
    ensures seg != []
    ensures SamePick(Some(NearestRow(seg, t)), Some(NearestRow(full, t)), seg, full)
  {
    var best := NearestRow(full, t);
    var y := StandIn(seg, full, lo, hi, best);
    var near := NearestRow(seg, t);
    assert near in full && !Closer(near, best, t) && !Closer(y, near, t);
  }

  lemma SourceCellAgrees(a: TimedRow, b: TimedRow, t: int, r: Recipe)
    requires a.time == b.time
    ensures SameCell(SourceCell(a, t, r), SourceCell(b, t, r), a == b)
    ensures b in Sources(SourceCell(b, t, r))
  {
    assert Times([a]) == Times([b]);
  }

  lemma BracketsAgree(before: TimedRow, after: TimedRow, before': TimedRow, after': TimedRow, t: int, r: Recipe)
    requires before.time == before'.time && after.time == after'.time
    ensures var a := LinearCell(None, Some(before), Some(after), t, r);
            var b := LinearCell(None, Some(before'), Some(after'), t, r);
            && ViewOf(a) == ViewOf(b)
            && ((before' in Sources(b) ==> before == before') && (after' in Sources(b) ==> after == after') ==> a == b)
  {
    assert Times([before, after]) == Times([before', after']);
  }

  lemma LinearAgrees(
      exact: Option<TimedRow>, before: Option<TimedRow>, after: Option<TimedRow>,
      exact': Option<TimedRow>, before': Option<TimedRow>, after': Option<TimedRow>,
      t: int, r: Recipe, seg: seq<TimedRow>, full: seq<TimedRow>)
    requires SamePick(exact, exact', seg, full)
    requires SamePick(before, before', seg, full)
    requires SamePick(after, after', seg, full)
    ensures var a, b := LinearCell(exact, before, after, t, r), LinearCell(exact', before', after', t, r);
            SameCell(a, b, CellHeld(seg, full, b))
  {
    if exact.Some? {
      SourceCellAgrees(exact.value, exact'.value, t, r);
    } else if before.Some? && after.Some? {
      BracketsAgree(before.value, after.value, before'.value, after'.value, t, r);
    }
  }

  lemma BracketPicksAgree(seg: seq<TimedRow>, full: seq<TimedRow>, lo: int, hi: int, t: int)
    requires Suffices(seg, full, lo, hi) && lo <= t <= hi
    ensures SamePick(ExactRow(seg, t), ExactRow(full, t), seg, full)
    ensures SamePick(BeforeRow(seg, t), BeforeRow(full, t), seg, full)
    ensures SamePick(AfterRow(seg, t), AfterRow(full, t), seg, full)
  {
    PreviousAgrees(seg, full, lo, hi, t - 1);
    AfterAgrees(seg, full, lo, hi, t);
    ExactAgrees(seg, full, lo, hi, t);
  }

  /** The linear cell over the slice and over the whole stream. */
  lemma LinearPicksAgree(seg: seq<TimedRow>, full: seq<TimedRow>, lo: int, hi: int, t: int, r: Recipe)
    requires Suffices(seg, full, lo, hi) && lo <= t <= hi
    ensures var a := LinearCell(ExactRow(seg, t), BeforeRow(seg, t), AfterRow(seg, t), t, r);
            var b := LinearCell(ExactRow(full, t), BeforeRow(full, t), AfterRow(full, t), t, r);
            SameCell(a, b, CellHeld(seg, full, b))
  {
    BracketPicksAgree(seg, full, lo, hi, t);
    LinearAgrees(ExactRow(seg, t), BeforeRow(seg, t), AfterRow(seg, t),
                 ExactRow(full, t), BeforeRow(full, t), AfterRow(full, t), t, r, seg, full);
  }

  lemma PreviousPickAgrees(seg: seq<TimedRow>, full: seq<TimedRow>, lo: int, hi: int, t: int, r: Recipe)
    requires Suffices(seg, full, lo, hi) && lo <= t <= hi
    requires seg != [] && full != []
    ensures var a, b := AlignCell(seg, Previous, t, r), AlignCell(full, Previous, t, r);
            SameCell(a, b, CellHeld(seg, full, b))
  {
    PreviousAgrees(seg, full, lo, hi, t);
    if PreviousRow(full, t).Some? {
      SourceCellAgrees(PreviousRow(seg, t).value, PreviousRow(full, t).value, t, r);
    }
  }

  /** For every method, tolerance and tick of the segment, the slice yields the same
      status, source times, error and confidence as the whole stream, and the very
      same rows when it holds the sources. */
  lemma CellsAgree(seg: seq<TimedRow>, full: seq<TimedRow>, lo: int, hi: int, t: int, m: Interpolation, r: Recipe)
    requires Suffices(seg, full, lo, hi) && lo <= t <= hi
    ensures var a, b := AlignCell(seg, m, t, r), AlignCell(full, m, t, r); SameCell(a, b, CellHeld(seg, full, b))
  {
    if seg != [] {
      assert seg[0] in full;
    }
    if full != [] {
      NearestAgrees(seg, full, lo, hi, t);
      match m
      case Nearest =>
        SourceCellAgrees(NearestRow(seg, t), NearestRow(full, t), t, r);
      case Previous =>
        PreviousPickAgrees(seg, full, lo, hi, t, r);
      case Linear =>
        LinearPicksAgree(seg, full, lo, hi, t, r);
    }
  }

  // ------------------------------------------------------- exactly when

  /** Sort keys end in the observation id, so two rows of a stream never share one. */
  ghost predicate UniqueKeys(rows: seq<TimedRow>) { forall x <- rows :: OnlyKey(rows, x) }

  /** A slice picks the very rows the whole stream gives exactly when it holds them. */
  lemma SlicePicksTheSameExactly(seg: seq<TimedRow>, full: seq<TimedRow>, lo: int, hi: int, t: int, m: Interpolation,
                                 r: Recipe)
    requires Suffices(seg, full, lo, hi) && UniqueKeys(full) && lo <= t <= hi
    ensures AlignCell(seg, m, t, r) == AlignCell(full, m, t, r)
       <==> forall x <- Sources(AlignCell(full, m, t, r)) :: x in seg
  {
    CellsAgree(seg, full, lo, hi, t, m, r);
    SourcesAreRows(seg, m, t, r);
    SourcesAreRows(full, m, t, r);
    if forall x <- Sources(AlignCell(full, m, t, r)) :: x in seg {
      assert CellHeld(seg, full, AlignCell(full, m, t, r));
    }
  }

  lemma LinearSourceIsClosest(full: seq<TimedRow>, t: int, lo: int, hi: int, r: Recipe, x: TimedRow)
    requires SortedBy(full, TimedLe) && lo <= t <= hi && x in Sources(AlignCell(full, Linear, t, r))
    ensures x.time < lo ==> forall y <- full :: y.time < lo ==> y.time <= x.time
    ensures hi < x.time ==> forall y <- full :: hi < y.time ==> x.time <= y.time
  {
    SourcesOfPicks(ExactRow(full, t), BeforeRow(full, t), AfterRow(full, t), t, r);
    ExactIsFound(full, t);
    PreviousIsLatest(full, t - 1);
    AfterIsEarliest(full, t);
  }

  /** A source outside the segment is a closest row on its side of it. */
  lemma SourceIsClosest(full: seq<TimedRow>, m: Interpolation, t: int, lo: int, hi: int, r: Recipe, x: TimedRow)
    requires SortedBy(full, TimedLe) && lo <= t <= hi && x in Sources(AlignCell(full, m, t, r))
    ensures x.time < lo ==> forall y <- full :: y.time < lo ==> y.time <= x.time
    ensures hi < x.time ==> forall y <- full :: hi < y.time ==> x.time <= y.time
  {
    match m
    case Previous =>
      PreviousIsLatest(full, t);
    case Nearest =>
      forall y | y in full ensures !Closer(y, x, t) {
        assert x == NearestRow(full, t);
      }
    case Linear =>
      LinearSourceIsClosest(full, t, lo, hi, r, x);
  }

  function OtherThan(x: TimedRow): TimedRow -> bool { (y: TimedRow) => y != x }

  lemma AllButOne(full: seq<TimedRow>, x: TimedRow)
    ensures forall y :: y in Filter(full, OtherThan(x)) <==> y in full && y != x
  {
    forall y | y in full && y != x ensures y in Filter(full, OtherThan(x)) {
      assert OtherThan(x)(y);
    }
  }

  /** A slice may leave out a row outside the segment that shares its time with another. */
  lemma SliceWithout(full: seq<TimedRow>, seg: seq<TimedRow>, x: TimedRow, twin: TimedRow, lo: int, hi: int)
    requires SortedBy(full, TimedLe) && SortedBy(seg, TimedLe) && forall y :: y in seg <==> y in full && y != x
    requires twin in full && twin.time == x.time && twin != x && !(lo <= x.time <= hi)
    ensures Suffices(seg, full, lo, hi)
  {
    forall y: TimedRow | y in full && y.time < lo ensures CoveredBelow(seg, y, lo) {
      Stays(seg, y, if y == x then twin else y, lo, hi);
    }
    forall y: TimedRow | y in full && hi < y.time ensures CoveredAbove(seg, y, hi) {
      Stays(seg, y, if y == x then twin else y, lo, hi);
    }
  }

  lemma Stays(seg: seq<TimedRow>, x: TimedRow, y: TimedRow, lo: int, hi: int)
    requires y in seg && y.time == x.time
    ensures x.time < lo ==> CoveredBelow(seg, x, lo)
    ensures hi < x.time ==> CoveredAbove(seg, x, hi)
  {
  }

  lemma PicksAreRows(rows: seq<TimedRow>, t: int)
    requires SortedBy(rows, TimedLe)
    ensures PreviousRow(rows, t).Some? ==> PreviousRow(rows, t).value in rows
    ensures BeforeRow(rows, t).Some? ==> BeforeRow(rows, t).value in rows
    ensures AfterRow(rows, t).Some? ==> AfterRow(rows, t).value in rows
    ensures ExactRow(rows, t).Some? ==> ExactRow(rows, t).value in rows
  {
  }

  lemma SourcesOfPicks(exact: Option<TimedRow>, before: Option<TimedRow>, after: Option<TimedRow>, t: int, r: Recipe)
    ensures forall x <- Sources(LinearCell(exact, before, after, t, r)) ::
              exact == Some(x) || before == Some(x) || after == Some(x)
  {
  }

  lemma SourcesAreRows(rows: seq<TimedRow>, m: Interpolation, t: int, r: Recipe)
    requires SortedBy(rows, TimedLe)
    ensures forall x <- Sources(AlignCell(rows, m, t, r)) :: x in rows
  {
    PicksAreRows(rows, t);
    if m.Linear? {
      SourcesOfPicks(ExactRow(rows, t), BeforeRow(rows, t), AfterRow(rows, t), t, r);
    }
  }

  /** Every sufficient slice holds a cell's sources when they are settled. */
  lemma PinnedIsHeld(seg: seq<TimedRow>, full: seq<TimedRow>, lo: int, hi: int, t: int, m: Interpolation, r: Recipe)
    requires Suffices(seg, full, lo, hi) && lo <= t <= hi && Pinned(full, AlignCell(full, m, t, r), lo, hi)
    ensures CellHeld(seg, full, AlignCell(full, m, t, r))
  {
    SourcesAreRows(full, m, t, r);
    forall x | x in Sources(AlignCell(full, m, t, r)) ensures Held(seg, full, x) {
      assert Settled(full, x, lo, hi);
      SourceIsClosest(full, m, t, lo, hi, r, x);
      var y := StandIn(seg, full, lo, hi, x);
      assert y.time == x.time;
    }
  }

  /** Whatever sufficient slice is loaded, it picks the very rows the whole stream gives: so it
      is exactly when each of them lies inside the segment or is the only row at its time. */
  lemma SlicesPickTheSameExactly(full: seq<TimedRow>, lo: int, hi: int, t: int, m: Interpolation, r: Recipe)
    requires SortedBy(full, TimedLe) && UniqueKeys(full) && lo <= t <= hi
    ensures (forall seg :: Suffices(seg, full, lo, hi) ==> AlignCell(seg, m, t, r) == AlignCell(full, m, t, r))
       <==> forall x <- Sources(AlignCell(full, m, t, r)) :: lo <= x.time <= hi || OnlyAt(full, x)
  {
    var cell := AlignCell(full, m, t, r);
    SourcesAreRows(full, m, t, r);
    if forall x <- Sources(cell) :: lo <= x.time <= hi || OnlyAt(full, x) {
      assert Pinned(full, cell, lo, hi);
      forall seg | Suffices(seg, full, lo, hi) ensures AlignCell(seg, m, t, r) == cell {
        PinnedIsHeld(seg, full, lo, hi, t, m, r);
        CellsAgree(seg, full, lo, hi, t, m, r);
      }
    } else {
      var x :| x in Sources(cell) && !(lo <= x.time <= hi || OnlyAt(full, x));
      var seg := Filter(full, OtherThan(x));
      var twin :| twin in full && twin.time == x.time && twin != x;
      FilterSorted(full, OtherThan(x), TimedLe);
      AllButOne(full, x);
      SliceWithout(full, seg, x, twin, lo, hi);
      SourcesAreRows(seg, m, t, r);
      assert x !in seg && AlignCell(seg, m, t, r) != cell;
    }
  }

  // -------------------------------------------------------------- whole rows

  datatype RowView = RowView(index: nat, timestamp: int, cells: seq<CellView>, confidence: real)

  function ViewOfRow(row: AlignedRow): RowView {
    RowView(row.index, row.timestamp, Map(row.cells, ViewOf), row.confidence)
  }

  lemma {:induction false} MinConfidenceAgrees(a: seq<Cell>, b: seq<Cell>)
    requires Map(a, ViewOf) == Map(b, ViewOf)
    ensures MinConfidence(a) == MinConfidence(b)
  {
    assert |Map(a, ViewOf)| == |Map(b, ViewOf)|;
    if a != [] {
      var n := |a| - 1;
      assert ViewOf(a[n]) == Map(a, ViewOf)[n] == Map(b, ViewOf)[n] == ViewOf(b[n]);
      assert Map(a[..n], ViewOf) == Map(a, ViewOf)[..n] == Map(b, ViewOf)[..n] == Map(b[..n], ViewOf);
      MinConfidenceAgrees(a[..n], b[..n]);
    }
  }

  ghost predicate SufficesAll(segs: seq<seq<TimedRow>>, fulls: seq<seq<TimedRow>>, lo: int, hi: int) {
    |segs| == |fulls| && forall i :: 0 <= i < |segs| ==> Suffices(segs[i], fulls[i], lo, hi)
  }

  /** Every cell of a tick's row is settled for [lo, hi]. */
  ghost predicate RowPinned(fulls: seq<seq<TimedRow>>, r: Recipe, t: int, lo: int, hi: int)
    requires |fulls| == |r.streams|
  {
    forall i :: 0 <= i < |fulls| ==> Pinned(fulls[i], AlignCell(fulls[i], r.streams[i].interpolation, t, r), lo, hi)
  }

  /** Every slice holds the sources of its stream's cell. */
  ghost predicate RowHeld(segs: seq<seq<TimedRow>>, fulls: seq<seq<TimedRow>>, r: Recipe, t: int)
    requires |segs| == |fulls| == |r.streams|
  {
    forall i :: 0 <= i < |fulls| ==> CellHeld(segs[i], fulls[i], AlignCell(fulls[i], r.streams[i].interpolation, t, r))
  }

  lemma RowsAgree(segs: seq<seq<TimedRow>>, fulls: seq<seq<TimedRow>>, lo: int, hi: int, r: Recipe, index: nat, t: int)
    requires |segs| == |r.streams|
    requires SufficesAll(segs, fulls, lo, hi) && lo <= t <= hi
    ensures ViewOfRow(TickRow(segs, r, index, t)) == ViewOfRow(TickRow(fulls, r, index, t))
    ensures RowHeld(segs, fulls, r, t) ==> TickRow(segs, r, index, t) == TickRow(fulls, r, index, t)
  {
    var a, b := TickRow(segs, r, index, t).cells, TickRow(fulls, r, index, t).cells;
    forall i | 0 <= i < |r.streams|
      ensures ViewOf(a[i]) == ViewOf(b[i])
      ensures CellHeld(segs[i], fulls[i], b[i]) ==> a[i] == b[i]
    {
      CellsAgree(segs[i], fulls[i], lo, hi, t, r.streams[i].interpolation, r);
    }
    assert Map(a, ViewOf) == Map(b, ViewOf);
    MinConfidenceAgrees(a, b);
    if RowHeld(segs, fulls, r, t) {
      assert forall i :: 0 <= i < |r.streams| ==> CellHeld(segs[i], fulls[i], b[i]);
      assert a == b;
    }
  }

  lemma RowPinnedIsHeld(segs: seq<seq<TimedRow>>, fulls: seq<seq<TimedRow>>, lo: int, hi: int, r: Recipe, t: int)
    requires |segs| == |r.streams| && SufficesAll(segs, fulls, lo, hi) && lo <= t <= hi
    requires RowPinned(fulls, r, t, lo, hi)
    ensures RowHeld(segs, fulls, r, t)
  {
    forall i | 0 <= i < |fulls|
      ensures CellHeld(segs[i], fulls[i], AlignCell(fulls[i], r.streams[i].interpolation, t, r))
    {
      PinnedIsHeld(segs[i], fulls[i], lo, hi, t, r.streams[i].interpolation, r);
    }
  }

  /** The sources of the whole streams' cells at a tick are rows of the slices. */
  ghost predicate PicksIn(segs: seq<seq<TimedRow>>, fulls: seq<seq<TimedRow>>, r: Recipe, t: int)
    requires |segs| == |fulls| == |r.streams|
  {
    forall i :: 0 <= i < |fulls| ==>
      forall x <- Sources(AlignCell(fulls[i], r.streams[i].interpolation, t, r)) :: x in segs[i]
  }

  /** A row over slices is the row over the whole streams exactly when every slice holds its
      stream's sources. */
  lemma RowTheSameExactly(segs: seq<seq<TimedRow>>, fulls: seq<seq<TimedRow>>, lo: int, hi: int, r: Recipe, index: nat,
                          t: int)
    requires |segs| == |r.streams| && SufficesAll(segs, fulls, lo, hi) && lo <= t <= hi
    requires forall full <- fulls :: UniqueKeys(full)
    ensures TickRow(segs, r, index, t) == TickRow(fulls, r, index, t) <==> PicksIn(segs, fulls, r, t)
  {
    var a, b := TickRow(segs, r, index, t), TickRow(fulls, r, index, t);
    forall i | 0 <= i < |fulls|
      ensures a.cells[i] == b.cells[i] <==> forall x <- Sources(b.cells[i]) :: x in segs[i]
      ensures (forall x <- Sources(b.cells[i]) :: x in segs[i]) ==> CellHeld(segs[i], fulls[i], b.cells[i])
    {
      assert fulls[i] in fulls;
      SlicePicksTheSameExactly(segs[i], fulls[i], lo, hi, t, r.streams[i].interpolation, r);
      SourcesAreRows(fulls[i], r.streams[i].interpolation, t, r);
    }
    RowsAgree(segs, fulls, lo, hi, r, index, t);
    if PicksIn(segs, fulls, r, t) {
      forall i | 0 <= i < |fulls| ensures CellHeld(segs[i], fulls[i], b.cells[i]) {
      }
      assert RowHeld(segs, fulls, r, t);
    }
  }

  lemma SufficesItself(full: seq<TimedRow>, lo: int, hi: int)
    requires SortedBy(full, TimedLe)
    ensures Suffices(full, full, lo, hi)
  {
    forall x: TimedRow | x in full ensures x.time < lo ==> CoveredBelow(full, x, lo)
                                   ensures hi < x.time ==> CoveredAbove(full, x, hi)
    {
      Stays(full, x, x, lo, hi);
    }
  }

  /** Whatever sufficient slices are loaded, they give the row of the whole streams: so it is
      exactly when every cell of it is settled. */
  lemma RowsTheSameExactly(fulls: seq<seq<TimedRow>>, lo: int, hi: int, r: Recipe, index: nat, t: int)
    requires |fulls| == |r.streams| && lo <= t <= hi
    requires forall full <- fulls :: SortedBy(full, TimedLe) && UniqueKeys(full)
    ensures (forall segs :: SufficesAll(segs, fulls, lo, hi) ==>
               TickRow(segs, r, index, t) == TickRow(fulls, r, index, t))
       <==> RowPinned(fulls, r, t, lo, hi)
  {
    forall segs | RowPinned(fulls, r, t, lo, hi) && SufficesAll(segs, fulls, lo, hi)
      ensures TickRow(segs, r, index, t) == TickRow(fulls, r, index, t)
    {
      RowPinnedIsHeld(segs, fulls, lo, hi, r, t);
      RowsAgree(segs, fulls, lo, hi, r, index, t);
    }
    if !RowPinned(fulls, r, t, lo, hi) {
      var k :| 0 <= k < |fulls| && !Pinned(fulls[k], AlignCell(fulls[k], r.streams[k].interpolation, t, r), lo, hi);
      var segs := UnsettledSlice(fulls, lo, hi, r, t, k);
      assert TickRow(segs, r, index, t).cells[k] != TickRow(fulls, r, index, t).cells[k];
    }
  }

  lemma UnsettledSlice(fulls: seq<seq<TimedRow>>, lo: int, hi: int, r: Recipe, t: int, k: nat)
    returns (segs: seq<seq<TimedRow>>)
    requires |fulls| == |r.streams| && lo <= t <= hi && k < |fulls|
    requires forall full <- fulls :: SortedBy(full, TimedLe) && UniqueKeys(full)
    requires !Pinned(fulls[k], AlignCell(fulls[k], r.streams[k].interpolation, t, r), lo, hi)
    ensures SufficesAll(segs, fulls, lo, hi)
    ensures var m := r.streams[k].interpolation; AlignCell(segs[k], m, t, r) != AlignCell(fulls[k], m, t, r)
  {
    var m := r.streams[k].interpolation;
    SlicesPickTheSameExactly(fulls[k], lo, hi, t, m, r);
    SourcesAreRows(fulls[k], m, t, r);
    var seg :| Suffices(seg, fulls[k], lo, hi) && AlignCell(seg, m, t, r) != AlignCell(fulls[k], m, t, r);
    segs := fulls[k := seg];
    forall i | 0 <= i < |fulls| ensures Suffices(segs[i], fulls[i], lo, hi) {
      assert fulls[i] in fulls;
      SufficesItself(fulls[i], lo, hi);
    }
  }

  /** Statistics depend on the view of a row only. */
  lemma {:induction false} FoldAgrees(st: StreamStats, a: seq<AlignedRow>, b: seq<AlignedRow>, stream: nat)
    requires Map(a, ViewOfRow) == Map(b, ViewOfRow)
    requires forall row <- a :: stream < |row.cells|
    requires forall row <- b :: stream < |row.cells|
    ensures FoldStream(st, a, stream) == FoldStream(st, b, stream)
  {
    assert |Map(a, ViewOfRow)| == |Map(b, ViewOfRow)|;
    if a != [] {
      var n := |a| - 1;
      assert ViewOfRow(a[n]) == Map(a, ViewOfRow)[n] == Map(b, ViewOfRow)[n] == ViewOfRow(b[n]);
      assert ViewOf(a[n].cells[stream]) == ViewOfRow(a[n]).cells[stream] == ViewOfRow(b[n]).cells[stream]
             == ViewOf(b[n].cells[stream]);
      assert Map(a[..n], ViewOfRow) == Map(a, ViewOfRow)[..n] == Map(b, ViewOfRow)[..n] == Map(b[..n], ViewOfRow);
      FoldAgrees(st, a[..n], b[..n], stream);
    }
  }
}
