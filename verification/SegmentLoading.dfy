/** What it takes for a picked row to be among those its segment loads. */
module SegmentLoading {
  import opened Ordering
  import opened Alignment
  import opened SegmentAgreement
  import opened SegmentScan

  /** No other row of the stream at that time comes before it in the outward scan. */
  ghost predicate FirstInScan(full: seq<TimedRow>, x: TimedRow, before: bool) {
    forall y <- full :: y.time == x.time ==>
      if before then y.obs.scanRank <= x.obs.scanRank else x.obs.scanRank <= y.obs.scanRank
  }

  /** The scan's order ends in the observation id, so two rows never share a rank. */
  ghost predicate UniqueScanRanks(table: seq<Observation>) {
    forall a, b | a in table && b in table && a.scanRank == b.scanRank :: a == b
  }

  predicate InStreamSegment(o: Observation, r: Recipe, j: nat, lo: int, hi: int)
    requires j < |r.streams|
  {
    Matches(o, r.streams[j]) && lo <= TimeOf(o, r.clock, r.streams[j]) <= hi
  }

  ghost predicate LoadedByStream(o: Observation, table: seq<Observation>, r: Recipe, j: nat, lo: int, hi: int)
    requires j < |r.streams|
  {
    InStreamSegment(o, r, j, lo, hi) || IsFirstHit(table, r, j, lo, true, o) || IsFirstHit(table, r, j, hi, false, o)
  }

  /** Some other stream of the recipe loads the row. */
  ghost predicate OtherStreamLoads(o: Observation, table: seq<Observation>, r: Recipe, k: nat, lo: int, hi: int) {
    exists j: nat :: j < |r.streams| && j != k && LoadedByStream(o, table, r, j, lo, hi)
  }

  lemma InSegmentByStream(o: Observation, r: Recipe, lo: int, hi: int)
    ensures InSegment(o, r, lo, hi) <==> exists j: nat :: j < |r.streams| && InStreamSegment(o, r, j, lo, hi)
  {
    if InSegment(o, r, lo, hi) {
      var s :| s in r.streams && Matches(o, s) && lo <= TimeOf(o, r.clock, s) <= hi;
      var j: nat :| j < |r.streams| && r.streams[j] == s;
      assert InStreamSegment(o, r, j, lo, hi);
    }
  }

  lemma LoadedBySome(o: Observation, table: seq<Observation>, r: Recipe, lo: int, hi: int) returns (j: nat)
    requires LoadedFor(o, table, r, lo, hi)
    ensures j < |r.streams| && LoadedByStream(o, table, r, j, lo, hi)
  {
    InSegmentByStream(o, r, lo, hi);
    if InSegment(o, r, lo, hi) {
      j :| 0 <= j < |r.streams| && InStreamSegment(o, r, j, lo, hi);
    } else if IsBoundaryRow(table, r, lo, true, o) {
      j :| 0 <= j < |r.streams| && IsFirstHit(table, r, j, lo, true, o);
    } else {
      j :| 0 <= j < |r.streams| && IsFirstHit(table, r, j, hi, false, o);
    }
  }

  lemma LoadsForSegment(o: Observation, table: seq<Observation>, r: Recipe, j: nat, lo: int, hi: int)
    requires j < |r.streams| && LoadedByStream(o, table, r, j, lo, hi)
    ensures LoadedFor(o, table, r, lo, hi)
  {
    InSegmentByStream(o, r, lo, hi);
  }

  lemma LoadedByItsStreamOrAnother(o: Observation, table: seq<Observation>, r: Recipe, k: nat, lo: int, hi: int)
    requires k < |r.streams|
    ensures LoadedFor(o, table, r, lo, hi)
       <==> LoadedByStream(o, table, r, k, lo, hi) || OtherStreamLoads(o, table, r, k, lo, hi)
  {
    if LoadedFor(o, table, r, lo, hi) {
      var j := LoadedBySome(o, table, r, lo, hi);
      assert j == k || OtherStreamLoads(o, table, r, k, lo, hi);
    }
    if LoadedByStream(o, table, r, k, lo, hi) {
      LoadsForSegment(o, table, r, k, lo, hi);
    }
    if OtherStreamLoads(o, table, r, k, lo, hi) {
      var j: nat :| j < |r.streams| && j != k && LoadedByStream(o, table, r, j, lo, hi);
      LoadsForSegment(o, table, r, j, lo, hi);
    }
  }

  /** The first hit comes before every other qualifying row in the outward scan. */
  lemma FirstHitComesFirst(table: seq<Observation>, r: Recipe, k: nat, boundary: int, before: bool, o: Observation,
                           q: Observation)
    requires k < |r.streams| && IsFirstHit(table, r, k, boundary, before, o)
    requires q in table && Qualifies(q, r.clock, r.streams[k], boundary, before)
    ensures ScanOrder(r.clock, !before)(o, q)
  {
    var scan, keep := BoundaryScan(table, r, boundary, before), Qualifier(r.clock, r.streams[k], boundary, before);
    QualifiersAreScanned(table, r, boundary, before, k);
    FilterSorted(scan, keep, ScanOrder(r.clock, !before));
    assert keep(q) && q in Filter(scan, keep);
    var i :| 0 <= i < |Filter(scan, keep)| && Filter(scan, keep)[i] == q;
    if i == 0 {
      ScanOrderIsOrder(r.clock, !before);
    }
  }

  /** Beyond a boundary, a closest row of a stream is the stream's first hit exactly when it is
      first in the scan among the stream's rows at its time. */
  lemma FirstHitExactly(table: seq<Observation>, r: Recipe, k: nat, boundary: int, before: bool, x: TimedRow)
    requires r.Valid() && k < |r.streams| && UniqueScanRanks(table)
    requires var full := TimedRows(table, r.clock, r.streams[k]);
             && x in full && (forall y <- full :: ClockColumn(y.obs, r.clock).Some?)
             && (if before then x.time < boundary else boundary < x.time)
             && (forall y <- full :: if before then y.time < boundary ==> y.time <= x.time
                                     else boundary < y.time ==> x.time <= y.time)
    ensures IsFirstHit(table, r, k, boundary, before, x.obs)
       <==> FirstInScan(TimedRows(table, r.clock, r.streams[k]), x, before)
  {
    var s := r.streams[k];
    var full := TimedRows(table, r.clock, s);
    TimedRowsContents(table, r.clock, s);
    FirstHitIsClosest(table, r, boundary, before, k);
    assert Qualifies(x.obs, r.clock, s, boundary, before);
    var hit := FirstHit(BoundaryScan(table, r, boundary, before), Qualifier(r.clock, s, boundary, before)).value;
    assert TimedRow(TimeOf(hit, r.clock, s), hit) in full;
    assert IsFirstHit(table, r, k, boundary, before, hit);
    FirstHitComesFirst(table, r, k, boundary, before, hit, x.obs);
    if hit == x.obs {
      FirstHitIsFirst(table, r, k, boundary, before, x);
    }
  }

  lemma FirstHitIsFirst(table: seq<Observation>, r: Recipe, k: nat, boundary: int, before: bool, x: TimedRow)
    requires k < |r.streams| && IsFirstHit(table, r, k, boundary, before, x.obs)
    requires var full := TimedRows(table, r.clock, r.streams[k]);
             && x in full && (forall y <- full :: ClockColumn(y.obs, r.clock).Some?)
             && (if before then x.time < boundary else boundary < x.time)
    ensures FirstInScan(TimedRows(table, r.clock, r.streams[k]), x, before)
  {
    var full := TimedRows(table, r.clock, r.streams[k]);
    TimedRowsContents(table, r.clock, r.streams[k]);
    forall y | y in full && y.time == x.time
      ensures if before then y.obs.scanRank <= x.obs.scanRank else x.obs.scanRank <= y.obs.scanRank
    {
      FirstHitComesFirst(table, r, k, boundary, before, x.obs, y.obs);
    }
  }

  /** On the table: a source of a stream's cell is loaded for the segment exactly when it lies
      inside, or is first in the outward scan among the stream's rows at its time, or another
      stream loads it. */
  lemma SourceLoadedExactly(table: seq<Observation>, r: Recipe, k: nat, lo: int, hi: int, t: int, x: TimedRow)
    requires r.Valid() && k < |r.streams| && lo <= t <= hi && UniqueScanRanks(table)
    requires var full := TimedRows(table, r.clock, r.streams[k]);
             && (forall y <- full :: ClockColumn(y.obs, r.clock).Some?)
             && x in Sources(AlignCell(full, r.streams[k].interpolation, t, r))
    ensures LoadedFor(x.obs, table, r, lo, hi)
       <==> || lo <= x.time <= hi
            || FirstInScan(TimedRows(table, r.clock, r.streams[k]), x, x.time < lo)
            || OtherStreamLoads(x.obs, table, r, k, lo, hi)
  {
    var s := r.streams[k];
    var full := TimedRows(table, r.clock, s);
    TimedRowsContents(table, r.clock, s);
    SourcesAreRows(full, s.interpolation, t, r);
    SourceIsClosest(full, s.interpolation, t, lo, hi, r, x);
    LoadedByItsStreamOrAnother(x.obs, table, r, k, lo, hi);
    FirstHitsLieOutside(table, r, k, lo, hi, x.obs);
    if x.time < lo {
      FirstHitExactly(table, r, k, lo, true, x);
    } else if hi < x.time {
      FirstHitExactly(table, r, k, hi, false, x);
    }
  }

  lemma FirstHitsLieOutside(table: seq<Observation>, r: Recipe, k: nat, lo: int, hi: int, o: Observation)
    requires k < |r.streams|
    ensures IsFirstHit(table, r, k, lo, true, o) ==> TimeOf(o, r.clock, r.streams[k]) < lo
    ensures IsFirstHit(table, r, k, hi, false, o) ==> hi < TimeOf(o, r.clock, r.streams[k])
  {
    if r.Valid() {
      FirstHitIsClosest(table, r, lo, true, k);
      FirstHitIsClosest(table, r, hi, false, k);
    }
  }

  /** A source that every sufficient slice holds is loaded. */
  lemma SettledIsLoaded(table: seq<Observation>, r: Recipe, k: nat, lo: int, hi: int, t: int, x: TimedRow)
    requires r.Valid() && k < |r.streams| && lo <= t <= hi
    requires var full := TimedRows(table, r.clock, r.streams[k]);
             && (forall y <- full :: ClockColumn(y.obs, r.clock).Some?)
             && x in Sources(AlignCell(full, r.streams[k].interpolation, t, r)) && Settled(full, x, lo, hi)
    ensures LoadedFor(x.obs, table, r, lo, hi) && OnlyKey(TimedRows(table, r.clock, r.streams[k]), x)
  {
    var s := r.streams[k];
    var full := TimedRows(table, r.clock, s);
    TimedRowsContents(table, r.clock, s);
    SourcesAreRows(full, s.interpolation, t, r);
    SourceIsClosest(full, s.interpolation, t, lo, hi, r, x);
    if lo <= x.time <= hi {
      assert InStreamSegment(x.obs, r, k, lo, hi);
    } else {
      OnlyRowIsFirstHit(table, r, k, if x.time < lo then lo else hi, x.time < lo, x);
    }
    LoadedByItsStreamOrAnother(x.obs, table, r, k, lo, hi);
  }

  lemma OnlyRowIsFirstHit(table: seq<Observation>, r: Recipe, k: nat, boundary: int, before: bool, x: TimedRow)
    requires r.Valid() && k < |r.streams|
    requires var full := TimedRows(table, r.clock, r.streams[k]);
             && x in full && OnlyAt(full, x) && (forall y <- full :: ClockColumn(y.obs, r.clock).Some?)
             && (if before then x.time < boundary else boundary < x.time)
             && (forall y <- full :: if before then y.time < boundary ==> y.time <= x.time
                                     else boundary < y.time ==> x.time <= y.time)
    ensures IsFirstHit(table, r, k, boundary, before, x.obs)
  {
    var s := r.streams[k];
    TimedRowsContents(table, r.clock, s);
    FirstHitIsClosest(table, r, boundary, before, k);
    assert Qualifies(x.obs, r.clock, s, boundary, before);
    var hit := FirstHit(BoundaryScan(table, r, boundary, before), Qualifier(r.clock, s, boundary, before)).value;
    assert TimedRow(TimeOf(hit, r.clock, s), hit) in TimedRows(table, r.clock, s);
  }

  // ------------------------------------------------- rows without a clock column

  lemma ScanIgnoresUnclocked(table: seq<Observation>, r: Recipe, boundary: int, before: bool)
    requires r.Valid()
    ensures BoundaryScan(Clocked(table, r.clock), r, boundary, before) == BoundaryScan(table, r, boundary, before)
  {
    var within := WithinRange(r.clock, BoundaryLow(r, boundary, before), BoundaryHigh(r, boundary, before));
    FilterFilter(table, HasClock(r.clock), within, within);
  }

  /** Leaving out rows without the clock column changes nothing about what is loaded. */
  lemma LoadingIgnoresUnclocked(o: Observation, table: seq<Observation>, r: Recipe, lo: int, hi: int)
    ensures LoadedFor(o, Clocked(table, r.clock), r, lo, hi) <==> LoadedFor(o, table, r, lo, hi)
  {
    if r.Valid() {
      FirstHitsIgnoreUnclocked(o, table, r, lo, true);
      FirstHitsIgnoreUnclocked(o, table, r, hi, false);
    }
  }

  lemma FirstHitsIgnoreUnclocked(o: Observation, table: seq<Observation>, r: Recipe, boundary: int, before: bool)
    requires r.Valid()
    ensures IsBoundaryRow(Clocked(table, r.clock), r, boundary, before, o)
       <==> IsBoundaryRow(table, r, boundary, before, o)
  {
    ScanIgnoresUnclocked(table, r, boundary, before);
    forall k: nat | k < |r.streams|
      ensures IsFirstHit(Clocked(table, r.clock), r, k, boundary, before, o)
         <==> IsFirstHit(table, r, k, boundary, before, o)
    {
    }
  }
}
