/** Tick segments, and the bounded reads that load the observations of one segment. */
module SegmentScan {
  import opened Ordering
  import opened Alignment
  import opened SegmentAgreement

  // ------------------------------------------------------------------ ticks

  function Ticks(start: int, end: int, step: nat): seq<int>
    requires step >= 1
    decreases end - start
  {
    if start > end then [] else [start] + Ticks(start + step, end, step)
  }

  /** Every multiple of the step from the start up to the end, and nothing else. */
  lemma {:induction false} TicksMeaning(start: int, end: int, step: nat)
    requires step >= 1
    ensures var ticks := Ticks(start, end, step);
            && (forall i :: 0 <= i < |ticks| ==> ticks[i] == start + i * step && ticks[i] <= end)
            && start + |ticks| * step > end
    decreases end - start
  {
    if start <= end {
      TicksMeaning(start + step, end, step);
      var rest := Ticks(start + step, end, step);
      NextMultiple(start, |rest|, step);
      forall i | 0 < i <= |rest| ensures ([start] + rest)[i] == start + i * step {
        NextMultiple(start, i - 1, step);
      }
    }
  }

  lemma NextMultiple(start: int, i: nat, step: nat)
    ensures start + step + i * step == start + (i + 1) * step
  {
  }

  method QueryTicks(start: int, end: int, step: nat) returns (ticks: seq<int>)
    requires step >= 1
    ensures ticks == Ticks(start, end, step)
  {
    if start == end {
      assert Ticks(start + step, end, step) == [];
      return [start];
    }
    ticks := [];
    var timestamp := start;
    while timestamp <= end
      invariant ticks + Ticks(timestamp, end, step) == Ticks(start, end, step)
      decreases end - timestamp
    {
      ticks := ticks + [timestamp];
      timestamp := timestamp + step;
    }
  }

  /** The next segment: at most `batch` ticks, all of them when fewer remain. */
  method NextSegment(start: int, end: int, step: nat, batch: nat) returns (segment: seq<int>, next: int)
    requires step >= 1 && batch >= 1 && start <= end
    ensures segment + Ticks(next, end, step) == Ticks(start, end, step)
    ensures 1 <= |segment| <= batch && (|segment| == batch || next > end)
    ensures segment[0] == start && next > start
    ensures forall t <- segment :: segment[0] <= t <= segment[|segment| - 1]
  {
    segment, next := [], start;
    while |segment| < batch && next <= end
      invariant segment + Ticks(next, end, step) == Ticks(start, end, step)
      invariant |segment| <= batch
      invariant segment == [] ==> next == start
      invariant segment != [] ==> segment[0] == start && next > segment[|segment| - 1]
      invariant forall t <- segment :: segment[0] <= t <= segment[|segment| - 1]
      decreases end - next
    {
      segment := segment + [next];
      next := next + step;
    }
  }

  // ------------------------------------------------------------ engine scans

  function HasClock(clock: Clock): Observation -> bool { (o: Observation) => ClockColumn(o, clock).Some? }

  function Clocked(table: seq<Observation>, clock: Clock): seq<Observation> {
    Filter(table, HasClock(clock))
  }

  predicate ScanLe(a: Observation, b: Observation, clock: Clock) {
    match (ClockColumn(a, clock), ClockColumn(b, clock))
    case (Some(x), Some(y)) => x < y || (x == y && a.scanRank <= b.scanRank)
    case (None, _) => true
    case (_, None) => false
  }

  function ScanOrder(clock: Clock, ascending: bool): (Observation, Observation) -> bool {
    if ascending then (a, b) => ScanLe(a, b, clock) else (a, b) => ScanLe(b, a, clock)
  }

  /** Rows with `low <= clock column <= high`, in engine order; a NULL column never
      satisfies a bound. */
  predicate InRange(o: Observation, clock: Clock, low: Option<int>, high: Option<int>) {
    && ClockColumn(o, clock).Some?
    && (low.Some? ==> low.value <= ClockColumn(o, clock).value)
    && (high.Some? ==> ClockColumn(o, clock).value <= high.value)
  }

  function WithinRange(clock: Clock, low: Option<int>, high: Option<int>): Observation -> bool {
    (o: Observation) => InRange(o, clock, low, high)
  }

  function RangeScan(table: seq<Observation>, clock: Clock, low: Option<int>, high: Option<int>,
                     ascending: bool): seq<Observation> {
    StableSort(Filter(table, WithinRange(clock, low, high)), ScanOrder(clock, ascending))
  }

  lemma ScanOrderIsOrder(clock: Clock, ascending: bool)
    ensures TotalPreorder(ScanOrder(clock, ascending))
  {
  }

  lemma RangeScanContents(table: seq<Observation>, clock: Clock, low: Option<int>, high: Option<int>, ascending: bool)
    ensures SortedBy(RangeScan(table, clock, low, high, ascending), ScanOrder(clock, ascending))
    ensures forall o ::
              o in RangeScan(table, clock, low, high, ascending) <==> o in table && InRange(o, clock, low, high)
  {
    ScanOrderIsOrder(clock, ascending);
    SortSorts(Filter(table, WithinRange(clock, low, high)), ScanOrder(clock, ascending));
    SortMembers(Filter(table, WithinRange(clock, low, high)), ScanOrder(clock, ascending));
  }

  // --------------------------------------------------------- boundary reads

  function LatencyOf(r: Recipe): seq<int> { Map(r.streams, (s: StreamSpec) => s.latency) }

  lemma LatencyBounds(r: Recipe, k: nat)
    requires r.Valid() && k < |r.streams|
    ensures MinOf(LatencyOf(r)) <= r.streams[k].latency <= MaxOf(LatencyOf(r))
  {
    assert LatencyOf(r)[k] in LatencyOf(r);
  }

  predicate Qualifies(o: Observation, clock: Clock, s: StreamSpec, boundary: int, before: bool) {
    && ClockColumn(o, clock).Some? && Matches(o, s)
    && if before then TimeOf(o, clock, s) < boundary else TimeOf(o, clock, s) > boundary
  }

  function Qualifier(clock: Clock, s: StreamSpec, boundary: int, before: bool): Observation -> bool {
    o => Qualifies(o, clock, s, boundary, before)
  }

  /** `o` is the closest of the stream's rows on its side of the boundary. */
  ghost predicate ClosestAt(o: Observation, table: seq<Observation>, clock: Clock, s: StreamSpec, boundary: int,
                            before: bool) {
    && o in table && Qualifies(o, clock, s, boundary, before)
    && forall x <- table :: Qualifies(x, clock, s, boundary, before) ==>
         if before then TimeOf(x, clock, s) <= TimeOf(o, clock, s) else TimeOf(o, clock, s) <= TimeOf(x, clock, s)
  }

  function Indices(n: nat): (all: set<nat>)
    ensures |all| == n && forall k: nat :: k in all <==> k < n
  {
    if n == 0 then {} else Indices(n - 1) + {n - 1}
  }

  lemma {:induction false} SubsetSize(a: set<nat>, b: set<nat>)
    requires a <= b && |a| == |b|
    ensures a == b
  {
    if a != {} {
      var x :| x in a;
      SubsetSize(a - {x}, b - {x});
    }
  }

  function FirstHit(scan: seq<Observation>, keep: Observation -> bool): Option<Observation> {
    var hits := Filter(scan, keep);
    if hits == [] then None else Some(hits[0])
  }

  function Lookup(found: map<nat, Observation>, k: nat): Option<Observation> {
    if k in found then Some(found[k]) else None
  }

  lemma FirstHitAppend(scan: seq<Observation>, more: seq<Observation>, keep: Observation -> bool)
    ensures FirstHit(scan + more, keep)
            == if FirstHit(scan, keep).Some? then FirstHit(scan, keep) else FirstHit(more, keep)
  {
    FilterAppend(scan, more, keep);
  }

  /** Stream `k` has the row it had, or else the scanned one if that qualifies. */
  ghost predicate Offered(found: map<nat, Observation>, start: map<nat, Observation>, o: Observation, r: Recipe,
                          boundary: int, before: bool, k: nat)
    requires k < |r.streams|
  {
    Lookup(found, k)
    == if k in start then Some(start[k]) else FirstHit([o], Qualifier(r.clock, r.streams[k], boundary, before))
  }

  lemma HitOfOne(o: Observation, keep: Observation -> bool)
    ensures FirstHit([o], keep) == if keep(o) then Some(o) else None
  {
    assert [o][1..] == [];
  }

  /** The first `k` streams have been offered the row, the others are as they were. */
  ghost predicate OfferedUpTo(found: map<nat, Observation>, start: map<nat, Observation>, o: Observation, r: Recipe,
                              boundary: int, before: bool, k: nat)
    requires k <= |r.streams|
  {
    && (forall j <- found :: j < |r.streams|)
    && (forall j: nat :: j < k ==> Offered(found, start, o, r, boundary, before, j))
    && (forall j: nat :: k <= j < |r.streams| ==> Lookup(found, j) == Lookup(start, j))
  }

  lemma OfferedOneMore(found: map<nat, Observation>, next: map<nat, Observation>, start: map<nat, Observation>,
                       o: Observation, r: Recipe, boundary: int, before: bool, k: nat)
    requires k < |r.streams| && OfferedUpTo(found, start, o, r, boundary, before, k)
    requires next == if k !in found && Qualifies(o, r.clock, r.streams[k], boundary, before) then found[k := o]
                     else found
    ensures OfferedUpTo(next, start, o, r, boundary, before, k + 1)
  {
    HitOfOne(o, Qualifier(r.clock, r.streams[k], boundary, before));
    assert Lookup(found, k) == Lookup(start, k);
    forall j: nat | j < |r.streams| && j != k ensures Lookup(next, j) == Lookup(found, j) {
    }
    forall j: nat | j <= k ensures Offered(next, start, o, r, boundary, before, j) {
      assert j < k ==> Offered(found, start, o, r, boundary, before, j);
    }
  }

  /** One scanned row offered to the streams that have none yet. */
  method OfferRow(o: Observation, r: Recipe, boundary: int, before: bool, start: map<nat, Observation>)
    returns (found: map<nat, Observation>)
    requires forall k <- start :: k < |r.streams|
    ensures forall k <- found :: k < |r.streams|
    ensures forall k: nat :: k < |r.streams| ==> Offered(found, start, o, r, boundary, before, k)
  {
    found := start;
    for k := 0 to |r.streams|
      invariant OfferedUpTo(found, start, o, r, boundary, before, k)
    {
      ghost var earlier := found;
      if k !in found && Qualifies(o, r.clock, r.streams[k], boundary, before) {
        found := found[k := o];
      }
      OfferedOneMore(earlier, found, start, o, r, boundary, before, k);
    }
  }

  /** Stream `k` has its first qualifying row of the scan, if there is one. */
  ghost predicate FoundFor(found: map<nat, Observation>, scan: seq<Observation>, r: Recipe, boundary: int, before: bool,
                           k: nat)
    requires k < |r.streams|
  {
    Lookup(found, k) == FirstHit(scan, Qualifier(r.clock, r.streams[k], boundary, before))
  }

  lemma OfferedNext(start: map<nat, Observation>, found: map<nat, Observation>, scan: seq<Observation>, i: nat,
                    r: Recipe, boundary: int, before: bool, k: nat)
    requires i < |scan| && k < |r.streams| && FoundFor(start, scan[..i], r, boundary, before, k)
    requires Offered(found, start, scan[i], r, boundary, before, k)
    ensures FoundFor(found, scan[..i + 1], r, boundary, before, k)
  {
    assert scan[..i + 1] == scan[..i] + [scan[i]];
    FirstHitAppend(scan[..i], [scan[i]], Qualifier(r.clock, r.streams[k], boundary, before));
  }

  /** Once every stream has a row the rest of the scan changes nothing. */
  lemma FoundAlready(found: map<nat, Observation>, scan: seq<Observation>, i: nat, r: Recipe, boundary: int,
                     before: bool, k: nat)
    requires i <= |scan| && k < |r.streams| && k in found && FoundFor(found, scan[..i], r, boundary, before, k)
    ensures FoundFor(found, scan, r, boundary, before, k)
  {
    assert scan == scan[..i] + scan[i..];
    FirstHitAppend(scan[..i], scan[i..], Qualifier(r.clock, r.streams[k], boundary, before));
  }

  lemma AllFound(found: map<nat, Observation>, n: nat)
    requires |found| == n && forall k <- found :: k < n
    ensures forall k: nat :: k < n ==> k in found
  {
    SubsetSize(found.Keys, Indices(n));
    assert |found.Keys| == n;
  }

  /** The first qualifying row per stream of an outward scan from the boundary, until
      every stream has one. */
  method FirstQualifying(scan: seq<Observation>, r: Recipe, boundary: int, before: bool)
    returns (found: map<nat, Observation>)
    ensures forall k <- found :: k < |r.streams|
    ensures forall k: nat :: k < |r.streams| ==> FoundFor(found, scan, r, boundary, before, k)
  {
    found := map[];
    for i := 0 to |scan|
      invariant forall k <- found :: k < |r.streams|
      invariant forall k: nat :: k < |r.streams| ==> FoundFor(found, scan[..i], r, boundary, before, k)
    {
      ghost var start, seen := found, scan[..i + 1];
      found := OfferRow(scan[i], r, boundary, before, found);
      forall k: nat | k < |r.streams| ensures FoundFor(found, seen, r, boundary, before, k) {
        OfferedNext(start, found, scan, i, r, boundary, before, k);
      }
      if |found| == |r.streams| {
        AllFound(found, |r.streams|);
        forall k: nat | k < |r.streams| ensures FoundFor(found, scan, r, boundary, before, k) {
          FoundAlready(found, scan, i + 1, r, boundary, before, k);
        }
        return;
      }
    }
    assert scan[..|scan|] == scan;
  }

  function BoundaryLow(r: Recipe, boundary: int, before: bool): Option<int>
    requires r.Valid()
  {
    if before then None else Some(boundary + MinOf(LatencyOf(r)) + 1)
  }

  function BoundaryHigh(r: Recipe, boundary: int, before: bool): Option<int>
    requires r.Valid()
  {
    if before then Some(boundary + MaxOf(LatencyOf(r)) - 1) else None
  }

  function BoundaryScan(table: seq<Observation>, r: Recipe, boundary: int, before: bool): seq<Observation>
    requires r.Valid()
  {
    RangeScan(table, r.clock, BoundaryLow(r, boundary, before), BoundaryHigh(r, boundary, before), !before)
  }

  lemma QualifiersAreScanned(table: seq<Observation>, r: Recipe, boundary: int, before: bool, k: nat)
    requires r.Valid() && k < |r.streams|
    ensures forall o :: o in table && Qualifies(o, r.clock, r.streams[k], boundary, before) ==>
              o in BoundaryScan(table, r, boundary, before)
    ensures forall o <- BoundaryScan(table, r, boundary, before) :: o in table
    ensures SortedBy(BoundaryScan(table, r, boundary, before), ScanOrder(r.clock, !before))
  {
    var low, high := BoundaryLow(r, boundary, before), BoundaryHigh(r, boundary, before);
    RangeScanContents(table, r.clock, low, high, !before);
    LatencyBounds(r, k);
    forall o | o in table && Qualifies(o, r.clock, r.streams[k], boundary, before)
      ensures InRange(o, r.clock, low, high)
    {
    }
  }

  lemma HeadIsClosest(hits: seq<Observation>, clock: Clock, s: StreamSpec, before: bool, x: Observation)
    requires SortedBy(hits, ScanOrder(clock, !before)) && x in hits
    requires forall o <- hits :: ClockColumn(o, clock).Some?
    ensures if before then TimeOf(x, clock, s) <= TimeOf(hits[0], clock, s)
            else TimeOf(hits[0], clock, s) <= TimeOf(x, clock, s)
  {
    var i :| 0 <= i < |hits| && hits[i] == x;
    assert i == 0 || ScanOrder(clock, !before)(hits[0], hits[i]);
  }

  /** The first hit of the outward scan is the closest row, although the scan's bound
      covers every stream's latency at once. */
  lemma FirstHitIsClosest(table: seq<Observation>, r: Recipe, boundary: int, before: bool, k: nat)
    requires r.Valid() && k < |r.streams|
    ensures var hit := FirstHit(BoundaryScan(table, r, boundary, before),
                                Qualifier(r.clock, r.streams[k], boundary, before));
            && (hit.Some? ==> ClosestAt(hit.value, table, r.clock, r.streams[k], boundary, before))
            && (hit.None? ==> forall o <- table :: !Qualifies(o, r.clock, r.streams[k], boundary, before))
  {
    var s, scan := r.streams[k], BoundaryScan(table, r, boundary, before);
    var hits := Filter(scan, Qualifier(r.clock, s, boundary, before));
    QualifiersAreScanned(table, r, boundary, before, k);
    FilterSorted(scan, Qualifier(r.clock, s, boundary, before), ScanOrder(r.clock, !before));
    forall x | x in table && Qualifies(x, r.clock, s, boundary, before)
      ensures hits != []
      ensures if before then TimeOf(x, r.clock, s) <= TimeOf(hits[0], r.clock, s)
              else TimeOf(hits[0], r.clock, s) <= TimeOf(x, r.clock, s)
    {
      assert Qualifier(r.clock, s, boundary, before)(x) && x in hits;
      HeadIsClosest(hits, r.clock, s, before, x);
    }
    if hits != [] {
      assert hits[0] in hits;
    }
  }

  /** One row per stream that has any: the closest before, or after, the boundary. */
  method BoundaryRefs(table: seq<Observation>, r: Recipe, boundary: int, before: bool)
    returns (found: map<nat, Observation>)
    requires r.Valid()
    ensures forall k <- found :: k < |r.streams|
    ensures forall k: nat :: k < |r.streams| ==>
              FoundFor(found, BoundaryScan(table, r, boundary, before), r, boundary, before, k)
    ensures forall k :: 0 <= k < |r.streams| && k in found ==>
              ClosestAt(found[k], table, r.clock, r.streams[k], boundary, before)
    ensures forall k :: 0 <= k < |r.streams| && k !in found ==>
              forall o <- table :: !Qualifies(o, r.clock, r.streams[k], boundary, before)
  {
    found := FirstQualifying(BoundaryScan(table, r, boundary, before), r, boundary, before);
    forall k | 0 <= k < |r.streams|
      ensures k in found ==> ClosestAt(found[k], table, r.clock, r.streams[k], boundary, before)
      ensures k !in found ==> forall o <- table :: !Qualifies(o, r.clock, r.streams[k], boundary, before)
    {
      assert FoundFor(found, BoundaryScan(table, r, boundary, before), r, boundary, before, k);
      FirstHitIsClosest(table, r, boundary, before, k);
    }
  }

  // --------------------------------------------------------- segment reads

  ghost predicate UniqueRowIds(table: seq<Observation>) {
    forall a, b | a in table && b in table && a.rowId == b.rowId :: a == b
  }

  predicate InSegment(o: Observation, r: Recipe, lo: int, hi: int) {
    exists s <- r.streams :: Matches(o, s) && lo <= TimeOf(o, r.clock, s) <= hi
  }

  function Inside(r: Recipe, lo: int, hi: int): Observation -> bool { (o: Observation) => InSegment(o, r, lo, hi) }

  predicate SortRankLe(a: Observation, b: Observation) { a.sortRank <= b.sortRank }

  /** A stream's first hit of the outward scan from a boundary. */
  ghost predicate IsFirstHit(table: seq<Observation>, r: Recipe, k: nat, boundary: int, before: bool, o: Observation)
    requires k < |r.streams|
  {
    && r.Valid()
    && FirstHit(BoundaryScan(table, r, boundary, before), Qualifier(r.clock, r.streams[k], boundary, before)) == Some(o)
  }

  /** Some stream's first hit on that side. */
  ghost predicate IsBoundaryRow(table: seq<Observation>, r: Recipe, boundary: int, before: bool, o: Observation) {
    exists k: nat :: k < |r.streams| && IsFirstHit(table, r, k, boundary, before, o)
  }

  /** What makes a segment load a row: it lies inside for some stream, or is some stream's first
      hit on either side. */
  ghost predicate LoadedFor(o: Observation, table: seq<Observation>, r: Recipe, lo: int, hi: int) {
    InSegment(o, r, lo, hi) || IsBoundaryRow(table, r, lo, true, o) || IsBoundaryRow(table, r, hi, false, o)
  }

  /** Exactly the rows a segment loads. */
  ghost predicate Loaded(refs: seq<Observation>, table: seq<Observation>, r: Recipe, lo: int, hi: int) {
    forall o :: o in refs <==> o in table && ClockColumn(o, r.clock).Some? && LoadedFor(o, table, r, lo, hi)
  }

  /** Adds rows to an id-keyed, insertion-ordered collection; a known id is a rewrite
      of the same row. */
  method AddRows(picked: seq<Observation>, rows: seq<Observation>) returns (all: seq<Observation>)
    requires UniqueRowIds(picked + rows)
    ensures forall o :: o in all <==> o in picked || o in rows
  {
    all := picked;
    var ids := set o <- picked :: o.rowId;
    for i := 0 to |rows|
      invariant forall o :: o in all <==> o in picked || o in rows[..i]
      invariant ids == set o <- all :: o.rowId
    {
      if rows[i].rowId !in ids {
        all := all + [rows[i]];
        ids := ids + {rows[i].rowId};
      } else {
        var o :| o in all && o.rowId == rows[i].rowId;
        assert o in picked + rows && rows[i] in picked + rows;
        assert o == rows[i];
      }
    }
  }

  /** The values of a boundary read, in stream order. */
  method FoundRows(found: map<nat, Observation>, n: nat) returns (rows: seq<Observation>)
    requires forall k <- found :: k < n
    ensures forall o :: o in rows <==> exists k <- found :: found[k] == o
  {
    rows := [];
    for k := 0 to n
      invariant forall o :: o in rows <==> exists j <- found :: j < k && found[j] == o
    {
      if k in found {
        rows := rows + [found[k]];
      }
    }
  }

  lemma SegmentRowsScanned(table: seq<Observation>, r: Recipe, lo: int, hi: int, o: Observation)
    requires r.Valid() && o in table && ClockColumn(o, r.clock).Some? && InSegment(o, r, lo, hi)
    ensures InRange(o, r.clock, Some(lo + MinOf(LatencyOf(r))), Some(hi + MaxOf(LatencyOf(r))))
  {
    var s :| s in r.streams && Matches(o, s) && lo <= TimeOf(o, r.clock, s) <= hi;
    var k :| 0 <= k < |r.streams| && r.streams[k] == s;
    LatencyBounds(r, k);
  }

  function SegmentScanRows(table: seq<Observation>, r: Recipe, lo: int, hi: int): seq<Observation>
    requires r.Valid()
  {
    RangeScan(table, r.clock, Some(lo + MinOf(LatencyOf(r))), Some(hi + MaxOf(LatencyOf(r))), true)
  }

  lemma ScannedIsClocked(table: seq<Observation>, r: Recipe, lo: int, hi: int)
    requires r.Valid()
    ensures forall o <- SegmentScanRows(table, r, lo, hi) :: o in table && ClockColumn(o, r.clock).Some?
  {
    RangeScanContents(table, r.clock, Some(lo + MinOf(LatencyOf(r))), Some(hi + MaxOf(LatencyOf(r))), true);
  }

  lemma InsideIsScanned(table: seq<Observation>, r: Recipe, lo: int, hi: int, o: Observation)
    requires r.Valid() && o in table && ClockColumn(o, r.clock).Some? && InSegment(o, r, lo, hi)
    ensures o in SegmentScanRows(table, r, lo, hi)
  {
    SegmentRowsScanned(table, r, lo, hi, o);
    RangeScanContents(table, r.clock, Some(lo + MinOf(LatencyOf(r))), Some(hi + MaxOf(LatencyOf(r))), true);
  }

  lemma SegmentScanContents(table: seq<Observation>, r: Recipe, lo: int, hi: int)
    requires r.Valid()
    ensures forall o :: o in Filter(SegmentScanRows(table, r, lo, hi), Inside(r, lo, hi)) <==>
              o in table && ClockColumn(o, r.clock).Some? && InSegment(o, r, lo, hi)
  {
    var scan, inside := SegmentScanRows(table, r, lo, hi), Inside(r, lo, hi);
    ScannedIsClocked(table, r, lo, hi);
    forall o | o in table && ClockColumn(o, r.clock).Some? && InSegment(o, r, lo, hi)
      ensures o in Filter(scan, inside)
    {
      InsideIsScanned(table, r, lo, hi, o);
      assert inside(o);
    }
    forall o | o in Filter(scan, inside) ensures o in scan && InSegment(o, r, lo, hi) {
      assert inside(o);
    }
  }

  lemma BoundaryRowIsStored(table: seq<Observation>, r: Recipe, boundary: int, before: bool, o: Observation)
    requires IsBoundaryRow(table, r, boundary, before, o)
    ensures o in table && ClockColumn(o, r.clock).Some?
  {
    var k: nat :| k < |r.streams| && IsFirstHit(table, r, k, boundary, before, o);
    FirstHitIsClosest(table, r, boundary, before, k);
  }

  lemma FoundAreFirstHits(table: seq<Observation>, r: Recipe, boundary: int, before: bool, found: map<nat, Observation>,
                          o: Observation)
    requires r.Valid() && forall k <- found :: k < |r.streams|
    requires forall k: nat :: k < |r.streams| ==>
               FoundFor(found, BoundaryScan(table, r, boundary, before), r, boundary, before, k)
    ensures (exists k <- found :: found[k] == o) <==> IsBoundaryRow(table, r, boundary, before, o)
  {
    if k :| k in found && found[k] == o {
      assert FoundFor(found, BoundaryScan(table, r, boundary, before), r, boundary, before, k);
      assert IsFirstHit(table, r, k, boundary, before, o);
    }
    if IsBoundaryRow(table, r, boundary, before, o) {
      var k: nat :| k < |r.streams| && IsFirstHit(table, r, k, boundary, before, o);
      assert FoundFor(found, BoundaryScan(table, r, boundary, before), r, boundary, before, k);
      assert k in found && found[k] == o;
    }
  }

  /** Each stream's closest row on one side of a boundary, as a list. */
  method BoundaryRows(table: seq<Observation>, r: Recipe, boundary: int, before: bool) returns (rows: seq<Observation>)
    requires r.Valid()
    ensures forall o :: o in rows <==> IsBoundaryRow(table, r, boundary, before, o)
    ensures forall o <- rows :: o in table && ClockColumn(o, r.clock).Some?
  {
    var found := BoundaryRefs(table, r, boundary, before);
    rows := FoundRows(found, |r.streams|);
    forall o ensures o in rows <==> IsBoundaryRow(table, r, boundary, before, o) {
      FoundAreFirstHits(table, r, boundary, before, found, o);
    }
    forall o | o in rows ensures o in table && ClockColumn(o, r.clock).Some? {
      BoundaryRowIsStored(table, r, boundary, before, o);
    }
  }

  /** The observations loaded for one segment: those inside it, plus each stream's first hit on
      either side, and no others. */
  method SegmentObservationRefs(table: seq<Observation>, r: Recipe, lo: int, hi: int) returns (refs: seq<Observation>)
    requires r.Valid() && UniqueRowIds(table)
    ensures Loaded(refs, table, r, lo, hi)
  {
    var inside := Filter(SegmentScanRows(table, r, lo, hi), Inside(r, lo, hi));
    SegmentScanContents(table, r, lo, hi);
    var before := BoundaryRows(table, r, lo, true);
    var after := BoundaryRows(table, r, hi, false);
    var picked := AddRows([], inside);
    picked := AddRows(picked, before + after);
    refs := StableSort(picked, SortRankLe);
    SortMembers(picked, SortRankLe);
  }

  lemma ClockedRow(table: seq<Observation>, clock: Clock, s: StreamSpec, x: TimedRow)
    requires x in TimedRows(Clocked(table, clock), clock, s)
    ensures x.obs in table && ClockColumn(x.obs, clock).Some? && InStream(x.obs, clock, s)
    ensures x.time == TimeOf(x.obs, clock, s)
  {
    TimedRowsContents(Clocked(table, clock), clock, s);
    assert HasClock(clock)(x.obs);
  }

  /** A loaded row at least as close as any row of the stream beyond a boundary. */
  lemma LoadedRow(refs: seq<Observation>, table: seq<Observation>, r: Recipe, lo: int, hi: int, k: nat, before: bool,
                  x: TimedRow)
    returns (y: TimedRow)
    requires r.Valid() && Loaded(refs, table, r, lo, hi) && k < |r.streams|
    requires x in TimedRows(Clocked(table, r.clock), r.clock, r.streams[k])
    requires if before then x.time < lo else hi < x.time
    ensures y in TimedRows(refs, r.clock, r.streams[k])
    ensures if before then x.time <= y.time < lo else hi < y.time <= x.time
  {
    var s, boundary := r.streams[k], if before then lo else hi;
    ClockedRow(table, r.clock, s, x);
    FirstHitIsClosest(table, r, boundary, before, k);
    var o := FirstHit(BoundaryScan(table, r, boundary, before), Qualifier(r.clock, s, boundary, before)).value;
    assert IsFirstHit(table, r, k, boundary, before, o) && IsBoundaryRow(table, r, boundary, before, o);
    y := TimedRow(TimeOf(o, r.clock, s), o);
    TimedRowsContents(refs, r.clock, s);
  }

  lemma LoadedMembers(refs: seq<Observation>, table: seq<Observation>, r: Recipe, lo: int, hi: int, k: nat)
    requires Loaded(refs, table, r, lo, hi) && k < |r.streams|
    ensures forall x :: x in TimedRows(refs, r.clock, r.streams[k]) <==>
              x in TimedRows(Clocked(table, r.clock), r.clock, r.streams[k]) && LoadedFor(x.obs, table, r, lo, hi)
  {
    TimedRowsContents(refs, r.clock, r.streams[k]);
    TimedRowsContents(Clocked(table, r.clock), r.clock, r.streams[k]);
    forall o: Observation ensures o in Clocked(table, r.clock) <==> o in table && ClockColumn(o, r.clock).Some? {
      assert HasClock(r.clock)(o) <==> ClockColumn(o, r.clock).Some?;
    }
  }

  /** What a segment loads suffices for each of its streams. */
  lemma LoadedSuffices(refs: seq<Observation>, table: seq<Observation>, r: Recipe, lo: int, hi: int, k: nat)
    requires r.Valid() && Loaded(refs, table, r, lo, hi) && k < |r.streams|
    ensures Suffices(TimedRows(refs, r.clock, r.streams[k]), TimedRows(Clocked(table, r.clock), r.clock, r.streams[k]),
                     lo, hi)
  {
    var s := r.streams[k];
    var seg, full := TimedRows(refs, r.clock, s), TimedRows(Clocked(table, r.clock), r.clock, s);
    TimedRowsContents(refs, r.clock, s);
    TimedRowsContents(Clocked(table, r.clock), r.clock, s);
    LoadedMembers(refs, table, r, lo, hi, k);
    forall x: TimedRow | x in full && x.time < lo ensures CoveredBelow(seg, x, lo) {
      var y := LoadedRow(refs, table, r, lo, hi, k, true, x);
    }
    forall x: TimedRow | x in full && hi < x.time ensures CoveredAbove(seg, x, hi) {
      var y := LoadedRow(refs, table, r, lo, hi, k, false, x);
    }
    forall x: TimedRow | x in full && lo <= x.time <= hi ensures x in seg {
      ClockedRow(table, r.clock, s, x);
      assert InSegment(x.obs, r, lo, hi);
    }
  }
}
