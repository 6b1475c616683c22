/** Where a read of a validated plan can resume: exactly at the chunk boundaries its header
    implies. */
module RowPlanResume {
  import opened Ordering
  import opened RowPlanChunks
  import opened RowPlanReads
  import opened TargetDigests
  import opened RowPlanValidation

  lemma {:induction false} NoGapPrefix(rows: seq<Chunk>, more: seq<Chunk>, base: int)
    requires FirstGap(rows + more, base).None?
    ensures FirstGap(rows, base).None? && FirstGap(more, base + |AllIds(rows)|).None?
  {
    if rows == [] {
      assert rows + more == more;
    } else {
      assert (rows + more)[1..] == rows[1..] + more;
      AllIdsHead(rows);
      NoGapPrefix(rows[1..], more, base + |rows[0].ids|);
    }
  }

  lemma PieceWanted(c: Chunk, wanted: int)
    ensures |Piece(c, c.start)| == |c.ids|
    ensures Piece(c, wanted) == Piece(c, c.start)[SkippedOf(|c.ids|, c.start, wanted)..]
  {
    var skip := SkippedOf(|c.ids|, c.start, wanted);
    forall k | 0 <= k < |c.ids| - skip ensures Piece(c, wanted)[k] == Piece(c, c.start)[skip + k] {
      assert Piece(c, wanted)[k] == TargetAt(c, skip + k) && Piece(c, c.start)[skip + k] == TargetAt(c, skip + k);
    }
  }

  lemma DropJoined<T>(a: seq<T>, b: seq<T>, n: nat)
    requires n <= |a + b|
    ensures (a + b)[n..] == a[AtMost(n, |a|)..] + b[n - AtMost(n, |a|)..]
  {
    if n <= |a| {
      assert b[0..] == b;
      assert (a + b)[n..] == a[n..] + b;
    } else {
      assert (a + b)[n..] == b[n - |a|..];
      assert a[|a|..] == [];
    }
  }

  /** Asking for a later ordinal drops that many targets. */
  lemma {:induction false} StreamWanted(rows: seq<Chunk>, base: int, from: int, wanted: int)
    requires FirstGap(rows, base).None? && from <= base
    ensures |Stream(rows, base, from)| == |AllIds(rows)|
    ensures Stream(rows, base, wanted) == Stream(rows, base, from)[SkippedOf(|AllIds(rows)|, base, wanted)..]
  {
    if rows != [] {
      StreamWanted(rows[1..], base + |rows[0].ids|, from, wanted);
      StreamWantedHead(rows, base, from, wanted);
    }
  }

  lemma StreamWantedHead(rows: seq<Chunk>, base: int, from: int, wanted: int)
    requires rows != [] && rows[0].start == base && from <= base
    requires var next := base + |rows[0].ids|;
             && |Stream(rows[1..], next, from)| == |AllIds(rows[1..])|
             && Stream(rows[1..], next, wanted)
                == Stream(rows[1..], next, from)[SkippedOf(|AllIds(rows[1..])|, next, wanted)..]
    ensures |Stream(rows, base, from)| == |AllIds(rows)|
    ensures Stream(rows, base, wanted) == Stream(rows, base, from)[SkippedOf(|AllIds(rows)|, base, wanted)..]
  {
    var c, next := rows[0], base + |rows[0].ids|;
    AllIdsHead(rows);
    StreamFirst(rows, base, wanted);
    StreamFirst(rows, base, from);
    PieceWanted(c, wanted);
    PieceWanted(c, from);
    DropJoined(Piece(c, from), Stream(rows[1..], next, from), SkippedOf(|AllIds(rows)|, base, wanted));
  }

  lemma EmptyTail(rows: seq<Chunk>, base: int, wanted: int, total: int)
    requires FirstGap(rows, base).None? && base + |AllIds(rows)| == total && wanted < total
    requires forall c <- rows :: c.start >= total
    ensures Stream(rows, base, wanted) == []
    ensures base == total || |AllIds(rows)| == 0 ==> AllIds(rows) == []
  {
    if rows != [] {
      assert rows[0] in rows;
      StreamWanted(rows, base, if wanted < base then wanted else base, wanted);
    }
  }

  /** A contiguous plan cut into what starts before `lo`, what a resumed read sees, and what
      starts at its end. */
  ghost predicate Cut(before: seq<Chunk>, seen: seq<Chunk>, after: seq<Chunk>, lo: int, total: int) {
    && FirstGap(before + (seen + after), 0).None?
    && |AllIds(before)| + |AllIds(seen)| + |AllIds(after)| == total
    && (forall c <- before :: c.start < lo) && (forall c <- seen :: c.start >= lo)
    && (forall c <- after :: c.start >= total)
  }

  lemma CutStream(before: seq<Chunk>, seen: seq<Chunk>, after: seq<Chunk>, lo: int, wanted: int, total: int)
    requires Cut(before, seen, after, lo, total) && 0 <= wanted < total
    ensures |Stream(before + (seen + after), 0, 0)| == total
    ensures Stream(before + (seen + after), 0, wanted) == Stream(before + (seen + after), 0, 0)[wanted..]
  {
    StreamWanted(before + (seen + after), 0, 0, wanted);
    AllIdsJoin(before, seen + after);
    AllIdsJoin(seen, after);
  }

  lemma CutParts(before: seq<Chunk>, seen: seq<Chunk>, after: seq<Chunk>, lo: int, total: int)
    requires Cut(before, seen, after, lo, total) && seen != [] && seen[0].start == lo
    ensures |AllIds(before)| == lo && FirstGap(before, 0).None? && FirstGap(seen, lo).None?
    ensures FirstGap(after, lo + |AllIds(seen)|).None?
  {
    NoGapPrefix(before, seen + after, 0);
    assert (seen + after)[0] == seen[0];
    NoGapPrefix(seen, after, lo);
  }

  lemma SeenStream(before: seq<Chunk>, seen: seq<Chunk>, after: seq<Chunk>, lo: int, wanted: int, total: int)
    requires Cut(before, seen, after, lo, total) && 0 <= lo <= wanted < total
    requires seen != [] && seen[0].start == lo
    ensures Stream(before + (seen + after), 0, wanted) == Stream(seen, lo, wanted)
  {
    CutParts(before, seen, after, lo, total);
    SkipBefore(before, seen + after, lo, wanted);
    DropAfter(seen, after, lo, wanted, total);
  }

  lemma SkipBefore(before: seq<Chunk>, tail: seq<Chunk>, lo: int, wanted: int)
    requires FirstGap(before, 0).None? && |AllIds(before)| == lo <= wanted
    ensures Stream(before + tail, 0, wanted) == Stream(tail, lo, wanted)
  {
    StreamSplit(before, tail, 0, wanted);
    AllBefore(before, wanted);
  }

  lemma DropAfter(seen: seq<Chunk>, after: seq<Chunk>, lo: int, wanted: int, total: int)
    requires FirstGap(seen, lo).None? && FirstGap(after, lo + |AllIds(seen)|).None?
    requires lo + |AllIds(seen)| + |AllIds(after)| == total && wanted < total && forall c <- after :: c.start >= total
    ensures Stream(seen + after, lo, wanted) == Stream(seen, lo, wanted)
  {
    EmptyTail(after, lo + |AllIds(seen)|, wanted, total);
    StreamSplit(seen, after, lo, wanted);
  }

  lemma AllBefore(before: seq<Chunk>, wanted: int)
    requires FirstGap(before, 0).None? && |AllIds(before)| <= wanted
    ensures Stream(before, 0, wanted) == []
  {
    StreamWanted(before, 0, 0, wanted);
  }

  lemma ResumeAtBoundary(before: seq<Chunk>, seen: seq<Chunk>, after: seq<Chunk>, lo: int, wanted: int, total: int)
    requires Cut(before, seen, after, lo, total) && 0 <= lo <= wanted < total
    requires seen != [] && seen[0].start == lo
    ensures |Stream(before + (seen + after), 0, 0)| == total
    ensures ReadRows(seen, lo, wanted, total) == Read(Stream(before + (seen + after), 0, 0)[wanted..], Finished)
  {
    CutStream(before, seen, after, lo, wanted, total);
    SeenStream(before, seen, after, lo, wanted, total);
    CutParts(before, seen, after, lo, total);
  }

  lemma {:induction false} AllIdsJoin(a: seq<Chunk>, b: seq<Chunk>)
    ensures AllIds(a + b) == AllIds(a) + AllIds(b)
  {
    if b == [] {
      assert a + b == a;
    } else {
      assert (a + b)[..|a + b| - 1] == a + b[..|b| - 1];
      AllIdsJoin(a, b[..|b| - 1]);
    }
  }

  lemma ResumeElsewhere(seen: seq<Chunk>, lo: int, wanted: int, total: int)
    requires wanted < total && (seen == [] || seen[0].start != lo)
    ensures !ReadRows(seen, lo, wanted, total).outcome.Finished?
  {
  }

  function ReachOf(h: Header): int {
    ScanEnd(Base(0, Width(HeaderWidth(h))), h.targetCount, Window(Width(HeaderWidth(h))))
  }

  lemma CutOfPlan(table: seq<Chunk>, h: Header, lo: nat, mid: int)
    requires Sound(table, h) && h.targetCount <= mid <= ReachOf(h) && lo < h.targetCount
    ensures var before, seen, after := ChunkRows(table, h.plan, 0,
                                                 lo), ChunkRows(table, h.plan, lo,
                                                                mid), ChunkRows(table, h.plan, mid, ReachOf(h));
            && before + (seen + after) == Visited(table, h) && Cut(before, seen, after, lo, h.targetCount)
  {
    var reach := ReachOf(h);
    var before, after := ChunkRows(table, h.plan, 0, lo), ChunkRows(table, h.plan, mid, reach);
    var seen := ChunkRows(table, h.plan, lo, mid);
    WindowsJoin(table, h.plan, lo, mid, reach);
    WindowsJoin(table, h.plan, 0, lo, reach);
    SoundHasNoGap(table, h);
    AllIdsJoin(before, seen + after);
    AllIdsJoin(seen, after);
    RowsInRange(table, h.plan, 0, lo);
    RowsInRange(table, h.plan, lo, mid);
    RowsInRange(table, h.plan, mid, reach);
  }

  lemma FirstIsLeast(rows: seq<Chunk>, c: Chunk)
    requires SortedBy(rows, ByStart) && c in rows
    ensures rows[0] in rows && rows[0].start <= c.start
  {
    var k :| 0 <= k < |rows| && rows[k] == c;
    assert k == 0 || ByStart(rows[0], rows[k]);
  }

  lemma RowsRead(table: seq<Chunk>, plan: string, lo: int, hi: int)
    ensures SortedBy(ChunkRows(table, plan, lo, hi), ByStart)
    ensures forall c :: c in ChunkRows(table, plan, lo, hi) <==> c in table && ChunkIn(plan, lo, hi)(c)
  {
    var picked := Filter(table, ChunkIn(plan, lo, hi));
    SortMembers(picked, ByStart);
    SortSorts(picked, ByStart);
  }

  lemma StartsAtBoundary(table: seq<Chunk>, plan: string, lo: int, hi: int, c: Chunk)
    requires c in table && c.plan == plan && c.start == lo < hi
    ensures ChunkRows(table, plan, lo, hi) != [] && ChunkRows(table, plan, lo, hi)[0].start == lo
  {
    RowsRead(table, plan, lo, hi);
    assert ChunkIn(plan, lo, hi)(c);
    FirstIsLeast(ChunkRows(table, plan, lo, hi), c);
    assert ChunkIn(plan, lo, hi)(ChunkRows(table, plan, lo, hi)[0]);
  }

  lemma FirstAtBoundary(table: seq<Chunk>, plan: string, lo: int, hi: int)
    requires lo < hi
    ensures var rows := ChunkRows(table, plan, lo, hi);
            (rows != [] && rows[0].start == lo) <==> exists c <- table :: c.plan == plan && c.start == lo
  {
    var rows := ChunkRows(table, plan, lo, hi);
    if c :| c in table && c.plan == plan && c.start == lo {
      StartsAtBoundary(table, plan, lo, hi, c);
    } else if rows != [] {
      RowsRead(table, plan, lo, hi);
      assert rows[0] in rows && ChunkIn(plan, lo, hi)(rows[0]);
    }
  }

  /** Empty chunks at the very end. */
  predicate Harmless(strays: seq<Chunk>, total: int) { forall c <- strays :: c.start == total && c.ids == [] }

  lemma {:induction false} HarmlessAddsNothing(strays: seq<Chunk>, total: int)
    ensures Harmless(strays, total) <==> FirstGap(strays, total).None? && AllIds(strays) == []
  {
    if strays != [] {
      AllIdsHead(strays);
      if strays[0].ids == [] {
        HarmlessAddsNothing(strays[1..], total);
      }
      HarmlessSplits(strays, total);
    }
  }

  lemma HarmlessSplits(strays: seq<Chunk>, total: int)
    requires strays != []
    ensures Harmless(strays, total) <==> strays[0].start == total && strays[0].ids == [] && Harmless(strays[1..], total)
  {
    assert strays == [strays[0]] + strays[1..];
  }

  /** What strays behind a complete read do to it. */
  lemma StraysAppended(seen: seq<Chunk>, strays: seq<Chunk>, lo: int, wanted: int, total: int, rest: seq<Emitted>)
    requires ReadRows(seen, lo, wanted, total) == Read(rest, Finished) && FirstGap(seen, lo).None?
    requires lo + |AllIds(seen)| == total && wanted < total
    ensures ReadRows(seen + strays, lo, wanted, total) == Read(rest, Finished) <==> Harmless(strays, total)
    ensures rest <= ReadRows(seen + strays, lo, wanted, total).emitted
  {
    StreamSplit(seen, strays, lo, wanted);
    HarmlessAddsNothing(strays, total);
    if FirstGap(strays, total).None? {
      StrayLength(strays, total, wanted);
      ReadsOn(seen + strays, lo, wanted, total, rest, Stream(strays, total, wanted));
    } else {
      GapsAreNotFinished(strays, total);
    }
  }

  lemma StrayLength(strays: seq<Chunk>, total: int, wanted: int)
    requires FirstGap(strays, total).None? && wanted < total
    ensures |Stream(strays, total, wanted)| == |AllIds(strays)|
  {
    StreamWanted(strays, total, wanted, wanted);
  }

  lemma ReadsOn(rows: seq<Chunk>, lo: int, wanted: int, total: int, rest: seq<Emitted>, more: seq<Emitted>)
    requires FirstGap(rows, lo).None? && Stream(rows, lo, wanted) == rest + more && |rest| >= total - wanted
    ensures ReadRows(rows, lo, wanted, total) == Read(rest, Finished) <==> more == []
  {
  }

  lemma NotAtBoundary(seen: seq<Chunk>, strays: seq<Chunk>, lo: int, wanted: int, total: int)
    requires lo < total && wanted < total && (seen == [] || seen[0].start != lo)
             && forall c <- strays :: c.start >= total
    ensures !ReadRows(seen + strays, lo, wanted, total).outcome.Finished?
    ensures ReadRows(seen + strays, lo, wanted, total).emitted == []
  {
    if seen == [] && strays != [] {
      assert strays[0] in strays;
      assert (seen + strays)[0] == strays[0];
    } else if seen != [] {
      assert (seen + strays)[0] == seen[0];
    } else {
      assert seen + strays == [];
    }
    ResumeElsewhere(seen + strays, lo, wanted, total);
  }

  /** The windows a resumed read looks at reach from its boundary to here. */
  function ResumeEnd(h: Header, wanted: int): int {
    ScanEnd(Base(wanted, Width(HeaderWidth(h))), h.targetCount, Window(Width(HeaderWidth(h))))
  }

  /** Some chunk starts where the header's width says the ordinal's chunk does. */
  predicate OnBoundary(table: seq<Chunk>, h: Header, wanted: int) {
    exists c <- table :: c.plan == h.plan && c.start == Base(wanted, Width(HeaderWidth(h)))
  }

  /** No stored chunk that validation did not visit, but the resumed read does, adds
      anything. */
  predicate NoStrays(table: seq<Chunk>, h: Header, wanted: int) {
    forall c <- table :: c.plan == h.plan && ReachOf(h) <= c.start < ResumeEnd(h, wanted) ==>
      c.start == h.targetCount && c.ids == []
  }

  /** A plan with a clean report reads from the start; a read resumed at a later ordinal gives
      exactly the rest if and only if some chunk starts at the boundary the header's width
      puts that ordinal in and no stray chunk lies in the stretch validation does not see. */
  lemma ResumeSucceedsExactly(table: seq<Chunk>, h: Header, wanted: nat)
    requires Sound(table, h) && wanted < h.targetCount
    ensures var whole, read := ReadFrom(table, h.plan, h.targetCount, HeaderWidth(h),
                                        0), ReadFrom(table, h.plan, h.targetCount, HeaderWidth(h), wanted);
            && |whole.emitted| == h.targetCount
            && (read == Read(whole.emitted[wanted..], Finished)
                <==> OnBoundary(table, h, wanted) && NoStrays(table, h, wanted))
            && (if OnBoundary(table, h, wanted) then whole.emitted[wanted..] <= read.emitted
                else read.emitted == [] && !read.outcome.Finished?)
  {
    var lo, hi := Base(wanted, Width(HeaderWidth(h))), ResumeEnd(h, wanted);
    var mid := if hi < ReachOf(h) then hi else ReachOf(h);
    SoundPlansRead(table, h);
    CutOfPlan(table, h, lo, mid);
    FirstAtBoundary(table, h.plan, lo, mid);
    WindowsJoin(table, h.plan, lo, mid, hi);
    RowsInRange(table, h.plan, mid, hi);
    StraysAre(table, h, wanted, mid);
    NothingBefore(table, h.plan, mid);
    ResumedRows(ChunkRows(table, h.plan, 0, lo), ChunkRows(table, h.plan, lo, mid),
                ChunkRows(table, h.plan, mid, ReachOf(h)),
                ChunkRows(table, h.plan, mid, hi), lo, wanted, h.targetCount);
  }

  /** A resumed read over a contiguous plan: it starts at the boundary, and either it stops
      where the validated rows go on or strays follow where they end. */
  lemma ResumedRows(before: seq<Chunk>, seen: seq<Chunk>, after: seq<Chunk>, strays: seq<Chunk>, lo: int, wanted: int,
                    total: int)
    requires Cut(before, seen, after, lo, total) && 0 <= lo <= wanted < total
    requires (after == [] || strays == []) && forall c <- strays :: c.start >= total
    ensures var whole, read := Stream(before + (seen + after), 0, 0), ReadRows(seen + strays, lo, wanted, total);
            && |whole| == total
            && (read == Read(whole[wanted..], Finished)
                <==> seen != [] && seen[0].start == lo && Harmless(strays, total))
            && (if seen != [] && seen[0].start == lo then whole[wanted..] <= read.emitted
                else read.emitted == [] && !read.outcome.Finished?)
  {
    CutStream(before, seen, after, lo, wanted, total);
    if seen != [] && seen[0].start == lo {
      ResumeAtBoundary(before, seen, after, lo, wanted, total);
      if strays == [] {
        assert seen + strays == seen;
      } else {
        CutParts(before, seen, after, lo, total);
        StraysAppended(seen, strays, lo, wanted, total, Stream(before + (seen + after), 0, 0)[wanted..]);
      }
    } else {
      NotAtBoundary(seen, strays, lo, wanted, total);
    }
  }

  lemma StraysAre(table: seq<Chunk>, h: Header, wanted: int, mid: int)
    requires mid == if ResumeEnd(h, wanted) < ReachOf(h) then ResumeEnd(h, wanted) else ReachOf(h)
    ensures NoStrays(table, h, wanted) <==> Harmless(ChunkRows(table, h.plan, mid, ResumeEnd(h, wanted)), h.targetCount)
  {
    var strays := ChunkRows(table, h.plan, mid, ResumeEnd(h, wanted));
    RowsInRange(table, h.plan, mid, ResumeEnd(h, wanted));
    SortMembers(Filter(table, ChunkIn(h.plan, mid, ResumeEnd(h, wanted))), ByStart);
    forall c | c in table && c.plan == h.plan && ReachOf(h) <= c.start < ResumeEnd(h, wanted) ensures c in strays {
      assert ChunkIn(h.plan, mid, ResumeEnd(h, wanted))(c);
    }
  }

  // -------------------------------------------------------------- two examples

  lemma SortedAlready(rows: seq<Chunk>)
    requires forall i, j :: 0 <= i < j < |rows| ==> rows[i].start < rows[j].start
    ensures StableSort(rows, ByStart) == rows
  {
    forall x, y | x in rows && y in rows && ByStart(x, y) && ByStart(y, x) ensures x == y {
      var i :| 0 <= i < |rows| && rows[i] == x;
      var j :| 0 <= j < |rows| && rows[j] == y;
      assert i < j || j < i || i == j;
    }
    SortedRows(rows, rows);
  }

  lemma AllInRange(rows: seq<Chunk>, plan: string, lo: int, hi: int)
    requires forall i, j :: 0 <= i < j < |rows| ==> rows[i].start < rows[j].start
    requires forall c <- rows :: ChunkIn(plan, lo, hi)(c)
    ensures ChunkRows(rows, plan, lo, hi) == rows
  {
    FilterAll(rows, ChunkIn(plan, lo, hi));
    SortedAlready(rows);
  }

  function ThreeIds(index: int, start: int): Chunk {
    Chunk("p", index, start, start + 2, ["a", "b", "c"], [None, None, None], 3, 0)
  }

  lemma TwoChunksFit(a: Chunk, b: Chunk)
    requires a.start == 0 && b.start == |a.ids| && a.index != b.index
    requires a.end == |a.ids| - 1 && a.count == |a.ids| && b.end == b.start + |b.ids| - 1 && b.count == |b.ids|
    ensures ChunkFits([a, b], 0) && ChunkFits([a, b], 1) && |AllIds([a, b])| == |a.ids| + |b.ids|
  {
    assert [a, b][..1] == [a] && [a, b][..0] == [] && [a][..0] == [];
    assert AllIds([a]) == [] + a.ids;
    assert AllIds([a, b]) == AllIds([a]) + b.ids;
  }

  function NarrowTable(): seq<Chunk> { [ThreeIds(0, 0), ThreeIds(1, 3)] }

  lemma NarrowSound()
    ensures Sound(NarrowTable(), Header("p", 6, 2, 4, None))
  {
    NarrowVisited();
    TwoChunksFit(ThreeIds(0, 0), ThreeIds(1, 3));
    FitsMakeSound(NarrowTable(), Header("p", 6, 2, 4, None), [ThreeIds(0, 0), ThreeIds(1, 3)]);
  }

  lemma NarrowVisited()
    ensures Visited(NarrowTable(), Header("p", 6, 2, 4, None)) == [ThreeIds(0, 0), ThreeIds(1, 3)]
  {
    assert ReachOf(Header("p", 6, 2, 4, None)) == 128;
    AllInRange(NarrowTable(), "p", 0, 128);
  }

  /** Chunks narrower than the header's width pass validation, yet a cursor into the second
      one cannot be resumed. */
  lemma ValidatedPlanMayNotResume()
    ensures Sound(NarrowTable(), Header("p", 6, 2, 4, None))
    ensures !ReadFrom(NarrowTable(), "p", 6, 4, 4).outcome.Finished?
  {
    NarrowSound();
    NarrowStarts();
    ResumeSucceedsExactly(NarrowTable(), Header("p", 6, 2, 4, None), 4);
  }

  lemma NarrowStarts()
    ensures Base(4, 4) == 4 && ReachOf(Header("p", 6, 2, 4, None)) == 128
    ensures forall c <- NarrowTable() :: c.start != 4 && c.start < 128
  {
  }

  function OneId(index: int, start: int): Chunk {
    Chunk("p", index, start, start, ["a"], [None], 1, 0)
  }

  function StrayTable(): seq<Chunk> { [OneId(0, 0), OneId(1, 1), OneId(9, 32)] }

  function StrayHeader(): Header { Header("p", 2, 2, 1, None) }

  lemma StrayRows()
    ensures ChunkRows(StrayTable(), "p", 0, 32) == [OneId(0, 0), OneId(1, 1)]
  {
    var rows := [OneId(0, 0), OneId(1, 1)];
    assert StrayTable() == rows + [OneId(9, 32)];
    FilterAppend(rows, [OneId(9, 32)], ChunkIn("p", 0, 32));
    FilterNone([OneId(9, 32)], ChunkIn("p", 0, 32));
    FilterAll(rows, ChunkIn("p", 0, 32));
    SortedAlready(rows);
  }

  lemma StrayUnvisited()
    ensures Visited(StrayTable(), StrayHeader()) == [OneId(0, 0), OneId(1, 1)]
  {
    assert ReachOf(StrayHeader()) == 32;
    StrayRows();
  }

  lemma StraySound()
    ensures Sound(StrayTable(), StrayHeader())
  {
    StrayUnvisited();
    TwoChunksFit(OneId(0, 0), OneId(1, 1));
    FitsMakeSound(StrayTable(), StrayHeader(), [OneId(0, 0), OneId(1, 1)]);
  }

  lemma FitsMakeSound(table: seq<Chunk>, h: Header, rows: seq<Chunk>)
    requires Visited(table, h) == rows && |rows| == 2 && ChunkFits(rows, 0) && ChunkFits(rows, 1)
    requires |AllIds(rows)| == h.targetCount && h.chunkCount == 2 && h.digest == None
    ensures Sound(table, h)
  {
  }

  lemma KeepsInside<T>(outside: seq<T>, inside: seq<T>, keep: T -> bool)
    requires (forall x <- outside :: !keep(x)) && forall x <- inside :: keep(x)
    ensures Filter(outside + inside, keep) == inside
  {
    FilterAppend(outside, inside, keep);
    FilterNone(outside, keep);
    FilterAll(inside, keep);
  }

  lemma WindowOf(outside: seq<Chunk>, inside: seq<Chunk>, plan: string, lo: int, hi: int)
    requires (forall c <- outside :: !ChunkIn(plan, lo, hi)(c)) && forall c <- inside :: ChunkIn(plan, lo, hi)(c)
    requires forall i, j :: 0 <= i < j < |inside| ==> inside[i].start < inside[j].start
    ensures ChunkRows(outside + inside, plan, lo, hi) == inside
  {
    KeepsInside(outside, inside, ChunkIn(plan, lo, hi));
    SortedAlready(inside);
  }

  lemma StrayWindow()
    ensures ChunkRows(StrayTable(), "p", 1, 33) == [OneId(1, 1), OneId(9, 32)]
  {
    var rows := [OneId(1, 1), OneId(9, 32)];
    assert StrayTable() == [OneId(0, 0)] + rows;
    WindowOf([OneId(0, 0)], rows, "p", 1, 33);
  }

  lemma GapAfterFirst(a: Chunk, b: Chunk, wanted: int, total: int)
    requires b.start != a.start + |a.ids|
    ensures ReadRows([a, b], a.start, wanted, total).outcome == NonContiguous(a.start + |a.ids|, b.start)
  {
    var base := a.start + |a.ids|;
    assert [a, b][1..] == [b];
    assert FirstGap([b], base) == Some(NonContiguous(base, b.start));
    assert FirstGap([a, b], a.start) == FirstGap([b], base);
  }

  lemma OneWindow()
    ensures Base(1, 1) == 1 && ScanEnd(1, 2, Window(Width(1))) == 33
  {
  }

  lemma StrayRead()
    ensures ReadFrom(StrayTable(), "p", 2, 1, 1).outcome == NonContiguous(2, 32)
  {
    StrayWindow();
    GapAfterFirst(OneId(1, 1), OneId(9, 32), 1, 2);
    OneWindow();
  }

  /** A chunk beyond the validator's last window is not reported, but a resumed read looks one
      window further from where it begins and raises on it. */
  lemma StrayChunksGoUnseen()
    ensures Sound(StrayTable(), StrayHeader())
    ensures ReadFrom(StrayTable(), "p", 2, 1, 0).outcome.Finished?
    ensures ReadFrom(StrayTable(), "p", 2, 1, 1).outcome == NonContiguous(2, 32)
  {
    StraySound();
    SoundPlansRead(StrayTable(), StrayHeader());
    StrayRead();
  }

  // ---------------------------------------------------- writes pass validation

  lemma {:induction false} ChunkBounds(plan: string, targets: seq<Target>, width: nat, index: nat, start: nat,
                                       clock: nat -> int, k: nat)
    requires width >= 1 && k < |ChunksFrom(plan, targets, width, index, start, clock)|
    ensures var c := ChunksFrom(plan, targets, width, index, start, clock)[k];
            c.end == c.start + |c.ids| - 1 && c.count == |c.ids|
  {
    var n := Full(targets, width);
    if k > 0 {
      assert ChunksFrom(plan, targets, width, index, start, clock)[1..]
             == ChunksFrom(plan, targets[n..], width, index + 1, start + n, clock);
      ChunkBounds(plan, targets[n..], width, index + 1, start + n, clock, k - 1);
    }
  }

  lemma {:induction false} NoGapStarts(rows: seq<Chunk>, k: nat)
    requires FirstGap(rows, 0).None? && k <= |rows|
    ensures EndOf(rows[..k]) == |AllIds(rows[..k])| && (k < |rows| ==> rows[k].start == EndOf(rows[..k]))
  {
    assert rows == rows[..k] + rows[k..];
    NoGapPrefix(rows[..k], rows[k..], 0);
    if k > 0 {
      NoGapStarts(rows, k - 1);
      assert rows[..k][..k - 1] == rows[..k - 1];
    }
  }

  /** What a write stores passes validation against the descriptor it returned. */
  lemma WrittenPlansAreSound(table: seq<Chunk>, plan: string, targets: seq<Target>, width: nat, clock: nat -> int)
    requires width >= 1 && Stores(table, plan, targets, width, clock)
    ensures Sound(table,
                  Header(plan, |targets|, |ChunksFrom(plan, targets, width, 0, 0, clock)|, width,
                         Some(Fold(Ids(targets)))))
  {
    var h := Header(plan, |targets|, |ChunksFrom(plan, targets, width, 0, 0, clock)|, width, Some(Fold(Ids(targets))));
    var first := WindowOfStored(table, plan, targets, width, clock, 0, ReachOf(h));
    assert From(targets, 0) == targets;
    CountWithoutIndex(plan, targets, width, first, 0, 0, clock);
    SealedIsSound(plan, targets, width, first, clock);
  }

  lemma {:induction false} CountWithoutIndex(plan: string, targets: seq<Target>, width: nat, i: nat, j: nat,
                                             start: nat, clock: nat -> int)
    requires width >= 1
    ensures |ChunksFrom(plan, targets, width, i, start, clock)| == |ChunksFrom(plan, targets, width, j, start, clock)|
  {
    if |targets| > 0 {
      var n := Full(targets, width);
      CountWithoutIndex(plan, targets[n..], width, i + 1, j + 1, start + n, clock);
    }
  }

  lemma SealedIsSound(plan: string, targets: seq<Target>, width: nat, first: nat, clock: nat -> int)
    requires width >= 1
    ensures var rows := ChunksFrom(plan, targets, width, first, 0, clock);
            (forall k :: 0 <= k < |rows| ==> ChunkFits(rows, k)) && AllIds(rows) == Ids(targets)
  {
    var rows := ChunksFrom(plan, targets, width, first, 0, clock);
    StreamOfChunks(plan, targets, width, first, 0, clock, 0);
    StreamIds(rows, 0, 0);
    assert IdsOf(Suffix(targets, 0, 0)) == Ids(targets);
    forall k: nat | k < |rows| ensures ChunkFits(rows, k) {
      NoGapStarts(rows, k);
      ChunkBounds(plan, targets, width, first, 0, clock, k);
      forall j: nat | j < k ensures rows[j].index != rows[k].index {
        ChunkIndexes(plan, targets, width, first, 0, clock, j);
        ChunkIndexes(plan, targets, width, first, 0, clock, k);
      }
    }
  }

  // ------------------------------------------------------------- what is pinned

  /** The descriptor a write of some targets returns. */
  function Written(plan: string, targets: seq<Target>, width: nat): Header
    requires width >= 1
  {
    Header(plan, |targets|, |ChunksFrom(plan, targets, width, 0, 0, Zero())|, width, Some(Fold(Ids(targets))))
  }

  function Zero(): nat -> int { (i: nat) => 0 }

  function Unread(ids: seq<string>): seq<Target> { Map(ids, (id: string) => Target(id, None)) }

  /** However the stored chunks came about, a clean report pins the ids that reading gives to
      those written, exactly when digest and count do. */
  lemma CleanReportsPinExactly(plan: string, targets: seq<Target>, width: nat)
    requires width >= 1
    ensures NewlineFree(Ids(targets)) || |targets| <= 1
       <==> forall table :: Sound(table, Written(plan, targets, width)) ==>
                              IdsOf(ReadFrom(table, plan, |targets|, width, 0).emitted) == Ids(targets)
  {
    var h, ids := Written(plan, targets, width), Ids(targets);
    CountAndDigestPin(ids);
    forall table | (NewlineFree(ids) || |targets| <= 1) && Sound(table, h)
      ensures IdsOf(ReadFrom(table, plan, |targets|, width, 0).emitted) == ids
    {
      SoundPlansRead(table, h);
    }
    if !NewlineFree(ids) && |targets| >= 2 {
      var b: seq<string> :| |b| == |ids| && Fold(b) == Fold(ids) && b != ids;
      TwinIsSound(plan, targets, b, width);
    }
  }

  lemma {:induction false} CountAlone(plan: string, targets: seq<Target>, others: seq<Target>, width: nat,
                                      index: nat, start: nat, clock: nat -> int)
    requires width >= 1 && |targets| == |others|
    ensures |ChunksFrom(plan, targets, width, index, start, clock)|
         == |ChunksFrom(plan, others, width, index, start, clock)|
  {
    if |targets| > 0 {
      var n := Full(targets, width);
      CountAlone(plan, targets[n..], others[n..], width, index + 1, start + n, clock);
    }
  }

  lemma SealedAlone(plan: string, targets: seq<Target>, width: nat)
    requires width >= 1
    ensures var table := ChunksFrom(plan, targets, width, 0, 0, Zero()); Filter(table, OfPlan(plan)) == table
  {
    var table := ChunksFrom(plan, targets, width, 0, 0, Zero());
    forall c | c in table ensures OfPlan(plan)(c) {
      var k :| 0 <= k < |table| && table[k] == c;
      ChunkIndexes(plan, targets, width, 0, 0, Zero(), k);
    }
    FilterAll(table, OfPlan(plan));
  }

  lemma ReadsUnread(table: seq<Chunk>, plan: string, b: seq<string>, width: nat)
    requires width >= 1 && Filter(table, OfPlan(plan)) == ChunksFrom(plan, Unread(b), width, 0, 0, Zero())
    ensures IdsOf(ReadFrom(table, plan, |b|, width, 0).emitted) == b
  {
    StoredReadsBack(table, plan, Unread(b), width, Zero(), 0);
    assert IdsOf(Suffix(Unread(b), 0, 0)) == b;
  }

  /** Chunks of other ids with the same digest and count validate as well. */
  lemma TwinIsSound(plan: string, targets: seq<Target>, b: seq<string>, width: nat)
    requires width >= 1 && |b| == |targets| && Fold(b) == Fold(Ids(targets))
    ensures var table := ChunksFrom(plan, Unread(b), width, 0, 0, Zero());
            && Sound(table, Written(plan, targets, width))
            && IdsOf(ReadFrom(table, plan, |targets|, width, 0).emitted) == b
  {
    var table := ChunksFrom(plan, Unread(b), width, 0, 0, Zero());
    SealedAlone(plan, Unread(b), width);
    ReadsUnread(table, plan, b, width);
    assert Ids(Unread(b)) == b;
    WrittenPlansAreSound(table, plan, Unread(b), width, Zero());
    CountAlone(plan, targets, Unread(b), width, 0, 0, Zero());
  }
}
