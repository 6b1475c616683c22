/** Reading back what was written: from any ordinal, whatever order the rows are stored in. */
module RowPlanReads {
  import opened Ordering
  import opened TickWindows
  import opened RowPlanChunks

  function SkippedOf(count: nat, start: int, wanted: int): (n: nat)
    ensures n <= count
  {
    if wanted <= start then 0 else if wanted - start >= count then count else wanted - start
  }

  /** The targets from an ordinal on, where the first of them has ordinal `start`. */
  function Suffix(targets: seq<Target>, start: int, wanted: int): (suffix: seq<Emitted>) {
    var skip := SkippedOf(|targets|, start, wanted);
    seq(|targets| - skip, k requires 0 <= k < |targets| - skip =>
      Emitted(start + skip + k, targets[skip + k].id, targets[skip + k].rowId))
  }

  lemma PieceOfChunk(plan: string, targets: seq<Target>, index: nat, start: nat, created: int, wanted: int)
    ensures Piece(ChunkOf(plan, targets, index, start, created), wanted) == Suffix(targets, start, wanted)
  {
    var c := ChunkOf(plan, targets, index, start, created);
    var skip := SkippedOf(|targets|, start, wanted);
    assert Skipped(c, wanted) == skip;
    forall k | 0 <= k < |targets| - skip ensures Piece(c, wanted)[k] == Suffix(targets, start, wanted)[k] {
      assert Piece(c, wanted)[k] == TargetAt(c, skip + k);
    }
  }

  lemma SuffixSplits(targets: seq<Target>, n: nat, start: int, wanted: int)
    requires n <= |targets|
    ensures Suffix(targets[..n], start, wanted) + Suffix(targets[n..], start + n, wanted)
            == Suffix(targets, start, wanted)
  {
  }

  /** Chunks just sealed stream as the targets they were sealed from. */
  lemma {:induction false} StreamOfChunks(plan: string, targets: seq<Target>, width: nat, index: nat, start: nat,
                                          clock: nat -> int, wanted: int)
    requires width >= 1
    ensures var chunks := ChunksFrom(plan, targets, width, index, start, clock);
            && Stream(chunks, start, wanted) == Suffix(targets, start, wanted)
            && FirstGap(chunks, start).None?
  {
    if |targets| > 0 {
      var n := Full(targets, width);
      var rest := ChunksFrom(plan, targets[n..], width, index + 1, start + n, clock);
      StreamOfChunks(plan, targets[n..], width, index + 1, start + n, clock, wanted);
      PieceOfChunk(plan, targets[..n], index, start, clock(index), wanted);
      SuffixSplits(targets, n, start, wanted);
      StreamHead(ChunkOf(plan, targets[..n], index, start, clock(index)), rest, wanted);
    }
  }

  lemma StreamHead(head: Chunk, rest: seq<Chunk>, wanted: int)
    ensures Stream([head] + rest, head.start, wanted)
            == Piece(head, wanted) + Stream(rest, head.start + |head.ids|, wanted)
    ensures FirstGap([head] + rest, head.start) == FirstGap(rest, head.start + |head.ids|)
  {
    assert ([head] + rest)[1..] == rest;
  }

  function StartsIn(lo: int, hi: int): Chunk -> bool { (c: Chunk) => lo <= c.start < hi }

  /** The chunks from the q-th on are those of the targets from ordinal `lo` on. */
  ghost predicate CutsAt(plan: string, targets: seq<Target>, width: nat, index: nat, start: nat, clock: nat -> int,
                         lo: nat, q: nat)
    requires width >= 1
  {
    var all := ChunksFrom(plan, targets, width, index, start, clock);
    && q <= |all| && all[q..] == ChunksFrom(plan, From(targets, lo), width, index + q, start + lo, clock)
    && forall k :: 0 <= k < q ==> all[k].start < start + lo
  }

  /** Every chunk boundary is such a cut. */
  lemma {:induction false} ChunksTail(plan: string, targets: seq<Target>, width: nat, index: nat, start: nat,
                                      clock: nat -> int, lo: nat)
    returns (q: nat)
    requires width >= 1 && Aligned(lo, width)
    ensures CutsAt(plan, targets, width, index, start, clock, lo, q)
    decreases lo
  {
    if lo == 0 {
      q := 0;
      assert From(targets, 0) == targets;
    } else if |targets| < width {
      q := CutPastEnd(plan, targets, width, index, start, clock, lo);
    } else {
      q := ChunksTail(plan, targets[width..], width, index + 1, start + width, clock, lo - width);
      CutLater(plan, targets, width, index, start, clock, lo, q);
      q := q + 1;
    }
  }

  lemma CutPastEnd(plan: string, targets: seq<Target>, width: nat, index: nat, start: nat, clock: nat -> int, lo: nat)
    returns (q: nat)
    requires |targets| < width <= lo
    ensures CutsAt(plan, targets, width, index, start, clock, lo, q)
  {
    q := |ChunksFrom(plan, targets, width, index, start, clock)|;
    assert From(targets, lo) == [];
    forall k: nat | k < q ensures ChunksFrom(plan, targets, width, index, start, clock)[k].start < start + lo {
      ChunkIndexes(plan, targets, width, index, start, clock, k);
    }
  }

  lemma CutLater(plan: string, targets: seq<Target>, width: nat, index: nat, start: nat, clock: nat -> int, lo: nat,
                 p: nat)
    requires 1 <= width <= |targets| && width <= lo
    requires CutsAt(plan, targets[width..], width, index + 1, start + width, clock, lo - width, p)
    ensures CutsAt(plan, targets, width, index, start, clock, lo, p + 1)
  {
    var all := ChunksFrom(plan, targets, width, index, start, clock);
    assert all[1..] == ChunksFrom(plan, targets[width..], width, index + 1, start + width, clock)
           && all[0].start == start;
    FromRest(targets, width, lo);
    TailOfRest(all, p);
  }

  function From(targets: seq<Target>, lo: nat): seq<Target> { targets[AtMost(lo, |targets|)..] }

  lemma TailOfRest<T>(xs: seq<T>, p: nat)
    requires p + 1 <= |xs|
    ensures xs[p + 1..] == xs[1..][p..]
    ensures forall k :: 1 <= k < p + 1 ==> xs[k] == xs[1..][k - 1]
  {
  }

  lemma FromRest(targets: seq<Target>, width: nat, lo: nat)
    requires width <= |targets| && width <= lo
    ensures From(targets[width..], lo - width) == From(targets, lo)
  {
  }

  lemma DropChunks(plan: string, targets: seq<Target>, width: nat, clock: nat -> int, lo: nat, hi: int)
    returns (first: nat)
    requires width >= 1 && hi >= |targets| && Aligned(lo, width)
    ensures Filter(ChunksFrom(plan, targets, width, 0, 0, clock), StartsIn(lo, hi))
         == ChunksFrom(plan, From(targets, lo), width, first, lo, clock)
  {
    var all := ChunksFrom(plan, targets, width, 0, 0, clock);
    first := ChunksTail(plan, targets, width, 0, 0, clock, lo);
    forall k: nat | k < |all| ensures lo <= all[k].start < hi <==> k >= first {
      CutStarts(plan, targets, width, clock, lo, first, k);
    }
    KeepTail(all, first, lo, hi);
  }

  lemma CutStarts(plan: string, targets: seq<Target>, width: nat, clock: nat -> int, lo: nat, q: nat, k: nat)
    requires width >= 1 && CutsAt(plan, targets, width, 0, 0, clock, lo, q)
    requires k < |ChunksFrom(plan, targets, width, 0, 0, clock)|
    ensures lo <= ChunksFrom(plan, targets, width, 0, 0, clock)[k].start <==> k >= q
    ensures ChunksFrom(plan, targets, width, 0, 0, clock)[k].start < |targets|
  {
    ChunkIndexes(plan, targets, width, 0, 0, clock, k);
    if k >= q {
      ChunkIndexes(plan, From(targets, lo), width, q, lo, clock, k - q);
    }
  }

  lemma KeepTail(all: seq<Chunk>, first: nat, lo: int, hi: int)
    requires first <= |all| && forall k: nat :: k < |all| ==> (lo <= all[k].start < hi <==> k >= first)
    ensures Filter(all, StartsIn(lo, hi)) == all[first..]
  {
    FilterFrom(all, first, |all|, StartsIn(lo, hi));
    assert all[..|all|] == all;
  }

  lemma ChunksSorted(plan: string, targets: seq<Target>, width: nat, index: nat, start: nat, clock: nat -> int)
    requires width >= 1
    ensures var chunks := ChunksFrom(plan, targets, width, index, start, clock);
            SortedBy(chunks, ByStart) && Antisymmetric(chunks, ByStart)
  {
    var chunks := ChunksFrom(plan, targets, width, index, start, clock);
    forall i, j | 0 <= i < j < |chunks| ensures chunks[i].start < chunks[j].start {
      StartsAscend(plan, targets, width, index, start, clock, i, j);
    }
    forall x, y | x in chunks && y in chunks && ByStart(x, y) && ByStart(y, x) ensures x == y {
      var i :| 0 <= i < |chunks| && chunks[i] == x;
      var j :| 0 <= j < |chunks| && chunks[j] == y;
    }
  }

  lemma LaterChunk(plan: string, targets: seq<Target>, width: nat, index: nat, start: nat, clock: nat -> int, k: nat)
    requires width >= 1 && 0 < k < |ChunksFrom(plan, targets, width, index, start, clock)|
    ensures var n := Full(targets, width);
            var chunks := ChunksFrom(plan, targets, width, index, start, clock);
            var rest := ChunksFrom(plan, targets[n..], width, index + 1, start + n, clock);
            && |chunks| == |rest| + 1 && chunks[k] == rest[k - 1] && chunks[0].start == start && n >= 1
  {
  }

  lemma {:induction false} StartsAscend(plan: string, targets: seq<Target>, width: nat, index: nat, start: nat,
                                        clock: nat -> int, i: nat, j: nat)
    requires width >= 1 && i < j < |ChunksFrom(plan, targets, width, index, start, clock)|
    ensures var chunks := ChunksFrom(plan, targets, width, index, start, clock); chunks[i].start < chunks[j].start
  {
    var n := Full(targets, width);
    var chunks := ChunksFrom(plan, targets, width, index, start, clock);
    var rest := ChunksFrom(plan, targets[n..], width, index + 1, start + n, clock);
    LaterChunk(plan, targets, width, index, start, clock, j);
    if i == 0 {
      ChunkIndexes(plan, targets[n..], width, index + 1, start + n, clock, j - 1);
    } else {
      LaterChunk(plan, targets, width, index, start, clock, i);
      StartsAscend(plan, targets[n..], width, index + 1, start + n, clock, i - 1, j - 1);
    }
  }

  /** The table holds exactly the chunks one write seals, in any order, among other rows. */
  ghost predicate Stores(table: seq<Chunk>, plan: string, targets: seq<Target>, width: nat, clock: nat -> int)
    requires width >= 1
  {
    multiset(Filter(table, OfPlan(plan))) == multiset(ChunksFrom(plan, targets, width, 0, 0, clock))
  }

  lemma WindowOfStored(table: seq<Chunk>, plan: string, targets: seq<Target>, width: nat, clock: nat -> int, lo: nat,
                       hi: int)
    returns (first: nat)
    requires width >= 1 && Stores(table, plan, targets, width, clock) && hi >= |targets| && Aligned(lo, width)
    ensures ChunkRows(table, plan, lo, hi) == ChunksFrom(plan, From(targets, lo), width, first, lo, clock)
  {
    var all := ChunksFrom(plan, targets, width, 0, 0, clock);
    first := DropChunks(plan, targets, width, clock, lo, hi);
    ChunksSorted(plan, From(targets, lo), width, first, lo, clock);
    SortedWindow(table, plan, all, lo, hi, ChunksFrom(plan, From(targets, lo), width, first, lo, clock));
  }

  lemma SortedWindow(table: seq<Chunk>, plan: string, all: seq<Chunk>, lo: int, hi: int, expected: seq<Chunk>)
    requires multiset(Filter(table, OfPlan(plan))) == multiset(all)
    requires Filter(all, StartsIn(lo, hi)) == expected
    requires SortedBy(expected, ByStart) && Antisymmetric(expected, ByStart)
    ensures ChunkRows(table, plan, lo, hi) == expected
  {
    FilterFilter(table, OfPlan(plan), StartsIn(lo, hi), ChunkIn(plan, lo, hi));
    FilterPermutation(Filter(table, OfPlan(plan)), all, StartsIn(lo, hi));
    SortedRows(Filter(table, ChunkIn(plan, lo, hi)), expected);
  }

  lemma SortedRows(rows: seq<Chunk>, expected: seq<Chunk>)
    requires multiset(rows) == multiset(expected) && SortedBy(expected, ByStart) && Antisymmetric(expected, ByStart)
    ensures StableSort(rows, ByStart) == expected
  {
    SortSorts(rows, ByStart);
    SortedUnique(expected, StableSort(rows, ByStart), ByStart);
  }

  /** A read of a stored plan from any ordinal gives exactly the targets from there on; a
      negative ordinal makes it raise, whatever is stored. */
  lemma ReadsTheSuffix(table: seq<Chunk>, plan: string, targets: seq<Target>, chunkSize: int, clock: nat -> int,
                       wanted: int)
    requires Stores(table, plan, targets, Width(chunkSize), clock)
    ensures ReadFrom(table, plan, |targets|, chunkSize, wanted)
         == Read(Suffix(targets, 0, wanted), if wanted >= 0 then Finished else Short(|targets|, |targets| - wanted))
  {
    var width := Width(chunkSize);
    var lo := Base(wanted, width);
    var hi := ScanEnd(lo, |targets|, Window(width));
    var first := WindowOfStored(table, plan, targets, width, clock, lo, hi);
    RowsOfSuffix(plan, targets, width, clock, lo, first, wanted);
  }

  lemma RowsOfSuffix(plan: string, targets: seq<Target>, width: nat, clock: nat -> int, lo: nat, first: nat,
                     wanted: int)
    requires width >= 1 && if wanted >= 0 then lo <= wanted else lo == 0
    ensures ReadRows(ChunksFrom(plan, From(targets, lo), width, first, lo, clock), lo, wanted, |targets|)
         == Read(Suffix(targets, 0, wanted), if wanted >= 0 then Finished else Short(|targets|, |targets| - wanted))
  {
    StreamOfChunks(plan, From(targets, lo), width, first, lo, clock, wanted);
    assert Suffix(From(targets, lo), lo, wanted) == Suffix(targets, 0, wanted);
  }

  /** The table once writers of the same targets died along the way and one finished. */
  function Retried(rows: seq<Chunk>, plan: string, targets: seq<Target>, width: nat, attempts: seq<Attempt>,
                   clock: nat -> int): seq<Chunk>
    requires width >= 1
  {
    MergeInsert(AfterAttempts(rows, plan, targets, width, attempts), ChunksFrom(plan, targets, width, 0, 0, clock))
  }

  /** Writers may die and be started again any number of times: once one finishes, reads give
      the targets. */
  lemma RetriedWriteReadsBack(rows: seq<Chunk>, plan: string, targets: seq<Target>, chunkSize: int,
                              attempts: seq<Attempt>, clock: nat -> int, wanted: nat)
    requires Filter(rows, OfPlan(plan)) == []
    ensures ReadFrom(Retried(rows, plan, targets, Width(chunkSize), attempts, clock), plan, |targets|, chunkSize,
                     wanted)
         == Read(Suffix(targets, 0, wanted), Finished)
  {
    var sealedAt := RetriesConverge(rows, plan, targets, Width(chunkSize), attempts, clock);
    StoredReadsBack(Retried(rows, plan, targets, Width(chunkSize), attempts, clock), plan, targets, chunkSize,
                    sealedAt, wanted);
  }

  /** And the plan has as many chunks as its target count calls for. */
  lemma RetriedWriteCounts(rows: seq<Chunk>, plan: string, targets: seq<Target>, width: nat, attempts: seq<Attempt>,
                           clock: nat -> int)
    requires width >= 1 && Filter(rows, OfPlan(plan)) == []
    ensures |Filter(Retried(rows, plan, targets, width, attempts, clock), OfPlan(plan))|
            == (|targets| + width - 1) / width
  {
    var sealedAt := RetriesConverge(rows, plan, targets, width, attempts, clock);
    ChunkCount(plan, targets, width, 0, 0, sealedAt);
  }

  lemma StoredReadsBack(table: seq<Chunk>, plan: string, targets: seq<Target>, chunkSize: int, clock: nat -> int,
                        wanted: nat)
    requires Filter(table, OfPlan(plan)) == ChunksFrom(plan, targets, Width(chunkSize), 0, 0, clock)
    ensures ReadFrom(table, plan, |targets|, chunkSize, wanted) == Read(Suffix(targets, 0, wanted), Finished)
  {
    ReadsTheSuffix(table, plan, targets, chunkSize, clock, wanted);
  }

  lemma CeilStep(n: nat, width: nat)
    requires width >= 1 && n > 0
    ensures (n + width - 1) / width == if n <= width then 1 else (n - width + width - 1) / width + 1
  {
    if n <= width {
      RemainderOf(1, n - 1, width);
    } else {
      var q, r := (n - 1) / width, (n - 1) % width;
      assert n - 1 == q * width + r;
      assert n - 1 + width == (q + 1) * width + r;
      RemainderOf(q + 1, r, width);
      assert n - width + width - 1 == n - 1;
    }
  }

  /** The count of chunks sealed is the one announced for the target count. */
  lemma {:induction false} ChunkCount(plan: string, targets: seq<Target>, width: nat, index: nat, start: nat,
                                      clock: nat -> int)
    requires width >= 1
    ensures |ChunksFrom(plan, targets, width, index, start, clock)| == (|targets| + width - 1) / width
  {
    if targets == [] {
      RemainderOf(0, width - 1, width);
    } else {
      CeilStep(|targets|, width);
      var n := Full(targets, width);
      var rest := ChunksFrom(plan, targets[n..], width, index + 1, start + n, clock);
      assert |ChunksFrom(plan, targets, width, index, start, clock)| == 1 + |rest|;
      if n == |targets| {
        assert rest == [];
      } else {
        ChunkCount(plan, targets[n..], width, index + 1, start + n, clock);
      }
    }
  }

  // ------------------------------------------------------- storage descriptor

  datatype Descriptor = InlineTargets(count: nat) | ChunkedTargets(count: nat, width: nat, chunks: nat)

  /** What a compile announces before it writes. */
  function StoragePayload(count: nat, chunkSize: int, inlineLimit: int): (d: Descriptor)
    ensures d.ChunkedTargets? <==> count > inlineLimit
  {
    var width := Width(chunkSize);
    if count > inlineLimit then ChunkedTargets(count, width, (count + width - 1) / width) else InlineTargets(count)
  }

  /** Announcing and then writing give the same chunk count and width. */
  method CompileThenWrite(table: ChunkTable, plan: string, targets: seq<Target>, chunkSize: int, inlineLimit: int,
                          clock: nat -> int)
    returns (planned: Descriptor, written: Option<Storage>)
    modifies table
    ensures planned.ChunkedTargets? ==>
              && written.Some?
              && planned == ChunkedTargets(written.value.targetCount, written.value.width, written.value.chunkCount)
              && written.value.digest == Fold(Ids(targets))
    ensures planned.InlineTargets? ==> written.None? && table.rows == old(table.rows)
  {
    planned := StoragePayload(|targets|, chunkSize, inlineLimit);
    written := None;
    if planned.ChunkedTargets? {
      ghost var all := ChunksFrom(plan, targets, Width(chunkSize), 0, 0, clock);
      ChunkCount(plan, targets, Width(chunkSize), 0, 0, clock);
      written := table.WriteRowPlanChunks(plan, targets, chunkSize, clock,
                                          (|targets| + Width(chunkSize) - 1) / Width(chunkSize));
    }
  }
}
