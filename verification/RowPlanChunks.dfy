/** A row plan's targets as chunk rows: the write that seals and commits them in bounded
    batches, the windowed read, and what one says about the other. */
module RowPlanChunks {
  import opened Ordering
  import opened TickWindows

  /** Chunks per commit. */
  const WRITE_BATCH: nat := 32

  /** Chunks per windowed read. */
  const SCAN_BATCH: nat := 32

  /** The chunks of that many full commits. */
  function Batches(commits: nat): nat { WRITE_BATCH * commits }

  const DEFAULT_CHUNK_SIZE: nat := 4096

  datatype Target = Target(id: string, rowId: Option<int>)

  datatype Chunk = Chunk(
    plan: string, index: int, start: int, end: int, ids: seq<string>, rowIds: seq<Option<int>>, count: int,
    created: int)

  /** What the chunk's content digest covers; chunk rows merge on it. */
  datatype ChunkId = ChunkId(plan: string, index: int, start: int, ids: seq<string>)

  function IdOf(c: Chunk): ChunkId { ChunkId(c.plan, c.index, c.start, c.ids) }

  /** Chunks have one id exactly when plan, place and target ids are the same; neither their row
      ids nor when they were sealed matters. */
  lemma IdsAreContent(a: Chunk, b: Chunk)
    ensures IdOf(a) == IdOf(b) <==> a.plan == b.plan && a.index == b.index && a.start == b.start && a.ids == b.ids
  {
  }

  function StoredIds(rows: seq<Chunk>): set<ChunkId> { set c <- rows :: IdOf(c) }

  function NewTo(ids: set<ChunkId>): Chunk -> bool { (c: Chunk) => IdOf(c) !in ids }

  /** An insert-only merge: chunks whose id is stored are left alone. */
  function MergeInsert(rows: seq<Chunk>, batch: seq<Chunk>): seq<Chunk> { rows + Filter(batch, NewTo(StoredIds(rows))) }

  /** The ordinals one windowed read covers. */
  function Window(width: nat): nat { SCAN_BATCH * width }

  function Width(chunkSize: int): nat { if chunkSize < 1 then 1 else chunkSize }

  // -------------------------------------------------------------------- write

  function Ids(targets: seq<Target>): seq<string> { Map(targets, (t: Target) => t.id) }

  function RowIds(targets: seq<Target>): seq<Option<int>> { Map(targets, (t: Target) => t.rowId) }

  function ChunkOf(plan: string, targets: seq<Target>, index: nat, start: nat, created: int): Chunk {
    Chunk(plan, index, start, start + |targets| - 1, Ids(targets), RowIds(targets), |targets|, created)
  }

  /** How many targets the next chunk takes. */
  function Full(targets: seq<Target>, width: nat): (n: nat)
    ensures n <= |targets|
    ensures width >= 1 && |targets| > 0 ==> n > 0
  {
    if width <= |targets| then width else |targets|
  }

  /** The chunks of a target sequence: every one full but the last.  `clock` says when each
      chunk is sealed. */
  function ChunksFrom(plan: string, targets: seq<Target>, width: nat, index: nat, start: nat,
                      clock: nat -> int): (chunks: seq<Chunk>)
    requires width >= 1
    ensures |targets| == 0 <==> |chunks| == 0
  {
    if |targets| == 0 then []
    else
      var n := Full(targets, width);
      [ChunkOf(plan, targets[..n], index, start, clock(index))]
      + ChunksFrom(plan, targets[n..], width, index + 1, start + n, clock)
  }

  /** The ordered ids, each ended by a newline: what the target-id digest hashes. */
  function Fold(ids: seq<string>): string {
    if ids == [] then "" else Fold(ids[..|ids| - 1]) + ids[|ids| - 1] + "\n"
  }

  datatype Storage = Storage(targetCount: nat, width: nat, chunkCount: nat, digest: string)

  lemma {:induction false} ChunkIndexes(plan: string, targets: seq<Target>, width: nat, index: nat, start: nat,
                                        clock: nat -> int, k: nat)
    requires width >= 1 && k < |ChunksFrom(plan, targets, width, index, start, clock)|
    ensures var c := ChunksFrom(plan, targets, width, index, start, clock)[k];
            && c.plan == plan && c.index == index + k && c.created == clock(index + k)
            && start + k <= c.start < start + |targets|
  {
    var n := Full(targets, width);
    var all := ChunksFrom(plan, targets, width, index, start, clock);
    var rest := ChunksFrom(plan, targets[n..], width, index + 1, start + n, clock);
    if k == 0 {
      assert all[0] == ChunkOf(plan, targets[..n], index, start, clock(index));
    } else {
      assert all[1..] == rest;
      assert all[k] == rest[k - 1];
      ChunkIndexes(plan, targets[n..], width, index + 1, start + n, clock, k - 1);
    }
  }

  lemma StoredAfterMerge(rows: seq<Chunk>, batch: seq<Chunk>)
    ensures StoredIds(MergeInsert(rows, batch)) == StoredIds(rows) + StoredIds(batch)
  {
    var added := Filter(batch, NewTo(StoredIds(rows)));
    forall id | id in StoredIds(rows) + StoredIds(batch) ensures id in StoredIds(rows + added) {
      if id in StoredIds(rows) {
        var c :| c in rows && IdOf(c) == id;
        assert c in rows + added;
      } else {
        var c :| c in batch && IdOf(c) == id;
        assert c in added && c in rows + added;
      }
    }
  }

  lemma MergeTwice(rows: seq<Chunk>, first: seq<Chunk>, second: seq<Chunk>)
    requires forall c <- second :: IdOf(c) !in StoredIds(first)
    ensures MergeInsert(MergeInsert(rows, first), second) == MergeInsert(rows, first + second)
  {
    StoredAfterMerge(rows, first);
    FilterTwice(rows, first, second, NewTo(StoredIds(MergeInsert(rows, first))), NewTo(StoredIds(rows)));
  }

  lemma FilterTwice<T>(rows: seq<T>, first: seq<T>, second: seq<T>, p: T -> bool, q: T -> bool)
    requires forall c <- second :: p(c) <==> q(c)
    ensures rows + Filter(first, q) + Filter(second, p) == rows + Filter(first + second, q)
  {
    FilterAgree(second, p, q);
    FilterAppend(first, second, q);
  }

  lemma IdsApart(all: seq<Chunk>, f: nat, g: nat)
    requires f <= g <= |all| && forall i: nat :: i < |all| ==> all[i].index == i
    ensures forall c <- all[f..g] :: IdOf(c) !in StoredIds(all[..f])
  {
    forall c | c in all[f..g] ensures c.index >= f {
      var i :| 0 <= i < g - f && all[f..g][i] == c;
      assert c == all[f + i];
    }
    forall d | d in all[..f] ensures d.index < f {
    }
  }

  /** Commits of consecutive batches of one plan's chunks add up to one merge. */
  lemma MergeNextBatch(rows: seq<Chunk>, plan: string, targets: seq<Target>, width: nat, clock: nat -> int, f: nat,
                       g: nat)
    requires width >= 1
    requires f <= g <= |ChunksFrom(plan, targets, width, 0, 0, clock)|
    ensures var all := ChunksFrom(plan, targets, width, 0, 0, clock);
            MergeInsert(MergeInsert(rows, all[..f]), all[f..g]) == MergeInsert(rows, all[..g])
  {
    var all := ChunksFrom(plan, targets, width, 0, 0, clock);
    forall i: nat | i < |all| ensures all[i].index == i {
      ChunkIndexes(plan, targets, width, 0, 0, clock, i);
    }
    IdsApart(all, f, g);
    MergeTwice(rows, all[..f], all[f..g]);
    assert all[..f] + all[f..g] == all[..g];
  }

  /** Where the commits stand: whole batches are in the table, the rest is pending. */
  ghost predicate Committed(rows: seq<Chunk>, initial: seq<Chunk>, all: seq<Chunk>, done: nat, index: nat,
                            pending: seq<Chunk>) {
    && Batches(done) <= index <= |all| && pending == all[Batches(done)..index]
    && rows == MergeInsert(initial, all[..Batches(done)])
  }

  /** One write: the targets, and when each chunk is sealed. */
  datatype Write = Write(plan: string, targets: seq<Target>, width: nat, clock: nat -> int) {
    function Chunks(): seq<Chunk>
      requires width >= 1
    {
      ChunksFrom(plan, targets, width, 0, 0, clock)
    }
  }

  /** The buffered targets, and the chunks not sealed yet. */
  ghost predicate Buffered(w: Write, i: nat, start: nat, index: nat, buffer: seq<Target>)
    requires w.width >= 1
  {
    && start <= i <= |w.targets| && buffer == w.targets[start..i]
    && index <= |w.Chunks()|
    && w.Chunks()[index..] == ChunksFrom(w.plan, w.targets[start..], w.width, index, start, w.clock)
  }

  datatype Progress = Progress(pending: seq<Chunk>, buffer: seq<Target>, index: nat, start: nat, made: nat)

  ghost predicate Batched(rows: seq<Chunk>, initial: seq<Chunk>, w: Write, p: Progress, commits: nat)
    requires w.width >= 1
  {
    Committed(rows, initial, w.Chunks(), p.made, p.index, p.pending) && |p.pending| < WRITE_BATCH && p.made <= commits
  }

  /** A writer that has consumed `i` targets. */
  ghost predicate Writing(rows: seq<Chunk>, initial: seq<Chunk>, w: Write, i: nat, p: Progress, commits: nat)
    requires w.width >= 1
  {
    Buffered(w, i, p.start, p.index, p.buffer) && |p.buffer| < w.width && Batched(rows, initial, w, p, commits)
  }

  /** A writer that died with more chunks than its commits could hold. */
  ghost predicate Died(rows: seq<Chunk>, initial: seq<Chunk>, w: Write, commits: nat)
    requires w.width >= 1
  {
    |w.Chunks()| > Batches(commits) && rows == MergeInsert(initial, w.Chunks()[..Batches(commits)])
  }

  lemma CommittedNext(rows: seq<Chunk>, initial: seq<Chunk>, all: seq<Chunk>, done: nat, index: nat,
                      pending: seq<Chunk>, more: seq<Chunk>)
    requires Committed(rows, initial, all, done, index, pending) && index < |all| && more == pending + [all[index]]
    ensures Committed(rows, initial, all, done, index + 1, more)
  {
  }

  lemma SealKeeps(rows: seq<Chunk>, initial: seq<Chunk>, w: Write, p: Progress, end: nat, pending: seq<Chunk>)
    requires w.width >= 1 && p.buffer != [] && Buffered(w, end, p.start, p.index, p.buffer)
    requires |p.buffer| == w.width || (end == |w.targets| && |p.buffer| < w.width)
    requires Committed(rows, initial, w.Chunks(), p.made, p.index, p.pending)
    requires pending == p.pending + [ChunkOf(w.plan, p.buffer, p.index, p.start, w.clock(p.index))]
    ensures Buffered(w, end, p.start + |p.buffer|, p.index + 1, [])
    ensures Committed(rows, initial, w.Chunks(), p.made, p.index + 1, pending)
  {
    SealedChunk(w.plan, w.targets, w.width, p.index, p.start, w.clock, end);
    CommittedNext(rows, initial, w.Chunks(), p.made, p.index, p.pending, pending);
  }

  /** What a flush of the sealed chunks leaves. */
  lemma FlushedAfterSeal(was: seq<Chunk>, rows: seq<Chunk>, initial: seq<Chunk>, w: Write, end: nat,
                         pending: seq<Chunk>, made: nat, next: Progress, died: bool, commits: nat)
    requires w.width >= 1 && made <= commits && 1 <= |pending| <= WRITE_BATCH
    requires Buffered(w, end, next.start, next.index, []) && next.buffer == []
    requires Committed(was, initial, w.Chunks(), made, next.index, pending)
    requires died <==> |pending| >= WRITE_BATCH && made == commits
    requires died || |pending| < WRITE_BATCH ==> rows == was && next.pending == pending && next.made == made
    requires |pending| >= WRITE_BATCH && !died ==>
               && next.pending == [] && next.made == made + 1
               && rows == MergeInsert(initial, w.Chunks()[..next.index])
    ensures !died ==> Writing(rows, initial, w, end, next, commits)
    ensures died ==> Died(rows, initial, w, commits)
  {
  }

  class ChunkTable {
    var rows: seq<Chunk>

    /** Commits the pending chunks when they fill a batch, or when forced. */
    method FlushPending(pending: seq<Chunk>, force: bool, done: nat, commits: nat,
                        ghost initial: seq<Chunk>, ghost w: Write, ghost index: nat)
      returns (left: seq<Chunk>, made: nat, died: bool)
      requires w.width >= 1 && Committed(rows, initial, w.Chunks(), done, index, pending)
      modifies this
      ensures var all, due := w.Chunks(), pending != [] && (force || |pending| >= WRITE_BATCH);
              && (died <==> due && done == commits)
              && (died || !due ==> rows == old(rows) && left == pending && made == done)
              && (due && !died ==> left == [] && made == done + 1 && rows == MergeInsert(initial, all[..index]))
    {
      left, made, died := pending, done, false;
      if pending == [] || (!force && |pending| < WRITE_BATCH) {
        return;
      }
      if done == commits {
        died := true;
        return;
      }
      MergeNextBatch(initial, w.plan, w.targets, w.width, w.clock, Batches(done), index);
      rows := MergeInsert(rows, pending);
      left, made := [], done + 1;
    }

    /** Turns the buffer into the next chunk. */
    method SealChunk(plan: string, created: int, p: Progress, commits: nat, ghost initial: seq<Chunk>, ghost w: Write,
                     ghost end: nat)
      returns (next: Progress, died: bool)
      requires w.width >= 1 && w.plan == plan && w.clock(p.index) == created && p.buffer != []
      requires Buffered(w, end, p.start, p.index, p.buffer)
      requires (|p.buffer| == w.width || (end == |w.targets| && |p.buffer| < w.width))
      requires Batched(rows, initial, w, p, commits)
      modifies this
      ensures !died ==> Writing(rows, initial, w, end, next, commits) && next.buffer == []
      ensures died ==> Died(rows, initial, w, commits)
    {
      var pending := p.pending + [ChunkOf(plan, p.buffer, p.index, p.start, created)];
      SealKeeps(rows, initial, w, p, end, pending);
      ghost var was := rows;
      var left, made, dead := FlushPending(pending, false, p.made, commits, initial, w, p.index + 1);
      next, died := Progress(left, [], p.index + 1, p.start + |p.buffer|, made), dead;
      FlushedAfterSeal(was, rows, initial, w, end, pending, p.made, next, died, commits);
    }

    method TakeTarget(plan: string, target: Target, width: nat, created: int, p: Progress, commits: nat,
                      ghost initial: seq<Chunk>, ghost w: Write, ghost i: nat)
      returns (next: Progress, died: bool)
      requires w.width == width >= 1 && w.plan == plan && w.clock(p.index) == created
      requires Writing(rows, initial, w, i, p, commits) && i < |w.targets| && w.targets[i] == target
      modifies this
      ensures !died ==> Writing(rows, initial, w, i + 1, next, commits)
      ensures died ==> Died(rows, initial, w, commits)
    {
      assert w.targets[p.start..i + 1] == w.targets[p.start..i] + [w.targets[i]];
      next, died := p.(buffer := p.buffer + [target]), false;
      if |next.buffer| >= width {
        next, died := SealChunk(plan, created, next, commits, initial, w, i + 1);
      }
    }

    /** Writes a plan's targets: a chunk is sealed every `chunkSize` targets and committed
        with its batch.  `commits` is how many commits happen before the writer dies; a
        writer that needs no more returns the storage descriptor. */
    method WriteRowPlanChunks(plan: string, targets: seq<Target>, chunkSize: int, clock: nat -> int, commits: nat)
      returns (storage: Option<Storage>)
      modifies this
      ensures var all := ChunksFrom(plan, targets, Width(chunkSize), 0, 0, clock);
              && (storage.Some? <==> |all| <= Batches(commits))
              && (storage.Some? ==>
                    && rows == MergeInsert(old(rows), all)
                    && storage.value == Storage(|targets|, Width(chunkSize), |all|, Fold(Ids(targets))))
              && (storage.None? ==> rows == MergeInsert(old(rows), all[..Batches(commits)]))
    {
      var width := Width(chunkSize);
      ghost var w := Write(plan, targets, width, clock);
      var digest, count: nat := "", 0;
      var p, died := Progress([], [], 0, 0, 0), false;
      WriteBegins(rows, w, commits);
      for i := 0 to |targets|
        invariant Writing(rows, old(rows), w, i, p, commits)
        invariant count == i && digest == Fold(Ids(targets[..i]))
      {
        FoldNext(targets, i);
        digest, count := digest + targets[i].id + "\n", count + 1;
        p, died := TakeTarget(plan, targets[i], width, clock(p.index), p, commits, old(rows), w, i);
        if died {
          return None;
        }
      }
      assert targets[..|targets|] == targets;
      if p.buffer != [] {
        p, died := SealChunk(plan, clock(p.index), p, commits, old(rows), w, |targets|);
        if died {
          return None;
        }
      }
      storage := FlushLast(p, commits, width, count, digest, old(rows), w);
    }

    method FlushLast(p: Progress, commits: nat, width: nat, count: nat, digest: string, ghost initial: seq<Chunk>,
                     ghost w: Write)
      returns (storage: Option<Storage>)
      requires w.width == width >= 1 && Writing(rows, initial, w, |w.targets|, p, commits) && p.buffer == []
      modifies this
      ensures storage.None? ==> Died(rows, initial, w, commits)
      ensures storage.Some? ==>
                && |w.Chunks()| <= Batches(commits) && rows == MergeInsert(initial, w.Chunks())
                && storage.value == Storage(count, width, |w.Chunks()|, digest)
    {
      AllSealed(w, p.start, p.index);
      var pending, made, died := FlushPending(p.pending, true, p.made, commits, initial, w, p.index);
      storage := if died then None else Some(Storage(count, width, p.index, digest));
    }
  }

  lemma WriteBegins(rows: seq<Chunk>, w: Write, commits: nat)
    requires w.width >= 1
    ensures Writing(rows, rows, w, 0, Progress([], [], 0, 0, 0), commits)
  {
    assert w.targets[0..] == w.targets;
    assert rows + [] == rows;
  }

  lemma AllSealed(w: Write, start: nat, index: nat)
    requires w.width >= 1 && Buffered(w, |w.targets|, start, index, [])
    ensures index == |w.Chunks()| && w.Chunks()[..index] == w.Chunks()
  {
    assert w.targets[start..] == [];
  }

  lemma FoldNext(targets: seq<Target>, i: nat)
    requires i < |targets|
    ensures Fold(Ids(targets[..i + 1])) == Fold(Ids(targets[..i])) + targets[i].id + "\n"
  {
    assert Ids(targets[..i + 1]) == Ids(targets[..i]) + [targets[i].id];
  }

  lemma SealedChunk(plan: string, targets: seq<Target>, width: nat, index: nat, start: nat, clock: nat -> int, end: nat)
    requires start < end <= |targets| && (end == start + width || (end == |targets| && end < start + width))
    requires var all := ChunksFrom(plan, targets, width, 0, 0, clock);
             index <= |all| && all[index..] == ChunksFrom(plan, targets[start..], width, index, start, clock)
    ensures var all := ChunksFrom(plan, targets, width, 0, 0, clock);
            && index < |all| && all[index] == ChunkOf(plan, targets[start..end], index, start, clock(index))
            && all[index + 1..] == ChunksFrom(plan, targets[end..], width, index + 1, end, clock)
  {
    var all, rest := ChunksFrom(plan, targets, width, 0, 0, clock), targets[start..];
    assert rest[..end - start] == targets[start..end] && rest[end - start..] == targets[end..];
    assert all[index] == all[index..][0] && all[index + 1..] == all[index..][1..];
  }

  // ------------------------------------------------------------------- retries

  function OfPlan(plan: string): Chunk -> bool { (c: Chunk) => c.plan == plan }

  function NotOfPlan(plan: string): Chunk -> bool { (c: Chunk) => c.plan != plan }

  /** The plan's stored chunks are the first `n` of the target sequence, each once, whatever
      their times. */
  ghost predicate HoldsFirst(rows: seq<Chunk>, plan: string, targets: seq<Target>, width: nat, n: nat)
    requires width >= 1
  {
    exists clock: nat -> int ::
      && n <= |ChunksFrom(plan, targets, width, 0, 0, clock)|
      && Filter(rows, OfPlan(plan)) == ChunksFrom(plan, targets, width, 0, 0, clock)[..n]
  }

  lemma {:induction false} ClockOnly(plan: string, targets: seq<Target>, width: nat, index: nat, start: nat,
                                     c: nat -> int, d: nat -> int)
    requires width >= 1
    ensures var xs := ChunksFrom(plan, targets, width, index, start, c);
            var ys := ChunksFrom(plan, targets, width, index, start, d);
            |xs| == |ys| && forall i :: 0 <= i < |xs| ==> ys[i] == xs[i].(created := d(index + i))
  {
    if targets != [] {
      var n := Full(targets, width);
      ClockOnly(plan, targets[n..], width, index + 1, start + n, c, d);
    }
  }

  function Either(c: nat -> int, d: nat -> int, n: nat): nat -> int { (i: nat) => if i < n then c(i) else d(i) }

  /** One more attempt, wherever it stops, extends the stored prefix or changes nothing. */
  lemma AttemptExtends(rows: seq<Chunk>, plan: string, targets: seq<Target>, width: nat, n: nat, clock: nat -> int,
                       k: nat)
    requires width >= 1 && HoldsFirst(rows, plan, targets, width, n)
    requires k <= |ChunksFrom(plan, targets, width, 0, 0, clock)|
    ensures var later := MergeInsert(rows, ChunksFrom(plan, targets, width, 0, 0, clock)[..k]);
            && HoldsFirst(later, plan, targets, width, if k <= n then n else k)
            && Filter(later, NotOfPlan(plan)) == Filter(rows, NotOfPlan(plan))
            && rows <= later
  {
    var first: nat -> int :|
      && n <= |ChunksFrom(plan, targets, width, 0, 0, first)|
      && Filter(rows, OfPlan(plan)) == ChunksFrom(plan, targets, width, 0, 0, first)[..n];
    AttemptAdds(rows, plan, targets, width, n, first, clock, k);
    MixedPrefix(plan, targets, width, first, clock, n, k);
  }

  lemma AttemptAdds(rows: seq<Chunk>, plan: string, targets: seq<Target>, width: nat, n: nat, first: nat -> int,
                    clock: nat -> int, k: nat)
    requires width >= 1 && n <= |ChunksFrom(plan, targets, width, 0, 0, first)|
    requires k <= |ChunksFrom(plan, targets, width, 0, 0, clock)|
    requires Filter(rows, OfPlan(plan)) == ChunksFrom(plan, targets, width, 0, 0, first)[..n]
    ensures var ys := ChunksFrom(plan, targets, width, 0, 0, clock);
            var later := MergeInsert(rows, ys[..k]);
            && |ys| == |ChunksFrom(plan, targets, width, 0, 0, first)|
            && Filter(later, OfPlan(plan)) == Filter(rows, OfPlan(plan)) + ys[if k <= n then k else n..k]
            && Filter(later, NotOfPlan(plan)) == Filter(rows, NotOfPlan(plan)) && rows <= later
  {
    var ys := ChunksFrom(plan, targets, width, 0, 0, clock);
    var m := if k <= n then k else n;
    SameChunks(rows, plan, targets, width, n, first, clock);
    FilterFrom(ys, n, k, NewTo(StoredIds(rows)));
    AllOfPlan(ys, m, k, plan);
    AddOfPlan(rows, ys[m..k], plan);
  }

  lemma AllOfPlan(ys: seq<Chunk>, m: nat, k: nat, plan: string)
    requires m <= k <= |ys| && forall i :: 0 <= i < |ys| ==> ys[i].plan == plan
    ensures forall c <- ys[m..k] :: c.plan == plan
  {
  }

  lemma AddOfPlan(rows: seq<Chunk>, added: seq<Chunk>, plan: string)
    requires forall c <- added :: c.plan == plan
    ensures Filter(rows + added, OfPlan(plan)) == Filter(rows, OfPlan(plan)) + added
    ensures Filter(rows + added, NotOfPlan(plan)) == Filter(rows, NotOfPlan(plan))
  {
    FilterAppend(rows, added, OfPlan(plan));
    FilterAppend(rows, added, NotOfPlan(plan));
    FilterAll(added, OfPlan(plan));
    FilterNone(added, NotOfPlan(plan));
  }

  lemma Spliced<T>(xs: seq<T>, ys: seq<T>, zs: seq<T>, n: nat, k: nat)
    requires n <= |xs| == |ys| == |zs| && k <= |ys|
    requires forall i :: 0 <= i < |xs| ==> zs[i] == if i < n then xs[i] else ys[i]
    ensures zs[..if k <= n then n else k] == xs[..n] + ys[if k <= n then k else n..k]
  {
  }

  lemma SameChunks(rows: seq<Chunk>, plan: string, targets: seq<Target>, width: nat, n: nat, first: nat -> int,
                   clock: nat -> int)
    requires width >= 1 && n <= |ChunksFrom(plan, targets, width, 0, 0, first)|
    requires Filter(rows, OfPlan(plan)) == ChunksFrom(plan, targets, width, 0, 0, first)[..n]
    ensures var ys := ChunksFrom(plan, targets, width, 0, 0, clock);
            && |ys| == |ChunksFrom(plan, targets, width, 0, 0, first)|
            && forall i :: 0 <= i < |ys| ==> ys[i].plan == plan && (IdOf(ys[i]) in StoredIds(rows) <==> i < n)
  {
    var xs, ys := ChunksFrom(plan, targets, width, 0, 0, first), ChunksFrom(plan, targets, width, 0, 0, clock);
    ClockOnly(plan, targets, width, 0, 0, first, clock);
    forall i | 0 <= i < |ys| ensures ys[i].plan == plan && (IdOf(ys[i]) in StoredIds(rows) <==> i < n) {
      ChunkIndexes(plan, targets, width, 0, 0, clock, i);
      assert ys[i] == xs[i].(created := clock(0 + i));
      StoredPrefix(rows, plan, targets, width, first, n, i);
    }
  }

  lemma MixedPrefix(plan: string, targets: seq<Target>, width: nat, first: nat -> int, clock: nat -> int, n: nat,
                    k: nat)
    requires width >= 1
    requires n <= |ChunksFrom(plan, targets, width, 0, 0, first)|
    requires k <= |ChunksFrom(plan, targets, width, 0, 0, clock)|
    ensures var xs, ys := ChunksFrom(plan, targets, width, 0, 0, first), ChunksFrom(plan, targets, width, 0, 0, clock);
            var zs := ChunksFrom(plan, targets, width, 0, 0, Either(first, clock, n));
            && |zs| == |xs| == |ys|
            && zs[..if k <= n then n else k] == xs[..n] + ys[if k <= n then k else n..k]
  {
    var mixed := Either(first, clock, n);
    ClockOnly(plan, targets, width, 0, 0, first, clock);
    ClockOnly(plan, targets, width, 0, 0, first, mixed);
    var xs, ys := ChunksFrom(plan, targets, width, 0, 0, first), ChunksFrom(plan, targets, width, 0, 0, clock);
    var zs := ChunksFrom(plan, targets, width, 0, 0, mixed);
    forall i | 0 <= i < |xs| ensures zs[i] == if i < n then xs[i] else ys[i] {
      ChunkIndexes(plan, targets, width, 0, 0, first, i);
      assert ys[i] == xs[i].(created := clock(0 + i)) && zs[i] == xs[i].(created := mixed(0 + i));
    }
    Spliced(xs, ys, zs, n, k);
  }

  lemma StoredPrefix(rows: seq<Chunk>, plan: string, targets: seq<Target>, width: nat, clock: nat -> int, n: nat,
                     i: nat)
    requires width >= 1
    requires n <= |ChunksFrom(plan, targets, width, 0, 0, clock)| && i < |ChunksFrom(plan, targets, width, 0, 0, clock)|
    requires Filter(rows, OfPlan(plan)) == ChunksFrom(plan, targets, width, 0, 0, clock)[..n]
    ensures IdOf(ChunksFrom(plan, targets, width, 0, 0, clock)[i]) in StoredIds(rows) <==> i < n
  {
    var all := ChunksFrom(plan, targets, width, 0, 0, clock);
    ChunkIndexes(plan, targets, width, 0, 0, clock, i);
    if i < n {
      assert all[i] == all[..n][i] && all[i] in Filter(rows, OfPlan(plan));
    } else {
      forall c | c in rows ensures IdOf(c) != IdOf(all[i]) {
        if c.plan == plan {
          assert c in Filter(rows, OfPlan(plan));
          var j :| 0 <= j < n && all[..n][j] == c;
          ChunkIndexes(plan, targets, width, 0, 0, clock, j);
        }
      }
    }
  }

  datatype Attempt = Attempt(clock: nat -> int, committed: nat)

  /** The table after writers of the same targets that died along the way. */
  function AfterAttempts(rows: seq<Chunk>, plan: string, targets: seq<Target>, width: nat,
                         attempts: seq<Attempt>): seq<Chunk>
    requires width >= 1
  {
    if attempts == [] then rows
    else
      var before := AfterAttempts(rows, plan, targets, width, attempts[..|attempts| - 1]);
      var last := attempts[|attempts| - 1];
      var all := ChunksFrom(plan, targets, width, 0, 0, last.clock);
      MergeInsert(before, all[..if last.committed <= |all| then last.committed else |all|])
  }

  lemma {:induction false} AttemptsHoldPrefix(rows: seq<Chunk>, plan: string, targets: seq<Target>, width: nat,
                                              attempts: seq<Attempt>)
    returns (n: nat)
    requires width >= 1 && Filter(rows, OfPlan(plan)) == []
    ensures HoldsFirst(AfterAttempts(rows, plan, targets, width, attempts), plan, targets, width, n)
    ensures Filter(AfterAttempts(rows, plan, targets, width, attempts), NotOfPlan(plan))
            == Filter(rows, NotOfPlan(plan))
  {
    if attempts == [] {
      n := 0;
      var clock: nat -> int := i => 0;
      assert ChunksFrom(plan, targets, width, 0, 0, clock)[..0] == [];
    } else {
      var last := attempts[|attempts| - 1];
      n := AttemptsHoldPrefix(rows, plan, targets, width, attempts[..|attempts| - 1]);
      var all := ChunksFrom(plan, targets, width, 0, 0, last.clock);
      var k := if last.committed <= |all| then last.committed else |all|;
      AttemptExtends(AfterAttempts(rows, plan, targets, width, attempts[..|attempts| - 1]), plan, targets, width, n,
                     last.clock, k);
      n := if k <= n then n else k;
    }
  }

  /** However many writers died and wherever, the attempt that finishes leaves the plan
      exactly the chunks of one undisturbed write, each once, and no other plan's rows change. */
  lemma RetriesConverge(rows: seq<Chunk>, plan: string, targets: seq<Target>, width: nat, attempts: seq<Attempt>,
                        clock: nat -> int)
    returns (sealedAt: nat -> int)
    requires width >= 1 && Filter(rows, OfPlan(plan)) == []
    ensures var end := MergeInsert(AfterAttempts(rows, plan, targets, width, attempts),
                                   ChunksFrom(plan, targets, width, 0, 0, clock));
            && Filter(end, OfPlan(plan)) == ChunksFrom(plan, targets, width, 0, 0, sealedAt)
            && Filter(end, NotOfPlan(plan)) == Filter(rows, NotOfPlan(plan))
  {
    var before := AfterAttempts(rows, plan, targets, width, attempts);
    var n := AttemptsHoldPrefix(rows, plan, targets, width, attempts);
    var all := ChunksFrom(plan, targets, width, 0, 0, clock);
    AttemptExtends(before, plan, targets, width, n, clock, |all|);
    assert all[..|all|] == all;
    var end, m := MergeInsert(before, all), if |all| <= n then n else |all|;
    assert HoldsFirst(end, plan, targets, width, m);
    sealedAt :|
      && m <= |ChunksFrom(plan, targets, width, 0, 0, sealedAt)|
      && Filter(end, OfPlan(plan)) == ChunksFrom(plan, targets, width, 0, 0, sealedAt)[..m];
    ClockOnly(plan, targets, width, 0, 0, sealedAt, clock);
  }

  // ---------------------------------------------------------------------- read

  function ChunkIn(plan: string, lo: int, hi: int): Chunk -> bool {
    (c: Chunk) => c.plan == plan && lo <= c.start < hi
  }

  predicate ByStart(a: Chunk, b: Chunk) { a.start < b.start || (a.start == b.start && a.index <= b.index) }

  /** The plan's chunks that start in a range of ordinals, in order. */
  function ChunkRows(rows: seq<Chunk>, plan: string, lo: int, hi: int): seq<Chunk> {
    StableSort(Filter(rows, ChunkIn(plan, lo, hi)), ByStart)
  }

  lemma {:induction false} InsertLeft(c: Chunk, xs: seq<Chunk>, ys: seq<Chunk>, mid: int)
    requires c.start < mid && forall y <- ys :: y.start >= mid
    ensures Insert(c, xs + ys, ByStart) == Insert(c, xs, ByStart) + ys
  {
    if xs == [] {
      assert xs + ys == ys;
      assert ys != [] ==> ys[0] in ys;
    } else {
      assert (xs + ys)[1..] == xs[1..] + ys;
      InsertLeft(c, xs[1..], ys, mid);
    }
  }

  lemma {:induction false} InsertRight(c: Chunk, xs: seq<Chunk>, ys: seq<Chunk>, mid: int)
    requires c.start >= mid && forall x <- xs :: x.start < mid
    ensures Insert(c, xs + ys, ByStart) == xs + Insert(c, ys, ByStart)
  {
    if xs == [] {
      assert xs + ys == ys;
    } else {
      assert (xs + ys)[1..] == xs[1..] + ys;
      assert xs[0] in xs;
      InsertRight(c, xs[1..], ys, mid);
    }
  }

  lemma RowsInRange(rows: seq<Chunk>, plan: string, lo: int, hi: int)
    ensures forall c <- ChunkRows(rows, plan, lo, hi) :: c in rows && c.plan == plan && lo <= c.start < hi
  {
    SortMembers(Filter(rows, ChunkIn(plan, lo, hi)), ByStart);
  }

  predicate InOrdinalOrder(rows: seq<Chunk>) {
    forall i, j :: 0 <= i < j < |rows| ==>
      rows[i].start < rows[j].start || (rows[i].start == rows[j].start && rows[i].index <= rows[j].index)
  }

  /** A window holds exactly the plan's chunks that start in it, each as often as stored, by start and then index. */
  lemma ChunkRowsMeaning(rows: seq<Chunk>, plan: string, lo: int, hi: int)
    ensures forall c: Chunk :: multiset(ChunkRows(rows, plan, lo, hi))[c]
                               == if c.plan == plan && lo <= c.start < hi then multiset(rows)[c] else 0
    ensures InOrdinalOrder(ChunkRows(rows, plan, lo, hi))
  {
    var picked := Filter(rows, ChunkIn(plan, lo, hi));
    SortSorts(picked, ByStart);
    forall c: Chunk
      ensures multiset(picked)[c] == if c.plan == plan && lo <= c.start < hi then multiset(rows)[c] else 0
    {
      FilterCounts(rows, ChunkIn(plan, lo, hi), c);
    }
  }

  /** Two neighbouring windows read what one read of both would, ties included. */
  lemma {:induction false} WindowsJoin(rows: seq<Chunk>, plan: string, lo: int, mid: int, hi: int)
    requires lo <= mid <= hi
    ensures ChunkRows(rows, plan, lo, mid) + ChunkRows(rows, plan, mid, hi) == ChunkRows(rows, plan, lo, hi)
  {
    if rows != [] {
      WindowsJoin(rows[1..], plan, lo, mid, hi);
      var xs, ys := ChunkRows(rows[1..], plan, lo, mid), ChunkRows(rows[1..], plan, mid, hi);
      RowsInRange(rows[1..], plan, lo, mid);
      RowsInRange(rows[1..], plan, mid, hi);
      var c := rows[0];
      SortFilterHead(rows, plan, lo, mid);
      SortFilterHead(rows, plan, mid, hi);
      SortFilterHead(rows, plan, lo, hi);
      if c.plan == plan && lo <= c.start < mid {
        InsertLeft(c, xs, ys, mid);
      } else if c.plan == plan && mid <= c.start < hi {
        InsertRight(c, xs, ys, mid);
      }
    }
  }

  lemma SortFilterHead(rows: seq<Chunk>, plan: string, lo: int, hi: int)
    requires rows != []
    ensures ChunkRows(rows, plan, lo, hi)
         == if ChunkIn(plan, lo, hi)(rows[0]) then Insert(rows[0], ChunkRows(rows[1..], plan, lo, hi), ByStart)
            else ChunkRows(rows[1..], plan, lo, hi)
  {
    var rest := Filter(rows[1..], ChunkIn(plan, lo, hi));
    if ChunkIn(plan, lo, hi)(rows[0]) {
      assert Filter(rows, ChunkIn(plan, lo, hi)) == [rows[0]] + rest;
      assert ([rows[0]] + rest)[1..] == rest;
    } else {
      assert Filter(rows, ChunkIn(plan, lo, hi)) == [] + rest == rest;
    }
  }

  /** A chunk boundary: so many whole chunks from the start. */
  ghost predicate Aligned(lo: nat, width: nat)
    requires width >= 1
  {
    lo == 0 || (lo >= width && Aligned(lo - width, width))
  }

  /** Where a read that wants ordinal `from` begins: the boundary of its chunk. */
  function Base(from: int, width: nat): (lo: nat)
    requires width >= 1
    ensures from >= 0 ==> lo <= from < lo + width
    ensures from < 0 ==> lo == 0
    ensures Aligned(lo, width)
    decreases if from < 0 then 0 else from
  {
    if from < width then 0 else Base(from - width, width) + width
  }

  /** The boundary is the ordinal rounded down to a multiple of the width, or 0. */
  lemma {:induction false} BaseIsFloored(from: int, width: nat)
    requires width >= 1
    ensures Base(from, width) == if from / width * width > 0 then from / width * width else 0
    decreases if from < 0 then 0 else from
  {
    var q, r := from / width, from % width;
    assert from == q * width + r;
    if from >= width {
      BaseIsFloored(from - width, width);
      assert from - width == (q - 1) * width + r;
      RemainderOf(q - 1, r, width);
      assert q >= 1;
      assert (q - 1) * width + width == q * width;
    } else if from >= 0 {
      RemainderOf(0, from, width);
    } else {
      assert q * width <= from;
    }
  }

  /** Where the last window of a read ends. */
  function ScanEnd(lo: int, total: int, window: nat): (hi: int)
    requires window >= 1
    ensures hi >= lo && hi >= total
    decreases if lo < total then total - lo else 0
  {
    if lo >= total then lo else ScanEnd(lo + window, total, window)
  }

  /** Reads window after window; the rows are those of one ordered scan. */
  method IterChunkRows(table: seq<Chunk>, plan: string, targetCount: int, chunkSize: int, from: int)
    returns (rows: seq<Chunk>)
    ensures var lo := Base(from, Width(chunkSize));
            rows == ChunkRows(table, plan, lo, ScanEnd(lo, targetCount, Window(Width(chunkSize))))
  {
    var width := Width(chunkSize);
    var total := if targetCount > 0 then targetCount else 0;
    var window := Window(width);
    var lo := if from / width * width > 0 then from / width * width else 0;
    BaseIsFloored(from, width);
    ghost var base := lo;
    rows := [];
    NothingBefore(table, plan, base);
    while lo < total
      invariant base <= lo && ScanEnd(lo, targetCount, window) == ScanEnd(base, targetCount, window)
      invariant rows == ChunkRows(table, plan, base, lo)
      decreases total - lo
    {
      var hi := lo + window;
      WindowsJoin(table, plan, base, lo, hi);
      rows := rows + StableSort(Filter(table, ChunkIn(plan, lo, hi)), ByStart);
      lo := hi;
    }
  }

  lemma NothingBefore(table: seq<Chunk>, plan: string, lo: int)
    ensures ChunkRows(table, plan, lo, lo) == []
  {
    FilterNone(table, ChunkIn(plan, lo, lo));
  }

  datatype Emitted = Emitted(ordinal: int, id: string, rowId: Option<int>)

  datatype ReadOutcome = Finished | NonContiguous(expected: int, found: int) | Short(read: nat, remaining: int)

  /** What a consumer of the stream received before it ended or raised. */
  datatype Read = Read(emitted: seq<Emitted>, outcome: ReadOutcome)

  function TargetAt(c: Chunk, k: nat): Emitted
    requires k < |c.ids|
  {
    Emitted(c.start + k, c.ids[k], if k < |c.rowIds| then c.rowIds[k] else None)
  }

  function Skipped(c: Chunk, wanted: int): (n: nat)
    ensures n <= |c.ids|
  {
    if wanted <= c.start then 0 else if wanted - c.start >= |c.ids| then |c.ids| else wanted - c.start
  }

  /** The targets of a chunk from an ordinal on. */
  function Piece(c: Chunk, wanted: int): (piece: seq<Emitted>)
  {
    var skip := Skipped(c, wanted);
    seq(|c.ids| - skip, k requires 0 <= k < |c.ids| - skip => TargetAt(c, skip + k))
  }

  /** The targets of chunks that continue one another, up to the first that does not. */
  function Stream(rows: seq<Chunk>, expected: int, wanted: int): seq<Emitted> {
    if rows == [] || rows[0].start != expected then []
    else Piece(rows[0], wanted) + Stream(rows[1..], expected + |rows[0].ids|, wanted)
  }

  function FirstGap(rows: seq<Chunk>, expected: int): Option<ReadOutcome> {
    if rows == [] then None
    else if rows[0].start != expected then Some(NonContiguous(expected, rows[0].start))
    else FirstGap(rows[1..], expected + |rows[0].ids|)
  }

  function ReadRows(rows: seq<Chunk>, base: int, wanted: int, targetCount: int): Read {
    var emitted := Stream(rows, base, wanted);
    var remaining := if targetCount > wanted then targetCount - wanted else 0;
    Read(emitted,
         match FirstGap(rows, base)
         case Some(gap) => gap
         case None => if |emitted| < remaining then Short(|emitted|, remaining) else Finished)
  }

  /** A read of a plan from an ordinal on, over any stored rows. */
  function ReadFrom(table: seq<Chunk>, plan: string, targetCount: int, chunkSize: int, wanted: int): Read {
    var lo := Base(wanted, Width(chunkSize));
    ReadRows(ChunkRows(table, plan, lo, ScanEnd(lo, targetCount, Window(Width(chunkSize)))), lo, wanted, targetCount)
  }

  method IterChunkedTargets(table: seq<Chunk>, plan: string, targetCount: int, chunkSize: int, wanted: int)
    returns (read: Read)
    ensures read == ReadFrom(table, plan, targetCount, chunkSize, wanted)
  {
    var width := Width(chunkSize);
    var rows := IterChunkRows(table, plan, targetCount, chunkSize, wanted);
    BaseIsFloored(wanted, width);
    read := EmitRows(rows, if wanted / width * width > 0 then wanted / width * width else 0, wanted, targetCount);
  }

  method EmitRows(rows: seq<Chunk>, base: int, wanted: int, targetCount: int) returns (read: Read)
    ensures read == ReadRows(rows, base, wanted, targetCount)
  {
    var expected := base;
    var emitted: seq<Emitted> := [];
    assert rows[0..] == rows;
    for i := 0 to |rows|
      invariant Stream(rows, base, wanted) == emitted + Stream(rows[i..], expected, wanted)
      invariant FirstGap(rows, base) == FirstGap(rows[i..], expected)
    {
      var c := rows[i];
      assert rows[i..][0] == c && rows[i..][1..] == rows[i + 1..];
      if c.start != expected {
        return Read(emitted, NonContiguous(expected, c.start));
      }
      var piece := EmitPiece(c, wanted);
      assert emitted + (piece + Stream(rows[i + 1..], expected + |c.ids|, wanted))
             == emitted + piece + Stream(rows[i + 1..], expected + |c.ids|, wanted);
      emitted := emitted + piece;
      expected := c.start + |c.ids|;
    }
    assert rows[|rows|..] == [];
    var remaining := if targetCount > wanted then targetCount - wanted else 0;
    read := Read(emitted, if |emitted| < remaining then Short(|emitted|, remaining) else Finished);
  }

  method EmitPiece(c: Chunk, wanted: int) returns (piece: seq<Emitted>)
    ensures piece == Piece(c, wanted)
  {
    piece := [];
    var skip := Skipped(c, wanted);
    for offset := 0 to |c.ids|
      invariant |piece| == if offset <= skip then 0 else offset - skip
      invariant forall k :: 0 <= k < |piece| ==> piece[k] == TargetAt(c, skip + k)
    {
      if c.start + offset >= wanted {
        piece := piece + [Emitted(c.start + offset, c.ids[offset],
                                  if offset < |c.rowIds| then c.rowIds[offset] else None)];
      }
    }
  }

  // -------------------------------------------------------- any stored rows

  predicate FollowOn(emitted: seq<Emitted>, first: int) {
    forall k :: 0 <= k < |emitted| ==> emitted[k].ordinal == first + k
  }

  predicate HoldsTarget(c: Chunk, e: Emitted) {
    0 <= e.ordinal - c.start < |c.ids| && e == TargetAt(c, e.ordinal - c.start)
  }

  predicate StoredTarget(table: seq<Chunk>, plan: string, e: Emitted) {
    exists c <- table :: c.plan == plan && HoldsTarget(c, e)
  }

  lemma Concatenated(xs: seq<Emitted>, ys: seq<Emitted>, first: int, second: int)
    requires FollowOn(xs, first) && FollowOn(ys, second) && (ys == [] || second == first + |xs|)
    ensures FollowOn(xs + ys, first)
  {
  }

  lemma PieceFollowsOn(c: Chunk, wanted: int)
    ensures FollowOn(Piece(c, wanted), if wanted > c.start then wanted else c.start)
  {
    var piece := Piece(c, wanted);
    forall k | 0 <= k < |piece| ensures piece[k].ordinal == c.start + Skipped(c, wanted) + k {
      assert piece[k] == TargetAt(c, Skipped(c, wanted) + k);
    }
  }

  lemma {:induction false} StreamFollowsOn(rows: seq<Chunk>, expected: int, wanted: int)
    ensures FollowOn(Stream(rows, expected, wanted), if wanted > expected then wanted else expected)
  {
    if rows != [] && rows[0].start == expected {
      var rest := expected + |rows[0].ids|;
      StreamFollowsOn(rows[1..], rest, wanted);
      PieceFollowsOn(rows[0], wanted);
      Concatenated(Piece(rows[0], wanted), Stream(rows[1..], rest, wanted),
                   if wanted > expected then wanted else expected, if wanted > rest then wanted else rest);
    }
  }

  lemma {:induction false} StreamIsStored(rows: seq<Chunk>, expected: int, wanted: int, k: nat) returns (c: Chunk)
    requires k < |Stream(rows, expected, wanted)|
    ensures var e := Stream(rows, expected, wanted)[k];
            c in rows && HoldsTarget(c, e)
  {
    assert rows != [] && rows[0].start == expected;
    var piece := Piece(rows[0], wanted);
    assert Stream(rows, expected, wanted) == piece + Stream(rows[1..], expected + |rows[0].ids|, wanted);
    if k < |piece| {
      c := rows[0];
      assert piece[k] == TargetAt(c, Skipped(c, wanted) + k);
    } else {
      c := StreamIsStored(rows[1..], expected + |rows[0].ids|, wanted, k - |piece|);
    }
  }

  /** Whatever the table holds, what a read emits are stored targets of the plan at
      consecutive ordinals from the one asked for; one that does not raise has emitted at
      least as many as the header promises. */
  lemma ReadsAreConsecutive(table: seq<Chunk>, plan: string, targetCount: int, chunkSize: int, wanted: int)
    ensures var read := ReadFrom(table, plan, targetCount, chunkSize, wanted);
            && FollowOn(read.emitted, if wanted > 0 then wanted else 0)
            && (forall e <- read.emitted :: StoredTarget(table, plan, e))
            && (read.outcome.Finished? ==> |read.emitted| >= targetCount - wanted)
  {
    var lo := Base(wanted, Width(chunkSize));
    var hi := ScanEnd(lo, targetCount, Window(Width(chunkSize)));
    ReadRowsConsecutive(ChunkRows(table, plan, lo, hi), lo, wanted, targetCount);
    RowsInRange(table, plan, lo, hi);
  }

  lemma ReadRowsConsecutive(rows: seq<Chunk>, lo: int, wanted: int, targetCount: int)
    requires if wanted > 0 then lo <= wanted else lo == 0
    ensures var read := ReadRows(rows, lo, wanted, targetCount);
            && FollowOn(read.emitted, if wanted > 0 then wanted else 0)
            && (forall e <- read.emitted :: exists c <- rows :: HoldsTarget(c, e))
            && (read.outcome.Finished? ==> |read.emitted| >= targetCount - wanted)
  {
    var read := ReadRows(rows, lo, wanted, targetCount);
    StreamFollowsOn(rows, lo, wanted);
    forall e | e in read.emitted ensures exists c <- rows :: HoldsTarget(c, e) {
      var k :| 0 <= k < |read.emitted| && read.emitted[k] == e;
      var c := StreamIsStored(rows, lo, wanted, k);
    }
    GapsAreNotFinished(rows, lo);
  }

  lemma {:induction false} GapsAreNotFinished(rows: seq<Chunk>, expected: int)
    ensures FirstGap(rows, expected).Some? ==> FirstGap(rows, expected).value.NonContiguous?
  {
    if rows != [] && rows[0].start == expected {
      GapsAreNotFinished(rows[1..], expected + |rows[0].ids|);
    }
  }
}
