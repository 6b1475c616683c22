/** Migrating one recorded alignment into the tick table by insert-only merges. */
module TickMigration {
  import opened Ordering
  import opened TickWindows

  /** A stored tick row.  Its id is a digest of the alignment and the tick, so within
      one alignment the tick is the merge key; `body` is built from the tick's frames. */
  datatype TickRow = TickRow(tick: int, body: int)

  predicate IsStored(rows: seq<TickRow>, t: int) { exists row <- rows :: row.tick == t }

  function Missing(rows: seq<TickRow>): int -> bool { (t: int) => !IsStored(rows, t) }

  function Present(rows: seq<TickRow>): int -> bool { (t: int) => IsStored(rows, t) }

  function NotStoredIn(rows: seq<TickRow>): TickRow -> bool { (row: TickRow) => !IsStored(rows, row.tick) }

  /** A single-commit merge that leaves matched keys alone. */
  function MergeInsert(rows: seq<TickRow>, chunk: seq<TickRow>): seq<TickRow> {
    rows + Filter(chunk, NotStoredIn(rows))
  }

  function RowBuilder(build: int -> int): int -> TickRow { (t: int) => TickRow(t, build(t)) }

  function Built(ticks: seq<int>, build: int -> int): seq<TickRow> { Map(ticks, RowBuilder(build)) }

  // -------------------------------------------------------------- tick lists

  /** The ticks that have frames, each once, in order. */
  function DistinctTicks(frames: seq<int>): (ticks: seq<int>)
    ensures forall t :: t in ticks <==> t in frames
  {
    var sorted := StableSort(frames, IntLe);
    SortMembers(frames, IntLe);
    DropRepeats(sorted)
  }

  function DropRepeats(xs: seq<int>): (ys: seq<int>)
    ensures forall x :: x in ys <==> x in xs
  {
    if xs == [] then []
    else
      assert xs == xs[..|xs| - 1] + [xs[|xs| - 1]];
      var ys := DropRepeats(xs[..|xs| - 1]);
      if xs[|xs| - 1] in ys then ys else ys + [xs[|xs| - 1]]
  }

  lemma {:induction false} DropRepeatsAscending(xs: seq<int>)
    requires SortedBy(xs, IntLe)
    ensures StrictlyAscending(DropRepeats(xs))
  {
    if xs != [] {
      var rest, last := xs[..|xs| - 1], xs[|xs| - 1];
      DropRepeatsAscending(rest);
      var ys := DropRepeats(rest);
      forall i | 0 <= i < |ys| && last !in ys ensures ys[i] < last {
        assert ys[i] in rest;
        var j :| 0 <= j < |rest| && rest[j] == ys[i];
        assert IntLe(xs[j], xs[|xs| - 1]);
      }
    }
  }

  lemma DistinctTicksAscending(frames: seq<int>)
    ensures StrictlyAscending(DistinctTicks(frames))
  {
    SortSorts(frames, IntLe);
    DropRepeatsAscending(StableSort(frames, IntLe));
  }

  lemma AscendingTail(xs: seq<int>, x: int)
    requires xs != [] && StrictlyAscending(xs)
    ensures x in xs[1..] <==> x in xs && x != xs[0]
  {
    if x in xs[1..] {
      var k :| 0 <= k < |xs[1..]| && xs[1..][k] == x;
      assert xs[0] < xs[k + 1];
    }
  }

  lemma HeadIsLeast(xs: seq<int>, x: int)
    requires x in xs && StrictlyAscending(xs)
    ensures xs[0] <= x
  {
  }

  lemma {:induction false} AscendingUnique(xs: seq<int>, ys: seq<int>)
    requires StrictlyAscending(xs) && StrictlyAscending(ys)
    requires forall x: int :: x in xs <==> x in ys
    ensures xs == ys
  {
    if ys != [] {
      assert ys[0] in ys && ys[0] in xs;
    }
    if xs != [] {
      assert xs[0] in xs && xs[0] in ys;
      HeadIsLeast(xs, ys[0]);
      HeadIsLeast(ys, xs[0]);
      forall x: int ensures x in xs[1..] <==> x in ys[1..] {
        AscendingTail(xs, x);
        AscendingTail(ys, x);
      }
      AscendingUnique(xs[1..], ys[1..]);
    }
  }

  function WindowFrames(frames: seq<int>, id: int, width: nat): seq<int> {
    Filter(frames, (t: int) => InWindow(t, id, width))
  }

  /** The ticks of the job found window by window. */
  function TicksOver(frames: seq<int>, ids: seq<int>, width: nat): seq<int> {
    if ids == [] then []
    else TicksOver(frames, ids[..|ids| - 1], width) + DistinctTicks(WindowFrames(frames, ids[|ids| - 1], width))
  }

  lemma {:induction false} TicksOverMembers(frames: seq<int>, ids: seq<int>, width: nat, t: int)
    requires width > 0 && forall u <- frames :: u >= 0
    ensures t in TicksOver(frames, ids, width) <==> t in frames && TruncDiv(t, width) in ids
  {
    if ids != [] {
      var rest, id := ids[..|ids| - 1], ids[|ids| - 1];
      assert ids == rest + [id];
      TicksOverMembers(frames, rest, width, t);
      if t in frames {
        OwnWindowHoldsTick(t, width);
        if InWindow(t, id, width) {
          RemainderOf(id, t - id * width, width);
        }
      }
    }
  }

  lemma EarlierTicksBelow(earlier: seq<int>, rest: seq<int>, id: int, width: nat)
    requires StrictlyAscending(rest + [id])
    requires rest == [] ==> earlier == []
    requires rest != [] ==> forall t <- earlier :: t < (rest[|rest| - 1] + 1) * width
    ensures forall t <- earlier :: t < id * width
  {
    if rest != [] {
      assert (rest + [id])[|rest| - 1] < (rest + [id])[|rest|];
      ScaledMonotone(rest[|rest| - 1] + 1, id, width);
    }
  }

  lemma {:induction false} TicksOverAscending(frames: seq<int>, ids: seq<int>, width: nat)
    requires width > 0 && StrictlyAscending(ids)
    ensures StrictlyAscending(TicksOver(frames, ids, width))
    ensures ids != [] ==> forall t <- TicksOver(frames, ids, width) :: t < (ids[|ids| - 1] + 1) * width
  {
    if ids != [] {
      var rest, id := ids[..|ids| - 1], ids[|ids| - 1];
      TicksOverAscending(frames, rest, width);
      assert ids == rest + [id];
      EarlierTicksBelow(TicksOver(frames, rest, width), rest, id, width);
      WindowAppends(TicksOver(frames, rest, width), frames, id, width);
    }
  }

  /** One more window's ticks come after those of the windows before it. */
  lemma WindowAppends(earlier: seq<int>, frames: seq<int>, id: int, width: nat)
    requires StrictlyAscending(earlier) && forall t <- earlier :: t < id * width
    ensures var here := DistinctTicks(WindowFrames(frames, id, width));
            && StrictlyAscending(earlier + here)
            && forall t <- earlier + here :: t < (id + 1) * width
  {
    var here := DistinctTicks(WindowFrames(frames, id, width));
    DistinctTicksAscending(WindowFrames(frames, id, width));
    AscendingAppend(earlier, here, id * width);
    ScaledMonotone(id, id + 1, width);
  }

  lemma ScaledMonotone(a: int, b: int, width: nat)
    requires a <= b
    ensures a * width <= b * width
  {
  }

  lemma AscendingAppend(xs: seq<int>, ys: seq<int>, bound: int)
    requires StrictlyAscending(xs) && StrictlyAscending(ys)
    requires (forall x <- xs :: x < bound) && (forall y <- ys :: y >= bound)
    ensures StrictlyAscending(xs + ys)
  {
    var all := xs + ys;
    forall i, j | 0 <= i < j < |all| ensures all[i] < all[j] {
      if i < |xs| <= j {
        assert all[i] in xs && all[j] in ys;
      }
    }
  }

  /** Walking the occupied windows visits every tick with frames exactly once. */
  lemma WindowsFindEveryTick(frames: seq<int>, ids: seq<int>, width: nat)
    requires width > 0 && (forall u <- frames :: u >= 0) && Occupied(ids, frames, width)
    ensures TicksOver(frames, ids, width) == DistinctTicks(frames)
  {
    TicksOverAscending(frames, ids, width);
    DistinctTicksAscending(frames);
    forall t: int ensures t in TicksOver(frames, ids, width) <==> t in DistinctTicks(frames) {
      TicksOverMembers(frames, ids, width, t);
    }
    AscendingUnique(TicksOver(frames, ids, width), DistinctTicks(frames));
  }

  // ------------------------------------------------------------- lone migration

  lemma MergeAllMissing(rows: seq<TickRow>, chunk: seq<TickRow>)
    requires forall row <- chunk :: !IsStored(rows, row.tick)
    ensures MergeInsert(rows, chunk) == rows + chunk
  {
    FilterAll(chunk, NotStoredIn(rows));
  }

  lemma BuiltIsStored(ticks: seq<int>, build: int -> int, t: int)
    ensures IsStored(Built(ticks, build), t) <==> t in ticks
  {
    if t in ticks {
      var i :| 0 <= i < |ticks| && ticks[i] == t;
      assert Built(ticks, build)[i] in Built(ticks, build);
    }
  }

  lemma AppendIsStored(a: seq<TickRow>, b: seq<TickRow>, t: int)
    ensures IsStored(a + b, t) <==> IsStored(a, t) || IsStored(b, t)
  {
    if IsStored(a, t) {
      var row :| row in a && row.tick == t;
      assert row in a + b;
    }
    if IsStored(b, t) {
      var row :| row in b && row.tick == t;
      assert row in a + b;
    }
  }

  lemma ChunkIsMissing(rows: seq<TickRow>, ticks: seq<int>, build: int -> int, done: nat, next: nat, k: nat)
    requires StrictlyAscending(ticks) && done + k < next <= |ticks|
    requires forall t <- ticks :: !IsStored(rows, t)
    ensures Built(ticks, build)[done..next][k].tick == ticks[done + k]
    ensures !IsStored(rows + Built(ticks[..done], build), ticks[done + k])
  {
    AppendIsStored(rows, Built(ticks[..done], build), ticks[done + k]);
    BuiltIsStored(ticks[..done], build, ticks[done + k]);
  }

  lemma BuiltInParts(ticks: seq<int>, build: int -> int, done: nat, next: nat)
    requires done <= next <= |ticks|
    ensures Built(ticks[..next], build) == Built(ticks[..done], build) + Built(ticks, build)[done..next]
  {
  }

  lemma MergeNextChunk(rows: seq<TickRow>, ticks: seq<int>, build: int -> int, done: nat, next: nat)
    requires StrictlyAscending(ticks) && done <= next <= |ticks|
    requires forall t <- ticks :: !IsStored(rows, t)
    ensures MergeInsert(rows + Built(ticks[..done], build), Built(ticks, build)[done..next])
            == rows + Built(ticks[..next], build)
  {
    var chunk, merged := Built(ticks, build)[done..next], rows + Built(ticks[..done], build);
    forall row | row in chunk ensures !IsStored(merged, row.tick) {
      var i :| 0 <= i < |chunk| && chunk[i] == row;
      ChunkIsMissing(rows, ticks, build, done, next, i);
    }
    MergeAllMissing(merged, chunk);
    BuiltInParts(ticks, build, done, next);
    Regroup(rows, Built(ticks[..done], build), chunk);
  }

  class Totals {
    var expected: nat
    var existing: nat
    var written: nat

    constructor ()
      ensures expected == existing == written == 0
    {
      expected, existing, written := 0, 0, 0;
    }
  }

  class TickStore {
    var rows: seq<TickRow>

    /** The chunked merges of a window's missing rows. */
    method MergeChunks(ticks: seq<int>, build: int -> int, batch: nat)
      requires batch >= 1 && StrictlyAscending(ticks)
      requires forall t <- ticks :: !IsStored(rows, t)
      modifies this
      ensures rows == old(rows) + Built(ticks, build)
    {
      var storage := Built(ticks, build);
      var done := 0;
      while done < |storage|
        invariant done <= |storage| && rows == old(rows) + Built(ticks[..done], build)
      {
        var next := if done + batch <= |storage| then done + batch else |storage|;
        MergeNextChunk(old(rows), ticks, build, done, next);
        rows := MergeInsert(rows, storage[done..next]);
        done := next;
      }
      assert ticks[..|ticks|] == ticks;
    }

    /** One window: what it expects, what is already there, and, unless this is a dry
        run, a merge of the rest. */
    method MigrateWindow(frames: seq<int>, build: int -> int, batch: nat, dryRun: bool, totals: Totals)
      requires batch >= 1
      modifies this, totals
      ensures var ticks := DistinctTicks(frames);
              && totals.expected == old(totals.expected) + |ticks|
              && totals.existing == old(totals.existing) + |Filter(ticks, Present(old(rows)))|
              && totals.written == old(totals.written) + |Filter(ticks, Missing(old(rows)))|
              && rows == AfterTicks(old(rows), ticks, build, dryRun)
    {
      var ticks := DistinctTicks(frames);
      totals.expected := totals.expected + |ticks|;
      totals.existing := totals.existing + |Filter(ticks, Present(rows))|;
      var missing := Filter(ticks, Missing(rows));
      totals.written := totals.written + |missing|;
      if !dryRun && missing != [] {
        DistinctTicksAscending(frames);
        AscendingFilter(ticks, Missing(rows));
        MergeChunks(missing, build, batch);
      }
    }
  }

  lemma {:induction false} AscendingFilter(xs: seq<int>, keep: int -> bool)
    requires StrictlyAscending(xs)
    ensures StrictlyAscending(Filter(xs, keep))
  {
    if xs != [] {
      AscendingFilter(xs[1..], keep);
      var rest := Filter(xs[1..], keep);
      forall i | 0 <= i < |rest| ensures xs[0] < rest[i] {
        assert rest[i] in xs[1..];
        var j :| 0 <= j < |xs[1..]| && xs[1..][j] == rest[i];
        assert xs[0] < xs[j + 1];
      }
    }
  }

  lemma AscendingDisjoint(earlier: seq<int>, here: seq<int>, t: int)
    requires StrictlyAscending(earlier + here) && t in here
    ensures t !in earlier
  {
    var j :| 0 <= j < |here| && here[j] == t;
    var both := earlier + here;
    assert both[|earlier| + j] == t;
    forall i | 0 <= i < |earlier| ensures earlier[i] != t {
      assert both[i] < both[|earlier| + j];
    }
  }

  /** The table once the given ticks have been through a run. */
  function AfterTicks(initial: seq<TickRow>, ticks: seq<int>, build: int -> int, dryRun: bool): seq<TickRow> {
    initial + if dryRun then [] else Built(Filter(ticks, Missing(initial)), build)
  }

  lemma AfterTicksStored(initial: seq<TickRow>, ticks: seq<int>, build: int -> int, dryRun: bool, t: int)
    requires t !in ticks
    ensures IsStored(AfterTicks(initial, ticks, build, dryRun), t) <==> IsStored(initial, t)
  {
    var missing := Filter(ticks, Missing(initial));
    AppendIsStored(initial, if dryRun then [] else Built(missing, build), t);
    BuiltIsStored(missing, build, t);
  }

  /** Later windows see the same missing ticks as the start: earlier ones wrote others. */
  lemma MissingLater(initial: seq<TickRow>, earlier: seq<int>, here: seq<int>, build: int -> int, dryRun: bool)
    requires StrictlyAscending(earlier + here)
    ensures Filter(here, Missing(AfterTicks(initial, earlier, build, dryRun))) == Filter(here, Missing(initial))
    ensures Filter(here, Present(AfterTicks(initial, earlier, build, dryRun))) == Filter(here, Present(initial))
  {
    var now := AfterTicks(initial, earlier, build, dryRun);
    forall t | t in here ensures IsStored(now, t) <==> IsStored(initial, t) {
      AscendingDisjoint(earlier, here, t);
      AfterTicksStored(initial, earlier, build, dryRun, t);
    }
    FilterAgree(here, Missing(now), Missing(initial));
    FilterAgree(here, Present(now), Present(initial));
  }

  lemma AfterTicksAppend(initial: seq<TickRow>, earlier: seq<int>, here: seq<int>, build: int -> int, dryRun: bool)
    requires StrictlyAscending(earlier + here)
    ensures var now := AfterTicks(initial, earlier, build, dryRun);
            AfterTicks(now, here, build, dryRun) == AfterTicks(initial, earlier + here, build, dryRun)
  {
    MissingLater(initial, earlier, here, build, dryRun);
    FilterAppend(earlier, here, Missing(initial));
    MapAppend(Filter(earlier, Missing(initial)), Filter(here, Missing(initial)), RowBuilder(build));
  }

  datatype Outcome = NoFrames | NegativeTick(lowest: int) | Ran(expected: nat, existing: nat, written: nat)

  datatype Status = Planned | AlreadyMigrated | Resumed | Migrated

  function StatusOf(run: Outcome, dryRun: bool): Status
    requires run.Ran?
  {
    if dryRun then Planned
    else if run.written == 0 then AlreadyMigrated
    else if run.existing > 0 then Resumed
    else Migrated
  }

  /** The totals and the table after the ticks of some windows. */
  ghost predicate MigratedUpTo(store: TickStore, totals: Totals, initial: seq<TickRow>, ticks: seq<int>,
                               build: int -> int, dryRun: bool)
    reads store, totals
  {
    && totals.expected == |ticks|
    && totals.existing == |Filter(ticks, Present(initial))|
    && totals.written == |Filter(ticks, Missing(initial))|
    && store.rows == AfterTicks(initial, ticks, build, dryRun)
  }

  method MigrateNext(store: TickStore, totals: Totals, frames: seq<int>, build: int -> int, batch: nat, dryRun: bool,
                     ghost initial: seq<TickRow>, ghost earlier: seq<int>)
    requires batch >= 1 && StrictlyAscending(earlier + DistinctTicks(frames))
    requires MigratedUpTo(store, totals, initial, earlier, build, dryRun)
    modifies store, totals
    ensures MigratedUpTo(store, totals, initial, earlier + DistinctTicks(frames), build, dryRun)
  {
    ghost var here := DistinctTicks(frames);
    MissingLater(initial, earlier, here, build, dryRun);
    AfterTicksAppend(initial, earlier, here, build, dryRun);
    FilterAppend(earlier, here, Missing(initial));
    FilterAppend(earlier, here, Present(initial));
    store.MigrateWindow(frames, build, batch, dryRun, totals);
  }

  lemma TicksOverNext(frames: seq<int>, ids: seq<int>, i: nat, width: nat)
    requires width > 0 && StrictlyAscending(ids) && i < |ids|
    ensures TicksOver(frames, ids[..i + 1], width)
         == TicksOver(frames, ids[..i], width) + DistinctTicks(WindowFrames(frames, ids[i], width))
    ensures StrictlyAscending(TicksOver(frames, ids[..i + 1], width))
  {
    TicksOverAscending(frames, ids[..i + 1], width);
    assert ids[..i + 1][..i] == ids[..i];
  }

  method MigrateWindows(store: TickStore, frames: seq<int>, ids: seq<int>, width: nat, batch: nat, build: int -> int,
                        dryRun: bool)
    returns (totals: Totals)
    requires width > 0 && batch >= 1 && StrictlyAscending(ids)
    modifies store
    ensures fresh(totals) && MigratedUpTo(store, totals, old(store.rows), TicksOver(frames, ids, width), build, dryRun)
  {
    totals := new Totals();
    for i := 0 to |ids|
      invariant MigratedUpTo(store, totals, old(store.rows), TicksOver(frames, ids[..i], width), build, dryRun)
    {
      TicksOverNext(frames, ids, i, width);
      MigrateNext(store, totals, WindowFrames(frames, ids[i], width), build, batch, dryRun, old(store.rows),
                  TicksOver(frames, ids[..i], width));
    }
    assert ids[..|ids|] == ids;
  }

  /** One job on a table nobody else writes: a negative tick fails it; otherwise every
      tick with frames is accounted for as existing or written, a real run appends the
      missing ticks once each and touches nothing else, and a dry run reports the same
      totals and writes nothing. */
  method MigrateJob(store: TickStore, frames: seq<int>, width: nat, batch: nat, build: int -> int, dryRun: bool)
    returns (run: Outcome)
    requires width > 0 && batch >= 1
    modifies store
    ensures run.NoFrames? <==> frames == []
    ensures run.NegativeTick? <==> exists t <- frames :: t < 0
    ensures run.NegativeTick? ==> run.lowest in frames && forall t <- frames :: run.lowest <= t
    ensures !run.Ran? ==> store.rows == old(store.rows)
    ensures run.Ran? ==>
              var ticks := DistinctTicks(frames);
              && run.expected == |ticks| && run.expected == run.existing + run.written
              && run.existing == |Filter(ticks, Present(old(store.rows)))|
              && run.written == |Filter(ticks, Missing(old(store.rows)))|
              && store.rows == AfterTicks(old(store.rows), ticks, build, dryRun)
  {
    var bounds := TickIndexBounds(frames, width);
    if bounds.None? {
      return NoFrames;
    }
    if bounds.value.lowest < 0 {
      return NegativeTick(bounds.value.lowest);
    }
    ghost var initial := store.rows;
    var totals := MigrateWindows(store, frames, bounds.value.windows, width, batch, build, dryRun);
    WindowsFindEveryTick(frames, bounds.value.windows, width);
    CountPartition(DistinctTicks(frames), initial);
    run := Ran(totals.expected, totals.existing, totals.written);
  }

  lemma {:induction false} CountPartition(ticks: seq<int>, rows: seq<TickRow>)
    ensures |ticks| == |Filter(ticks, Present(rows))| + |Filter(ticks, Missing(rows))|
  {
    if ticks != [] {
      CountPartition(ticks[1..], rows);
    }
  }

  /** What a job that ran reports: a plan for a dry run; else whether all ticks with frames were
      stored before, none, or some. */
  lemma StatusMeaning(run: Outcome, frames: seq<int>, initial: seq<TickRow>, dryRun: bool)
    requires frames != [] && run.Ran?
    requires run.existing == |Filter(DistinctTicks(frames), Present(initial))|
    requires run.written == |Filter(DistinctTicks(frames), Missing(initial))|
    ensures StatusOf(run, dryRun).Planned? <==> dryRun
    ensures !dryRun ==> (StatusOf(run, dryRun).AlreadyMigrated? <==> forall t <- frames :: IsStored(initial, t))
    ensures !dryRun ==> (StatusOf(run, dryRun).Migrated? <==> forall t <- frames :: !IsStored(initial, t))
    ensures !dryRun ==>
              (StatusOf(run, dryRun).Resumed? <==>
                 (exists t <- frames :: IsStored(initial, t)) && exists t <- frames :: !IsStored(initial, t))
  {
    var ticks := DistinctTicks(frames);
    assert frames[0] in ticks;
    FilterEmpty(ticks, Present(initial));
    FilterEmpty(ticks, Missing(initial));
  }

  lemma FilterEmpty(ticks: seq<int>, keep: int -> bool)
    ensures Filter(ticks, keep) == [] <==> forall t <- ticks :: !keep(t)
  {
    var kept := Filter(ticks, keep);
    if kept == [] {
      forall t | t in ticks ensures !keep(t) {
        assert keep(t) ==> t in kept;
      }
    } else {
      var t := kept[0];
      assert t in kept;
    }
  }

  /** What a completed run leaves stored. */
  lemma RanStoresEveryTick(rows: seq<TickRow>, frames: seq<int>, build: int -> int, t: int)
    requires t in frames
    ensures IsStored(AfterTicks(rows, DistinctTicks(frames), build, false), t)
  {
    var missing := Filter(DistinctTicks(frames), Missing(rows));
    AppendIsStored(rows, Built(missing, build), t);
    BuiltIsStored(missing, build, t);
  }

  /** A dry run predicts what a lone real run writes, and a rerun writes nothing. */
  method PlanRunRerun(store: TickStore, frames: seq<int>, width: nat, batch: nat, build: int -> int)
    returns (plan: Outcome, run: Outcome, rerun: Outcome)
    requires width > 0 && batch >= 1
    modifies store
    ensures plan == run
    ensures run.Ran? ==> rerun.Ran? && rerun.written == 0 && StatusOf(rerun, false) == AlreadyMigrated
    ensures run.Ran? ==> forall t <- frames :: IsStored(store.rows, t)
    ensures run.Ran? ==> store.rows == AfterTicks(old(store.rows), DistinctTicks(frames), build, false)
  {
    ghost var initial := store.rows;
    plan := MigrateJob(store, frames, width, batch, build, true);
    assert initial + [] == initial;
    run := MigrateJob(store, frames, width, batch, build, false);
    ghost var once := store.rows;
    if run.Ran? {
      forall t | t in frames ensures IsStored(once, t) {
        RanStoresEveryTick(initial, frames, build, t);
      }
      FilterNone(DistinctTicks(frames), Missing(once));
      FilterAll(DistinctTicks(frames), Present(once));
    }
    rerun := MigrateJob(store, frames, width, batch, build, false);
    assert once + [] == once;
  }
}
