/** Any number of migrators of one alignment working on the same tick table at once, each
    free to stop between any two merges. */
module MigrationProtocol {
  import opened Ordering
  import opened TickWindows
  import opened TickMigration

  /** One migrator.  Counters are those of its report; `pending` are the rows of the window
      in progress that are not merged yet, `todo` the tick lists of the later windows. */
  datatype Run =
    | Migrating(todo: seq<seq<int>>, pending: seq<TickRow>, expected: nat, existing: nat, written: nat)
    | Completed(expected: nat, existing: nat, written: nat)
    | Stopped

  datatype State = State(table: seq<TickRow>, runs: map<nat, Run>)

  /** The recorded job: the ticks of its frames, and the row built for a tick at a time. */
  datatype Job = Job(frames: seq<int>, build: (int, int) -> int)

  datatype Step =
    | Begin(run: nat, width: nat, windows: seq<int>)
    | Scan(run: nat, created: int)
    | Merge(run: nat, batch: nat)
    | Finish(run: nat)
    | Crash(run: nat)

  function WindowTicks(frames: seq<int>, width: nat): int -> seq<int> {
    (id: int) => DistinctTicks(WindowFrames(frames, id, width))
  }

  function At(build: (int, int) -> int, created: int): int -> int { (t: int) => build(t, created) }

  ghost predicate Enabled(job: Job, s: State, step: Step) {
    match step
    case Begin(r, width, windows) =>
      && r !in s.runs && width > 0 && job.frames != [] && (forall t <- job.frames :: t >= 0)
      && Occupied(windows, job.frames, width)
    case Scan(r, _) => r in s.runs && s.runs[r].Migrating? && s.runs[r].pending == [] && s.runs[r].todo != []
    case Merge(r, batch) => r in s.runs && s.runs[r].Migrating? && s.runs[r].pending != [] && batch >= 1
    case Finish(r) => r in s.runs && s.runs[r].Migrating? && s.runs[r].pending == [] && s.runs[r].todo == []
    case Crash(r) => r in s.runs && s.runs[r].Migrating?
  }

  function Scanned(run: Run, rows: seq<TickRow>, build: int -> int): Run
    requires run.Migrating? && run.todo != []
  {
    var ticks := run.todo[0];
    run.(todo := run.todo[1..],
         pending := Built(Filter(ticks, Missing(rows)), build),
         expected := run.expected + |ticks|,
         existing := run.existing + |Filter(ticks, Present(rows))|)
  }

  function ChunkSize(run: Run, batch: nat): (n: nat)
    requires run.Migrating?
    ensures n <= |run.pending|
  {
    if batch <= |run.pending| then batch else |run.pending|
  }

  function Merged(run: Run, n: nat): Run
    requires run.Migrating? && n <= |run.pending|
  {
    run.(pending := run.pending[n..], written := run.written + n)
  }

  ghost function Take(job: Job, s: State, step: Step): State
    requires Enabled(job, s, step)
  {
    match step
    case Begin(r, width, windows) =>
      s.(runs := s.runs[r := Migrating(Map(windows, WindowTicks(job.frames, width)), [], 0, 0, 0)])
    case Scan(r, created) => s.(runs := s.runs[r := Scanned(s.runs[r], s.table, At(job.build, created))])
    case Merge(r, batch) =>
      var n := ChunkSize(s.runs[r], batch);
      State(MergeInsert(s.table, s.runs[r].pending[..n]), s.runs[r := Merged(s.runs[r], n)])
    case Finish(r) =>
      var run := s.runs[r];
      s.(runs := s.runs[r := Completed(run.expected, run.existing, run.written)])
    case Crash(r) => s.(runs := s.runs[r := Stopped])
  }

  /** The steps of a schedule that are possible, one after the other. */
  ghost function Outcome(job: Job, s: State, schedule: seq<Step>): State
    decreases |schedule|
  {
    if schedule == [] then s
    else if Enabled(job, s, schedule[0]) then Outcome(job, Take(job, s, schedule[0]), schedule[1..])
    else Outcome(job, s, schedule[1..])
  }

  // ------------------------------------------------------------ merge effects

  ghost predicate DistinctIds(rows: seq<TickRow>) {
    forall i, j :: 0 <= i < j < |rows| ==> rows[i].tick != rows[j].tick
  }

  ghost predicate AscendingIds(rows: seq<TickRow>) {
    forall i, j :: 0 <= i < j < |rows| ==> rows[i].tick < rows[j].tick
  }

  ghost predicate FromJob(job: Job, row: TickRow) {
    row.tick in job.frames && exists created: int :: row.body == job.build(row.tick, created)
  }

  lemma {:induction false} FilterDistinctIds(rows: seq<TickRow>, keep: TickRow -> bool)
    requires DistinctIds(rows)
    ensures DistinctIds(Filter(rows, keep))
  {
    if rows != [] {
      FilterDistinctIds(rows[1..], keep);
      var rest := Filter(rows[1..], keep);
      forall i | 0 <= i < |rest| ensures rest[i].tick != rows[0].tick {
        assert rest[i] in rows[1..];
        var j :| 0 <= j < |rows[1..]| && rows[1..][j] == rest[i];
        assert rows[j + 1] == rest[i];
      }
    }
  }

  function AtTick(t: int): TickRow -> bool { (row: TickRow) => row.tick == t }

  /** How many rows a table holds for a tick. */
  function Copies(rows: seq<TickRow>, t: int): nat { |Filter(rows, AtTick(t))| }

  /** Rows were only added at the end, one each for ticks that had none. */
  ghost predicate GrownFrom(initial: seq<TickRow>, rows: seq<TickRow>) {
    && initial <= rows
    && DistinctIds(rows[|initial|..])
    && forall i :: |initial| <= i < |rows| ==> !IsStored(initial, rows[i].tick)
  }

  lemma {:induction false} OneCopyEach(rows: seq<TickRow>, t: int)
    ensures Copies(rows, t) > 0 <==> IsStored(rows, t)
    ensures DistinctIds(rows) ==> Copies(rows, t) <= 1
  {
    if rows != [] {
      OneCopyEach(rows[1..], t);
      AppendIsStored([rows[0]], rows[1..], t);
      assert rows == [rows[0]] + rows[1..];
      if DistinctIds(rows) {
        forall i | 0 <= i < |rows[1..]| ensures rows[1..][i].tick != rows[0].tick {
          assert rows[1..][i] == rows[i + 1];
        }
      }
    }
  }

  /** Growth changes no stored tick's row count, and gives any other tick at most one row. */
  lemma GrowthCounts(initial: seq<TickRow>, rows: seq<TickRow>, t: int)
    requires GrownFrom(initial, rows)
    ensures IsStored(initial, t) ==> Copies(rows, t) == Copies(initial, t)
    ensures !IsStored(initial, t) ==> Copies(rows, t) <= 1
  {
    var added := rows[|initial|..];
    assert rows == initial + added;
    FilterAppend(initial, added, AtTick(t));
    OneCopyEach(initial, t);
    OneCopyEach(added, t);
    if IsStored(initial, t) {
      forall i | 0 <= i < |added| ensures added[i].tick != t {
        assert added[i] == rows[|initial| + i];
      }
    }
  }

  lemma GrowthComposes(initial: seq<TickRow>, rows: seq<TickRow>, later: seq<TickRow>)
    requires GrownFrom(initial, rows) && GrownFrom(rows, later)
    ensures GrownFrom(initial, later)
  {
    var stored, added := rows[|initial|..], later[|rows|..];
    assert later[|initial|..] == stored + added;
    forall i | |initial| <= i < |later| ensures !IsStored(initial, later[i].tick) {
      if i >= |rows| {
        assert !IsStored(rows, later[i].tick);
        assert forall row <- initial :: row in rows;
      }
    }
    forall i, j | 0 <= i < |stored| && 0 <= j < |added| ensures stored[i].tick != added[j].tick {
      assert !IsStored(rows, later[|rows| + j].tick) && stored[i] in rows;
    }
  }

  /** A merge keeps every stored row in place, adds at most one row for a tick and none for a
      stored one, and leaves every tick of its chunk stored; the table may hold duplicates. */
  lemma MergeOnlyInserts(rows: seq<TickRow>, chunk: seq<TickRow>)
    requires DistinctIds(chunk)
    ensures GrownFrom(rows, MergeInsert(rows, chunk))
    ensures DistinctIds(rows) ==> DistinctIds(MergeInsert(rows, chunk))
    ensures forall t: int :: IsStored(MergeInsert(rows, chunk), t) <==> IsStored(rows, t) || IsStored(chunk, t)
  {
    var isNew := NotStoredIn(rows);
    var added := Filter(chunk, isNew);
    assert MergeInsert(rows, chunk) == rows + added;
    assert (rows + added)[|rows|..] == added;
    FilterDistinctIds(chunk, isNew);
    forall j | 0 <= j < |added| ensures !IsStored(rows, added[j].tick) {
      assert added[j] in added;
    }
    GrownDistinct(rows, rows + added);
    forall t: int ensures IsStored(rows + added, t) <==> IsStored(rows, t) || IsStored(chunk, t) {
      AppendIsStored(rows, added, t);
      if IsStored(chunk, t) && !IsStored(rows, t) {
        var row :| row in chunk && row.tick == t;
        assert row in added;
      }
    }
  }

  lemma GrownDistinct(initial: seq<TickRow>, rows: seq<TickRow>)
    requires GrownFrom(initial, rows)
    ensures DistinctIds(initial) ==> DistinctIds(rows)
  {
    var added := rows[|initial|..];
    assert rows == initial + added;
    forall i, j | 0 <= i < |initial| && |initial| <= j < |rows| ensures rows[i].tick != rows[j].tick {
      assert initial[i] in initial && rows[i] == initial[i];
    }
    forall i, j | |initial| <= i < j < |rows| ensures rows[i].tick != rows[j].tick {
      assert added[i - |initial|].tick != added[j - |initial|].tick;
    }
  }

  // --------------------------------------------------------------- invariant

  function Flat(lists: seq<seq<int>>): seq<int> {
    if lists == [] then [] else lists[0] + Flat(lists[1..])
  }

  lemma {:induction false} FlatSnoc(lists: seq<seq<int>>, last: seq<int>)
    ensures Flat(lists + [last]) == Flat(lists) + last
  {
    if lists == [] {
      assert [] + [last] == [last];
    } else {
      assert (lists + [last])[1..] == lists[1..] + [last];
      FlatSnoc(lists[1..], last);
    }
  }

  lemma FlatWindowsSnoc(frames: seq<int>, rest: seq<int>, last: int, width: nat)
    ensures Flat(Map(rest + [last], WindowTicks(frames, width)))
         == Flat(Map(rest, WindowTicks(frames, width))) + DistinctTicks(WindowFrames(frames, last, width))
  {
    assert Map(rest + [last], WindowTicks(frames, width))
           == Map(rest, WindowTicks(frames, width)) + [WindowTicks(frames, width)(last)];
    FlatSnoc(Map(rest, WindowTicks(frames, width)), WindowTicks(frames, width)(last));
  }

  lemma {:induction false} FlatWindows(frames: seq<int>, ids: seq<int>, width: nat)
    ensures Flat(Map(ids, WindowTicks(frames, width))) == TicksOver(frames, ids, width)
  {
    if ids != [] {
      var rest, last := ids[..|ids| - 1], ids[|ids| - 1];
      FlatWindows(frames, rest, width);
      FlatWindowsSnoc(frames, rest, last, width);
      assert ids == rest + [last];
    }
  }

  /** Where a migrator stands: its first `expected` ticks are stored or pending, and the
      rest are still to do. */
  ghost predicate Tracks(job: Job, rows: seq<TickRow>, run: Run)
    requires run.Migrating?
  {
    var all := DistinctTicks(job.frames);
    && run.expected <= |all| && Flat(run.todo) == all[run.expected..]
    && run.expected == run.existing + run.written + |run.pending|
    && AscendingIds(run.pending)
    && (forall row <- run.pending :: FromJob(job, row))
    && (forall i :: 0 <= i < run.expected ==> IsStored(rows, all[i]) || IsStored(run.pending, all[i]))
  }

  ghost predicate Finished(job: Job, rows: seq<TickRow>, run: Run)
    requires run.Completed?
  {
    && run.expected == |DistinctTicks(job.frames)| == run.existing + run.written
    && forall t <- job.frames :: IsStored(rows, t)
  }

  ghost predicate RunHolds(job: Job, rows: seq<TickRow>, run: Run) {
    && (run.Migrating? ==> Tracks(job, rows, run))
    && (run.Completed? ==> Finished(job, rows, run))
  }

  ghost predicate TableHolds(job: Job, initial: seq<TickRow>, rows: seq<TickRow>) {
    GrownFrom(initial, rows) && forall i :: |initial| <= i < |rows| ==> FromJob(job, rows[i])
  }

  ghost predicate Invariant(job: Job, initial: seq<TickRow>, s: State) {
    && TableHolds(job, initial, s.table)
    && forall r <- s.runs :: RunHolds(job, s.table, s.runs[r])
  }

  lemma RunHoldsLater(job: Job, rows: seq<TickRow>, later: seq<TickRow>, run: Run)
    requires rows <= later && RunHolds(job, rows, run)
    ensures RunHolds(job, later, run)
  {
    forall t: int | IsStored(rows, t) ensures IsStored(later, t) {
      var row :| row in rows && row.tick == t;
      assert row in later;
    }
  }

  lemma BeginHolds(job: Job, rows: seq<TickRow>, width: nat, windows: seq<int>)
    requires width > 0 && (forall t <- job.frames :: t >= 0) && Occupied(windows, job.frames, width)
    ensures RunHolds(job, rows, Migrating(Map(windows, WindowTicks(job.frames, width)), [], 0, 0, 0))
  {
    FlatWindows(job.frames, windows, width);
    WindowsFindEveryTick(job.frames, windows, width);
  }

  lemma BuiltAscending(ticks: seq<int>, build: int -> int)
    requires StrictlyAscending(ticks)
    ensures AscendingIds(Built(ticks, build))
  {
  }

  /** The ticks of the window being scanned come next in the job. */
  lemma ScanAdvances(job: Job, rows: seq<TickRow>, run: Run)
    requires run.Migrating? && run.pending == [] && run.todo != [] && Tracks(job, rows, run)
    ensures var all, ticks, next := DistinctTicks(job.frames), run.todo[0], run.expected + |run.todo[0]|;
            && next <= |all| && ticks == all[run.expected..next] && Flat(run.todo[1..]) == all[next..]
            && StrictlyAscending(ticks)
  {
    var all, ticks := DistinctTicks(job.frames), run.todo[0];
    var rest := all[run.expected..];
    assert rest == ticks + Flat(run.todo[1..]);
    assert ticks == rest[..|ticks|] && Flat(run.todo[1..]) == rest[|ticks|..];
    DistinctTicksAscending(job.frames);
    forall i, j | 0 <= i < j < |ticks| ensures ticks[i] < ticks[j] {
      assert ticks[i] == all[run.expected + i] && ticks[j] == all[run.expected + j];
    }
  }

  lemma ScanHolds(job: Job, rows: seq<TickRow>, run: Run, created: int)
    requires run.Migrating? && run.pending == [] && run.todo != [] && Tracks(job, rows, run)
    ensures Tracks(job, rows, Scanned(run, rows, At(job.build, created)))
  {
    var all, ticks, next := DistinctTicks(job.frames), run.todo[0], Scanned(run, rows, At(job.build, created));
    ScanAdvances(job, rows, run);
    var missing := Filter(ticks, Missing(rows));
    AscendingFilter(ticks, Missing(rows));
    BuiltAscending(missing, At(job.build, created));
    CountPartition(ticks, rows);
    PendingFromJob(job, missing, created);
    forall i | 0 <= i < next.expected ensures IsStored(rows, all[i]) || IsStored(next.pending, all[i]) {
      if i < run.expected {
        assert !IsStored(run.pending, all[i]);
      } else {
        ScannedIsAccounted(rows, ticks, At(job.build, created), i - run.expected);
      }
    }
  }

  lemma ScannedIsAccounted(rows: seq<TickRow>, ticks: seq<int>, build: int -> int, i: nat)
    requires i < |ticks|
    ensures IsStored(rows, ticks[i]) || IsStored(Built(Filter(ticks, Missing(rows)), build), ticks[i])
  {
    BuiltIsStored(Filter(ticks, Missing(rows)), build, ticks[i]);
  }

  lemma PendingFromJob(job: Job, ticks: seq<int>, created: int)
    requires forall t <- ticks :: t in job.frames
    ensures forall row <- Built(ticks, At(job.build, created)) :: FromJob(job, row)
  {
    var rows := Built(ticks, At(job.build, created));
    forall row | row in rows ensures FromJob(job, row) {
      var i :| 0 <= i < |rows| && rows[i] == row;
      assert ticks[i] in ticks;
      assert row.body == job.build(row.tick, created);
    }
  }

  lemma MergeHolds(job: Job, initial: seq<TickRow>, rows: seq<TickRow>, run: Run, n: nat)
    requires TableHolds(job, initial, rows)
    requires run.Migrating? && n <= |run.pending| && Tracks(job, rows, run)
    ensures rows <= MergeInsert(rows, run.pending[..n])
    ensures TableHolds(job, initial, MergeInsert(rows, run.pending[..n]))
    ensures Tracks(job, MergeInsert(rows, run.pending[..n]), Merged(run, n))
  {
    var chunk, later := run.pending[..n], MergeInsert(rows, run.pending[..n]);
    MergeOnlyInserts(rows, chunk);
    GrowthComposes(initial, rows, later);
    forall i | |initial| <= i < |later| ensures FromJob(job, later[i]) {
      if i >= |rows| {
        assert later[i] in chunk && later[i] in run.pending;
      }
    }
    assert run.pending == chunk + run.pending[n..];
    var all := DistinctTicks(job.frames);
    forall i | 0 <= i < run.expected ensures IsStored(later, all[i]) || IsStored(run.pending[n..], all[i]) {
      AppendIsStored(chunk, run.pending[n..], all[i]);
    }
  }

  lemma StepKeepsInvariant(job: Job, initial: seq<TickRow>, s: State, step: Step)
    requires Invariant(job, initial, s) && Enabled(job, s, step)
    ensures Invariant(job, initial, Take(job, s, step))
  {
    var t, r := Take(job, s, step), step.run;
    match step {
      case Begin(_, width, windows) => BeginHolds(job, s.table, width, windows);
      case Scan(_, created) => ScanHolds(job, s.table, s.runs[r], created);
      case Merge(_, batch) => MergeHolds(job, initial, s.table, s.runs[r], ChunkSize(s.runs[r], batch));
      case Finish(_) => FinishHolds(job, s.table, s.runs[r]);
      case Crash(_) =>
    }
    assert s.table <= t.table;
    assert RunHolds(job, t.table, t.runs[r]);
    forall q | q in t.runs ensures RunHolds(job, t.table, t.runs[q]) {
      if q != r {
        RunHoldsLater(job, s.table, t.table, s.runs[q]);
      }
    }
  }

  lemma FinishHolds(job: Job, rows: seq<TickRow>, run: Run)
    requires run.Migrating? && run.pending == [] && run.todo == [] && Tracks(job, rows, run)
    ensures Finished(job, rows, Completed(run.expected, run.existing, run.written))
  {
    var all := DistinctTicks(job.frames);
    assert all[run.expected..] == [];
    forall t | t in job.frames ensures IsStored(rows, t) {
      assert t in all;
      var i :| 0 <= i < |all| && all[i] == t;
      assert !IsStored(run.pending, t);
    }
  }

  lemma {:induction false} OutcomeKeepsInvariant(job: Job, initial: seq<TickRow>, s: State, schedule: seq<Step>)
    requires Invariant(job, initial, s)
    ensures Invariant(job, initial, Outcome(job, s, schedule))
    decreases |schedule|
  {
    if schedule != [] {
      if Enabled(job, s, schedule[0]) {
        StepKeepsInvariant(job, initial, s, schedule[0]);
        OutcomeKeepsInvariant(job, initial, Take(job, s, schedule[0]), schedule[1..]);
      } else {
        OutcomeKeepsInvariant(job, initial, s, schedule[1..]);
      }
    }
  }

  /** Over every interleaving and every crash, on any table: the stored rows stay where and as
      they were, no tick's row count grows past one or past what it was, every added row is one
      the job implies, and a run that completes has counted each tick with frames once and
      leaves all of them stored. */
  lemma MigratorsConverge(job: Job, initial: seq<TickRow>, schedule: seq<Step>)
    ensures var end := Outcome(job, State(initial, map[]), schedule);
            && initial <= end.table && (DistinctIds(initial) ==> DistinctIds(end.table))
            && (forall t: int :: if IsStored(initial, t) then Copies(end.table, t) == Copies(initial, t)
                                 else Copies(end.table, t) <= 1)
            && (forall i :: |initial| <= i < |end.table| ==> FromJob(job, end.table[i]))
            && (forall r <- end.runs :: end.runs[r].Completed? ==>
                  && end.runs[r].expected == |DistinctTicks(job.frames)|
                  && end.runs[r].expected == end.runs[r].existing + end.runs[r].written
                  && forall t <- job.frames :: IsStored(end.table, t))
  {
    var end := Outcome(job, State(initial, map[]), schedule);
    StartHolds(job, initial);
    OutcomeKeepsInvariant(job, initial, State(initial, map[]), schedule);
    GrownDistinct(initial, end.table);
    forall t: int
      ensures if IsStored(initial, t) then Copies(end.table, t) == Copies(initial, t) else Copies(end.table, t) <= 1
    {
      GrowthCounts(initial, end.table, t);
    }
    forall r | r in end.runs && end.runs[r].Completed? ensures Finished(job, end.table, end.runs[r]) {
      assert RunHolds(job, end.table, end.runs[r]);
    }
  }

  lemma StartHolds(job: Job, initial: seq<TickRow>)
    ensures Invariant(job, initial, State(initial, map[]))
  {
    assert initial[|initial|..] == [];
  }

  // -------------------------------------------------------------------- reruns

  /** A run that began once every tick was stored has found everything and planned nothing. */
  ghost predicate Idle(run: Run) {
    && (run.Migrating? ==> run.pending == [] && run.written == 0)
    && (run.Completed? ==> run.written == 0)
  }

  ghost predicate Settled(job: Job, rows: seq<TickRow>, before: set<nat>, s: State) {
    && s.table == rows
    && (forall r <- before :: r in s.runs)
    && forall r <- s.runs :: r !in before ==> Idle(s.runs[r])
  }

  lemma StepStaysSettled(job: Job, initial: seq<TickRow>, rows: seq<TickRow>, before: set<nat>, s: State, step: Step)
    requires Invariant(job, initial, s) && Enabled(job, s, step)
    requires forall t <- job.frames :: IsStored(rows, t)
    requires Settled(job, rows, before, s)
    ensures Settled(job, rows, before, Take(job, s, step))
  {
    var r := step.run;
    match step {
      case Merge(_, batch) =>
        var chunk := s.runs[r].pending[..ChunkSize(s.runs[r], batch)];
        assert RunHolds(job, s.table, s.runs[r]);
        forall row | row in chunk ensures IsStored(rows, row.tick) {
          assert row in s.runs[r].pending;
        }
        FilterNone(chunk, NotStoredIn(rows));
        assert rows + [] == rows;
      case Scan(_, created) =>
        assert RunHolds(job, s.table, s.runs[r]);
        NothingMissing(job, rows, s.runs[r]);
      case _ =>
    }
  }

  lemma NothingMissing(job: Job, rows: seq<TickRow>, run: Run)
    requires run.Migrating? && run.todo != [] && Tracks(job, rows, run)
    requires forall t <- job.frames :: IsStored(rows, t)
    ensures Filter(run.todo[0], Missing(rows)) == []
  {
    var rest := DistinctTicks(job.frames)[run.expected..];
    assert rest == run.todo[0] + Flat(run.todo[1..]);
    forall t | t in run.todo[0] ensures IsStored(rows, t) {
      assert t in rest;
    }
    FilterNone(run.todo[0], Missing(rows));
  }

  lemma {:induction false} OutcomeStaysSettled(job: Job, initial: seq<TickRow>, rows: seq<TickRow>, before: set<nat>,
                                               s: State, schedule: seq<Step>)
    requires Invariant(job, initial, s)
    requires forall t <- job.frames :: IsStored(rows, t)
    requires Settled(job, rows, before, s)
    ensures Settled(job, rows, before, Outcome(job, s, schedule))
    decreases |schedule|
  {
    if schedule != [] {
      if Enabled(job, s, schedule[0]) {
        StepKeepsInvariant(job, initial, s, schedule[0]);
        StepStaysSettled(job, initial, rows, before, s, schedule[0]);
        OutcomeStaysSettled(job, initial, rows, before, Take(job, s, schedule[0]), schedule[1..]);
      } else {
        OutcomeStaysSettled(job, initial, rows, before, s, schedule[1..]);
      }
    }
  }

  /** Once any run has completed the table is final: whatever the unfinished migrators and
      any number of reruns still do, it does not change, and no rerun writes a tick. */
  lemma RerunsWriteNothing(job: Job, initial: seq<TickRow>, first: seq<Step>, later: seq<Step>, done: nat)
    requires var mid := Outcome(job, State(initial, map[]), first); done in mid.runs && mid.runs[done].Completed?
    ensures var mid := Outcome(job, State(initial, map[]), first);
            var end := Outcome(job, mid, later);
            && end.table == mid.table
            && forall r <- end.runs :: r !in mid.runs && end.runs[r].Completed? ==> end.runs[r].written == 0
  {
    var mid := Outcome(job, State(initial, map[]), first);
    StartHolds(job, initial);
    OutcomeKeepsInvariant(job, initial, State(initial, map[]), first);
    assert RunHolds(job, mid.table, mid.runs[done]);
    OutcomeStaysSettled(job, initial, mid.table, mid.runs.Keys, mid, later);
  }
}
