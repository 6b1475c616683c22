/** Any number of dedup runs on one table, interleaved commit by commit, each able to
    crash between any two commits. */
module DedupProtocol {
  import opened Ordering
  import opened TickRows

  /** A run is idle, or is between the scan of a window and its delete: some stamped
      rows are committed, some still to be added. */
  datatype Run = Idle | Working(added: seq<Row>, pending: seq<Row>, marker: int)

  datatype State = State(table: seq<Row>, runs: seq<Run>)

  /** `recipe` is the recipe digest the run holds for current when it plans. */
  datatype Step =
    | Scan(lo: int, hi: int, now: int, recipe: Option<string>)
    | AddChunk(rows: nat)
    | Delete
    | Crash

  predicate Enabled(s: State, run: nat, step: Step) {
    && run < |s.runs|
    && match step {
         case Scan(_, _, _, _) => s.runs[run].Idle?
         case AddChunk(rows) => s.runs[run].Working? && 1 <= rows <= |s.runs[run].pending|
         case Delete => s.runs[run].Working? && s.runs[run].pending == []
         case Crash => true
       }
  }

  function Take(s: State, run: nat, step: Step): (after: State)
    requires Enabled(s, run, step)
    ensures |after.runs| == |s.runs|
  {
    match step
    case Scan(lo, hi, now, recipe) =>
      var plan := PlanFor(ScanTicks(s.table, lo, hi), recipe, now);
      s.(runs := s.runs[run := if plan.stamped == [] then Idle else Working([], plan.stamped, plan.marker)])
    case AddChunk(rows) =>
      var Working(added, pending, marker) := s.runs[run];
      State(s.table + pending[..rows], s.runs[run := Working(added + pending[..rows], pending[rows..], marker)])
    case Delete =>
      State(DeleteOlder(s.table, KeysIn(s.runs[run].added), s.runs[run].marker), s.runs[run := Idle])
    case Crash =>
      s.(runs := s.runs[run := Idle])
  }

  /** A schedule is any list of steps by any runs; steps that are not enabled are not
      part of one. */
  ghost predicate Schedule(s: State, steps: seq<(nat, Step)>)
    decreases |steps|
  {
    steps == [] ||
    (Enabled(s, steps[0].0, steps[0].1) && Schedule(Take(s, steps[0].0, steps[0].1), steps[1..]))
  }

  ghost function Outcome(s: State, steps: seq<(nat, Step)>): State
    requires Schedule(s, steps)
    decreases |steps|
  {
    if steps == [] then s else Outcome(Take(s, steps[0].0, steps[0].1), steps[1..])
  }

  // ---------------------------------------------------------- what is assumed

  /** All runs plan with the same current recipe. */
  ghost predicate OneRecipe(steps: seq<(nat, Step)>, current: Option<string>) {
    forall step <- steps :: step.1.Scan? ==> step.1.recipe == current
  }

  /** A key determines its tick. */
  ghost predicate KeyFixesTick(table: seq<Row>) {
    forall a, b | a in table && b in table && a.key == b.key :: a.tick == b.tick
  }

  /** The preferred copies of a key, if several, carry one payload. */
  ghost predicate UniqueBest(table: seq<Row>, key: nat, current: Option<string>) {
    forall a, b | Preferred(a, RowsOf(table, key), current) && Preferred(b, RowsOf(table, key), current) ::
      a.payload == b.payload
  }

  /** So the best copy beats every copy with another payload. */
  lemma BestBeats(table: seq<Row>, key: nat, current: Option<string>, row: Row)
    requires RowsOf(table, key) != [] && UniqueBest(table, key, current)
    requires row in table && row.key == key && row.payload != Canonical(RowsOf(table, key), current).payload
    ensures Worse(row, Canonical(RowsOf(table, key), current), current)
  {
    var copies := RowsOf(table, key);
    var best := Canonical(copies, current);
    assert row in copies;
    CanonicalIsPreferred(copies, current);
    if !Worse(row, best, current) {
      forall c | c in copies ensures !Worse(row, c, current) {
        assert !Worse(best, c, current) && !Worse(best, row, current);
      }
      PreferredExactly(row, copies, current);
    }
  }

  // ------------------------------------------------------------- the invariant

  /** Some copy of the key carries the preferred payload and is no older than `time`. */
  ghost predicate Kept(table: seq<Row>, key: nat, payload: Payload, time: Option<int>) {
    exists row <- table :: row.key == key && row.payload == payload && !CreatedLess(row.created, time)
  }

  /** A row a run has stamped: the preferred payload, later than the original best. */
  ghost predicate StampedFrom(row: Row, origin: map<nat, Row>, marker: int) {
    && row.key in origin && row.payload == origin[row.key].payload && row.tick == origin[row.key].tick
    && row.created == Some(marker) && CreatedLess(origin[row.key].created, Some(marker))
  }

  /** `origin` gives each key's best initial copy, `initial` the initial table. */
  ghost predicate TableInvariant(table: seq<Row>, initial: seq<Row>, origin: map<nat, Row>) {
    && (forall row <- table :: row.key in origin)
    && (forall row <- table :: row.tick == origin[row.key].tick)
    && (forall row <- table :: row in initial || row.payload == origin[row.key].payload)
    && (forall key <- origin :: Kept(table, key, origin[key].payload, origin[key].created))
  }

  /** Every row a run has added left a copy at or above its marker. */
  ghost predicate RunInvariant(run: Run, table: seq<Row>, origin: map<nat, Row>) {
    run.Working? ==>
      && (forall row <- run.pending :: StampedFrom(row, origin, run.marker))
      && (forall row <- run.added :: StampedFrom(row, origin, run.marker))
      && (forall row <- run.added :: Kept(table, row.key, row.payload, Some(run.marker)))
  }

  ghost predicate Invariant(s: State, initial: seq<Row>, origin: map<nat, Row>) {
    TableInvariant(s.table, initial, origin) && forall run <- s.runs :: RunInvariant(run, s.table, origin)
  }

  ghost function Origin(initial: seq<Row>, current: Option<string>): map<nat, Row> {
    map key | key in KeysIn(initial) :: OriginOf(initial, key, current)
  }

  ghost function OriginOf(initial: seq<Row>, key: nat, current: Option<string>): Row
    requires key in KeysIn(initial)
  {
    GroupNonempty(initial, key);
    Canonical(RowsOf(initial, key), current)
  }

  lemma GroupNonempty(rows: seq<Row>, key: nat)
    ensures key in KeysIn(rows) <==> RowsOf(rows, key) != []
  {
    if key in KeysIn(rows) {
      var row :| row in rows && row.key == key;
      assert row in RowsOf(rows, key);
    }
    if RowsOf(rows, key) != [] {
      assert RowsOf(rows, key)[0] in RowsOf(rows, key);
    }
  }

  ghost predicate Wellposed(initial: seq<Row>, current: Option<string>) {
    && KeyFixesTick(initial)
    && forall key <- KeysIn(initial) :: RowsOf(initial, key) != [] && UniqueBest(initial, key, current)
  }

  // ---------------------------------------------------- what the invariant gives

  lemma BeatsEarlierCopies(a: Row, b: Row, c: Row, current: Option<string>)
    requires Worse(a, b, current)
    requires c.payload == b.payload && !CreatedLess(c.created, b.created)
    ensures Worse(a, c, current)
  {
  }

  /** In every state the preferred copy of a key has the payload it had initially. */
  lemma PreferredPayload(table: seq<Row>, initial: seq<Row>, key: nat, current: Option<string>)
    requires Wellposed(initial, current) && key in KeysIn(initial)
    requires TableInvariant(table, initial, Origin(initial, current))
    ensures RowsOf(table, key) != []
    ensures forall copy | Preferred(copy, RowsOf(table, key), current) ::
              copy.payload == OriginOf(initial, key, current).payload
    ensures Canonical(RowsOf(table, key), current).payload == OriginOf(initial, key, current).payload
  {
    var origin := OriginOf(initial, key, current);
    assert key in Origin(initial, current) && Origin(initial, current)[key] == origin;
    assert Kept(table, key, origin.payload, origin.created);
    var kept :| kept in table && kept.key == key
      && kept.payload == origin.payload && !CreatedLess(kept.created, origin.created);
    assert kept in RowsOf(table, key);
    forall copy | Preferred(copy, RowsOf(table, key), current) ensures copy.payload == origin.payload {
      PreferredExactly(copy, RowsOf(table, key), current);
      if copy.payload != origin.payload {
        assert copy in table && copy in initial;
        BestBeats(initial, key, current, copy);
        BeatsEarlierCopies(copy, origin, kept, current);
      }
    }
    CanonicalIsPreferred(RowsOf(table, key), current);
  }

  // ---------------------------------------------------------- step preservation

  lemma KeptMonotone(table: seq<Row>, more: seq<Row>, key: nat, payload: Payload, time: Option<int>)
    requires Kept(table, key, payload, time)
    ensures Kept(table + more, key, payload, time)
  {
    var row :| row in table && row.key == key && row.payload == payload && !CreatedLess(row.created, time);
    assert row in table + more;
  }

  /** A delete at a marker spares what is kept at or above that marker, and so, by the
      copy it left itself, keeps every older claim as well. */
  lemma KeptThroughDelete(table: seq<Row>, keys: set<nat>, marker: int, key: nat, payload: Payload, time: Option<int>)
    requires Kept(table, key, payload, time)
    requires key in keys ==> Kept(table, key, payload, Some(marker))
    ensures Kept(DeleteOlder(table, keys, marker), key, payload, time)
  {
    var row :| row in table && row.key == key && row.payload == payload && !CreatedLess(row.created, time);
    if !Older(row, keys, marker) {
      assert row in DeleteOlder(table, keys, marker);
    } else {
      var stay :| stay in table && stay.key == key
        && stay.payload == payload && !CreatedLess(stay.created, Some(marker));
      assert stay in DeleteOlder(table, keys, marker);
    }
  }

  lemma AddKeepsInvariant(s: State, run: nat, rows: nat, initial: seq<Row>, origin: map<nat, Row>)
    requires Invariant(s, initial, origin) && Enabled(s, run, AddChunk(rows))
    ensures Invariant(Take(s, run, AddChunk(rows)), initial, origin)
  {
    var after := Take(s, run, AddChunk(rows));
    var me := s.runs[run];
    assert me in s.runs;
    assert forall row <- me.pending[..rows] :: row in me.pending;
    assert forall row <- me.pending[rows..] :: row in me.pending;
    forall key | key in origin ensures Kept(after.table, key, origin[key].payload, origin[key].created) {
      KeptMonotone(s.table, me.pending[..rows], key, origin[key].payload, origin[key].created);
    }
    forall i | 0 <= i < |after.runs| ensures RunInvariant(after.runs[i], after.table, origin) {
      assert s.runs[i] in s.runs;
      if s.runs[i].Working? {
        forall row | row in s.runs[i].added ensures Kept(after.table, row.key, row.payload, Some(s.runs[i].marker)) {
          KeptMonotone(s.table, me.pending[..rows], row.key, row.payload, Some(s.runs[i].marker));
        }
      }
      if i == run {
        forall row | row in me.pending[..rows] ensures Kept(after.table, row.key, row.payload, Some(me.marker)) {
          assert row in after.table;
        }
      }
    }
  }

  lemma DeleteKeepsInvariant(s: State, run: nat, initial: seq<Row>, origin: map<nat, Row>)
    requires Invariant(s, initial, origin) && Enabled(s, run, Delete)
    ensures Invariant(Take(s, run, Delete), initial, origin)
  {
    var after := Take(s, run, Delete);
    var me := s.runs[run];
    var keys := KeysIn(me.added);
    assert me in s.runs;
    forall key | key in keys ensures key in origin && Kept(s.table, key, origin[key].payload, Some(me.marker)) {
      var row :| row in me.added && row.key == key;
    }
    forall key | key in origin ensures Kept(after.table, key, origin[key].payload, origin[key].created) {
      KeptThroughDelete(s.table, keys, me.marker, key, origin[key].payload, origin[key].created);
    }
    forall i | 0 <= i < |after.runs| ensures RunInvariant(after.runs[i], after.table, origin) {
      assert s.runs[i] in s.runs;
      if after.runs[i].Working? {
        forall row | row in s.runs[i].added ensures Kept(after.table, row.key, row.payload, Some(s.runs[i].marker)) {
          KeptThroughDelete(s.table, keys, me.marker, row.key, row.payload, Some(s.runs[i].marker));
        }
      }
    }
  }

  /** With a key fixing its tick, a window holds all copies of a key or none. */
  lemma WindowHoldsWholeKeys(table: seq<Row>, lo: int, hi: int, key: nat)
    requires KeyFixesTick(table)
    ensures RowsOf(ScanTicks(table, lo, hi), key) == [] || RowsOf(ScanTicks(table, lo, hi), key) == RowsOf(table, key)
  {
    var scan := ScanTicks(table, lo, hi);
    var both := (row: Row) => lo <= row.tick < hi && row.key == key;
    FilterFilter(table, InTicks(lo, hi), WithKey(key), both);
    if RowsOf(scan, key) != [] {
      var row := RowsOf(scan, key)[0];
      assert row in RowsOf(scan, key) && row in scan && row in table;
      FilterAgree(table, both, WithKey(key));
    }
  }

  lemma ScanPlansPreferred(table: seq<Row>, lo: int, hi: int, now: int, initial: seq<Row>, current: Option<string>,
                           row: Row)
    requires Wellposed(initial, current) && TableInvariant(table, initial, Origin(initial, current))
    requires row in PlanFor(ScanTicks(table, lo, hi), current, now).stamped
    ensures StampedFrom(row, Origin(initial, current), PlanFor(ScanTicks(table, lo, hi), current, now).marker)
  {
    var scan, origin := ScanTicks(table, lo, hi), Origin(initial, current);
    PlanRows(scan, current, now, row);
    WindowHoldsWholeKeys(table, lo, hi, row.key);
    assert RowsOf(scan, row.key) == RowsOf(table, row.key);
    var best := Canonical(RowsOf(table, row.key), current);
    assert best in table;
    PreferredPayload(table, initial, row.key, current);
    assert Kept(table, row.key, origin[row.key].payload, origin[row.key].created);
    var kept :| kept in table && kept.key == row.key
      && kept.payload == origin[row.key].payload && !CreatedLess(kept.created, origin[row.key].created);
    assert kept in RowsOf(table, row.key);
  }

  lemma ScanKeepsInvariant(s: State, run: nat, lo: int, hi: int, now: int, initial: seq<Row>, current: Option<string>)
    requires Wellposed(initial, current)
    requires Invariant(s, initial, Origin(initial, current)) && Enabled(s, run, Scan(lo, hi, now, current))
    ensures Invariant(Take(s, run, Scan(lo, hi, now, current)), initial, Origin(initial, current))
  {
    var after, origin := Take(s, run, Scan(lo, hi, now, current)), Origin(initial, current);
    var plan := PlanFor(ScanTicks(s.table, lo, hi), current, now);
    forall row | row in plan.stamped ensures StampedFrom(row, origin, plan.marker) {
      ScanPlansPreferred(s.table, lo, hi, now, initial, current, row);
    }
    forall i | 0 <= i < |after.runs| ensures RunInvariant(after.runs[i], after.table, origin) {
      assert s.runs[i] in s.runs;
    }
  }

  lemma StepKeepsInvariant(s: State, run: nat, step: Step, initial: seq<Row>, current: Option<string>)
    requires Wellposed(initial, current)
    requires Invariant(s, initial, Origin(initial, current)) && Enabled(s, run, step)
    requires step.Scan? ==> step.recipe == current
    ensures Invariant(Take(s, run, step), initial, Origin(initial, current))
  {
    match step
    case Scan(lo, hi, now, _) => ScanKeepsInvariant(s, run, lo, hi, now, initial, current);
    case AddChunk(rows) => AddKeepsInvariant(s, run, rows, initial, Origin(initial, current));
    case Delete => DeleteKeepsInvariant(s, run, initial, Origin(initial, current));
    case Crash =>
      var after := Take(s, run, step);
      forall i | 0 <= i < |after.runs| ensures RunInvariant(after.runs[i], after.table, Origin(initial, current)) {
        assert s.runs[i] in s.runs;
      }
  }

  lemma InitialInvariant(initial: seq<Row>, runs: nat, current: Option<string>)
    requires KeyFixesTick(initial)
    ensures Invariant(State(initial, seq(runs, _ => Idle)), initial, Origin(initial, current))
  {
    var origin := Origin(initial, current);
    forall key | key in origin ensures Kept(initial, key, origin[key].payload, origin[key].created) {
      GroupNonempty(initial, key);
      assert origin[key] in RowsOf(initial, key);
    }
    forall row | row in initial ensures row.key in origin && row.tick == origin[row.key].tick {
      assert row.key in KeysIn(initial);
      GroupNonempty(initial, row.key);
      assert origin[row.key] in RowsOf(initial, row.key);
    }
  }

  lemma {:induction false} OutcomeInvariant(s: State, steps: seq<(nat, Step)>, initial: seq<Row>,
                                            current: Option<string>)
    requires Wellposed(initial, current)
    requires Invariant(s, initial, Origin(initial, current)) && Schedule(s, steps)
    requires OneRecipe(steps, current)
    ensures Invariant(Outcome(s, steps), initial, Origin(initial, current))
    decreases |steps|
  {
    if steps != [] {
      StepKeepsInvariant(s, steps[0].0, steps[0].1, initial, current);
      OutcomeInvariant(Take(s, steps[0].0, steps[0].1), steps[1..], initial, current);
    }
  }

  /** The preferred copies of a key carry one payload, before and after. */
  ghost predicate SamePreference(before: seq<Row>, after: seq<Row>, current: Option<string>) {
    && after != []
    && forall was, kept | Preferred(was, before, current) && Preferred(kept, after, current) ::
         kept.payload == was.payload
  }

  lemma PreferenceKept(table: seq<Row>, initial: seq<Row>, key: nat, current: Option<string>)
    requires Wellposed(initial, current) && key in KeysIn(initial)
    requires TableInvariant(table, initial, Origin(initial, current))
    ensures SamePreference(RowsOf(initial, key), RowsOf(table, key), current)
  {
    PreferredPayload(table, initial, key, current);
    CanonicalIsPreferred(RowsOf(initial, key), current);
    assert UniqueBest(initial, key, current);
  }

  lemma KeysKept(table: seq<Row>, initial: seq<Row>, current: Option<string>)
    requires Wellposed(initial, current) && TableInvariant(table, initial, Origin(initial, current))
    ensures KeysIn(table) == KeysIn(initial)
  {
    forall k | k in KeysIn(initial) ensures k in KeysIn(table) {
      PreferredPayload(table, initial, k, current);
      GroupNonempty(table, k);
    }
  }

  /** Whatever any number of runs do and wherever they crash, the preferred copies of a key carry
      the payload they had. */
  lemma PreferredPayloadIsKept(initial: seq<Row>, runs: nat, steps: seq<(nat, Step)>, current: Option<string>, key: nat)
    requires Wellposed(initial, current) && key in KeysIn(initial)
    requires Schedule(State(initial, seq(runs, _ => Idle)), steps)
    requires OneRecipe(steps, current)
    ensures var table := Outcome(State(initial, seq(runs, _ => Idle)), steps).table;
            && RowsOf(table, key) != []
            && Canonical(RowsOf(table, key), current).payload == OriginOf(initial, key, current).payload
            && SamePreference(RowsOf(initial, key), RowsOf(table, key), current)
            && KeysIn(table) == KeysIn(initial)
  {
    var start := State(initial, seq(runs, _ => Idle));
    InitialInvariant(initial, runs, current);
    OutcomeInvariant(start, steps, initial, current);
    var table := Outcome(start, steps).table;
    PreferredPayload(table, initial, key, current);
    PreferenceKept(table, initial, key, current);
    KeysKept(table, initial, current);
  }
}
