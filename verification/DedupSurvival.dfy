/** No key is lost to dedup, whatever its copies look like: each delete below a marker
    follows an add at that marker, so a row at or above every issued marker survives. */
module DedupSurvival {
  import opened Ordering
  import opened TickRows
  import opened DedupProtocol

  /** Some row of the key is no older than `time`; a missing time is older than all. */
  ghost predicate Alive(table: seq<Row>, key: nat, time: Option<int>) {
    exists row <- table :: row.key == key && !CreatedLess(row.created, time)
  }

  /** Every marker a run has added rows at is still matched or passed by a row of the key. */
  ghost predicate Guarded(run: Run, table: seq<Row>, keys: set<nat>) {
    run.Working? ==>
      && (forall row <- run.pending :: row.key in keys && row.created == Some(run.marker))
      && (forall row <- run.added :: row.key in keys && Alive(table, row.key, Some(run.marker)))
  }

  ghost predicate AllAlive(s: State, keys: set<nat>) {
    && KeysIn(s.table) <= keys
    && (forall key <- keys :: Alive(s.table, key, None))
    && forall run <- s.runs :: Guarded(run, s.table, keys)
  }

  lemma AliveWithMore(table: seq<Row>, more: seq<Row>, key: nat, time: Option<int>)
    requires Alive(table, key, time)
    ensures Alive(table + more, key, time)
  {
    var row :| row in table && row.key == key && !CreatedLess(row.created, time);
    assert row in table + more;
  }

  lemma AliveThroughDelete(table: seq<Row>, keys: set<nat>, marker: int, key: nat, time: Option<int>)
    requires Alive(table, key, time)
    requires key in keys ==> Alive(table, key, Some(marker))
    ensures Alive(DeleteOlder(table, keys, marker), key, time)
  {
    var row :| row in table && row.key == key && !CreatedLess(row.created, time);
    if !Older(row, keys, marker) {
      assert row in DeleteOlder(table, keys, marker);
    } else {
      var stay :| stay in table && stay.key == key && !CreatedLess(stay.created, Some(marker));
      assert stay in DeleteOlder(table, keys, marker);
    }
  }

  lemma ScanGuards(table: seq<Row>, lo: int, hi: int, now: int, current: Option<string>, row: Row)
    requires row in PlanFor(ScanTicks(table, lo, hi), current, now).stamped
    ensures row.key in KeysIn(table) && row.created == Some(PlanFor(ScanTicks(table, lo, hi), current, now).marker)
  {
    var scan := ScanTicks(table, lo, hi);
    PlanRows(scan, current, now, row);
    assert RowsOf(scan, row.key)[0] in RowsOf(scan, row.key);
    var copy := RowsOf(scan, row.key)[0];
    assert copy in scan && copy in table && copy.key == row.key;
  }

  lemma AddKeepsAlive(s: State, run: nat, rows: nat, keys: set<nat>)
    requires AllAlive(s, keys) && Enabled(s, run, AddChunk(rows))
    ensures AllAlive(Take(s, run, AddChunk(rows)), keys)
  {
    var after, me := Take(s, run, AddChunk(rows)), s.runs[run];
    var chunk := me.pending[..rows];
    assert me in s.runs;
    forall row | row in chunk ensures row.key in keys && Alive(after.table, row.key, Some(me.marker)) {
      assert row in me.pending && row in after.table;
    }
    forall key | key in keys ensures Alive(after.table, key, None) {
      AliveWithMore(s.table, chunk, key, None);
    }
    forall i | 0 <= i < |after.runs| ensures Guarded(after.runs[i], after.table, keys) {
      assert s.runs[i] in s.runs;
      if s.runs[i].Working? {
        forall row | row in s.runs[i].added ensures Alive(after.table, row.key, Some(s.runs[i].marker)) {
          AliveWithMore(s.table, chunk, row.key, Some(s.runs[i].marker));
        }
      }
    }
  }

  lemma DeleteKeepsAlive(s: State, run: nat, keys: set<nat>)
    requires AllAlive(s, keys) && Enabled(s, run, Delete)
    ensures AllAlive(Take(s, run, Delete), keys)
  {
    var after, me := Take(s, run, Delete), s.runs[run];
    var mine := KeysIn(me.added);
    assert me in s.runs;
    forall key | key in mine ensures Alive(s.table, key, Some(me.marker)) {
      var row :| row in me.added && row.key == key;
    }
    forall key | key in keys ensures Alive(after.table, key, None) {
      AliveThroughDelete(s.table, mine, me.marker, key, None);
    }
    forall i | 0 <= i < |after.runs| ensures Guarded(after.runs[i], after.table, keys) {
      assert s.runs[i] in s.runs;
      if after.runs[i].Working? {
        forall row | row in s.runs[i].added ensures Alive(after.table, row.key, Some(s.runs[i].marker)) {
          AliveThroughDelete(s.table, mine, me.marker, row.key, Some(s.runs[i].marker));
        }
      }
    }
  }

  lemma StepKeepsAlive(s: State, run: nat, step: Step, keys: set<nat>)
    requires AllAlive(s, keys) && Enabled(s, run, step)
    ensures AllAlive(Take(s, run, step), keys)
  {
    var after := Take(s, run, step);
    match step {
      case AddChunk(rows) => AddKeepsAlive(s, run, rows, keys);
      case Delete => DeleteKeepsAlive(s, run, keys);
      case Scan(lo, hi, now, recipe) =>
        forall row | row in PlanFor(ScanTicks(s.table, lo, hi), recipe, now).stamped
          ensures row.key in keys && row.created == Some(PlanFor(ScanTicks(s.table, lo, hi), recipe, now).marker)
        {
          ScanGuards(s.table, lo, hi, now, recipe, row);
        }
        forall i | 0 <= i < |after.runs| ensures Guarded(after.runs[i], after.table, keys) {
          assert s.runs[i] in s.runs;
        }
      case Crash =>
        forall i | 0 <= i < |after.runs| ensures Guarded(after.runs[i], after.table, keys) {
          assert s.runs[i] in s.runs;
        }
    }
  }

  lemma {:induction false} OutcomeKeepsAlive(s: State, steps: seq<(nat, Step)>, keys: set<nat>)
    requires AllAlive(s, keys) && Schedule(s, steps)
    ensures AllAlive(Outcome(s, steps), keys)
    decreases |steps|
  {
    if steps != [] {
      StepKeepsAlive(s, steps[0].0, steps[0].1, keys);
      OutcomeKeepsAlive(Take(s, steps[0].0, steps[0].1), steps[1..], keys);
    }
  }

  /** Over every interleaving of any number of runs, each with its own recipe, with crashes
      anywhere and on any table at all: the keys that have rows are the keys that had rows. */
  lemma NoKeyIsEverLost(initial: seq<Row>, runs: nat, steps: seq<(nat, Step)>)
    requires Schedule(State(initial, seq(runs, _ => Idle)), steps)
    ensures KeysIn(Outcome(State(initial, seq(runs, _ => Idle)), steps).table) == KeysIn(initial)
  {
    var start := State(initial, seq(runs, _ => Idle));
    forall key | key in KeysIn(initial) ensures Alive(initial, key, None) {
      var row :| row in initial && row.key == key;
    }
    OutcomeKeepsAlive(start, steps, KeysIn(initial));
    var table := Outcome(start, steps).table;
    forall key | key in KeysIn(initial) ensures key in KeysIn(table) {
      assert Alive(table, key, None);
      var row :| row in table && row.key == key && !CreatedLess(row.created, None);
    }
  }
}
