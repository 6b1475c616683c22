/** One dedup run on a table nobody else writes: the rows it leaves and the number it
    removes. */
module DedupRun {
  import opened Ordering
  import opened TickRows
  import opened DedupProtocol

  // ------------------------------------------------------------- counting rows

  lemma {:induction false} CountSplit<T>(xs: seq<T>, keep: T -> bool, drop: T -> bool)
    requires forall x <- xs :: keep(x) <==> !drop(x)
    ensures |Filter(xs, keep)| + |Filter(xs, drop)| == |xs|
  {
    if xs != [] {
      CountSplit(xs[1..], keep, drop);
    }
  }

  /** Extra copies among the groups of some keys. */
  function ExtraCopies(rows: seq<Row>, keys: seq<nat>): int {
    if keys == [] then 0
    else ExtraCopies(rows, keys[..|keys| - 1]) + |RowsOf(rows, keys[|keys| - 1])| - 1
  }

  function KeysOfSeq(keys: seq<nat>): set<nat> { set k <- keys }

  lemma {:induction false} CountByKeys(rows: seq<Row>, keys: seq<nat>)
    requires Distinct(keys)
    ensures |Filter(rows, WithKeyIn(keys))| == ExtraCopies(rows, keys) + |keys|
  {
    if keys == [] {
      FilterNone(rows, WithKeyIn(keys));
    } else {
      var rest, last := keys[..|keys| - 1], keys[|keys| - 1];
      CountByKeys(rows, rest);
      assert keys == rest + [last];
      var listed := Filter(rows, WithKeyIn(keys));
      FilterFilter(rows, WithKeyIn(keys), WithKeyIn(rest), WithKeyIn(rest));
      FilterFilter(rows, WithKeyIn(keys), WithKey(last), WithKey(last));
      CountSplit(listed, WithKeyIn(rest), WithKey(last));
    }
  }

  /** Rows all of whose keys are unique are as many as their keys. */
  lemma {:induction false} UniqueKeysCount(rows: seq<Row>)
    requires forall k <- KeysIn(rows) :: |RowsOf(rows, k)| == 1
    ensures |rows| == |KeysIn(rows)|
  {
    KeyOrderCount(rows);
    KeyOrderDistinct(rows);
    var keys := KeyOrder(rows);
    CountByKeys(rows, keys);
    FilterAll(rows, WithKeyIn(keys));
    NoExtraCopies(rows, keys);
  }

  lemma {:induction false} NoExtraCopies(rows: seq<Row>, keys: seq<nat>)
    requires forall k <- keys :: |RowsOf(rows, k)| == 1
    ensures ExtraCopies(rows, keys) == 0
  {
    if keys != [] {
      NoExtraCopies(rows, keys[..|keys| - 1]);
    }
  }

  lemma {:induction false} DistinctSeqCount(keys: seq<nat>)
    requires Distinct(keys)
    ensures |KeysOfSeq(keys)| == |keys|
  {
    if keys != [] {
      var rest, last := keys[..|keys| - 1], keys[|keys| - 1];
      DistinctSeqCount(rest);
      assert keys == rest + [last];
      assert KeysOfSeq(keys) == KeysOfSeq(rest) + {last};
    }
  }

  lemma KeyOrderCount(rows: seq<Row>)
    ensures |KeyOrder(rows)| == |KeysIn(rows)|
  {
    KeyOrderDistinct(rows);
    DistinctSeqCount(KeyOrder(rows));
    assert KeysOfSeq(KeyOrder(rows)) == KeysIn(rows);
  }

  // ------------------------------------------------------- effect of one window

  function WindowOutcome(rows: seq<Row>, scan: seq<Row>, current: Option<string>, now: int): seq<Row> {
    var plan := PlanFor(scan, current, now);
    DeleteOlder(rows + plan.stamped, KeysIn(plan.stamped), plan.marker)
  }

  lemma StampedKeys(scan: seq<Row>, current: Option<string>, now: int)
    ensures KeysIn(PlanFor(scan, current, now).stamped) == KeysOfSeq(DuplicatedKeys(scan))
  {
    var keys, stamped := DuplicatedKeys(scan), PlanFor(scan, current, now).stamped;
    forall k | k in keys ensures k in KeysIn(stamped) {
      var i :| 0 <= i < |keys| && keys[i] == k;
      GroupNonempty(scan, k);
      assert stamped[i] == StampedRow(scan, k, current, now) && stamped[i] in stamped;
    }
    forall row | row in stamped ensures row.key in keys {
      PlanRows(scan, current, now, row);
    }
  }

  /** One row per key, made by a key-keeping function: each key has that row. */
  lemma {:induction false} OneRowPerKey(keys: seq<nat>, make: nat -> Row, key: nat)
    requires Distinct(keys)
    requires forall k <- keys :: make(k).key == k
    ensures RowsOf(Map(keys, make), key) == if key in keys then [make(key)] else []
  {
    if keys != [] {
      var rest, last := keys[..|keys| - 1], keys[|keys| - 1];
      OneRowPerKey(rest, make, key);
      assert Map(keys, make) == Map(rest, make) + [make(last)];
      FilterAppend(Map(rest, make), [make(last)], WithKey(key));
      assert key in keys <==> key in rest || key == last;
    }
  }

  /** A window's add and delete leave each duplicated key its canonical row, stamped
      later than every copy, and every other key its rows. */
  lemma WindowEffect(rows: seq<Row>, lo: int, hi: int, current: Option<string>, now: int, key: nat)
    requires KeyFixesTick(rows)
    ensures var scan := ScanTicks(rows, lo, hi);
            RowsOf(WindowOutcome(rows, scan, current, now), key) ==
            if key in DuplicatedKeys(scan) then [StampedRow(scan, key, current, now)] else RowsOf(rows, key)
  {
    var scan := ScanTicks(rows, lo, hi);
    var plan, keys := PlanFor(scan, current, now), DuplicatedKeys(scan);
    StampedKeys(scan, current, now);
    StampedForKey(scan, current, now, key);
    OutcomeOfKey(rows, plan.stamped, KeysIn(plan.stamped), plan.marker, key);
    var survives := Survives(KeysIn(plan.stamped), plan.marker);
    if key in keys {
      var row := StampedRow(scan, key, current, now);
      assert row in RowsOf(plan.stamped, key);
      PlanRows(scan, current, now, row);
      WindowHoldsWholeKeys(rows, lo, hi, key);
      FilterNone(RowsOf(rows, key), survives);
      FilterAll([row], survives);
    } else {
      FilterAll(RowsOf(rows, key), survives);
    }
  }

  /** The stamped rows of a key: its canonical row if it is duplicated, else none. */
  lemma StampedForKey(scan: seq<Row>, current: Option<string>, now: int, key: nat)
    ensures RowsOf(PlanFor(scan, current, now).stamped, key)
         == if key in DuplicatedKeys(scan) then [StampedRow(scan, key, current, now)] else []
  {
    var keys := DuplicatedKeys(scan);
    DuplicatedDistinct(scan);
    forall k | k in keys ensures StampedRow(scan, k, current, now).key == k {
      GroupNonempty(scan, k);
    }
    OneRowPerKey(keys, StampedIn(scan, current, now), key);
  }

  /** Deleting after adding, seen from one key. */
  lemma OutcomeOfKey(rows: seq<Row>, stamped: seq<Row>, keys: set<nat>, marker: int, key: nat)
    ensures RowsOf(DeleteOlder(rows + stamped, keys, marker), key)
         == Filter(RowsOf(rows, key), Survives(keys, marker)) + Filter(RowsOf(stamped, key), Survives(keys, marker))
  {
    var survives := Survives(keys, marker);
    var both := (row: Row) => survives(row) && row.key == key;
    FilterFilter(rows + stamped, survives, WithKey(key), both);
    FilterFilter(rows + stamped, WithKey(key), survives, both);
    FilterAppend(rows, stamped, WithKey(key));
    FilterAppend(RowsOf(rows, key), RowsOf(stamped, key), survives);
  }

  /** A window shrinks the table by its extra copies. */
  lemma WindowCount(rows: seq<Row>, lo: int, hi: int, current: Option<string>, now: int)
    requires KeyFixesTick(rows)
    ensures var scan := ScanTicks(rows, lo, hi);
            |WindowOutcome(rows, scan, current, now)| == |rows| - ExtraCopies(scan, DuplicatedKeys(scan))
  {
    var scan := ScanTicks(rows, lo, hi);
    var keys, plan := DuplicatedKeys(scan), PlanFor(scan, current, now);
    StampedKeys(scan, current, now);
    StampedSurvive(scan, current, now);
    FilterAppend(rows, plan.stamped, Survives(KeysIn(plan.stamped), plan.marker));
    DuplicatesDie(rows, lo, hi, current, now);
    CountSplit(rows, Survives(KeysIn(plan.stamped), plan.marker), WithKeyIn(keys));
    DuplicatedDistinct(scan);
    CountByKeys(rows, keys);
    ExtraCopiesAgree(rows, lo, hi, keys);
  }

  lemma StampedSurvive(scan: seq<Row>, current: Option<string>, now: int)
    ensures var plan := PlanFor(scan, current, now);
            Filter(plan.stamped, Survives(KeysIn(plan.stamped), plan.marker)) == plan.stamped
  {
    var plan := PlanFor(scan, current, now);
    forall row | row in plan.stamped ensures Survives(KeysIn(plan.stamped), plan.marker)(row) {
      PlanRows(scan, current, now, row);
    }
    FilterAll(plan.stamped, Survives(KeysIn(plan.stamped), plan.marker));
  }

  /** The rows a window's delete takes are those of its duplicated keys. */
  lemma DuplicatesDie(rows: seq<Row>, lo: int, hi: int, current: Option<string>, now: int)
    requires KeyFixesTick(rows)
    ensures var scan := ScanTicks(rows, lo, hi);
            var keys, plan := DuplicatedKeys(scan), PlanFor(scan, current, now);
            && (forall row <- rows :: Survives(KeysIn(plan.stamped), plan.marker)(row) <==> !WithKeyIn(keys)(row))
            && (forall k <- keys :: RowsOf(scan, k) != [])
  {
    var scan := ScanTicks(rows, lo, hi);
    var keys, plan := DuplicatedKeys(scan), PlanFor(scan, current, now);
    StampedKeys(scan, current, now);
    forall k | k in keys ensures RowsOf(scan, k) != [] {
      GroupNonempty(scan, k);
    }
    forall row | row in rows && row.key in keys ensures Older(row, KeysIn(plan.stamped), plan.marker) {
      WindowHoldsWholeKeys(rows, lo, hi, row.key);
      assert row in RowsOf(rows, row.key);
      assert row in DuplicateRows(scan);
    }
  }

  lemma {:induction false} ExtraCopiesAgree(rows: seq<Row>, lo: int, hi: int, keys: seq<nat>)
    requires KeyFixesTick(rows)
    requires forall k <- keys :: RowsOf(ScanTicks(rows, lo, hi), k) != []
    ensures ExtraCopies(rows, keys) == ExtraCopies(ScanTicks(rows, lo, hi), keys)
  {
    if keys != [] {
      assert keys[|keys| - 1] in keys;
      ExtraCopiesAgree(rows, lo, hi, keys[..|keys| - 1]);
      WindowHoldsWholeKeys(rows, lo, hi, keys[|keys| - 1]);
    }
  }

  // ------------------------------------------------------- what a run promises

  /** The rows of one key before and after: untouched, or collapsed to the canonical, a
      preferred, copy with a later time. */
  ghost predicate Collapsed(before: seq<Row>, after: seq<Row>, current: Option<string>) {
    if |before| <= 1 then after == before
    else
      && Preferred(Canonical(before, current), before, current)
      && exists marker ::
           after == [Canonical(before, current).(created := Some(marker))] && LaterThanAll(before, marker)
  }

  ghost predicate LaterThanAll(copies: seq<Row>, marker: int) {
    forall copy <- copies :: copy.created.Some? ==> copy.created.value < marker
  }

  ghost predicate NoDuplicates(rows: seq<Row>) {
    forall k <- KeysIn(rows) :: |RowsOf(rows, k)| == 1
  }

  datatype Window = Window(lo: int, hi: int)

  predicate Holds(w: Window, tick: int) { w.lo <= tick < w.hi }

  /** The state after some windows: keys of handled ticks collapsed, others as found. */
  ghost predicate DedupedUpTo(rows: seq<Row>, initial: seq<Row>, windows: seq<Window>, current: Option<string>) {
    && KeysIn(rows) <= KeysIn(initial)
    && forall key <- KeysIn(initial) :: KeyDedupedUpTo(rows, initial, windows, current, key)
  }

  ghost predicate KeyDedupedUpTo(rows: seq<Row>, initial: seq<Row>, windows: seq<Window>, current: Option<string>,
                                 key: nat) {
    var group := RowsOf(initial, key);
    && group != []
    && (if exists w <- windows :: Holds(w, group[0].tick) then Collapsed(group, RowsOf(rows, key), current)
        else RowsOf(rows, key) == group)
  }

  lemma DedupStart(initial: seq<Row>, current: Option<string>)
    ensures DedupedUpTo(initial, initial, [], current)
  {
    forall key | key in KeysIn(initial) ensures KeyDedupedUpTo(initial, initial, [], current, key) {
      GroupNonempty(initial, key);
    }
  }

  /** Collapsing never moves a key to another tick. */
  lemma DedupedRowTick(rows: seq<Row>, initial: seq<Row>, windows: seq<Window>, current: Option<string>, row: Row)
    requires KeyFixesTick(initial) && DedupedUpTo(rows, initial, windows, current) && row in rows
    ensures RowsOf(initial, row.key) != [] && row.tick == RowsOf(initial, row.key)[0].tick
    ensures RowsOf(rows, row.key) != []
  {
    assert row.key in KeysIn(rows);
    var group := RowsOf(initial, row.key);
    assert KeyDedupedUpTo(rows, initial, windows, current, row.key);
    assert row in RowsOf(rows, row.key);
    assert group[0] in group && forall copy <- group :: copy.tick == group[0].tick;
    assert Canonical(group, current) in group;
  }

  lemma DedupedFixesTick(rows: seq<Row>, initial: seq<Row>, windows: seq<Window>, current: Option<string>)
    requires KeyFixesTick(initial) && DedupedUpTo(rows, initial, windows, current)
    ensures KeyFixesTick(rows)
  {
    forall row | row in rows ensures RowsOf(initial, row.key) != [] && row.tick == RowsOf(initial, row.key)[0].tick {
      DedupedRowTick(rows, initial, windows, current, row);
    }
  }

  /** The group a window sees of a key it holds is that key's whole group. */
  lemma ScannedGroup(rows: seq<Row>, w: Window, key: nat)
    requires KeyFixesTick(rows) && RowsOf(rows, key) != []
    ensures var scan := ScanTicks(rows, w.lo, w.hi);
            && (Holds(w, RowsOf(rows, key)[0].tick) ==> RowsOf(scan, key) == RowsOf(rows, key))
            && (!Holds(w, RowsOf(rows, key)[0].tick) ==> RowsOf(scan, key) == [])
  {
    var first, scan := RowsOf(rows, key)[0], ScanTicks(rows, w.lo, w.hi);
    assert first in RowsOf(rows, key);
    WindowHoldsWholeKeys(rows, w.lo, w.hi, key);
    if Holds(w, first.tick) {
      assert first in scan && first in RowsOf(scan, key);
    } else {
      FilterNone(scan, WithKey(key));
    }
  }

  lemma CollapsesTo(before: seq<Row>, current: Option<string>, marker: int)
    requires |before| > 1 && forall copy <- before :: CreatedLess(copy.created, Some(marker))
    ensures Collapsed(before, [Canonical(before, current).(created := Some(marker))], current)
  {
    CanonicalIsPreferred(before, current);
    assert LaterThanAll(before, marker);
  }

  lemma KeyCollapses(rows: seq<Row>, w: Window, current: Option<string>, now: int, key: nat)
    requires KeyFixesTick(rows) && RowsOf(rows, key) != [] && Holds(w, RowsOf(rows, key)[0].tick)
    ensures Collapsed(RowsOf(rows, key), RowsOf(WindowOutcome(rows, ScanTicks(rows, w.lo, w.hi), current, now), key),
                      current)
  {
    var scan := ScanTicks(rows, w.lo, w.hi);
    WindowEffect(rows, w.lo, w.hi, current, now, key);
    ScannedGroup(rows, w, key);
    GroupNonempty(scan, key);
    if key in DuplicatedKeys(scan) {
      var row := StampedRow(scan, key, current, now);
      PlanHas(scan, key, current, now);
      PlanRows(scan, current, now, row);
      CollapsesTo(RowsOf(rows, key), current, MarkerFor(scan, now));
    }
  }

  lemma KeyUntouched(rows: seq<Row>, w: Window, current: Option<string>, now: int, key: nat)
    requires KeyFixesTick(rows) && RowsOf(rows, key) != []
    requires !Holds(w, RowsOf(rows, key)[0].tick) || |RowsOf(rows, key)| == 1
    ensures RowsOf(WindowOutcome(rows, ScanTicks(rows, w.lo, w.hi), current, now), key) == RowsOf(rows, key)
  {
    WindowEffect(rows, w.lo, w.hi, current, now, key);
    ScannedGroup(rows, w, key);
  }

  lemma KeyDedupStep(rows: seq<Row>, initial: seq<Row>, windows: seq<Window>, w: Window, current: Option<string>,
                     now: int, key: nat)
    requires KeyFixesTick(rows) && KeyDedupedUpTo(rows, initial, windows, current, key)
    requires RowsOf(rows, key) != [] && RowsOf(rows, key)[0].tick == RowsOf(initial, key)[0].tick
    ensures KeyDedupedUpTo(WindowOutcome(rows, ScanTicks(rows, w.lo, w.hi), current, now), initial, windows + [w],
                           current, key)
  {
    var tick := RowsOf(initial, key)[0].tick;
    assert forall v :: v in windows + [w] <==> v in windows || v == w;
    if exists v <- windows :: Holds(v, tick) {
      KeyUntouched(rows, w, current, now, key);
    } else if Holds(w, tick) {
      KeyCollapses(rows, w, current, now, key);
    } else {
      KeyUntouched(rows, w, current, now, key);
    }
  }

  lemma PlanHas(scan: seq<Row>, key: nat, current: Option<string>, now: int)
    requires key in DuplicatedKeys(scan)
    ensures StampedRow(scan, key, current, now) in PlanFor(scan, current, now).stamped
  {
    var keys := DuplicatedKeys(scan);
    var i :| 0 <= i < |keys| && keys[i] == key;
    assert PlanFor(scan, current, now).stamped[i] == StampedRow(scan, key, current, now);
  }

  lemma NoNewKeys(rows: seq<Row>, w: Window, current: Option<string>, now: int)
    ensures KeysIn(WindowOutcome(rows, ScanTicks(rows, w.lo, w.hi), current, now)) <= KeysIn(rows)
  {
    var scan := ScanTicks(rows, w.lo, w.hi);
    var after := WindowOutcome(rows, scan, current, now);
    StampedKeys(scan, current, now);
    forall row | row in after ensures row.key in KeysIn(rows) {
      assert row in rows || row in PlanFor(scan, current, now).stamped;
      if row in PlanFor(scan, current, now).stamped {
        assert row.key in KeysIn(scan);
      }
    }
  }

  lemma DedupStepKey(rows: seq<Row>, initial: seq<Row>, windows: seq<Window>, w: Window, current: Option<string>,
                     now: int, key: nat)
    requires KeyFixesTick(initial) && KeyFixesTick(rows) && DedupedUpTo(rows, initial, windows, current)
    requires key in KeysIn(initial)
    ensures KeyDedupedUpTo(WindowOutcome(rows, ScanTicks(rows, w.lo, w.hi), current, now), initial, windows + [w],
                           current, key)
  {
    assert KeyDedupedUpTo(rows, initial, windows, current, key);
    var group := RowsOf(rows, key);
    assert group != [] && group[0] in group;
    DedupedRowTick(rows, initial, windows, current, group[0]);
    KeyDedupStep(rows, initial, windows, w, current, now, key);
  }

  lemma DedupStep(rows: seq<Row>, initial: seq<Row>, windows: seq<Window>, w: Window, current: Option<string>, now: int)
    requires KeyFixesTick(initial) && DedupedUpTo(rows, initial, windows, current)
    ensures DedupedUpTo(WindowOutcome(rows, ScanTicks(rows, w.lo, w.hi), current, now), initial, windows + [w], current)
  {
    var after := WindowOutcome(rows, ScanTicks(rows, w.lo, w.hi), current, now);
    DedupedFixesTick(rows, initial, windows, current);
    forall key | key in KeysIn(initial) ensures KeyDedupedUpTo(after, initial, windows + [w], current, key) {
      DedupStepKey(rows, initial, windows, w, current, now, key);
    }
    NoNewKeys(rows, w, current, now);
  }

  // ------------------------------------------------------------------ the code

  /** Whether every duplicated key of the table has its tick in a listed window. */
  ghost predicate CoversDuplicates(windows: seq<Window>, rows: seq<Row>) {
    forall row <- rows :: |RowsOf(rows, row.key)| > 1 ==> exists w <- windows :: Holds(w, row.tick)
  }

  /** What one undisturbed run leaves of a table. */
  ghost predicate Deduped(rows: seq<Row>, initial: seq<Row>, current: Option<string>) {
    && KeysIn(rows) == KeysIn(initial)
    && |rows| == |KeysIn(initial)|
    && forall key <- KeysIn(initial) ::
         |RowsOf(rows, key)| == 1 && Collapsed(RowsOf(initial, key), RowsOf(rows, key), current)
  }

  lemma KeysStay(rows: seq<Row>, initial: seq<Row>, windows: seq<Window>, current: Option<string>)
    requires DedupedUpTo(rows, initial, windows, current)
    ensures KeysIn(rows) == KeysIn(initial)
  {
    forall key | key in KeysIn(initial) ensures key in KeysIn(rows) {
      assert KeyDedupedUpTo(rows, initial, windows, current, key);
      GroupNonempty(rows, key);
    }
  }

  /** Duplicates in no window stay as they are. */
  lemma UncoveredStay(rows: seq<Row>, initial: seq<Row>, windows: seq<Window>, current: Option<string>, row: Row)
    requires KeyFixesTick(initial) && DedupedUpTo(rows, initial, windows, current)
    requires row in initial && !exists w <- windows :: Holds(w, row.tick)
    ensures RowsOf(rows, row.key) == RowsOf(initial, row.key)
  {
    assert KeyDedupedUpTo(rows, initial, windows, current, row.key);
    assert RowsOf(initial, row.key)[0] in RowsOf(initial, row.key);
  }

  /** A run over some windows leaves one row per key exactly when they cover the duplicates. */
  lemma DedupFinished(rows: seq<Row>, initial: seq<Row>, windows: seq<Window>, current: Option<string>)
    requires KeyFixesTick(initial) && DedupedUpTo(rows, initial, windows, current)
    ensures KeysIn(rows) == KeysIn(initial)
    ensures Deduped(rows, initial, current) <==> CoversDuplicates(windows, initial)
  {
    KeysStay(rows, initial, windows, current);
    if CoversDuplicates(windows, initial) {
      CoveredIsDeduped(rows, initial, windows, current);
    } else {
      var row :| row in initial && |RowsOf(initial, row.key)| > 1 && !exists w <- windows :: Holds(w, row.tick);
      UncoveredStay(rows, initial, windows, current, row);
      assert row.key in KeysIn(initial);
    }
  }

  lemma CoveredIsDeduped(rows: seq<Row>, initial: seq<Row>, windows: seq<Window>, current: Option<string>)
    requires KeyFixesTick(initial) && DedupedUpTo(rows, initial, windows, current)
    requires CoversDuplicates(windows, initial) && KeysIn(rows) == KeysIn(initial)
    ensures Deduped(rows, initial, current)
  {
    forall key | key in KeysIn(initial)
      ensures |RowsOf(rows, key)| == 1 && Collapsed(RowsOf(initial, key), RowsOf(rows, key), current)
    {
      assert KeyDedupedUpTo(rows, initial, windows, current, key);
      assert RowsOf(initial, key)[0] in RowsOf(initial, key);
    }
    UniqueKeysCount(rows);
  }

  class TickTable {
    var rows: seq<Row>

    constructor (rows: seq<Row>)
      ensures this.rows == rows
    {
      this.rows := rows;
    }

    /** The chunked appends of the stamped rows. */
    method AddChunks(stamped: seq<Row>, batch: nat)
      requires batch >= 1
      modifies this
      ensures rows == old(rows) + stamped
    {
      var done := 0;
      while done < |stamped|
        invariant done <= |stamped| && rows == old(rows) + stamped[..done]
      {
        var next := if done + batch <= |stamped| then done + batch else |stamped|;
        assert stamped[..next] == stamped[..done] + stamped[done..next];
        rows := rows + stamped[done..next];
        done := next;
      }
    }

    method DedupWindow(w: Window, current: Option<string>, batch: nat, now: int) returns (removed: int)
      requires batch >= 1 && KeyFixesTick(rows)
      modifies this
      ensures rows == WindowOutcome(old(rows), ScanTicks(old(rows), w.lo, w.hi), current, now)
      ensures removed == |old(rows)| - |rows|
    {
      var scan := ScanTicks(rows, w.lo, w.hi);
      WindowCount(rows, w.lo, w.hi, current, now);
      var plan;
      plan, removed := PlanWindow(scan, current, now);
      if plan.stamped == [] {
        FilterAll(rows + plan.stamped, Survives(KeysIn(plan.stamped), plan.marker));
        assert rows + plan.stamped == rows;
        return;
      }
      AddChunks(plan.stamped, batch);
      rows := DeleteOlder(rows, KeysIn(plan.stamped), plan.marker);
    }

    /** One undisturbed run over the windows found to hold duplicates: keys in them keep the
        canonical row, others are untouched, and one row per key is left exactly when the
        windows cover every duplicate. */
    method DedupAlignment(windows: seq<Window>, current: Option<string>, batch: nat, now: int) returns (removed: int)
      requires batch >= 1 && KeyFixesTick(rows)
      modifies this
      ensures DedupedUpTo(rows, old(rows), windows, current) && KeysIn(rows) == KeysIn(old(rows))
      ensures Deduped(rows, old(rows), current) <==> CoversDuplicates(windows, old(rows))
      ensures removed == |old(rows)| - |rows|
      ensures windows == [] ==> rows == old(rows)
    {
      ghost var initial, handled: seq<Window> := rows, [];
      removed := 0;
      DedupStart(rows, current);
      for i := 0 to |windows|
        invariant handled == windows[..i]
        invariant DedupedUpTo(rows, initial, handled, current)
        invariant removed == |initial| - |rows|
        invariant i == 0 ==> rows == initial
      {
        var here := DedupNext(windows[i], current, batch, now, initial, handled);
        handled := handled + [windows[i]];
        removed := removed + here;
      }
      assert handled == windows;
      DedupFinished(rows, initial, handled, current);
    }

    method DedupNext(w: Window, current: Option<string>, batch: nat, now: int, ghost initial: seq<Row>,
                     ghost handled: seq<Window>)
      returns (removed: int)
      requires batch >= 1 && KeyFixesTick(initial) && DedupedUpTo(rows, initial, handled, current)
      modifies this
      ensures DedupedUpTo(rows, initial, handled + [w], current)
      ensures removed == |old(rows)| - |rows|
    {
      DedupedFixesTick(rows, initial, handled, current);
      DedupStep(rows, initial, handled, w, current, now);
      removed := DedupWindow(w, current, batch, now);
    }
  }

  /** What the loop over a window's groups holds after the duplicated ones in `keys`. */
  ghost predicate Folded(scan: seq<Row>, keys: seq<nat>, current: Option<string>, canonical: seq<Row>, removed: int,
                         latest: Option<int>) {
    && canonical == Map(keys, CanonicalIn(scan, current))
    && removed == ExtraCopies(scan, keys)
    && LatestOf(latest, scan, keys)
  }

  lemma FoldedSnoc(scan: seq<Row>, keys: seq<nat>, key: nat, current: Option<string>, canonical: seq<Row>,
                   removed: int, latest: Option<int>)
    requires Folded(scan, keys, current, canonical, removed, latest)
    requires RowsOf(scan, key) != []
    ensures var group := RowsOf(scan, key);
            Folded(scan, keys + [key], current, canonical + [Canonical(group, current)], removed + (|group| - 1),
                   Later(latest, MaxCreated(group)))
  {
    ExtraCopiesSnoc(scan, keys, key);
    LatestExtends(latest, scan, keys, key);
    var pick := CanonicalIn(scan, current);
    MapAppend(keys, [key], pick);
    assert Map([key], pick) == [Canonical(RowsOf(scan, key), current)];
  }

  function Restamp(marker: int): Row -> Row { (row: Row) => row.(created := Some(marker)) }

  lemma StampedPlan(scan: seq<Row>, current: Option<string>, now: int)
    ensures var canonical := Map(DuplicatedKeys(scan), CanonicalIn(scan, current));
            Plan(Map(canonical, Restamp(MarkerFor(scan, now))), MarkerFor(scan, now)) == PlanFor(scan, current, now)
  {
    MapMap(DuplicatedKeys(scan), CanonicalIn(scan, current),
           Restamp(MarkerFor(scan, now)), StampedIn(scan, current, now));
  }

  /** One group: nothing to do unless it holds several copies. */
  method FoldGroup(scan: seq<Row>, current: Option<string>, keys: seq<nat>, i: nat, before: seq<Row>, count: int,
                   newest: Option<int>)
    returns (canonical: seq<Row>, removed: int, latest: Option<int>)
    requires i < |keys| && Folded(scan, Filter(keys[..i], Duplicating(scan)), current, before, count, newest)
    ensures Folded(scan, Filter(keys[..i + 1], Duplicating(scan)), current, canonical, removed, latest)
  {
    canonical, removed, latest := before, count, newest;
    ghost var done := Filter(keys[..i], Duplicating(scan));
    FilterSnoc(keys, i, Duplicating(scan));
    assert done + [] == done;
    var group := RowsOf(scan, keys[i]);
    if |group| > 1 {
      FoldedSnoc(scan, done, keys[i], current, canonical, removed, latest);
      removed := removed + (|group| - 1);
      canonical := canonical + [Canonical(group, current)];
      latest := Later(latest, MaxCreated(group));
    }
  }

  /** The loop over a window's groups: counts extra copies, picks canonical rows and
      folds the latest timestamp of the copies to be collapsed. */
  method FoldGroups(scan: seq<Row>, current: Option<string>)
    returns (canonical: seq<Row>, removed: int, latest: Option<int>)
    ensures canonical == Map(DuplicatedKeys(scan), CanonicalIn(scan, current))
    ensures removed == ExtraCopies(scan, DuplicatedKeys(scan))
    ensures latest == MaxCreated(DuplicateRows(scan))
  {
    var keys := KeyOrder(scan);
    canonical, removed, latest := [], 0, None;
    for i := 0 to |keys|
      invariant Folded(scan, Filter(keys[..i], Duplicating(scan)), current, canonical, removed, latest)
    {
      canonical, removed, latest := FoldGroup(scan, current, keys, i, canonical, removed, latest);
    }
    assert keys[..|keys|] == keys;
    LatestIsMax(latest, scan);
  }

  function MarkerAfter(latest: Option<int>, now: int): int { (if latest.Some? then latest.value else now) + 1 }

  lemma PlanFromParts(scan: seq<Row>, current: Option<string>, now: int, canonical: seq<Row>, latest: Option<int>)
    requires canonical == Map(DuplicatedKeys(scan), CanonicalIn(scan, current))
    requires latest == MaxCreated(DuplicateRows(scan))
    ensures Plan(Map(canonical, Restamp(MarkerAfter(latest, now))), MarkerAfter(latest, now))
            == PlanFor(scan, current, now)
  {
    assert MarkerAfter(latest, now) == MarkerFor(scan, now);
    StampedPlan(scan, current, now);
  }

  method PlanWindow(scan: seq<Row>, current: Option<string>, now: int) returns (plan: Plan, removed: int)
    ensures plan == PlanFor(scan, current, now)
    ensures removed == ExtraCopies(scan, DuplicatedKeys(scan))
  {
    var canonical, latest;
    canonical, removed, latest := FoldGroups(scan, current);
    PlanFromParts(scan, current, now, canonical, latest);
    var marker := MarkerAfter(latest, now);
    plan := Plan(Map(canonical, Restamp(marker)), marker);
  }

  lemma ExtraCopiesSnoc(scan: seq<Row>, keys: seq<nat>, key: nat)
    ensures ExtraCopies(scan, keys + [key]) == ExtraCopies(scan, keys) + |RowsOf(scan, key)| - 1
  {
    assert (keys + [key])[..|keys|] == keys;
  }

  function Later(a: Option<int>, b: Option<int>): Option<int> { if CreatedLess(a, b) then b else a }

  /** `latest` is the newest timestamp among the groups of some keys. */
  ghost predicate LatestOf(latest: Option<int>, scan: seq<Row>, keys: seq<nat>) {
    && (forall row <- scan :: row.key in keys && row.created.Some? ==>
          latest.Some? && row.created.value <= latest.value)
    && (latest.Some? ==> exists row <- scan :: row.key in keys && row.created == latest)
  }

  lemma LatestExtends(latest: Option<int>, scan: seq<Row>, keys: seq<nat>, key: nat)
    requires LatestOf(latest, scan, keys)
    ensures LatestOf(Later(latest, MaxCreated(RowsOf(scan, key))), scan, keys + [key])
  {
    var group := RowsOf(scan, key);
    var newest := Later(latest, MaxCreated(group));
    forall row | row in scan && row.key in keys + [key] && row.created.Some?
      ensures newest.Some? && row.created.value <= newest.value
    {
      assert row.key in keys || row in group;
    }
    if newest.Some? {
      if newest == latest {
        var row :| row in scan && row.key in keys && row.created == latest;
        assert row.key in keys + [key];
      } else {
        var row :| row in group && row.created == newest;
        assert row.key in keys + [key];
      }
    }
  }

  lemma LatestUnique(a: Option<int>, b: Option<int>, scan: seq<Row>, keys: seq<nat>)
    requires LatestOf(a, scan, keys) && LatestOf(b, scan, keys)
    ensures a == b
  {
  }

  lemma MaxIsLatest(scan: seq<Row>, keys: seq<nat>)
    ensures LatestOf(MaxCreated(Filter(scan, WithKeyIn(keys))), scan, keys)
  {
  }

  lemma LatestIsMax(latest: Option<int>, scan: seq<Row>)
    requires LatestOf(latest, scan, DuplicatedKeys(scan))
    ensures latest == MaxCreated(DuplicateRows(scan))
  {
    var keys := DuplicatedKeys(scan);
    MaxIsLatest(scan, keys);
    LatestUnique(latest, MaxCreated(Filter(scan, WithKeyIn(keys))), scan, keys);
  }
}
