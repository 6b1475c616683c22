/** Crashes first, then one undisturbed clean-up: which rows are left. */
module DedupRecovery {
  import opened Ordering
  import opened TickWindows
  import opened TickRows
  import opened DedupProtocol
  import opened DedupRun
  import opened DedupPlanning

  ghost function Start(initial: seq<Row>, runs: nat): State { State(initial, seq(runs, _ => Idle)) }

  /** The table that some runs, interleaved and crashing, leave behind. */
  ghost predicate LeftBehind(table: seq<Row>, initial: seq<Row>, runs: nat, steps: seq<(nat, Step)>,
                             current: Option<string>) {
    && Wellposed(initial, current)
    && Schedule(Start(initial, runs), steps) && OneRecipe(steps, current)
    && table == Outcome(Start(initial, runs), steps).table
  }

  ghost predicate PrefersOriginal(table: seq<Row>, initial: seq<Row>, current: Option<string>, key: nat)
    requires key in KeysIn(initial)
  {
    && RowsOf(table, key) != []
    && Canonical(RowsOf(table, key), current).payload == OriginOf(initial, key, current).payload
    && forall copy | Preferred(copy, RowsOf(table, key), current) ::
         copy.payload == OriginOf(initial, key, current).payload
  }

  lemma LeftBehindInvariant(table: seq<Row>, initial: seq<Row>, runs: nat, steps: seq<(nat, Step)>,
                            current: Option<string>)
    requires LeftBehind(table, initial, runs, steps, current)
    ensures TableInvariant(table, initial, Origin(initial, current))
  {
    var start := Start(initial, runs);
    assert start.runs == seq(runs, _ => Idle);
    InitialInvariant(initial, runs, current);
    forall i | 0 <= i < |start.runs| ensures RunInvariant(start.runs[i], initial, Origin(initial, current)) {
    }
    OutcomeInvariant(start, steps, initial, current);
  }

  lemma StillPrefers(table: seq<Row>, initial: seq<Row>, current: Option<string>, key: nat)
    requires Wellposed(initial, current) && TableInvariant(table, initial, Origin(initial, current))
    requires key in KeysIn(initial)
    ensures PrefersOriginal(table, initial, current, key)
  {
    PreferredPayload(table, initial, key, current);
  }

  /** Crashes move no key to another tick, lose none, and leave its preferred payload. */
  lemma LeftBehindTable(table: seq<Row>, initial: seq<Row>, current: Option<string>)
    requires Wellposed(initial, current) && TableInvariant(table, initial, Origin(initial, current))
    ensures KeyFixesTick(table) && KeysIn(table) == KeysIn(initial)
    ensures forall key <- KeysIn(initial) :: PrefersOriginal(table, initial, current, key)
  {
    KeysKept(table, initial, current);
    forall key | key in KeysIn(initial) ensures PrefersOriginal(table, initial, current, key) {
      StillPrefers(table, initial, current, key);
    }
  }

  lemma OriginTick(initial: seq<Row>, current: Option<string>, row: Row)
    requires KeyFixesTick(initial) && row in initial
    ensures row.key in Origin(initial, current) && Origin(initial, current)[row.key] in initial
    ensures Origin(initial, current)[row.key].tick == row.tick
  {
    assert row.key in KeysIn(initial);
    GroupNonempty(initial, row.key);
    assert OriginOf(initial, row.key, current) in RowsOf(initial, row.key);
  }

  /** A scan after the crashes sees the keys it would have seen before. */
  lemma SeenAsBefore(table: seq<Row>, initial: seq<Row>, width: nat, current: Option<string>, row: Row)
    requires width > 0 && KeyFixesTick(initial) && TableInvariant(table, initial, Origin(initial, current))
    ensures SeenRow(initial, width, row) ==> SeenRow(table, width, row)
  {
    if SeenRow(initial, width, row) {
      var u :| u in TicksOf(initial) && TruncDiv(u, width) == row.tick / width;
      var k :| 0 <= k < |initial| && TicksOf(initial)[k] == u;
      var key := initial[k].key;
      OriginTick(initial, current, initial[k]);
      assert Kept(table, key, Origin(initial, current)[key].payload, Origin(initial, current)[key].created);
      var kept :| kept in table && kept.key == key;
      TickListed(table, kept);
    }
  }

  lemma DuplicatesSeenAfter(table: seq<Row>, initial: seq<Row>, width: nat, current: Option<string>)
    requires width > 0 && KeyFixesTick(initial) && TableInvariant(table, initial, Origin(initial, current))
    requires forall row <- initial :: SeenRow(initial, width, row)
    ensures DuplicatesSeen(table, width)
  {
    forall row | row in table ensures SeenRow(table, width, row) {
      var best := Origin(initial, current)[row.key];
      assert row.key in Origin(initial, current) && best.tick == row.tick;
      assert row.key in KeysIn(initial);
      GroupNonempty(initial, row.key);
      assert best in RowsOf(initial, row.key) && SeenRow(initial, width, best);
      SeenAsBefore(table, initial, width, current, row);
    }
  }

  lemma OnlyCopyPreferred(copies: seq<Row>, current: Option<string>)
    requires |copies| == 1
    ensures Canonical(copies, current) == copies[0]
    ensures forall copy | Preferred(copy, copies, current) :: copy == copies[0]
  {
  }

  /** A clean-up keeps each key's preferred payload. */
  lemma CleanUpPrefers(after: seq<Row>, table: seq<Row>, initial: seq<Row>, width: nat, current: Option<string>,
                       key: nat)
    requires width > 0 && CleanedUp(after, table, width, current) && key in KeysIn(table) && key in KeysIn(initial)
    requires PrefersOriginal(table, initial, current, key)
    ensures PrefersOriginal(after, initial, current, key)
  {
    assert CleanedKey(after, table, width, current, key);
    var group, left := RowsOf(table, key), RowsOf(after, key);
    if left != group {
      CollapsedPrefers(group, left, current, OriginOf(initial, key, current).payload);
    }
  }

  lemma CollapsedPrefers(group: seq<Row>, left: seq<Row>, current: Option<string>, payload: Payload)
    requires group != [] && |left| == 1 && Collapsed(group, left, current)
    requires Canonical(group, current).payload == payload
    ensures Canonical(left, current).payload == payload
    ensures forall copy | Preferred(copy, left, current) :: copy.payload == payload
  {
    OnlyCopyPreferred(left, current);
    if |group| == 1 {
      OnlyCopyPreferred(group, current);
    }
  }

  /** Exactly one row of every key, with the payload first preferred. */
  ghost predicate Recovered(after: seq<Row>, initial: seq<Row>, current: Option<string>) {
    && |after| == |KeysIn(initial)|
    && forall key <- KeysIn(initial) :: RecoveredKey(after, initial, current, key)
  }

  ghost predicate RecoveredKey(after: seq<Row>, initial: seq<Row>, current: Option<string>, key: nat)
    requires key in KeysIn(initial)
  {
    && Preferred(OriginOf(initial, key, current), RowsOf(initial, key), current)
    && |RowsOf(after, key)| == 1 && RowsOf(after, key)[0].payload == OriginOf(initial, key, current).payload
  }

  lemma OneRowRecovers(after: seq<Row>, initial: seq<Row>, current: Option<string>, key: nat)
    requires key in KeysIn(initial) && PrefersOriginal(after, initial, current, key) && |RowsOf(after, key)| == 1
    ensures RecoveredKey(after, initial, current, key)
  {
    assert Canonical(RowsOf(after, key), current) == RowsOf(after, key)[0];
    GroupNonempty(initial, key);
    CanonicalIsPreferred(RowsOf(initial, key), current);
  }

  lemma DedupedIsRecovered(after: seq<Row>, table: seq<Row>, initial: seq<Row>, current: Option<string>)
    requires Deduped(after, table, current) && KeysIn(table) == KeysIn(initial)
    requires forall key <- KeysIn(initial) :: PrefersOriginal(after, initial, current, key)
    ensures Recovered(after, initial, current)
  {
    forall key | key in KeysIn(initial) ensures RecoveredKey(after, initial, current, key) {
      assert PrefersOriginal(after, initial, current, key);
      OneRowRecovers(after, initial, current, key);
    }
  }

  lemma AllStillPreferred(after: seq<Row>, table: seq<Row>, initial: seq<Row>, width: nat, current: Option<string>)
    requires width > 0 && CleanedUp(after, table, width, current) && KeysIn(table) == KeysIn(initial)
    requires forall key <- KeysIn(initial) :: PrefersOriginal(table, initial, current, key)
    ensures forall key <- KeysIn(initial) :: PrefersOriginal(after, initial, current, key)
  {
    forall key | key in KeysIn(initial) ensures PrefersOriginal(after, initial, current, key) {
      CleanUpPrefers(after, table, initial, width, current, key);
    }
  }

  /** Any number of runs, interleaved and crashing anywhere; then one undisturbed clean-up.
      Every key still prefers the payload it preferred at first, and where every duplicate is
      seen it is left with exactly one row, of that payload. */
  method CleanUpAfterCrashes(table: TickTable, width: nat, current: Option<string>, batch: nat, now: int,
                             ghost initial: seq<Row>, ghost runs: nat, ghost steps: seq<(nat, Step)>)
    returns (removed: int)
    requires width > 0 && batch >= 1 && LeftBehind(table.rows, initial, runs, steps, current)
    modifies table
    ensures KeysIn(table.rows) == KeysIn(initial)
    ensures forall key <- KeysIn(initial) :: PrefersOriginal(table.rows, initial, current, key)
    ensures DuplicatesSeen(old(table.rows), width) || (forall row <- initial :: SeenRow(initial, width, row)) ==>
              Recovered(table.rows, initial, current)
  {
    ghost var crashed := table.rows;
    LeftBehindInvariant(crashed, initial, runs, steps, current);
    LeftBehindTable(crashed, initial, current);
    if forall row <- initial :: SeenRow(initial, width, row) {
      DuplicatesSeenAfter(crashed, initial, width, current);
    }
    ghost var once;
    var planned, again;
    planned, removed, again, once := CleanUp(table, width, current, batch, now);
    AllStillPreferred(table.rows, crashed, initial, width, current);
    if DuplicatesSeen(crashed, width) {
      DedupedIsRecovered(table.rows, crashed, initial, current);
    }
  }
}
