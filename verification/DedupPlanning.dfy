/** Planning a clean-up: the scan that counts duplicates over occupied windows, and the
    clean-up that acts on it. */
module DedupPlanning {
  import opened Ordering
  import opened TickWindows
  import opened TickRows
  import opened DedupProtocol
  import opened DedupRun

  // ------------------------------------------------------------- planning scan

  datatype KeyStats = KeyStats(rows: int, distinctIds: int, duplicateRows: int, duplicateWindows: seq<Window>)

  lemma GroupTotals(scan: seq<Row>)
    ensures |KeyOrder(scan)| == |KeysIn(scan)|
    ensures ExtraCopies(scan, KeyOrder(scan)) == |scan| - |KeysIn(scan)|
  {
    KeyOrderCount(scan);
    KeyOrderDistinct(scan);
    CountByKeys(scan, KeyOrder(scan));
    FilterAll(scan, WithKeyIn(KeyOrder(scan)));
  }

  /** Counts one window's groups. */
  method CountGroups(scan: seq<Row>) returns (distinct: nat, extra: int, duplicated: bool)
    ensures distinct == |KeysIn(scan)| && extra == |scan| - distinct
    ensures duplicated <==> DuplicatedKeys(scan) != []
  {
    var keys := KeyOrder(scan);
    ghost var keep := Duplicating(scan);
    extra, duplicated := 0, false;
    for i := 0 to |keys|
      invariant extra == ExtraCopies(scan, keys[..i])
      invariant duplicated <==> Filter(keys[..i], keep) != []
    {
      assert keys[..i + 1] == keys[..i] + [keys[i]];
      ExtraCopiesSnoc(scan, keys[..i], keys[i]);
      FilterSnoc(keys, i, keep);
      GroupNonempty(scan, keys[i]);
      var copies := |RowsOf(scan, keys[i])|;
      if copies > 1 {
        extra := extra + (copies - 1);
        duplicated := true;
      }
    }
    assert keys[..|keys|] == keys;
    distinct := |keys|;
    GroupTotals(scan);
  }

  /** The rows that lie in some windows. */
  function InWindows(windows: seq<int>, width: nat): Row -> bool
    requires width > 0
  {
    (row: Row) => row.tick / width in windows
  }

  function WindowOf(id: int, width: nat): Window { Window(id * width, (id + 1) * width) }

  lemma WindowScan(rows: seq<Row>, id: int, width: nat)
    requires width > 0
    ensures ScanTicks(rows, WindowOf(id, width).lo, WindowOf(id, width).hi) == Filter(rows, InWindows([id], width))
  {
    forall row | row in rows ensures InWindow(row.tick, id, width) <==> row.tick / width == id {
      FloorWindow(row.tick, id, width);
    }
    FilterAgree(rows, InTicks(WindowOf(id, width).lo, WindowOf(id, width).hi), InWindows([id], width));
  }

  /** Scanning one more window adds its rows and its keys, which no other window has. */
  lemma WindowAdds(rows: seq<Row>, windows: seq<int>, id: int, width: nat)
    requires width > 0 && KeyFixesTick(rows) && id !in windows
    ensures var seen, here, both := Filter(rows, InWindows(windows, width)), Filter(rows, InWindows([id], width)),
                                    Filter(rows, InWindows(windows + [id], width));
            && |both| == |seen| + |here|
            && |KeysIn(both)| == |KeysIn(seen)| + |KeysIn(here)|
  {
    var p, q, both := InWindows(windows, width), InWindows([id], width), InWindows(windows + [id], width);
    var all := Filter(rows, both);
    FilterFilter(rows, both, p, p);
    FilterFilter(rows, both, q, q);
    CountSplit(all, p, q);
    KeysSplit(rows, all, Filter(rows, p), Filter(rows, q));
  }

  /** Rows split in two by their ticks split their keys as well. */
  lemma KeysSplit(rows: seq<Row>, all: seq<Row>, seen: seq<Row>, here: seq<Row>)
    requires KeyFixesTick(rows) && forall row <- all :: row in rows
    requires forall row :: row in all <==> row in seen || row in here
    requires forall a, b | a in seen && b in here :: a.tick != b.tick
    ensures |KeysIn(all)| == |KeysIn(seen)| + |KeysIn(here)|
  {
    forall a, b | a in seen && b in here ensures a.key != b.key {
      assert a in all && b in all;
    }
    assert KeysIn(seen) !! KeysIn(here);
    assert KeysIn(all) == KeysIn(seen) + KeysIn(here);
  }

  /** The counts after the windows in `scanned`. */
  ghost predicate CountedUpTo(stats: KeyStats, rows: seq<Row>, scanned: seq<int>, width: nat)
    requires width > 0
  {
    && stats.rows == |Filter(rows, InWindows(scanned, width))|
    && stats.distinctIds == |KeysIn(Filter(rows, InWindows(scanned, width)))|
    && stats.duplicateRows == stats.rows - stats.distinctIds
  }

  function HoldsDuplicates(rows: seq<Row>, width: nat): int -> bool {
    (id: int) => DuplicatedKeys(ScanTicks(rows, WindowOf(id, width).lo, WindowOf(id, width).hi)) != []
  }

  function Numbered(width: nat): int -> Window { (id: int) => WindowOf(id, width) }

  /** The windows of `scanned` that hold duplicates, in order. */
  function Listed(rows: seq<Row>, scanned: seq<int>, width: nat): seq<Window> {
    Map(Filter(scanned, HoldsDuplicates(rows, width)), Numbered(width))
  }

  lemma ListedSnoc(rows: seq<Row>, scanned: seq<int>, id: int, width: nat)
    ensures Listed(rows, scanned + [id], width) ==
            Listed(rows, scanned, width) + if HoldsDuplicates(rows, width)(id) then [WindowOf(id, width)] else []
  {
    FilterAppend(scanned, [id], HoldsDuplicates(rows, width));
    MapAppend(Filter(scanned, HoldsDuplicates(rows, width)), Filter([id], HoldsDuplicates(rows, width)),
              Numbered(width));
  }

  /** The statistics after one more window. */
  function Extended(before: KeyStats, scan: seq<Row>, w: Window): KeyStats {
    var distinct, extra := |KeysIn(scan)|, |scan| - |KeysIn(scan)|;
    KeyStats(before.rows + |scan|, before.distinctIds + distinct, before.duplicateRows + extra,
             before.duplicateWindows + if DuplicatedKeys(scan) != [] then [w] else [])
  }

  /** The statistics after a list of windows. */
  function StatsOver(rows: seq<Row>, windows: seq<Window>): KeyStats {
    if windows == [] then KeyStats(0, 0, 0, [])
    else
      var last := windows[|windows| - 1];
      Extended(StatsOver(rows, windows[..|windows| - 1]), ScanTicks(rows, last.lo, last.hi), last)
  }

  method ScanOneWindow(scan: seq<Row>, w: Window, before: KeyStats) returns (stats: KeyStats)
    ensures stats == Extended(before, scan, w)
  {
    var distinct, extra, duplicated := CountGroups(scan);
    stats := KeyStats(before.rows + |scan|, before.distinctIds + distinct, before.duplicateRows + extra,
                      before.duplicateWindows + if duplicated then [w] else []);
  }

  method ScanWindows(rows: seq<Row>, windows: seq<Window>) returns (stats: KeyStats)
    ensures stats == StatsOver(rows, windows)
  {
    stats := KeyStats(0, 0, 0, []);
    for i := 0 to |windows|
      invariant stats == StatsOver(rows, windows[..i])
    {
      assert windows[..i + 1][..i] == windows[..i];
      stats := ScanOneWindow(ScanTicks(rows, windows[i].lo, windows[i].hi), windows[i], stats);
    }
    assert windows[..|windows|] == windows;
  }

  ghost predicate Counted(stats: KeyStats, rows: seq<Row>, ids: seq<int>, width: nat)
    requires width > 0
  {
    CountedUpTo(stats, rows, ids, width) && stats.duplicateWindows == Listed(rows, ids, width)
  }

  lemma StatsOverSnoc(rows: seq<Row>, windows: seq<Window>, w: Window)
    ensures StatsOver(rows, windows + [w]) == Extended(StatsOver(rows, windows), ScanTicks(rows, w.lo, w.hi), w)
  {
    assert (windows + [w])[..|windows|] == windows;
  }

  lemma {:induction false} StatsCount(rows: seq<Row>, ids: seq<int>, width: nat)
    requires width > 0 && KeyFixesTick(rows)
    requires TickWindows.StrictlyAscending(ids)
    ensures Counted(StatsOver(rows, Map(ids, Numbered(width))), rows, ids, width)
  {
    if ids == [] {
      FilterNone(rows, InWindows([], width));
    } else {
      var rest, id := ids[..|ids| - 1], ids[|ids| - 1];
      assert ids == rest + [id] && id !in rest;
      StatsCount(rows, rest, width);
      StatsNext(rows, rest, id, width);
    }
  }

  lemma StatsNext(rows: seq<Row>, rest: seq<int>, id: int, width: nat)
    requires width > 0 && KeyFixesTick(rows) && id !in rest
    requires Counted(StatsOver(rows, Map(rest, Numbered(width))), rows, rest, width)
    ensures Counted(StatsOver(rows, Map(rest + [id], Numbered(width))), rows, rest + [id], width)
  {
    StatsStep(rows, rest, id, width, StatsOver(rows, Map(rest, Numbered(width))));
    assert Map(rest + [id], Numbered(width)) == Map(rest, Numbered(width)) + [WindowOf(id, width)];
    StatsOverSnoc(rows, Map(rest, Numbered(width)), WindowOf(id, width));
  }

  lemma StatsStep(rows: seq<Row>, ids: seq<int>, id: int, width: nat, before: KeyStats)
    requires width > 0 && KeyFixesTick(rows)
    requires id !in ids && Counted(before, rows, ids, width)
    ensures var w := WindowOf(id, width);
            Counted(Extended(before, ScanTicks(rows, w.lo, w.hi), w), rows, ids + [id], width)
  {
    WindowScan(rows, id, width);
    WindowAdds(rows, ids, id, width);
    ListedSnoc(rows, ids, id, width);
  }

  // --------------------------------------------------------- what a scan sees

  function TicksOf(rows: seq<Row>): seq<int> { Map(rows, (row: Row) => row.tick) }

  /** Whether the scan over occupied windows meets a row: its own window is listed. */
  predicate SeenRow(rows: seq<Row>, width: nat, row: Row)
    requires width > 0
  {
    Seen(row.tick, TicksOf(rows), width)
  }

  function SeenIn(rows: seq<Row>, width: nat): Row -> bool
    requires width > 0
  {
    (row: Row) => SeenRow(rows, width, row)
  }

  function SeenRows(rows: seq<Row>, width: nat): seq<Row>
    requires width > 0
  {
    Filter(rows, SeenIn(rows, width))
  }

  ghost predicate DuplicatesSeen(rows: seq<Row>, width: nat)
    requires width > 0
  {
    forall row <- rows :: |RowsOf(rows, row.key)| > 1 ==> SeenRow(rows, width, row)
  }

  lemma SeenByWindows(rows: seq<Row>, windows: seq<int>, width: nat)
    requires width > 0 && Occupied(windows, TicksOf(rows), width)
    ensures forall row: Row :: SeenRow(rows, width, row) <==> row.tick / width in windows
    ensures Filter(rows, InWindows(windows, width)) == SeenRows(rows, width)
  {
    FilterAgree(rows, InWindows(windows, width), SeenIn(rows, width));
  }

  lemma {:induction false} FilterSize(rows: seq<Row>, keep: Row -> bool)
    ensures |Filter(rows, keep)| == |rows| <==> forall row <- rows :: keep(row)
  {
    if rows != [] {
      FilterSize(rows[1..], keep);
      assert rows == [rows[0]] + rows[1..];
    }
  }

  lemma WindowListed(rows: seq<Row>, windows: seq<int>, width: nat, id: int, row: Row)
    requires KeyFixesTick(rows) && id in windows && row in rows
    requires |RowsOf(rows, row.key)| > 1 && Holds(WindowOf(id, width), row.tick)
    ensures WindowOf(id, width) in Listed(rows, windows, width)
  {
    var w := WindowOf(id, width);
    var scan := ScanTicks(rows, w.lo, w.hi);
    assert row in scan && row in RowsOf(scan, row.key);
    WindowHoldsWholeKeys(rows, w.lo, w.hi, row.key);
    assert row.key in DuplicatedKeys(scan);
    var ids := Filter(windows, HoldsDuplicates(rows, width));
    assert id in ids;
    var k :| 0 <= k < |ids| && ids[k] == id;
    assert Map(ids, Numbered(width))[k] == w;
  }

  /** The listed windows hold a duplicated row exactly when it is seen, and no row that is not. */
  ghost predicate ListsSeen(windows: seq<Window>, rows: seq<Row>, width: nat)
    requires width > 0
  {
    && (forall row <- rows :: |RowsOf(rows, row.key)| > 1 && SeenRow(rows, width, row) ==>
          exists w <- windows :: Holds(w, row.tick))
    && (forall row <- rows, w <- windows :: Holds(w, row.tick) ==> SeenRow(rows, width, row))
    && ((forall row <- rows :: |RowsOf(rows, row.key)| > 1 ==> !SeenRow(rows, width, row)) ==> windows == [])
  }

  lemma SeenDuplicatesListed(rows: seq<Row>, windows: seq<int>, width: nat, row: Row)
    requires width > 0 && KeyFixesTick(rows) && Occupied(windows, TicksOf(rows), width)
    requires row in rows && |RowsOf(rows, row.key)| > 1 && SeenRow(rows, width, row)
    ensures exists w <- Listed(rows, windows, width) :: Holds(w, row.tick)
  {
    SeenByWindows(rows, windows, width);
    var id := row.tick / width;
    FloorWindow(row.tick, id, width);
    WindowListed(rows, windows, width, id, row);
    assert Holds(WindowOf(id, width), row.tick);
  }

  lemma ListedIsSeen(rows: seq<Row>, windows: seq<int>, width: nat, w: Window, row: Row)
    requires width > 0 && Occupied(windows, TicksOf(rows), width)
    requires w in Listed(rows, windows, width) && Holds(w, row.tick)
    ensures SeenRow(rows, width, row)
  {
    SeenByWindows(rows, windows, width);
    var ids := Filter(windows, HoldsDuplicates(rows, width));
    var k :| 0 <= k < |ids| && Map(ids, Numbered(width))[k] == w;
    assert ids[k] in ids;
    FloorWindow(row.tick, ids[k], width);
  }

  lemma NoneListed(rows: seq<Row>, windows: seq<int>, width: nat)
    requires width > 0 && KeyFixesTick(rows) && Occupied(windows, TicksOf(rows), width)
    requires forall row <- rows :: |RowsOf(rows, row.key)| > 1 ==> !SeenRow(rows, width, row)
    ensures Listed(rows, windows, width) == []
  {
    forall id | id in windows ensures !HoldsDuplicates(rows, width)(id) {
      NoDuplicateWindow(rows, windows, width, id);
    }
    FilterNone(windows, HoldsDuplicates(rows, width));
  }

  lemma NoDuplicateWindow(rows: seq<Row>, windows: seq<int>, width: nat, id: int)
    requires width > 0 && KeyFixesTick(rows) && Occupied(windows, TicksOf(rows), width) && id in windows
    requires forall row <- rows :: |RowsOf(rows, row.key)| > 1 ==> !SeenRow(rows, width, row)
    ensures DuplicatedKeys(ScanTicks(rows, WindowOf(id, width).lo, WindowOf(id, width).hi)) == []
  {
    var w := WindowOf(id, width);
    var scan := ScanTicks(rows, w.lo, w.hi);
    SeenByWindows(rows, windows, width);
    forall row | row in scan ensures !IsDuplicated(scan, row.key) {
      FloorWindow(row.tick, id, width);
      WindowHoldsWholeKeys(rows, w.lo, w.hi, row.key);
    }
    FilterNone(KeyOrder(scan), Duplicating(scan));
  }

  lemma ListedSeen(rows: seq<Row>, windows: seq<int>, width: nat)
    requires width > 0 && KeyFixesTick(rows) && Occupied(windows, TicksOf(rows), width)
    ensures ListsSeen(Listed(rows, windows, width), rows, width)
  {
    forall row | row in rows && |RowsOf(rows, row.key)| > 1 && SeenRow(rows, width, row)
      ensures exists w <- Listed(rows, windows, width) :: Holds(w, row.tick)
    {
      SeenDuplicatesListed(rows, windows, width, row);
    }
    forall row, w | row in rows && w in Listed(rows, windows, width) && Holds(w, row.tick)
      ensures SeenRow(rows, width, row)
    {
      ListedIsSeen(rows, windows, width, w, row);
    }
    if forall row <- rows :: |RowsOf(rows, row.key)| > 1 ==> !SeenRow(rows, width, row) {
      NoneListed(rows, windows, width);
    }
  }

  /** The read-only scan over occupied windows.  It counts every row exactly when some tick is
      counted under each row's own window; of the rows it sees, rows, ids and duplicates are
      exact, and the windows it lists hold the duplicates. */
  method ScanKeyWindows(rows: seq<Row>, width: nat) returns (stats: KeyStats)
    requires width > 0 && KeyFixesTick(rows)
    ensures stats.rows == |rows| <==> forall row <- rows :: SeenRow(rows, width, row)
    ensures stats.rows == |SeenRows(rows, width)| && stats.distinctIds == |KeysIn(SeenRows(rows, width))|
    ensures stats.duplicateRows == |SeenRows(rows, width)| - |KeysIn(SeenRows(rows, width))|
    ensures ListsSeen(stats.duplicateWindows, rows, width)
  {
    var ticks := TicksOf(rows);
    var bounds := TickIndexBounds(ticks, width);
    FilterSize(rows, SeenIn(rows, width));
    stats := KeyStats(0, 0, 0, []);
    if bounds.None? {
      return;
    }
    var windows := bounds.value.windows;
    stats := ScanWindows(rows, Map(windows, Numbered(width)));
    StatsCount(rows, windows, width);
    SeenByWindows(rows, windows, width);
    ListedSeen(rows, windows, width);
  }

  // ----------------------------------------------------------- plan, then apply

  /** The listed windows cover every duplicate exactly when every duplicate is seen. */
  lemma CoversExactly(windows: seq<Window>, rows: seq<Row>, width: nat)
    requires width > 0 && ListsSeen(windows, rows, width)
    ensures CoversDuplicates(windows, rows) <==> DuplicatesSeen(rows, width)
  {
  }

  /** What a run over the listed windows leaves of a key: seen duplicates collapse, the rest
      stays. */
  lemma SeenCollapse(after: seq<Row>, rows: seq<Row>, windows: seq<Window>, width: nat, current: Option<string>,
                     key: nat)
    requires width > 0 && KeyFixesTick(rows) && ListsSeen(windows, rows, width) && key in KeysIn(rows)
    requires DedupedUpTo(after, rows, windows, current)
    ensures var group, left := RowsOf(rows, key), RowsOf(after, key);
            && group != []
            && (SeenRow(rows, width, group[0]) ==> |left| == 1 && Collapsed(group, left, current))
            && (!SeenRow(rows, width, group[0]) ==> left == group)
  {
    var group := RowsOf(rows, key);
    GroupNonempty(rows, key);
    assert group[0] in group && group[0] in rows;
    assert KeyDedupedUpTo(after, rows, windows, current, key);
  }

  lemma SeenWholeKeys(rows: seq<Row>, width: nat, key: nat)
    requires width > 0 && KeyFixesTick(rows) && key in KeysIn(rows)
    ensures RowsOf(rows, key) != []
    ensures key in KeysIn(SeenRows(rows, width)) <==> SeenRow(rows, width, RowsOf(rows, key)[0])
    ensures key in KeysIn(SeenRows(rows, width)) ==> RowsOf(SeenRows(rows, width), key) == RowsOf(rows, key)
  {
    GroupNonempty(rows, key);
    var first := RowsOf(rows, key)[0];
    assert first in RowsOf(rows, key) && first in rows;
    var both := (row: Row) => SeenRow(rows, width, row) && row.key == key;
    FilterFilter(rows, SeenIn(rows, width), WithKey(key), both);
    if SeenRow(rows, width, first) {
      assert SeenIn(rows, width)(first) && first in SeenRows(rows, width);
      FilterAgree(rows, both, WithKey(key));
    }
  }

  function KeyIn(rows: seq<Row>): nat -> bool { (k: nat) => k in KeysIn(rows) }

  /** A key whose seen copies were reduced to one, or that was left alone unseen. */
  ghost predicate Reduced(rows: seq<Row>, seen: seq<Row>, after: seq<Row>, key: nat) {
    if key in KeysIn(seen) then RowsOf(seen, key) == RowsOf(rows, key) && |RowsOf(after, key)| == 1
    else RowsOf(after, key) == RowsOf(rows, key)
  }

  lemma SeenKeysSnoc(seen: seq<Row>, keys: seq<nat>, key: nat)
    ensures ExtraCopies(seen, Filter(keys + [key], KeyIn(seen)))
         == ExtraCopies(seen, Filter(keys, KeyIn(seen))) + if key in KeysIn(seen) then |RowsOf(seen, key)| - 1 else 0
  {
    FilterAppend(keys, [key], KeyIn(seen));
    if key in KeysIn(seen) {
      ExtraCopiesSnoc(seen, Filter(keys, KeyIn(seen)), key);
      assert Filter([key], KeyIn(seen)) == [key];
    } else {
      assert Filter(keys, KeyIn(seen)) + [] == Filter(keys, KeyIn(seen));
    }
  }

  /** Removing the extra copies of some keys from their groups. */
  lemma {:induction false} RemovedByKeys(rows: seq<Row>, seen: seq<Row>, after: seq<Row>, keys: seq<nat>)
    requires forall k <- keys :: Reduced(rows, seen, after, k)
    ensures ExtraCopies(rows, keys) - ExtraCopies(after, keys) == ExtraCopies(seen, Filter(keys, KeyIn(seen)))
  {
    if keys != [] {
      var rest, last := keys[..|keys| - 1], keys[|keys| - 1];
      RemovedByKeys(rows, seen, after, rest);
      assert keys == rest + [last] && Reduced(rows, seen, after, last);
      ExtraCopiesSnoc(rows, rest, last);
      ExtraCopiesSnoc(after, rest, last);
      SeenKeysSnoc(seen, rest, last);
    }
  }

  lemma CountAll(rows: seq<Row>, keys: seq<nat>)
    requires Distinct(keys) && forall row <- rows :: row.key in keys
    ensures |rows| == ExtraCopies(rows, keys) + |keys|
  {
    CountByKeys(rows, keys);
    FilterAll(rows, WithKeyIn(keys));
  }

  lemma SeenKeysCount(rows: seq<Row>, seen: seq<Row>)
    requires forall row <- seen :: row in rows
    ensures var keys := Filter(KeyOrder(rows), KeyIn(seen));
            ExtraCopies(seen, keys) == |seen| - |KeysIn(seen)|
  {
    var all := KeyOrder(rows);
    var keys := Filter(all, KeyIn(seen));
    KeyOrderDistinct(rows);
    FilterDistinct(all, KeyIn(seen));
    forall k | k in KeysIn(seen) ensures k in keys {
      assert k in KeysIn(rows) && k in all && KeyIn(seen)(k);
    }
    CountAll(seen, keys);
    DistinctSeqCount(keys);
    assert KeysOfSeq(keys) == KeysIn(seen);
  }

  /** A run removes exactly what the scan counted. */
  lemma RemovedAsPlanned(after: seq<Row>, rows: seq<Row>, windows: seq<Window>, width: nat, current: Option<string>)
    requires width > 0 && KeyFixesTick(rows) && ListsSeen(windows, rows, width)
    requires DedupedUpTo(after, rows, windows, current) && KeysIn(after) == KeysIn(rows)
    ensures |rows| - |after| == |SeenRows(rows, width)| - |KeysIn(SeenRows(rows, width))|
  {
    var seen, keys := SeenRows(rows, width), KeyOrder(rows);
    KeyOrderDistinct(rows);
    forall k | k in keys ensures Reduced(rows, seen, after, k) {
      SeenWholeKeys(rows, width, k);
      SeenCollapse(after, rows, windows, width, current, k);
    }
    RemovedByKeys(rows, seen, after, keys);
    SeenKeysCount(rows, seen);
    CountAll(rows, keys);
    forall row | row in after ensures row.key in keys {
      assert row.key in KeysIn(after);
    }
    CountAll(after, keys);
  }

  /** Each key after a clean-up: collapsed where seen, untouched where not. */
  ghost predicate CleanedUp(after: seq<Row>, rows: seq<Row>, width: nat, current: Option<string>)
    requires width > 0
  {
    && KeysIn(after) == KeysIn(rows)
    && forall key <- KeysIn(rows) :: CleanedKey(after, rows, width, current, key)
  }

  ghost predicate CleanedKey(after: seq<Row>, rows: seq<Row>, width: nat, current: Option<string>, key: nat)
    requires width > 0
  {
    var group, left := RowsOf(rows, key), RowsOf(after, key);
    && group != []
    && if SeenRow(rows, width, group[0]) then |left| == 1 && Collapsed(group, left, current) else left == group
  }

  lemma RunCleansUp(after: seq<Row>, rows: seq<Row>, windows: seq<Window>, width: nat, current: Option<string>)
    requires width > 0 && KeyFixesTick(rows) && ListsSeen(windows, rows, width)
    requires DedupedUpTo(after, rows, windows, current) && KeysIn(after) == KeysIn(rows)
    ensures CleanedUp(after, rows, width, current)
  {
    forall key | key in KeysIn(rows) ensures CleanedKey(after, rows, width, current, key) {
      SeenCollapse(after, rows, windows, width, current, key);
    }
  }

  /** A clean-up moves no key to another tick, so a later scan sees the same keys. */
  lemma CleanedTicks(after: seq<Row>, rows: seq<Row>, width: nat, current: Option<string>, row: Row)
    requires width > 0 && KeyFixesTick(rows) && CleanedUp(after, rows, width, current) && row in after
    ensures RowsOf(rows, row.key) != [] && row.tick == RowsOf(rows, row.key)[0].tick && RowsOf(rows, row.key)[0] in rows
  {
    assert row.key in KeysIn(after) && CleanedKey(after, rows, width, current, row.key);
    var group, left := RowsOf(rows, row.key), RowsOf(after, row.key);
    assert row in left && group[0] in group;
    if SeenRow(rows, width, group[0]) && |group| > 1 {
      assert Canonical(group, current) in group;
    }
  }

  lemma CleanedSameTicks(after: seq<Row>, rows: seq<Row>, width: nat, current: Option<string>, row: Row)
    requires width > 0 && KeyFixesTick(rows) && CleanedUp(after, rows, width, current) && row in rows
    ensures exists other <- after :: other.tick == row.tick
  {
    assert row.key in KeysIn(after);
    var other :| other in after && other.key == row.key;
    CleanedTicks(after, rows, width, current, other);
    assert RowsOf(rows, row.key)[0] in RowsOf(rows, row.key);
  }

  lemma SeenAlike(after: seq<Row>, rows: seq<Row>, width: nat, current: Option<string>, row: Row)
    requires width > 0 && KeyFixesTick(rows) && CleanedUp(after, rows, width, current)
    ensures SeenRow(after, width, row) <==> SeenRow(rows, width, row)
  {
    if SeenRow(rows, width, row) {
      var u :| u in TicksOf(rows) && TruncDiv(u, width) == row.tick / width;
      var k :| 0 <= k < |rows| && TicksOf(rows)[k] == u;
      CleanedSameTicks(after, rows, width, current, rows[k]);
      var other :| other in after && other.tick == u;
      TickListed(after, other);
    }
    if SeenRow(after, width, row) {
      var u :| u in TicksOf(after) && TruncDiv(u, width) == row.tick / width;
      var k :| 0 <= k < |after| && TicksOf(after)[k] == u;
      CleanedTicks(after, rows, width, current, after[k]);
      TickListed(rows, RowsOf(rows, after[k].key)[0]);
    }
  }

  lemma TickListed(rows: seq<Row>, row: Row)
    requires row in rows
    ensures row.tick in TicksOf(rows)
  {
    var k :| 0 <= k < |rows| && rows[k] == row;
    assert TicksOf(rows)[k] == row.tick;
  }

  /** A clean-up leaves later scans no duplicate they can see. */
  lemma NothingSeenAgain(after: seq<Row>, rows: seq<Row>, width: nat, current: Option<string>)
    requires width > 0 && KeyFixesTick(rows) && CleanedUp(after, rows, width, current)
    ensures KeyFixesTick(after)
    ensures forall row <- after :: |RowsOf(after, row.key)| > 1 ==> !SeenRow(after, width, row)
  {
    forall row | row in after
      ensures RowsOf(rows, row.key) != [] && row.tick == RowsOf(rows, row.key)[0].tick
      ensures |RowsOf(after, row.key)| > 1 ==> !SeenRow(after, width, row)
    {
      CleanedTicks(after, rows, width, current, row);
      SeenAlike(after, rows, width, current, row);
      assert row.key in KeysIn(after) && CleanedKey(after, rows, width, current, row.key);
    }
  }

  /** What follows from a run over the listed windows. */
  lemma RunDone(after: seq<Row>, rows: seq<Row>, windows: seq<Window>, width: nat, current: Option<string>)
    requires width > 0 && KeyFixesTick(rows) && ListsSeen(windows, rows, width)
    requires DedupedUpTo(after, rows, windows, current) && KeysIn(after) == KeysIn(rows)
    ensures CleanedUp(after, rows, width, current)
    ensures |rows| - |after| == |SeenRows(rows, width)| - |KeysIn(SeenRows(rows, width))|
    ensures KeyFixesTick(after) && SeesNoDuplicates(after, width)
  {
    RemovedAsPlanned(after, rows, windows, width, current);
    RunCleansUp(after, rows, windows, width, current);
    NothingSeenAgain(after, rows, width, current);
  }

  lemma NoDuplicatesStay(rows: seq<Row>)
    requires NoDuplicates(rows)
    ensures forall row <- rows :: |RowsOf(rows, row.key)| == 1
  {
    forall row | row in rows ensures |RowsOf(rows, row.key)| == 1 {
      assert row.key in KeysIn(rows);
    }
  }

  /** Nothing duplicated that a scan can see. */
  ghost predicate SeesNoDuplicates(rows: seq<Row>, width: nat)
    requires width > 0
  {
    forall row <- rows :: |RowsOf(rows, row.key)| > 1 ==> !SeenRow(rows, width, row)
  }

  /** One scan and the run it plans. */
  method PlanAndApply(table: TickTable, width: nat, current: Option<string>, batch: nat, now: int)
    returns (planned: int, removed: int)
    requires width > 0 && batch >= 1 && KeyFixesTick(table.rows)
    modifies table
    ensures CleanedUp(table.rows, old(table.rows), width, current) && KeyFixesTick(table.rows)
    ensures Deduped(table.rows, old(table.rows), current) <==> DuplicatesSeen(old(table.rows), width)
    ensures planned == removed == |old(table.rows)| - |table.rows|
    ensures SeesNoDuplicates(table.rows, width)
    ensures SeesNoDuplicates(old(table.rows), width) ==> table.rows == old(table.rows)
  {
    ghost var initial := table.rows;
    var stats := ScanKeyWindows(table.rows, width);
    planned := stats.duplicateRows;
    CoversExactly(stats.duplicateWindows, initial, width);
    removed := table.DedupAlignment(stats.duplicateWindows, current, batch, now);
    RunDone(table.rows, initial, stats.duplicateWindows, width, current);
  }

  /** Plan, then apply, on an undisturbed table: the planned count is what is removed, seen
      keys collapse and others stay, one row per key is left exactly when every duplicate is
      seen, and a second run finds and changes nothing. */
  method CleanUp(table: TickTable, width: nat, current: Option<string>, batch: nat, now: int)
    returns (planned: int, removed: int, again: int, ghost once: seq<Row>)
    requires width > 0 && batch >= 1 && KeyFixesTick(table.rows)
    modifies table
    ensures CleanedUp(table.rows, old(table.rows), width, current)
    ensures Deduped(table.rows, old(table.rows), current) <==> DuplicatesSeen(old(table.rows), width)
    ensures planned == removed == |old(table.rows)| - |table.rows|
    ensures again == 0 && table.rows == once
    ensures NoDuplicates(old(table.rows)) ==> table.rows == old(table.rows)
  {
    if NoDuplicates(table.rows) {
      NoDuplicatesStay(table.rows);
    }
    planned, removed := PlanAndApply(table, width, current, batch, now);
    once := table.rows;
    var replanned;
    replanned, again := PlanAndApply(table, width, current, batch, now);
  }

  /** A table whose duplicate escapes: its ticks are counted under window 0, which does not hold
      them.  A row of another tick that is counted under their window makes it seen. */
  lemma EscapingDuplicate(a: Row, b: Row, c: Row)
    requires a.key == b.key != c.key && a.tick == b.tick == -3 && c.tick == -13
    ensures KeyFixesTick([a, b]) && |RowsOf([a, b], a.key)| == 2
    ensures SeenRows([a, b], 10) == [] && !DuplicatesSeen([a, b], 10)
    ensures DuplicatesSeen([a, b, c], 10)
  {
    FilterAll([a, b], WithKey(a.key));
    Escapes(a, b);
    SeenBeside(a, b, c);
  }

  lemma Escapes(a: Row, b: Row)
    requires a.tick == b.tick == -3
    ensures SeenRows([a, b], 10) == [] && !SeenRow([a, b], 10, a)
  {
    assert TicksOf([a, b]) == [-3, -3] && TruncDiv(-3, 10) == 0 && -3 / 10 == -1;
    FilterNone([a, b], SeenIn([a, b], 10));
  }

  lemma SeenBeside(a: Row, b: Row, c: Row)
    requires a.key == b.key != c.key && a.tick == b.tick == -3 && c.tick == -13
    ensures DuplicatesSeen([a, b, c], 10)
  {
    assert TicksOf([a, b, c])[2] == -13 && TruncDiv(-13, 10) == -1 && -3 / 10 == -1;
    assert SeenRow([a, b, c], 10, a) && SeenRow([a, b, c], 10, b);
    OneOther(a, b, c);
  }

  lemma OneOther(a: Row, b: Row, c: Row)
    requires a.key == b.key != c.key
    ensures RowsOf([a, b, c], c.key) == [c]
  {
    FilterAppend([a, b], [c], WithKey(c.key));
    FilterNone([a, b], WithKey(c.key));
    FilterAll([c], WithKey(c.key));
    assert [a, b] + [c] == [a, b, c];
  }
}
