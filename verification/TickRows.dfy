/** Physical rows of one alignment, and the plan that collapses duplicate keys of a
    tick window to one canonical row each. */
module TickRows {
  import opened Ordering

  /** Everything of a row but its timestamp.  `transform` is the rank of its transform
      id in string order. */
  datatype Payload = Payload(recipe: string, transform: int, body: int)
  datatype Row = Row(key: nat, tick: int, payload: Payload, created: Option<int>)

  function WithKey(key: nat): Row -> bool { (row: Row) => row.key == key }

  function RowsOf(rows: seq<Row>, key: nat): (group: seq<Row>) {
    Filter(rows, WithKey(key))
  }

  function WithKeyIn(keys: seq<nat>): Row -> bool { (row: Row) => row.key in keys }

  function KeysIn(rows: seq<Row>): set<nat> { set row <- rows :: row.key }

  // ------------------------------------------------------------ canonical row

  predicate Matches(p: Payload, current: Option<string>) { current == Some(p.recipe) }

  /** A missing timestamp sorts before every other. */
  predicate CreatedLess(a: Option<int>, b: Option<int>) {
    b.Some? && (a.None? || a.value < b.value)
  }

  /** The order of the survivor's sort key: matching the current recipe, then the
      timestamp, then the transform id. */
  predicate Worse(a: Row, b: Row, current: Option<string>) {
    var ma, mb := Matches(a.payload, current), Matches(b.payload, current);
    if ma != mb then mb
    else CreatedLess(a.created, b.created) || (a.created == b.created && a.payload.transform < b.payload.transform)
  }

  /** Python's `max`: the first row no other one beats. */
  function Canonical(rows: seq<Row>, current: Option<string>): (best: Row)
    requires rows != []
    ensures best in rows
    ensures forall row <- rows :: !Worse(best, row, current)
  {
    var last := rows[|rows| - 1];
    if |rows| == 1 then last
    else
      assert rows == rows[..|rows| - 1] + [last];
      var best := Canonical(rows[..|rows| - 1], current);
      if Worse(best, last, current) then last else best
  }

  /** A copy of the current recipe, if there is one; of those that stand alike the latest, a
      missing time being before every other; of those the greatest transform. */
  ghost predicate Preferred(copy: Row, copies: seq<Row>, current: Option<string>) {
    && copy in copies
    && forall c <- copies ::
         && (current == Some(c.payload.recipe) ==> current == Some(copy.payload.recipe))
         && ((current == Some(c.payload.recipe) <==> current == Some(copy.payload.recipe)) ==>
               && (c.created.Some? ==> copy.created.Some? && c.created.value <= copy.created.value)
               && (c.created == copy.created ==> c.payload.transform <= copy.payload.transform))
  }

  lemma PreferredExactly(copy: Row, copies: seq<Row>, current: Option<string>)
    requires copy in copies
    ensures Preferred(copy, copies, current) <==> forall c <- copies :: !Worse(copy, c, current)
  {
  }

  /** The survivor is the first preferred copy. */
  lemma {:induction false} CanonicalIsPreferred(copies: seq<Row>, current: Option<string>)
    requires copies != []
    ensures Preferred(Canonical(copies, current), copies, current)
    ensures exists k ::
              && 0 <= k < |copies| && copies[k] == Canonical(copies, current)
              && forall j :: 0 <= j < k ==> !Preferred(copies[j], copies, current)
  {
    var best := Canonical(copies, current);
    PreferredExactly(best, copies, current);
    var k := FirstBest(copies, current);
    forall j | 0 <= j < k ensures !Preferred(copies[j], copies, current) {
      PreferredExactly(copies[j], copies, current);
    }
  }

  lemma {:induction false} FirstBest(copies: seq<Row>, current: Option<string>) returns (k: nat)
    requires copies != []
    ensures k < |copies| && copies[k] == Canonical(copies, current)
    ensures forall j :: 0 <= j < k ==> Worse(copies[j], copies[k], current)
  {
    var n := |copies| - 1;
    k := n;
    if n > 0 {
      var best := Canonical(copies[..n], current);
      if Worse(best, copies[n], current) {
        forall j | 0 <= j < n ensures Worse(copies[j], copies[n], current) {
          assert copies[..n][j] in copies[..n] && !Worse(best, copies[j], current);
        }
      } else {
        k := FirstBest(copies[..n], current);
      }
    }
  }

  // ------------------------------------------------------------------- plan

  /** Keys in order of first appearance. */
  function KeyOrder(rows: seq<Row>): (keys: seq<nat>)
    ensures forall k :: k in keys <==> k in KeysIn(rows)
  {
    if rows == [] then []
    else
      var last := rows[|rows| - 1];
      assert rows == rows[..|rows| - 1] + [last];
      var keys := KeyOrder(rows[..|rows| - 1]);
      if last.key in keys then keys else keys + [last.key]
  }

  ghost predicate Distinct(keys: seq<nat>) {
    forall i, j :: 0 <= i < j < |keys| ==> keys[i] != keys[j]
  }

  lemma {:induction false} KeyOrderDistinct(rows: seq<Row>)
    ensures Distinct(KeyOrder(rows))
  {
    if rows != [] {
      KeyOrderDistinct(rows[..|rows| - 1]);
    }
  }

  predicate IsDuplicated(rows: seq<Row>, key: nat) { |RowsOf(rows, key)| > 1 }

  function Duplicating(rows: seq<Row>): nat -> bool { (k: nat) => IsDuplicated(rows, k) }

  function DuplicatedKeys(rows: seq<Row>): (keys: seq<nat>)
    ensures forall k :: k in keys <==> k in KeysIn(rows) && IsDuplicated(rows, k)
  {
    Filter(KeyOrder(rows), Duplicating(rows))
  }

  lemma DuplicatedDistinct(rows: seq<Row>)
    ensures Distinct(DuplicatedKeys(rows))
  {
    KeyOrderDistinct(rows);
    FilterDistinct(KeyOrder(rows), Duplicating(rows));
  }

  lemma {:induction false} FilterDistinct(xs: seq<nat>, keep: nat -> bool)
    requires Distinct(xs)
    ensures Distinct(Filter(xs, keep))
  {
    if xs != [] {
      FilterDistinct(xs[1..], keep);
      var rest := Filter(xs[1..], keep);
      forall i | 0 <= i < |rest| ensures rest[i] != xs[0] {
        assert rest[i] in xs[1..];
        var j :| 0 <= j < |xs[1..]| && xs[1..][j] == rest[i];
      }
    }
  }

  function MaxCreated(rows: seq<Row>): (latest: Option<int>)
    ensures forall row <- rows :: row.created.Some? ==> latest.Some? && row.created.value <= latest.value
    ensures latest.Some? ==> exists row <- rows :: row.created == latest
  {
    if rows == [] then None
    else
      var last := rows[|rows| - 1];
      assert rows == rows[..|rows| - 1] + [last];
      var latest := MaxCreated(rows[..|rows| - 1]);
      if CreatedLess(latest, last.created) then last.created else latest
  }

  function InTicks(lo: int, hi: int): Row -> bool { (row: Row) => lo <= row.tick < hi }

  function ScanTicks(rows: seq<Row>, lo: int, hi: int): seq<Row> { Filter(rows, InTicks(lo, hi)) }

  /** What a run does to one window: add the stamped canonical rows, then delete the
      rows of their keys that are older than the marker or carry no timestamp. */
  datatype Plan = Plan(stamped: seq<Row>, marker: int)

  /** The rows whose key is duplicated in the scanned window. */
  function DuplicateRows(scan: seq<Row>): seq<Row> {
    Filter(scan, WithKeyIn(DuplicatedKeys(scan)))
  }

  /** The marker is later than every copy being collapsed; `now` is the clock, used when
      no copy has a timestamp. */
  function MarkerFor(scan: seq<Row>, now: int): int {
    (match MaxCreated(DuplicateRows(scan)) case Some(latest) => latest case None => now) + 1
  }

  /** The surviving copy of a key; the empty group has a placeholder. */
  function CanonicalOf(scan: seq<Row>, key: nat, current: Option<string>): Row {
    if RowsOf(scan, key) == [] then Row(key, 0, Payload("", 0, 0), None) else Canonical(RowsOf(scan, key), current)
  }

  function StampedRow(scan: seq<Row>, key: nat, current: Option<string>, now: int): Row {
    CanonicalOf(scan, key, current).(created := Some(MarkerFor(scan, now)))
  }

  function CanonicalIn(scan: seq<Row>, current: Option<string>): nat -> Row {
    (k: nat) => CanonicalOf(scan, k, current)
  }

  function StampedIn(scan: seq<Row>, current: Option<string>, now: int): nat -> Row {
    (k: nat) => StampedRow(scan, k, current, now)
  }

  function PlanFor(scan: seq<Row>, current: Option<string>, now: int): Plan {
    Plan(Map(DuplicatedKeys(scan), StampedIn(scan, current, now)), MarkerFor(scan, now))
  }

  predicate Older(row: Row, keys: set<nat>, marker: int) {
    row.key in keys && (row.created.None? || row.created.value < marker)
  }

  function Survives(keys: set<nat>, marker: int): Row -> bool { (row: Row) => !Older(row, keys, marker) }

  function DeleteOlder(rows: seq<Row>, keys: set<nat>, marker: int): seq<Row> {
    Filter(rows, Survives(keys, marker))
  }

  /** The marker is one later than the latest copy of any duplicated key, or than the clock where
      none of them has a time. */
  ghost predicate RightMarker(scan: seq<Row>, marker: int, now: int) {
    && (forall row <- scan :: |RowsOf(scan, row.key)| > 1 && row.created.Some? ==> row.created.value < marker)
    && if exists row <- scan :: |RowsOf(scan, row.key)| > 1 && row.created.Some?
       then exists row <- scan :: |RowsOf(scan, row.key)| > 1 && row.created == Some(marker - 1)
       else marker == now + 1
  }

  lemma MarkerIsRight(scan: seq<Row>, now: int)
    ensures RightMarker(scan, MarkerFor(scan, now), now)
  {
    var copies := DuplicateRows(scan);
    forall row | row in scan ensures row in copies <==> |RowsOf(scan, row.key)| > 1 {
      assert row.key in KeysIn(scan);
    }
    assert forall row <- copies :: row in scan;
  }

  /** Every duplicated key has one stamped row: its canonical row with a new time. */
  lemma PlanRows(scan: seq<Row>, current: Option<string>, now: int, row: Row)
    requires row in PlanFor(scan, current, now).stamped
    ensures row.key in DuplicatedKeys(scan) && RowsOf(scan, row.key) != []
    ensures row == Canonical(RowsOf(scan, row.key), current).(created := Some(MarkerFor(scan, now)))
    ensures forall copy <- RowsOf(scan, row.key) :: CreatedLess(copy.created, row.created)
  {
    var keys, stamped := DuplicatedKeys(scan), PlanFor(scan, current, now).stamped;
    var i :| 0 <= i < |stamped| && stamped[i] == row;
    var key := keys[i];
    assert key in keys && RowsOf(scan, key) != [] && IsDuplicated(scan, key);
    assert stamped[i] == StampedRow(scan, key, current, now);
    forall copy | copy in RowsOf(scan, key) ensures CreatedLess(copy.created, row.created) {
      assert copy in DuplicateRows(scan);
    }
  }

  /** Which copy that is, and which time. */
  lemma StampedMeaning(scan: seq<Row>, current: Option<string>, now: int, row: Row)
    requires row in PlanFor(scan, current, now).stamped
    ensures row.created.Some? && RightMarker(scan, row.created.value, now)
    ensures exists copy :: Preferred(copy, RowsOf(scan, row.key), current) && row == copy.(created := row.created)
  {
    PlanRows(scan, current, now, row);
    CanonicalIsPreferred(RowsOf(scan, row.key), current);
    MarkerIsRight(scan, now);
  }
}
