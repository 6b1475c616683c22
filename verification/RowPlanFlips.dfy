/** Lifecycle flips of plan headers: the named rows are read again in full, changed, and merged
    back by id. */
module RowPlanFlips {
  import opened Ordering
  import opened RowPlanHeaders
  import opened RowPlanRetention

  /** The rows of an `IN` read under their ids, the last one per id. */
  function ById(rows: seq<Header>): map<int, Header> {
    if rows == [] then map[] else
      var last := rows[|rows| - 1];
      ById(rows[..|rows| - 1])[last.id := last]
  }

  function Elems(xs: seq<int>): set<int> { set x <- xs }

  predicate Named(h: Header, ids: seq<int>) { h.id in ids }

  function InGroup(ids: seq<int>): Header -> bool { (h: Header) => Named(h, ids) }

  function Replaced(rows: map<int, Header>, h: Header): Header { if h.id in rows then rows[h.id] else h }

  function Replacing(rows: map<int, Header>): Header -> Header { (h: Header) => Replaced(rows, h) }

  function StrangersTo(table: seq<Header>): Header -> bool { (h: Header) => forall g <- table :: g.id != h.id }

  /** `merge_insert` on the plan id: a matched row is replaced whole, an unmatched one inserted. */
  function Upsert(table: seq<Header>, rows: seq<Header>): seq<Header> {
    Map(table, Replacing(ById(rows))) + Filter(rows, StrangersTo(table))
  }

  function Flip(h: Header, target: PlanState, now: int, policy: string): Header {
    match target
    case Pruned => FlipPruned(h, now, policy)
    case Superseded => FlipSuperseded(h, now, policy)
    case Active => h.(state := Active, policy := policy)
  }

  /** What a flip leaves of a row: everything but the lifecycle columns and, once the plan's
      chunk rows are deleted, its summary and chunk count. */
  predicate OnlyFlipped(was: Header, h: Header, target: PlanState, now: int, policy: string) {
    && h.state == target && h.policy == policy
    && h.id == was.id && h.series == was.series && h.created == was.created && h.columns == was.columns
    && h.frozen == was.frozen && h.copiedBytes == was.copiedBytes && h.artifact == was.artifact
    && h.versions == was.versions && h.fragments == was.fragments
    && (was.supersededAt.Some? ==> h.supersededAt == was.supersededAt)
    && (was.supersededAt.None? && !target.Active? ==> h.supersededAt == Some(now))
    && (target.Pruned? ==> h.prunedAt == Some(now) && h.summary == "" && h.chunkCount == 0)
    && (!target.Pruned? ==> h.prunedAt == was.prunedAt && h.summary == was.summary && h.chunkCount == was.chunkCount)
  }

  lemma {:induction false} ByIdHolds(rows: seq<Header>)
    ensures forall id :: id in ById(rows) <==> exists h :: h in rows && h.id == id
    ensures forall id :: id in ById(rows) ==> ById(rows)[id] in rows && ById(rows)[id].id == id
  {
    if rows != [] {
      ByIdHolds(rows[..|rows| - 1]);
      assert rows == rows[..|rows| - 1] + [rows[|rows| - 1]];
    }
  }

  /** With unique ids the read finds the very row of each named plan that exists. */
  lemma FetchFinds(table: seq<Header>, ids: seq<int>, h: Header)
    requires UniqueIds(table) && h in table
    ensures h.id in ById(Filter(table, InGroup(ids))) <==> h.id in ids
    ensures h.id in ids ==> ById(Filter(table, InGroup(ids)))[h.id] == h
  {
    var found := Filter(table, InGroup(ids));
    ByIdHolds(found);
    if h.id in ids {
      assert InGroup(ids)(h);
      SameIdIsSame(table, h, ById(found)[h.id]);
    }
  }

  /** The rows written back: one per named plan found, flipped. */
  ghost predicate Rewrites(rows: map<int, Header>, ids: seq<int>, n: nat, updated: seq<Header>,
                           flip: Header -> Header)
    requires n <= |ids|
  {
    && (forall u <- updated :: u.id in rows && u == flip(rows[u.id]))
    && (forall k :: 0 <= k < n && ids[k] in rows ==> flip(rows[ids[k]]) in updated)
  }

  function Flipping(target: PlanState, now: int, policy: string): Header -> Header {
    (h: Header) => Flip(h, target, now, policy)
  }

  /** Merging the rewritten rows flips the named plans and leaves every other row alone. */
  lemma UpsertFlips(table: seq<Header>, ids: seq<int>, updated: seq<Header>, flip: Header -> Header)
    requires UniqueIds(table) && forall h <- table :: flip(h).id == h.id
    requires Rewrites(ById(Filter(table, InGroup(ids))), ids, |ids|, updated, flip)
    ensures Upsert(table, updated) == Map(table, FlippingNamed(ids, flip))
  {
    var rows := ById(Filter(table, InGroup(ids)));
    ByIdHolds(Filter(table, InGroup(ids)));
    ByIdHolds(updated);
    forall u | u in updated ensures !StrangersTo(table)(u) {
      assert rows[u.id] in table;
    }
    FilterNone(updated, StrangersTo(table));
    forall k | 0 <= k < |table|
      ensures Replaced(ById(updated), table[k]) == FlippedIfNamed(ids, flip, table[k])
    {
      ReplacedFlips(table, ids, updated, flip, table[k]);
    }
    assert Map(table, Replacing(ById(updated))) == Map(table, FlippingNamed(ids, flip));
  }

  function FlippedIfNamed(ids: seq<int>, flip: Header -> Header, h: Header): Header {
    if h.id in ids then flip(h) else h
  }

  function FlippingNamed(ids: seq<int>, flip: Header -> Header): Header -> Header {
    (h: Header) => FlippedIfNamed(ids, flip, h)
  }

  lemma ReplacedFlips(table: seq<Header>, ids: seq<int>, updated: seq<Header>, flip: Header -> Header, h: Header)
    requires UniqueIds(table) && h in table && forall g <- table :: flip(g).id == g.id
    requires Rewrites(ById(Filter(table, InGroup(ids))), ids, |ids|, updated, flip)
    ensures Replaced(ById(updated), h) == FlippedIfNamed(ids, flip, h)
  {
    var rows := ById(Filter(table, InGroup(ids)));
    FetchFinds(table, ids, h);
    ByIdHolds(updated);
    if h.id in ids {
      var k :| 0 <= k < |ids| && ids[k] == h.id;
      assert flip(rows[ids[k]]) in updated;
    }
  }

  // ---------------------------------------------------------------- narrow rows

  /** A header as the retention scan reads it, without the body columns. */
  function Narrow(h: Header): Header { h.(versions := map[], fragments := [], summary := "") }

  predicate HasBody(h: Header, target: PlanState) {
    h.versions != map[] || h.fragments != [] || (!target.Pruned? && h.summary != "")
  }

  function NarrowFlip(target: PlanState, now: int, policy: string): Header -> Header {
    (h: Header) => Flip(Narrow(h), target, now, policy)
  }

  lemma NarrowRowLoses(h: Header, target: PlanState, now: int, policy: string)
    ensures Flip(Narrow(h), target, now, policy) == Flip(h, target, now, policy) <==> !HasBody(h, target)
  {
    match target case Pruned => case Superseded => case Active =>
  }

  lemma MapsAgreeExactly(rows: seq<Header>, f: Header -> Header, g: Header -> Header)
    ensures Map(rows, f) == Map(rows, g) <==> forall h <- rows :: f(h) == g(h)
  {
    forall h | h in rows && Map(rows, f) == Map(rows, g) ensures f(h) == g(h) {
      var k :| 0 <= k < |rows| && rows[k] == h;
      assert Map(rows, f)[k] == Map(rows, g)[k];
    }
  }

  /** Why the rows are read again: merging flipped scan rows instead would give the same table
      exactly when no named plan has anything in the columns the scan does not read. */
  lemma ScanRowsLoseBodies(table: seq<Header>, ids: seq<int>, target: PlanState, now: int, policy: string)
    ensures Map(table, FlippingNamed(ids, NarrowFlip(target, now, policy)))
            == Map(table, FlippingNamed(ids, Flipping(target, now, policy)))
       <==> forall h <- table :: h.id in ids ==> !HasBody(h, target)
  {
    var narrow, full := NarrowFlip(target, now, policy), Flipping(target, now, policy);
    MapsAgreeExactly(table, FlippingNamed(ids, narrow), FlippingNamed(ids, full));
    forall h | h in table ensures narrow(h) == full(h) <==> !HasBody(h, target) {
      NarrowRowLoses(h, target, now, policy);
    }
  }

  // ------------------------------------------------------------------ one commit

  lemma FlipKeepsId(h: Header, target: PlanState, now: int, policy: string)
    ensures Flip(h, target, now, policy).id == h.id
  {
    match target case Pruned => case Superseded => case Active =>
  }

  lemma FlipOnlyFlips(h: Header, target: PlanState, now: int, policy: string)
    ensures OnlyFlipped(h, Flip(h, target, now, policy), target, now, policy)
  {
    match target case Pruned => case Superseded => case Active =>
  }

  lemma RewritesOneMore(rows: map<int, Header>, ids: seq<int>, k: nat, updated: seq<Header>, flip: Header -> Header)
    requires k < |ids| && Rewrites(rows, ids, k, updated, flip)
    requires ids[k] in rows && flip(rows[ids[k]]).id == ids[k]
    ensures Rewrites(rows, ids, k + 1, updated + [flip(rows[ids[k]])], flip)
  {
  }

  lemma FlippingKeepsIds(target: PlanState, now: int, policy: string)
    ensures forall h: Header :: Flipping(target, now, policy)(h).id == h.id
  {
    forall h: Header ensures Flipping(target, now, policy)(h).id == h.id {
      FlipKeepsId(h, target, now, policy);
    }
  }

  /** The rows to merge: the fetched rows of the group, in its order, flipped. */
  method FlippedRows(rows: map<int, Header>, ids: seq<int>, target: PlanState, now: int, policy: string)
    returns (updated: seq<Header>)
    requires forall id <- rows :: rows[id].id == id
    ensures Rewrites(rows, ids, |ids|, updated, Flipping(target, now, policy))
  {
    updated := [];
    for k := 0 to |ids|
      invariant Rewrites(rows, ids, k, updated, Flipping(target, now, policy))
    {
      if ids[k] in rows {
        ghost var before := updated;
        updated := updated + [Flip(rows[ids[k]], target, now, policy)];
        FlipKeepsId(rows[ids[k]], target, now, policy);
        RewritesOneMore(rows, ids, k, before, Flipping(target, now, policy));
      }
    }
  }

  lemma FlipsAreMarks(table: seq<Header>, ids: seq<int>, now: int, policy: string)
    ensures Map(table, FlippingNamed(ids, Flipping(Superseded, now, policy)))
            == Marked(table, {}, Elems(ids), now, policy)
    ensures Map(table, FlippingNamed(ids, Flipping(Pruned, now, policy)))
            == Marked(table, Elems(ids), {}, now, policy)
  {
    forall h: Header
      ensures FlippedIfNamed(ids, Flipping(Superseded, now, policy), h) == Marking({}, Elems(ids), now, policy)(h)
      ensures FlippedIfNamed(ids, Flipping(Pruned, now, policy), h) == Marking(Elems(ids), {}, now, policy)(h)
    {
      assert h.id in ids <==> h.id in Elems(ids);
    }
  }

  lemma FlipsOnly(table: seq<Header>, ids: seq<int>, target: PlanState, now: int, policy: string, k: nat)
    requires k < |table|
    ensures var after := Map(table, FlippingNamed(ids, Flipping(target, now, policy)));
            && (table[k].id !in ids ==> after[k] == table[k])
            && (table[k].id in ids ==> OnlyFlipped(table[k], after[k], target, now, policy))
  {
    FlipOnlyFlips(table[k], target, now, policy);
  }

  /** One commit that flips the named plans. */
  method FlipPlans(table: seq<Header>, ids: seq<int>, target: PlanState, now: int, policy: string)
    returns (after: seq<Header>)
    requires UniqueIds(table) && !target.Active?
    ensures |after| == |table|
    ensures forall k :: 0 <= k < |table| && table[k].id !in ids ==> after[k] == table[k]
    ensures forall k :: 0 <= k < |table| && table[k].id in ids ==> OnlyFlipped(table[k], after[k], target, now, policy)
    ensures target.Superseded? ==> after == Marked(table, {}, Elems(ids), now, policy)
    ensures target.Pruned? ==> after == Marked(table, Elems(ids), {}, now, policy)
  {
    var rows := ById(Filter(table, InGroup(ids)));
    ByIdHolds(Filter(table, InGroup(ids)));
    var updated := FlippedRows(rows, ids, target, now, policy);
    after := Upsert(table, updated);
    FlippingKeepsIds(target, now, policy);
    UpsertFlips(table, ids, updated, Flipping(target, now, policy));
    FlipsAreMarks(table, ids, now, policy);
    forall k | 0 <= k < |table|
      ensures table[k].id !in ids ==> after[k] == table[k]
      ensures table[k].id in ids ==> OnlyFlipped(table[k], after[k], target, now, policy)
    {
      FlipsOnly(table, ids, target, now, policy, k);
    }
  }
}
