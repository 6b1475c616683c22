/** The retention pass: batches, the write-ahead delete before each header flip, and what is
    true wherever the pass stops. */
module RowPlanPrune {
  import opened Ordering
  import opened RowPlanHeaders
  import opened RowPlanRetention
  import opened RowPlanFlips

  /** Plans per flush, and ids per `IN` read or delete. */
  const RETENTION_FLUSH: nat := 512

  /** How one chunk delete went: the plans whose rows it missed, whether it raised, and whether
      what is left could be counted. */
  datatype Delete = Delete(missed: set<int>, raised: bool, countable: bool)

  predicate Clean(how: Delete) { how.missed == {} && !how.raised && how.countable }

  function IdsOf(rows: seq<Header>): seq<int> { Map(rows, (h: Header) => h.id) }

  function BatchIds(rows: seq<Header>): set<int> { set h <- rows :: h.id }

  function NotIn(ids: set<int>): int -> bool { (id: int) => id !in ids }

  function In(ids: set<int>): int -> bool { (id: int) => id in ids }

  function Names(ids: set<int>): Header -> bool { (h: Header) => h.id in ids }

  function NamesNot(ids: set<int>): Header -> bool { (h: Header) => h.id !in ids }

  /** The chunk rows that survive, each named by its plan. */
  function Without(chunks: seq<int>, ids: set<int>): seq<int> { Filter(chunks, NotIn(ids)) }

  function RowsOf(chunks: seq<int>, id: int): nat { multiset(chunks)[id] }

  lemma {:induction false} WithoutCounts(chunks: seq<int>, ids: set<int>, id: int)
    requires id !in ids
    ensures RowsOf(Without(chunks, ids), id) == RowsOf(chunks, id)
  {
    if chunks != [] {
      assert chunks == [chunks[0]] + chunks[1..];
      WithoutCounts(chunks[1..], ids, id);
    }
  }

  /** What one pass works with. */
  datatype Ctx = Ctx(headers: seq<Header>, chunks: seq<int>, policy: Policy, now: int, text: string, dryRun: bool)

  /** What a pass has done so far, or would have done: plans marked, and plans whose chunk
      rows are deleted. */
  datatype Effects = Effects(pruned: set<int>, superseded: set<int>, gone: set<int>)

  ghost predicate Stands(c: Ctx, e: Effects, headers: seq<Header>, chunks: seq<int>) {
    && Lawful(c.headers, c.policy, e.pruned, e.superseded)
    && e.pruned <= e.gone <= EligibleIds(c.headers, c.policy)
    && (c.dryRun ==> headers == c.headers && chunks == c.chunks)
    && (!c.dryRun ==>
          headers == Marked(c.headers, e.pruned, e.superseded, c.now, c.text) && chunks == Without(c.chunks, e.gone))
  }

  /** The plans to supersede, and those of them whose flip is pending. */
  datatype RetireList = RetireList(ids: seq<int>, batch: seq<int>)

  /** The plans to prune, those of them that are pending, and those whose delete failed. */
  datatype PruneList = PruneList(ids: seq<int>, batch: seq<Header>, failed: seq<int>)

  ghost predicate RetireTally(c: Ctx, e: Effects, r: RetireList) {
    Elems(r.ids) == e.superseded + Elems(r.batch) && Elems(r.batch) <= RetiredIds(c.headers, c.policy)
  }

  /** A plan past the retained ranks that only evidence could protect. */
  predicate Candidate(c: Ctx, h: Header) {
    h in c.headers && Ranked(c.headers, c.policy, h) && IsPrunable(h) && OldEnough(c.policy, h)
  }

  ghost predicate PruneTally(c: Ctx, e: Effects, p: PruneList) {
    && Elems(p.ids) == e.pruned + BatchIds(p.batch) && e.pruned !! BatchIds(p.batch)
    && forall h <- p.batch :: Candidate(c, h)
  }

  // ------------------------------------------------------- effects of a commit

  lemma MarkedAgain(c: Ctx, e: Effects, ids: set<int>)
    ensures var marked := Marked(c.headers, e.pruned, e.superseded, c.now, c.text);
            && (ids !! e.pruned ==>
                  Marked(marked, {}, ids, c.now, c.text)
                  == Marked(c.headers, e.pruned, e.superseded + ids, c.now, c.text))
            && (ids !! e.superseded ==>
                  Marked(marked, ids, {}, c.now, c.text)
                  == Marked(c.headers, e.pruned + ids, e.superseded, c.now, c.text))
  {
  }

  lemma MarkedUnique(headers: seq<Header>, pruned: set<int>, superseded: set<int>, now: int, text: string)
    requires UniqueIds(headers)
    ensures UniqueIds(Marked(headers, pruned, superseded, now, text))
  {
    forall i | 0 <= i < |headers| ensures Marked(headers, pruned, superseded, now, text)[i].id == headers[i].id {
    }
  }

  lemma StandsUnique(c: Ctx, e: Effects, headers: seq<Header>, chunks: seq<int>)
    requires UniqueIds(c.headers) && Stands(c, e, headers, chunks)
    ensures UniqueIds(headers)
  {
    MarkedUnique(c.headers, e.pruned, e.superseded, c.now, c.text);
  }

  lemma RetiredAreNotEligible(c: Ctx)
    requires UniqueIds(c.headers)
    ensures RetiredIds(c.headers, c.policy) !! EligibleIds(c.headers, c.policy)
  {
    forall id | id in RetiredIds(c.headers, c.policy) && id in EligibleIds(c.headers, c.policy) ensures false {
      var g :| g in c.headers && Retires(c.headers, c.policy, g) && g.id == id;
      var h :| h in c.headers && Eligible(c.headers, c.policy, h) && h.id == id;
      SameIdIsSame(c.headers, g, h);
    }
  }

  lemma WithoutMore(chunks: seq<int>, gone: set<int>, ids: set<int>)
    ensures Without(Without(chunks, gone), ids) == Without(chunks, gone + ids)
  {
    FilterFilter(chunks, NotIn(gone), NotIn(ids), NotIn(gone + ids));
  }

  lemma StandsAfterRetire(c: Ctx, e: Effects, headers: seq<Header>, chunks: seq<int>, ids: set<int>)
    requires UniqueIds(c.headers) && Stands(c, e, headers, chunks) && ids <= RetiredIds(c.headers, c.policy)
    requires !c.dryRun
    ensures Stands(c, e.(superseded := e.superseded + ids), Marked(headers, {}, ids, c.now, c.text), chunks)
  {
    RetiredAreNotEligible(c);
    MarkedAgain(c, e, ids);
  }

  lemma StandsRetiringDry(c: Ctx, e: Effects, headers: seq<Header>, chunks: seq<int>, ids: set<int>)
    requires Stands(c, e, headers, chunks) && ids <= RetiredIds(c.headers, c.policy) && (c.dryRun || ids == {})
    ensures Stands(c, e.(superseded := e.superseded + ids), headers, chunks)
  {
    assert ids == {} ==> e.superseded + ids == e.superseded;
  }

  lemma StandsInDryRun(c: Ctx, e: Effects, headers: seq<Header>, chunks: seq<int>, ids: set<int>)
    requires Stands(c, e, headers, chunks) && (c.dryRun || ids == {}) && ids <= EligibleIds(c.headers, c.policy)
    ensures Stands(c, Effects(e.pruned + ids, e.superseded, e.gone + ids), headers, chunks)
  {
    if ids == {} {
      assert e.pruned + ids == e.pruned && e.gone + ids == e.gone;
    }
  }

  lemma StandsAfterDelete(c: Ctx, e: Effects, headers: seq<Header>, chunks: seq<int>, ids: set<int>, missed: set<int>)
    requires Stands(c, e, headers, chunks) && !c.dryRun && ids <= EligibleIds(c.headers, c.policy)
    ensures Stands(c, e.(gone := e.gone + (ids - missed)), headers, Without(chunks, ids - missed))
  {
    WithoutMore(c.chunks, e.gone, ids - missed);
  }

  /** Flipping headers is lawful once their plans have no rows left. */
  lemma StandsAfterFlip(c: Ctx, e: Effects, headers: seq<Header>, chunks: seq<int>, ids: set<int>)
    requires UniqueIds(c.headers) && Stands(c, e, headers, chunks) && !c.dryRun
    requires ids <= EligibleIds(c.headers, c.policy)
    requires forall id <- ids :: id !in chunks
    ensures Stands(c, Effects(e.pruned + ids, e.superseded, e.gone + ids), Marked(headers, ids, {}, c.now, c.text),
                   chunks)
  {
    RetiredAreNotEligible(c);
    MarkedAgain(c, e, ids);
    WithoutMore(c.chunks, e.gone, ids);
    FilterAll(chunks, NotIn(ids));
  }

  // ------------------------------------------------------------------ the lists

  lemma ElemsAppend(a: seq<int>, b: seq<int>)
    ensures Elems(a + b) == Elems(a) + Elems(b)
  {
  }

  lemma ElemsOfFilter(xs: seq<int>, ids: set<int>)
    ensures Elems(Filter(xs, NotIn(ids))) == Elems(xs) - ids
  {
    forall x | x in xs && x !in ids ensures x in Filter(xs, NotIn(ids)) {
      assert NotIn(ids)(x);
    }
  }

  lemma BatchElems(rows: seq<Header>)
    ensures Elems(IdsOf(rows)) == BatchIds(rows)
  {
    forall h | h in rows ensures h.id in IdsOf(rows) {
      var k :| 0 <= k < |rows| && rows[k] == h;
      assert IdsOf(rows)[k] == h.id;
    }
  }

  lemma RetireMore(c: Ctx, e: Effects, r: RetireList, h: Header)
    requires RetireTally(c, e, r) && h in c.headers && Retires(c.headers, c.policy, h)
    ensures RetireTally(c, e, RetireList(r.ids + [h.id], r.batch + [h.id]))
  {
    assert h.id in RetiredIds(c.headers, c.policy);
    ElemsAppend(r.ids, [h.id]);
    ElemsAppend(r.batch, [h.id]);
  }

  lemma BatchIsEligible(c: Ctx, batch: seq<Header>)
    requires forall h <- batch :: Candidate(c, h) && h.id !in c.policy.referenced
    ensures BatchIds(batch) <= EligibleIds(c.headers, c.policy) && Elems(IdsOf(batch)) == BatchIds(batch)
  {
    forall h | h in batch ensures h.id in EligibleIds(c.headers, c.policy) {
      assert Eligible(c.headers, c.policy, h);
    }
    BatchElems(batch);
  }

  lemma BatchParts(rows: seq<Header>, referenced: set<int>)
    ensures BatchIds(Filter(rows, Names(referenced))) == BatchIds(rows) * referenced
    ensures BatchIds(Filter(rows, NamesNot(referenced))) == BatchIds(rows) - referenced
  {
    forall h | h in rows ensures h in Filter(rows, Names(referenced)) || h in Filter(rows, NamesNot(referenced)) {
      assert Names(referenced)(h) || NamesNot(referenced)(h);
    }
  }

  lemma EligibleUnnamed(c: Ctx, ids: set<int>)
    requires ids <= EligibleIds(c.headers, c.policy)
    ensures ids !! c.policy.referenced
  {
  }

  /** The prune list once the plans that evidence names have left it. */
  function Unnamed(p: PruneList, referenced: set<int>): PruneList {
    PruneList(Filter(p.ids, NotIn(BatchIds(Filter(p.batch, Names(referenced))))),
              Filter(p.batch, NamesNot(referenced)), p.failed)
  }

  lemma UnnamedTally(c: Ctx, e: Effects, p: PruneList)
    requires PruneTally(c, e, p) && e.pruned <= EligibleIds(c.headers, c.policy)
    ensures PruneTally(c, e, Unnamed(p, c.policy.referenced))
  {
    BatchParts(p.batch, c.policy.referenced);
    EligibleUnnamed(c, e.pruned);
    ElemsOfFilter(p.ids, BatchIds(Filter(p.batch, Names(c.policy.referenced))));
  }

  lemma FailedTally(c: Ctx, e: Effects, p: PruneList, failed: seq<int>)
    requires PruneTally(c, e, p) && Elems(failed) == BatchIds(p.batch)
    ensures PruneTally(c, e, PruneList(Filter(p.ids, NotIn(Elems(failed))), [], p.failed + failed))
  {
    ElemsOfFilter(p.ids, Elems(failed));
  }

  lemma PrunedTally(c: Ctx, e: Effects, f: Effects, p: PruneList)
    requires PruneTally(c, e, p) && f.pruned == e.pruned + BatchIds(p.batch)
    ensures PruneTally(c, f, p.(batch := []))
  {
  }

  ghost predicate ActiveListed(held: seq<Header>, n: nat, ids: seq<int>)
    requires n <= |held|
  {
    forall j :: 0 <= j < n && held[j].state.Active? ==> held[j].id in ids
  }

  lemma ListedMore(held: seq<Header>, n: nat, ids: seq<int>, more: seq<int>)
    requires n < |held| && ActiveListed(held, n, ids)
    requires more == ids + if held[n].state.Active? then [held[n].id] else []
    ensures ActiveListed(held, n + 1, more) && ids <= more
  {
  }

  lemma NamedIsRetired(c: Ctx, h: Header)
    requires Candidate(c, h) && h.id in c.policy.referenced
    ensures h in c.headers && Ranked(c.headers, c.policy, h) && !Eligible(c.headers, c.policy, h)
  {
  }

  // --------------------------------------------------------------------- commits

  class Catalog {
    var headers: seq<Header>
    var chunks: seq<int>

    ghost predicate At(c: Ctx, e: Effects)
      reads this
    {
      Stands(c, e, headers, chunks)
    }

    /** One commit that rewrites the lifecycle columns of the named headers: their rows are read
        again in full, flipped and merged back. */
    method ApplyState(ids: seq<int>, target: PlanState, now: int, text: string)
      requires UniqueIds(headers) && !target.Active?
      modifies this`headers
      ensures |headers| == |old(headers)|
      ensures forall k :: 0 <= k < |headers| && old(headers)[k].id !in ids ==> headers[k] == old(headers)[k]
      ensures forall k :: 0 <= k < |headers| && old(headers)[k].id in ids ==>
                OnlyFlipped(old(headers)[k], headers[k], target, now, text)
      ensures target.Superseded? ==> headers == Marked(old(headers), {}, Elems(ids), now, text)
      ensures target.Pruned? ==> headers == Marked(old(headers), Elems(ids), {}, now, text)
    {
      headers := FlipPlans(headers, ids, target, now, text);
    }

    /** One delete of the chunk rows of some plans, verified by counting what is left. */
    method DeletePlanChunks(ids: seq<int>, how: Delete) returns (deleted: nat, failed: seq<int>)
      modifies this`chunks
      ensures chunks == Without(old(chunks), Elems(ids) - how.missed)
      ensures failed == [] || failed == ids
      ensures failed == [] && ids != [] ==> !how.raised && how.countable && forall id <- ids :: id !in chunks
      ensures failed == [] && ids != [] ==> deleted == |Filter(old(chunks), In(Elems(ids)))|
      ensures Clean(how) ==> failed == []
    {
      if ids == [] {
        FilterAll(chunks, NotIn(Elems(ids) - how.missed));
        return 0, [];
      }
      var before := |Filter(chunks, In(Elems(ids)))|;
      chunks := Without(chunks, Elems(ids) - how.missed);
      if how.raised || !how.countable {
        return 0, ids;
      }
      var after := Filter(chunks, In(Elems(ids)));
      if after != [] {
        assert after[0] in after;
        return 0, ids;
      }
      deleted, failed := before, [];
    }

    /** The pending superseded flips, in one commit. */
    method FlushSupersede(r: RetireList, commits: nat, ghost c: Ctx, ghost e: Effects, now: int, text: string,
                          dryRun: bool)
      returns (next: RetireList, left: nat, died: bool, ghost f: Effects)
      requires UniqueIds(c.headers) && At(c, e) && RetireTally(c, e, r) && c.now == now && c.text == text
      requires c.dryRun == dryRun
      modifies this
      ensures At(c, f) && f == e.(superseded := f.superseded)
      ensures !died ==> RetireTally(c, f, next) && next == RetireList(r.ids, [])
    {
      next, left, died, f := RetireList(r.ids, []), commits, false, e.(superseded := e.superseded + Elems(r.batch));
      if r.batch != [] && !dryRun {
        if commits == 0 {
          return r, 0, true, e;
        }
        StandsAfterRetire(c, e, headers, chunks, Elems(r.batch));
        StandsUnique(c, e, headers, chunks);
        ApplyState(r.batch, Superseded, now, text);
        left := commits - 1;
      } else {
        StandsRetiringDry(c, e, headers, chunks, Elems(r.batch));
      }
    }

    /** Queues a plan for the superseded flip unless it is superseded already. */
    method DeferSupersede(h: Header, r: RetireList, commits: nat, ghost c: Ctx, ghost e: Effects, now: int,
                          text: string, dryRun: bool)
      returns (next: RetireList, left: nat, died: bool, ghost f: Effects)
      requires UniqueIds(c.headers) && At(c, e) && RetireTally(c, e, r) && c.now == now && c.text == text
      requires c.dryRun == dryRun
      requires h in c.headers && Ranked(c.headers, c.policy, h) && !Eligible(c.headers, c.policy, h)
      modifies this
      ensures At(c, f) && f == e.(superseded := f.superseded)
      ensures !died ==> RetireTally(c, f, next) && next.ids == r.ids + if h.state.Active? then [h.id] else []
    {
      next, left, died, f := r, commits, false, e;
      if h.state.Superseded? {
        return;
      }
      RetireMore(c, e, r, h);
      next := RetireList(r.ids + [h.id], r.batch + [h.id]);
      if |next.batch| >= RETENTION_FLUSH {
        next, left, died, f := FlushSupersede(next, commits, c, e, now, text, dryRun);
      }
    }

    /** Plans of a batch that evidence names are retired instead. */
    method DeferAll(held: seq<Header>, r: RetireList, commits: nat, ghost c: Ctx, ghost e: Effects, now: int,
                    text: string, dryRun: bool)
      returns (next: RetireList, left: nat, died: bool, ghost f: Effects)
      requires UniqueIds(c.headers) && At(c, e) && RetireTally(c, e, r) && c.now == now && c.text == text
      requires c.dryRun == dryRun
      requires forall h <- held :: Candidate(c, h) && h.id in c.policy.referenced
      modifies this
      ensures At(c, f) && f == e.(superseded := f.superseded)
      ensures !died ==> RetireTally(c, f, next) && r.ids <= next.ids && ActiveListed(held, |held|, next.ids)
    {
      next, left, died, f := r, commits, false, e;
      for k := 0 to |held|
        invariant At(c, f) && RetireTally(c, f, next) && f == e.(superseded := f.superseded)
        invariant r.ids <= next.ids && ActiveListed(held, k, next.ids)
      {
        NamedIsRetired(c, held[k]);
        ghost var ids := next.ids;
        next, left, died, f := DeferSupersede(held[k], next, left, c, f, now, text, dryRun);
        if died {
          return;
        }
        ListedMore(held, k, ids, next.ids);
      }
    }

    /** Write-ahead: the chunk rows go first, and only plans whose delete was verified have
        their headers flipped. */
    method PruneDeletable(p: PruneList, how: Delete, commits: nat, ghost c: Ctx, ghost e: Effects, now: int,
                          text: string, dryRun: bool)
      returns (next: PruneList, left: nat, died: bool, ghost f: Effects)
      requires UniqueIds(c.headers) && At(c, e) && PruneTally(c, e, p) && c.now == now && c.text == text
      requires c.dryRun == dryRun
      requires forall h <- p.batch :: h.id !in c.policy.referenced
      modifies this
      ensures At(c, f) && f.superseded == e.superseded
      ensures !died ==> PruneTally(c, f, next)
      ensures !died ==> next.batch == [] && (next == p.(batch := []) || (!Clean(how) && next == FailedList(p)))
    {
      var ids := IdsOf(p.batch);
      ghost var batch := BatchIds(p.batch);
      BatchIsEligible(c, p.batch);
      next, left, died, f := p.(batch := []), commits, false, Effects(e.pruned + batch, e.superseded, e.gone + batch);
      PrunedTally(c, e, f, p);
      if dryRun || ids == [] {
        StandsInDryRun(c, e, headers, chunks, batch);
        return;
      }
      if commits == 0 {
        return p, 0, true, e;
      }
      StandsAfterDelete(c, e, headers, chunks, batch, how.missed);
      var deleted, failed := DeletePlanChunks(ids, how);
      ghost var g := e.(gone := e.gone + (batch - how.missed));
      if failed != [] {
        FailedTally(c, e, p, ids);
        return FailedList(p), commits - 1, false, g;
      }
      if commits == 1 {
        return p, 0, true, g;
      }
      StandsAfterFlip(c, g, headers, chunks, batch);
      StandsUnique(c, g, headers, chunks);
      ApplyState(ids, Pruned, now, text);
      left, f := commits - 2, Effects(e.pruned + batch, e.superseded, g.gone + batch);
    }

    /** Settles the pending prunes: evidence is checked first, then rows, then headers. */
    method FlushPrune(r: RetireList, p: PruneList, how: Delete, commits: nat, referenced: set<int>,
                      ghost c: Ctx, ghost e: Effects, now: int, text: string, dryRun: bool)
      returns (retire: RetireList, prune: PruneList, left: nat, died: bool, ghost f: Effects)
      requires UniqueIds(c.headers) && At(c, e) && RetireTally(c, e, r) && PruneTally(c, e, p)
      requires c.now == now && c.text == text && c.dryRun == dryRun && c.policy.referenced == referenced
      modifies this
      ensures At(c, f)
      ensures !died ==> RetireTally(c, f, retire) && PruneTally(c, f, prune) && prune.batch == []
      ensures !died ==> HandsOver(c, r, p, retire, prune) && (Clean(how) ==> prune.failed == p.failed)
    {
      retire, prune, left, died, f := r, p, commits, false, e;
      if p.batch == [] {
        return;
      }
      UnnamedTally(c, e, p);
      HeldAreCandidates(c, p);
      retire, left, died, f := DeferAll(Filter(p.batch, Names(referenced)), r, commits, c, e, now, text, dryRun);
      if died {
        return;
      }
      prune, left, died, f := PruneDeletable(Unnamed(p, referenced), how, left, c, f, now, text, dryRun);
      if !died {
        FlushHandsOver(c, r, p, retire, prune);
      }
    }

    /** One scanned plan, with the rank the scan's counter gives it. */
    method VisitPlan(h: Header, rank: nat, r: RetireList, p: PruneList, how: Delete, commits: nat, policy: Policy,
                     ghost c: Ctx, ghost e: Effects, now: int, text: string, dryRun: bool, ghost seen: seq<Header>)
      returns (retire: RetireList, prune: PruneList, left: nat, died: bool, ghost f: Effects)
      requires UniqueIds(c.headers) && At(c, e) && RetireTally(c, e, r) && PruneTally(c, e, p)
      requires AllCovered(c, r, p, seen)
      requires c.now == now && c.text == text && c.dryRun == dryRun && c.policy == policy
      requires h in c.headers && !h.state.Pruned? && rank == Rank(c.headers, h) && h.id !in p.ids
      modifies this
      ensures At(c, f)
      ensures !died ==> RetireTally(c, f, retire) && PruneTally(c, f, prune) && AllCovered(c, retire, prune, seen + [h])
      ensures !died ==> Elems(prune.ids) <= Elems(p.ids) + {h.id} && (Clean(how) ==> prune.failed == p.failed)
    {
      retire, prune, left, died, f := r, p, commits, false, e;
      if rank < policy.retainLatest {
        CoverRetained(c, r, p, seen, h);
      } else if !IsPrunable(h) || !OldEnough(policy, h) {
        retire, left, died, f := DeferSupersede(h, r, commits, c, e, now, text, dryRun);
        if !died {
          CoverDeferred(c, r, retire, p, seen, h);
        }
      } else {
        prune := PruneList(p.ids + [h.id], p.batch + [h], p.failed);
        QueueTally(c, e, p, h);
        CoverQueued(c, r, p, seen, h);
        if |prune.batch| >= RETENTION_FLUSH {
          ghost var queued := prune;
          retire, prune, left, died, f := FlushPrune(r, prune, how, commits, policy.referenced, c, e, now, text,
                                                     dryRun);
          if !died {
            CoverFlushed(c, r, queued, retire, prune, seen + [h]);
          }
        }
      }
    }

    method VisitAll(scan: seq<Header>, hows: nat -> Delete, commits: nat, policy: Policy, ghost c: Ctx, now: int,
                    text: string, dryRun: bool, ghost clean: bool)
      returns (retire: RetireList, prune: PruneList, left: nat, died: bool, ghost e: Effects)
      requires UniqueIds(c.headers) && headers == c.headers && chunks == c.chunks
      requires c.now == now && c.text == text && c.dryRun == dryRun && c.policy == policy
      requires clean ==> forall k: nat :: Clean(hows(k))
      requires multiset(scan) == multiset(Filter(c.headers, Live())) && SortedBy(scan, RetentionLe)
      modifies this
      ensures At(c, e)
      ensures !died ==> RetireTally(c, e, retire) && PruneTally(c, e, prune) && AllCovered(c, retire, prune, scan)
      ensures !died && clean ==> prune.failed == []
    {
      retire, prune, left, died, e := RetireList([], []), PruneList([], [], []), commits, false, Effects({}, {}, {});
      NothingDone(c);
      var counts: map<int, nat> := map[];
      for i := 0 to |scan|
        invariant At(c, e) && RetireTally(c, e, retire) && PruneTally(c, e, prune)
        invariant Visited(c, scan, i, counts, retire, prune)
        invariant clean ==> prune.failed == []
      {
        ScanVisits(c.headers, scan, i);
        RankOfNext(c, scan, i, counts, prune);
        var rank := Count(counts, scan[i].series);
        ghost var before := prune;
        retire, prune, left, died, e := VisitPlan(scan[i], rank, retire, prune, hows(i), left, policy, c, e, now, text,
                                                  dryRun, scan[..i]);
        if died {
          return;
        }
        VisitedNext(c, scan, i, counts, before, retire, prune);
        counts := counts[scan[i].series := rank + 1];
      }
      assert scan[..|scan|] == scan;
    }

    /** One pass, with what it has marked and deleted wherever it stops. */
    method RunPass(retainLatest: int, cutoff: Option<int>, referenced: set<int>, now: int, text: string,
                   dryRun: bool, ordered: Option<seq<Header>>, hows: nat -> Delete, commits: nat)
      returns (result: PassResult, ghost e: Effects)
      requires UniqueIds(headers)
      requires ordered.Some? ==>
                 multiset(ordered.value) == multiset(Filter(headers, Live())) && SortedBy(ordered.value, RetentionLe)
      modifies this
      ensures result.Rejected? <==> retainLatest < 1
      ensures retainLatest < 1 ==> headers == old(headers) && chunks == old(chunks)
      ensures retainLatest >= 1 ==>
                var c := Ctx(old(headers), old(chunks), Policy(retainLatest, cutoff, referenced), now, text, dryRun);
                && Stands(c, e, headers, chunks)
                && (result.Done? ==> Settled(c, e, result))
                && (result.Done? && (forall k: nat :: Clean(hows(k))) ==> result.failed == [])
    {
      e := Effects({}, {}, {});
      if retainLatest < 1 {
        return Rejected, e;
      }
      var policy := Policy(retainLatest, cutoff, referenced);
      ghost var c := Ctx(headers, chunks, policy, now, text, dryRun);
      var scan := IterPlansForRetention(headers, ordered);
      var retire, prune, left, died;
      retire, prune, left, died, e := VisitAll(scan, hows, commits, policy, c, now, text, dryRun,
                                               forall k: nat :: Clean(hows(k)));
      if died {
        return Died, e;
      }
      ghost var queued, before := prune, retire;
      retire, prune, left, died, e := FlushPrune(retire, prune, hows(|scan|), left, referenced, c, e, now, text,
                                                 dryRun);
      if died {
        return Died, e;
      }
      CoverFlushed(c, before, queued, retire, prune, scan);
      retire, left, died, e := FlushSupersede(retire, left, c, e, now, text, dryRun);
      if died {
        return Died, e;
      }
      AllSettled(c, e, retire, prune, scan);
      result := Done(|scan|, retire.ids, prune.ids, prune.failed);
    }

    /** One retention pass.  `ordered` is the engine's ordered scan, if it can give one; `hows`
        says how the deletes go and `commits` how many commits happen before the pass dies. */
    method PruneRowPlans(retainLatest: int, cutoff: Option<int>, referenced: set<int>, now: int, text: string,
                         dryRun: bool, ordered: Option<seq<Header>>, hows: nat -> Delete, commits: nat)
      returns (result: PassResult, ghost e: Effects)
      requires UniqueIds(headers)
      requires ordered.Some? ==>
                 multiset(ordered.value) == multiset(Filter(headers, Live())) && SortedBy(ordered.value, RetentionLe)
      modifies this
      ensures result.Rejected? <==> retainLatest < 1
      ensures retainLatest < 1 ==> headers == old(headers) && chunks == old(chunks)
      ensures retainLatest >= 1 ==>
                var c := Ctx(old(headers), old(chunks), Policy(retainLatest, cutoff, referenced), now, text, dryRun);
                && Stands(c, e, headers, chunks)
                && OnlyDueTouched(c, headers, chunks)
                && (result.Done? ==> Settled(c, e, result) && NamesDue(c, result) && DueDone(c, result, headers))
                && (result.Done? && (forall k: nat :: Clean(hows(k))) ==> result.failed == [])
    {
      ghost var c := Ctx(headers, chunks, Policy(if retainLatest < 1 then 0 else retainLatest, cutoff, referenced), now,
                         text, dryRun);
      result, e := RunPass(retainLatest, cutoff, referenced, now, text, dryRun, ordered, hows, commits);
      if retainLatest >= 1 {
        TouchesOnlyDue(c, e, headers, chunks);
        if result.Done? {
          SettledNamesDue(c, e, result);
          SettledDoesDue(c, e, result, headers, chunks);
        }
      }
    }
  }

  /** A finished pass has marked what it names, retired all it should, and pruned all it should
      but for failed deletes. */
  ghost predicate Settled(c: Ctx, e: Effects, result: PassResult)
    requires result.Done?
  {
    && e.superseded == RetiredIds(c.headers, c.policy) == Elems(result.superseded)
    && e.pruned == Elems(result.pruned)
    && EligibleIds(c.headers, c.policy) <= e.pruned + Elems(result.failed)
  }

  /** Wherever a pass stops, in raw fields: a header that changed was due for its new state, and
      chunk rows are gone only of plans that were due for pruning. */
  ghost predicate OnlyDueTouched(c: Ctx, headers: seq<Header>, chunks: seq<int>) {
    && |headers| == |c.headers|
    && (forall k :: 0 <= k < |headers| && headers[k] != c.headers[k] ==>
          || (headers[k].state.Pruned? && MayPrune(c.headers, c.policy, c.headers[k]))
          || (headers[k].state.Superseded? && MayRetire(c.headers, c.policy, c.headers[k])))
    && forall id :: RowsOf(chunks, id) != RowsOf(c.chunks, id) ==>
         exists h <- c.headers :: h.id == id && MayPrune(c.headers, c.policy, h)
  }

  /** The plans a finished pass names, in raw fields. */
  ghost predicate NamesDue(c: Ctx, result: PassResult)
    requires result.Done?
  {
    forall h <- c.headers ::
      && (h.id in result.superseded <==> MayRetire(c.headers, c.policy, h))
      && (h.id in result.pruned ==> MayPrune(c.headers, c.policy, h))
      && (MayPrune(c.headers, c.policy, h) ==> h.id in result.pruned || h.id in result.failed)
  }

  /** What a finished pass that is no dry run has done, in raw fields. */
  ghost predicate DueDone(c: Ctx, result: PassResult, headers: seq<Header>)
    requires result.Done?
  {
    !c.dryRun ==>
      && |headers| == |c.headers|
      && forall k :: 0 <= k < |headers| ==>
           && (MayPrune(c.headers, c.policy, c.headers[k]) ==>
                 headers[k].state.Pruned? || c.headers[k].id in result.failed)
           && (MayRetire(c.headers, c.policy, c.headers[k]) ==> headers[k].state.Superseded?)
  }

  lemma EligibleId(c: Ctx, h: Header)
    requires UniqueIds(c.headers) && h in c.headers
    ensures h.id in EligibleIds(c.headers, c.policy) <==> MayPrune(c.headers, c.policy, h)
  {
    VerdictsExactly(c.headers, c.policy, h);
    if h.id in EligibleIds(c.headers, c.policy) {
      PrunedRankPast(c.headers, c.policy, EligibleIds(c.headers, c.policy), h);
    }
  }

  lemma RetiredId(c: Ctx, h: Header)
    requires UniqueIds(c.headers) && h in c.headers
    ensures h.id in RetiredIds(c.headers, c.policy) <==> MayRetire(c.headers, c.policy, h)
  {
    VerdictsExactly(c.headers, c.policy, h);
    if h.id in RetiredIds(c.headers, c.policy) {
      RetiredIsActive(c.headers, c.policy, RetiredIds(c.headers, c.policy), h);
    }
  }

  lemma TouchesOnlyDue(c: Ctx, e: Effects, headers: seq<Header>, chunks: seq<int>)
    requires UniqueIds(c.headers) && Stands(c, e, headers, chunks)
    ensures OnlyDueTouched(c, headers, chunks)
  {
    forall k | 0 <= k < |headers| && headers[k] != c.headers[k]
      ensures || (headers[k].state.Pruned? && MayPrune(c.headers, c.policy, c.headers[k]))
              || (headers[k].state.Superseded? && MayRetire(c.headers, c.policy, c.headers[k]))
    {
      assert c.headers[k] in c.headers;
      EligibleId(c, c.headers[k]);
      RetiredId(c, c.headers[k]);
    }
    forall id | RowsOf(chunks, id) != RowsOf(c.chunks, id)
      ensures exists h <- c.headers :: h.id == id && MayPrune(c.headers, c.policy, h)
    {
      if id !in e.gone {
        WithoutCounts(c.chunks, e.gone, id);
      }
      var h :| h in c.headers && Eligible(c.headers, c.policy, h) && h.id == id;
      VerdictsExactly(c.headers, c.policy, h);
    }
  }

  lemma SettledNamesDue(c: Ctx, e: Effects, result: PassResult)
    requires UniqueIds(c.headers) && result.Done? && Settled(c, e, result)
    requires e.pruned <= EligibleIds(c.headers, c.policy)
    ensures NamesDue(c, result)
  {
    forall h | h in c.headers
      ensures h.id in result.superseded <==> MayRetire(c.headers, c.policy, h)
      ensures h.id in result.pruned ==> MayPrune(c.headers, c.policy, h)
      ensures MayPrune(c.headers, c.policy, h) ==> h.id in result.pruned || h.id in result.failed
    {
      EligibleId(c, h);
      RetiredId(c, h);
      assert h.id in result.superseded <==> h.id in Elems(result.superseded);
      assert h.id in result.pruned <==> h.id in Elems(result.pruned);
      assert h.id in result.failed <==> h.id in Elems(result.failed);
    }
  }

  lemma SettledDoesDue(c: Ctx, e: Effects, result: PassResult, headers: seq<Header>, chunks: seq<int>)
    requires UniqueIds(c.headers) && result.Done? && Settled(c, e, result) && Stands(c, e, headers, chunks)
    ensures DueDone(c, result, headers)
  {
    if !c.dryRun {
      forall k | 0 <= k < |headers|
        ensures MayPrune(c.headers, c.policy, c.headers[k]) ==>
                  headers[k].state.Pruned? || c.headers[k].id in result.failed
        ensures MayRetire(c.headers, c.policy, c.headers[k]) ==> headers[k].state.Superseded?
      {
        assert c.headers[k] in c.headers;
        EligibleId(c, c.headers[k]);
        RetiredId(c, c.headers[k]);
        assert c.headers[k].id in result.failed <==> c.headers[k].id in Elems(result.failed);
        RetiredAreNotEligible(c);
      }
    }
  }

  datatype PassResult = Rejected | Died | Done(scanned: nat, superseded: seq<int>, pruned: seq<int>, failed: seq<int>)

  lemma NothingDone(c: Ctx)
    ensures Stands(c, Effects({}, {}, {}), c.headers, c.chunks)
  {
    FilterAll(c.chunks, NotIn({}));
    assert Marked(c.headers, {}, {}, c.now, c.text) == c.headers;
  }

  // ------------------------------------------------------------ series counters

  function Count(counts: map<int, nat>, series: int): nat { if series in counts then counts[series] else 0 }

  ghost predicate CountsSeries(counts: map<int, nat>, seen: seq<Header>) {
    forall series: int :: Count(counts, series) == |Filter(seen, InSeries(series))|
  }

  lemma CountOne(counts: map<int, nat>, scan: seq<Header>, i: nat)
    requires i < |scan| && CountsSeries(counts, scan[..i])
    ensures CountsSeries(counts[scan[i].series := Count(counts, scan[i].series) + 1], scan[..i + 1])
  {
    var next := counts[scan[i].series := Count(counts, scan[i].series) + 1];
    forall series: int ensures Count(next, series) == |Filter(scan[..i + 1], InSeries(series))| {
      FilterSnoc(scan, i, InSeries(series));
      assert Count(counts, series) == |Filter(scan[..i], InSeries(series))|;
    }
  }

  lemma ScanVisited(scan: seq<Header>, i: nat, counts: map<int, nat>, before: seq<int>, after: seq<int>)
    requires i < |scan| && CountsSeries(counts, scan[..i])
    requires Elems(before) <= BatchIds(scan[..i]) && Elems(after) <= Elems(before) + {scan[i].id}
    ensures Elems(after) <= BatchIds(scan[..i + 1])
    ensures CountsSeries(counts[scan[i].series := Count(counts, scan[i].series) + 1], scan[..i + 1])
  {
    CountOne(counts, scan, i);
    assert scan[..i + 1] == scan[..i] + [scan[i]];
    assert BatchIds(scan[..i + 1]) == BatchIds(scan[..i]) + {scan[i].id};
  }

  /** Where a pass is after so many plans of the scan. */
  ghost predicate Visited(c: Ctx, scan: seq<Header>, i: nat, counts: map<int, nat>, r: RetireList, p: PruneList)
    requires i <= |scan|
  {
    AllCovered(c, r, p, scan[..i]) && Elems(p.ids) <= BatchIds(scan[..i]) && CountsSeries(counts, scan[..i])
  }

  lemma VisitedNext(c: Ctx, scan: seq<Header>, i: nat, counts: map<int, nat>, p: PruneList, retire: RetireList,
                    prune: PruneList)
    requires i < |scan| && CountsSeries(counts, scan[..i]) && Elems(p.ids) <= BatchIds(scan[..i])
    requires AllCovered(c, retire, prune, scan[..i] + [scan[i]]) && Elems(prune.ids) <= Elems(p.ids) + {scan[i].id}
    ensures Visited(c, scan, i + 1, counts[scan[i].series := Count(counts, scan[i].series) + 1], retire, prune)
  {
    ScanVisited(scan, i, counts, p.ids, prune.ids);
    CoverPrefix(c, retire, prune, scan, i);
  }

  /** The i-th plan of the scan is new, and the scan so far counts its rank. */
  ghost predicate VisitsAt(headers: seq<Header>, scan: seq<Header>, i: nat)
    requires i < |scan|
  {
    && scan[i] in headers && !scan[i].state.Pruned? && scan[i].id !in BatchIds(scan[..i])
    && |Filter(scan[..i], InSeries(scan[i].series))| == Rank(headers, scan[i])
  }

  lemma ScanVisits(headers: seq<Header>, scan: seq<Header>, i: nat)
    requires UniqueIds(headers) && multiset(scan) == multiset(Filter(headers, Live())) && SortedBy(scan, RetentionLe)
    requires i < |scan|
    ensures VisitsAt(headers, scan, i)
  {
    ScanCountsRank(headers, scan, i);
    PermutationMembers(scan, Filter(headers, Live()));
    assert scan[i] in scan && Live()(scan[i]);
    FilterUnique(headers, Live());
    PermutedIdsDiffer(Filter(headers, Live()), scan);
    forall h | h in scan[..i] ensures h.id != scan[i].id {
      var k :| 0 <= k < i && scan[..i][k] == h;
      assert scan[k].id != scan[i].id;
    }
  }

  lemma RankOfNext(c: Ctx, scan: seq<Header>, i: nat, counts: map<int, nat>, p: PruneList)
    requires i < |scan| && VisitsAt(c.headers, scan, i) && CountsSeries(counts, scan[..i])
    requires Elems(p.ids) <= BatchIds(scan[..i])
    ensures scan[i] in c.headers && !scan[i].state.Pruned? && scan[i].id !in p.ids
    ensures Count(counts, scan[i].series) == Rank(c.headers, scan[i])
  {
    assert scan[i].id !in Elems(p.ids);
  }

  // ------------------------------------------------------------------- coverage

  /** A scanned plan is on the lists it belongs to. */
  ghost predicate Covered(c: Ctx, r: RetireList, p: PruneList, h: Header) {
    && (Eligible(c.headers, c.policy, h) ==> h.id in p.ids || h.id in p.failed)
    && (Retires(c.headers, c.policy, h) ==> h.id in r.ids || (h in p.batch && h.id in c.policy.referenced))
  }

  ghost predicate AllCovered(c: Ctx, r: RetireList, p: PruneList, seen: seq<Header>) {
    forall h <- seen :: Covered(c, r, p, h)
  }

  /** Lists only hand plans over: what was to be pruned still is, or failed, or is named as
      evidence; and every active plan of the batch so named is to be superseded. */
  ghost predicate HandsOver(c: Ctx, r: RetireList, p: PruneList, retire: RetireList, prune: PruneList) {
    && r.ids <= retire.ids && p.failed <= prune.failed && Elems(prune.ids) <= Elems(p.ids)
    && (forall id <- p.ids :: id !in c.policy.referenced ==> id in prune.ids || id in prune.failed)
    && (forall h <- p.batch :: h.id in c.policy.referenced && h.state.Active? ==> h.id in retire.ids)
  }

  lemma HeldAreCandidates(c: Ctx, p: PruneList)
    requires forall h <- p.batch :: Candidate(c, h)
    ensures forall h <- Filter(p.batch, Names(c.policy.referenced)) :: Candidate(c, h) && h.id in c.policy.referenced
    ensures forall h <- Unnamed(p, c.policy.referenced).batch :: h.id !in c.policy.referenced
  {
  }

  lemma FlushHandsOver(c: Ctx, r: RetireList, p: PruneList, retire: RetireList, prune: PruneList)
    requires var held := Filter(p.batch, Names(c.policy.referenced));
             r.ids <= retire.ids && ActiveListed(held, |held|, retire.ids)
    requires var rest := Unnamed(p, c.policy.referenced); prune == rest.(batch := []) || prune == FailedList(rest)
    ensures HandsOver(c, r, p, retire, prune)
  {
    var held, rest := Filter(p.batch, Names(c.policy.referenced)), Unnamed(p, c.policy.referenced);
    ElemsOfFilter(p.ids, BatchIds(held));
    ElemsOfFilter(rest.ids, Elems(IdsOf(rest.batch)));
    BatchParts(p.batch, c.policy.referenced);
    forall id | id in p.ids && id !in c.policy.referenced ensures id in prune.ids || id in prune.failed {
      assert id in Elems(p.ids) && id in Elems(rest.ids);
      assert id in Elems(prune.ids) || id in IdsOf(rest.batch);
    }
    forall h | h in p.batch && h.id in c.policy.referenced && h.state.Active? ensures h.id in retire.ids {
      assert Names(c.policy.referenced)(h) && h in held;
      var j :| 0 <= j < |held| && held[j] == h;
    }
  }

  lemma CoverFlushed(c: Ctx, r: RetireList, p: PruneList, retire: RetireList, prune: PruneList, seen: seq<Header>)
    requires AllCovered(c, r, p, seen) && HandsOver(c, r, p, retire, prune)
    ensures AllCovered(c, retire, prune, seen)
  {
    forall h | h in seen ensures Covered(c, retire, prune, h) {
      assert Covered(c, r, p, h);
    }
  }

  lemma CoverPrefix(c: Ctx, r: RetireList, p: PruneList, scan: seq<Header>, i: nat)
    requires i < |scan| && AllCovered(c, r, p, scan[..i] + [scan[i]])
    ensures AllCovered(c, r, p, scan[..i + 1])
  {
    assert scan[..i + 1] == scan[..i] + [scan[i]];
  }

  lemma CoverRetained(c: Ctx, r: RetireList, p: PruneList, seen: seq<Header>, h: Header)
    requires AllCovered(c, r, p, seen) && Rank(c.headers, h) < c.policy.retainLatest
    ensures AllCovered(c, r, p, seen + [h])
  {
    assert Covered(c, r, p, h);
  }

  lemma CoverDeferred(c: Ctx, r: RetireList, retire: RetireList, p: PruneList, seen: seq<Header>, h: Header)
    requires AllCovered(c, r, p, seen) && !Eligible(c.headers, c.policy, h)
    requires retire.ids == r.ids + if h.state.Active? then [h.id] else []
    ensures AllCovered(c, retire, p, seen + [h])
  {
    forall g | g in seen + [h] ensures Covered(c, retire, p, g) {
      assert g in seen ==> Covered(c, r, p, g);
    }
  }

  lemma CoverQueued(c: Ctx, r: RetireList, p: PruneList, seen: seq<Header>, h: Header)
    requires AllCovered(c, r, p, seen) && Candidate(c, h)
    ensures AllCovered(c, r, PruneList(p.ids + [h.id], p.batch + [h], p.failed), seen + [h])
  {
    forall g | g in seen + [h] ensures Covered(c, r, PruneList(p.ids + [h.id], p.batch + [h], p.failed), g) {
      assert g in seen ==> Covered(c, r, p, g);
    }
  }

  lemma QueueTally(c: Ctx, e: Effects, p: PruneList, h: Header)
    requires PruneTally(c, e, p) && Candidate(c, h) && h.id !in p.ids
    ensures PruneTally(c, e, PruneList(p.ids + [h.id], p.batch + [h], p.failed))
  {
    ElemsAppend(p.ids, [h.id]);
    assert h.id !in Elems(p.ids);
    assert BatchIds(p.batch + [h]) == BatchIds(p.batch) + {h.id};
  }

  /** With nothing pending every plan of the scan has been settled. */
  lemma AllSettled(c: Ctx, e: Effects, r: RetireList, p: PruneList, scan: seq<Header>)
    requires Lawful(c.headers, c.policy, e.pruned, e.superseded)
    requires RetireTally(c, e, r) && PruneTally(c, e, p) && AllCovered(c, r, p, scan) && r.batch == [] && p.batch == []
    requires multiset(scan) == multiset(Filter(c.headers, Live()))
    ensures e.superseded == RetiredIds(c.headers, c.policy) == Elems(r.ids)
    ensures e.pruned == Elems(p.ids) && EligibleIds(c.headers, c.policy) <= e.pruned + Elems(p.failed)
  {
    PermutationMembers(scan, Filter(c.headers, Live()));
    forall h | h in c.headers && Ranked(c.headers, c.policy, h) ensures Covered(c, r, p, h) {
      assert Live()(h);
      assert h in scan;
    }
    forall id | id in RetiredIds(c.headers, c.policy) ensures id in e.superseded {
      var h :| h in c.headers && Retires(c.headers, c.policy, h) && h.id == id;
      assert Covered(c, r, p, h) && id in Elems(r.ids);
    }
    forall id | id in EligibleIds(c.headers, c.policy) ensures id in e.pruned + Elems(p.failed) {
      var h :| h in c.headers && Eligible(c.headers, c.policy, h) && h.id == id;
      assert Covered(c, r, p, h);
      assert id in Elems(p.ids) || id in Elems(p.failed);
    }
  }

  /** The prune list once the delete of its batch failed. */
  function FailedList(p: PruneList): PruneList {
    PruneList(Filter(p.ids, NotIn(Elems(IdsOf(p.batch)))), [], p.failed + IdsOf(p.batch))
  }
}
