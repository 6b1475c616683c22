/** What a retention pass keeps wherever it stops, and what the passes after it do. */
module RowPlanPruneRuns {
  import opened Ordering
  import opened RowPlanHeaders
  import opened RowPlanRetention
  import opened RowPlanPrune
  import opened RowPlanFlips

  /** A header marked pruned has no chunk rows. */
  ghost predicate PrunedAreEmpty(headers: seq<Header>, chunks: seq<int>) {
    forall h <- headers :: h.state.Pruned? ==> h.id !in chunks
  }

  /** At every point a real pass can stop at, between any two of its commits: no pruned
      header has chunk rows, provided none had before. */
  lemma PrunedStayEmpty(c: Ctx, e: Effects, headers: seq<Header>, chunks: seq<int>)
    requires UniqueIds(c.headers) && Stands(c, e, headers, chunks) && PrunedAreEmpty(c.headers, c.chunks)
    ensures PrunedAreEmpty(headers, chunks)
  {
    if !c.dryRun {
      forall h | h in headers && h.state.Pruned? ensures h.id !in chunks {
        var k :| 0 <= k < |headers| && headers[k] == h;
        var g := c.headers[k];
        assert g in c.headers && g.id == h.id;
        if g.id in e.pruned {
          assert g.id in e.gone;
        } else {
          assert g.id in e.superseded || g == h;
        }
      }
    }
  }

  /** What protects a plan. */
  ghost predicate Protected(headers: seq<Header>, p: Policy, h: Header) {
    || h.frozen || h.artifact != "" || h.copiedBytes > 0 || h.id in p.referenced
    || |NewerIds(headers, h)| < p.retainLatest || p.cutoff.None? || h.created > p.cutoff.value
  }

  /** Wherever a pass stops, a protected plan is not newly pruned and has all its chunk rows,
      and no plan's identity, content or age has changed. */
  lemma ProtectedAreKept(c: Ctx, e: Effects, headers: seq<Header>, chunks: seq<int>, k: nat)
    requires UniqueIds(c.headers) && Stands(c, e, headers, chunks) && k < |c.headers|
    ensures |headers| == |c.headers|
    ensures headers[k] == c.headers[k].(state := headers[k].state, supersededAt := headers[k].supersededAt,
                                        prunedAt := headers[k].prunedAt, policy := headers[k].policy,
                                        summary := headers[k].summary, chunkCount := headers[k].chunkCount)
    ensures Protected(c.headers, c.policy, c.headers[k]) ==>
              && RowsOf(chunks, c.headers[k].id) == RowsOf(c.chunks, c.headers[k].id)
              && (headers[k].state.Pruned? <==> c.headers[k].state.Pruned?)
              && headers[k].summary == c.headers[k].summary && headers[k].chunkCount == c.headers[k].chunkCount
  {
    var g := c.headers[k];
    assert g in c.headers;
    if Protected(c.headers, c.policy, g) {
      VerdictsExactly(c.headers, c.policy, g);
      if g.id in EligibleIds(c.headers, c.policy) {
        PrunedRankPast(c.headers, c.policy, EligibleIds(c.headers, c.policy), g);
      }
      if g.id in e.superseded {
        RetiredIsActive(c.headers, c.policy, e.superseded, g);
      }
      WithoutCounts(c.chunks, e.gone, g.id);
    }
  }

  // -------------------------------------------------------------- later passes

  lemma MarkingKeepsKey(h: Header, pruned: set<int>, superseded: set<int>, now: int, text: string)
    ensures var m := Marking(pruned, superseded, now, text)(h);
            && m.id == h.id && m.series == h.series && m.created == h.created && m.frozen == h.frozen
            && m.copiedBytes == h.copiedBytes && m.artifact == h.artifact
  {
  }

  lemma SameRank(headers: seq<Header>, g: Header, h: Header)
    requires g.id == h.id && g.series == h.series && g.created == h.created
    ensures Rank(headers, g) == Rank(headers, h)
  {
    FilterAgree(headers, NewerThan(g), NewerThan(h));
  }

  /** For one plan: whether a later pass would prune or retire it. */
  lemma LaterVerdict(c: Ctx, e: Effects, g: Header)
    requires UniqueIds(c.headers) && Lawful(c.headers, c.policy, e.pruned, e.superseded) && g in c.headers
    ensures var later := Marked(c.headers, e.pruned, e.superseded, c.now, c.text);
            var m := Marking(e.pruned, e.superseded, c.now, c.text)(g);
            && (Eligible(later, c.policy, m) <==> Eligible(c.headers, c.policy, g) && g.id !in e.pruned)
            && (Retires(later, c.policy, m) <==> Retires(c.headers, c.policy, g) && g.id !in e.superseded)
  {
    var later := Marked(c.headers, e.pruned, e.superseded, c.now, c.text);
    var m := Marking(e.pruned, e.superseded, c.now, c.text)(g);
    MarkingKeepsKey(g, e.pruned, e.superseded, c.now, c.text);
    SameRank(later, m, g);
    if g.id in e.pruned {
      PrunedRankPast(c.headers, c.policy, e.pruned, g);
    }
    if g.id in e.superseded {
      RetiredIsActive(c.headers, c.policy, e.superseded, g);
    }
    if !g.state.Pruned? {
      PruningKeepsPlaces(c.headers, c.policy, g, e.pruned, e.superseded, c.now, c.text);
    }
  }

  /** A pass stopped anywhere leaves exactly the rest of its work to a later pass with the
      same cutoff: what it finished is never done again, and nothing new comes up. */
  lemma RestOfTheWork(c: Ctx, e: Effects)
    requires UniqueIds(c.headers) && Lawful(c.headers, c.policy, e.pruned, e.superseded)
    ensures var later := Marked(c.headers, e.pruned, e.superseded, c.now, c.text);
            && EligibleIds(later, c.policy) == EligibleIds(c.headers, c.policy) - e.pruned
            && RetiredIds(later, c.policy) == RetiredIds(c.headers, c.policy) - e.superseded
  {
    var later := Marked(c.headers, e.pruned, e.superseded, c.now, c.text);
    var marking := Marking(e.pruned, e.superseded, c.now, c.text);
    forall g | g in c.headers
      ensures marking(g) in later && marking(g).id == g.id
      ensures Eligible(later, c.policy, marking(g)) <==> Eligible(c.headers, c.policy, g) && g.id !in e.pruned
      ensures Retires(later, c.policy, marking(g)) <==> Retires(c.headers, c.policy, g) && g.id !in e.superseded
    {
      LaterVerdict(c, e, g);
      var k :| 0 <= k < |c.headers| && c.headers[k] == g;
      assert later[k] == marking(g);
    }
    forall m | m in later ensures exists g :: g in c.headers && marking(g) == m {
      var k :| 0 <= k < |later| && later[k] == m;
      assert c.headers[k] in c.headers && marking(c.headers[k]) == m;
    }
    SameEligibleLeft(c, e, later);
    SameRetiredLeft(c, e, later);
  }

  lemma SameEligibleLeft(c: Ctx, e: Effects, later: seq<Header>)
    requires UniqueIds(c.headers) && Lawful(c.headers, c.policy, e.pruned, e.superseded)
    requires var marking := Marking(e.pruned, e.superseded, c.now, c.text);
             && (forall m <- later :: exists g :: g in c.headers && marking(g) == m)
             && forall g <- c.headers ::
                  && marking(g) in later && marking(g).id == g.id
                  && (Eligible(later, c.policy, marking(g)) <==> Eligible(c.headers, c.policy, g) && g.id !in e.pruned)
                  && (Retires(later, c.policy, marking(g))
                      <==> Retires(c.headers, c.policy, g) && g.id !in e.superseded)
    ensures EligibleIds(later, c.policy) == EligibleIds(c.headers, c.policy) - e.pruned
  {
    var marking := Marking(e.pruned, e.superseded, c.now, c.text);
    forall id | id in EligibleIds(later, c.policy) ensures id in EligibleIds(c.headers, c.policy) - e.pruned {
      var m :| m in later && Eligible(later, c.policy, m) && m.id == id;
      var g :| g in c.headers && marking(g) == m;
    }
    forall id | id in EligibleIds(c.headers, c.policy) && id !in e.pruned ensures id in EligibleIds(later, c.policy) {
      var g :| g in c.headers && Eligible(c.headers, c.policy, g) && g.id == id;
      assert Eligible(later, c.policy, marking(g));
    }
  }

  lemma SameRetiredLeft(c: Ctx, e: Effects, later: seq<Header>)
    requires UniqueIds(c.headers) && Lawful(c.headers, c.policy, e.pruned, e.superseded)
    requires var marking := Marking(e.pruned, e.superseded, c.now, c.text);
             && (forall m <- later :: exists g :: g in c.headers && marking(g) == m)
             && forall g <- c.headers ::
                  && marking(g) in later && marking(g).id == g.id
                  && (Eligible(later, c.policy, marking(g)) <==> Eligible(c.headers, c.policy, g) && g.id !in e.pruned)
                  && (Retires(later, c.policy, marking(g))
                      <==> Retires(c.headers, c.policy, g) && g.id !in e.superseded)
    ensures RetiredIds(later, c.policy) == RetiredIds(c.headers, c.policy) - e.superseded
  {
    var marking := Marking(e.pruned, e.superseded, c.now, c.text);
    forall id | id in RetiredIds(later, c.policy) ensures id in RetiredIds(c.headers, c.policy) - e.superseded {
      var m :| m in later && Retires(later, c.policy, m) && m.id == id;
      var g :| g in c.headers && marking(g) == m;
    }
    forall id | id in RetiredIds(c.headers, c.policy) && id !in e.superseded ensures id in RetiredIds(later, c.policy) {
      var g :| g in c.headers && Retires(c.headers, c.policy, g) && g.id == id;
      assert Retires(later, c.policy, marking(g));
    }
  }

  /** A finished pass without failed deletes leaves a second one with the same cutoff nothing
      to do, whenever that runs and however it goes. */
  lemma NothingLeftToDo(c: Ctx, e: Effects, d: Ctx, f: Effects, headers: seq<Header>, chunks: seq<int>)
    requires UniqueIds(c.headers) && !c.dryRun && Lawful(c.headers, c.policy, e.pruned, e.superseded)
    requires e.pruned == EligibleIds(c.headers, c.policy) && e.superseded == RetiredIds(c.headers, c.policy)
    requires d.headers == Marked(c.headers, e.pruned, e.superseded, c.now, c.text) && d.policy == c.policy
    requires Stands(d, f, headers, chunks)
    ensures f == Effects({}, {}, {}) && headers == d.headers && chunks == d.chunks
  {
    RestOfTheWork(c, e);
    NothingDone(d);
  }

  /** Two passes with the same policy; the deletes of the first go well. */
  method PruneTwice(catalog: Catalog, retainLatest: int, cutoff: Option<int>, referenced: set<int>, now: int,
                    later: int, text: string, again: string,
                    hows: nat -> Delete, hows2: nat -> Delete, commits: nat, commits2: nat)
    returns (first: PassResult, second: PassResult, ghost headers: seq<Header>, ghost chunks: seq<int>)
    requires UniqueIds(catalog.headers) && retainLatest >= 1 && forall k: nat :: Clean(hows(k))
    modifies catalog
    ensures first.Done? ==> catalog.headers == headers && catalog.chunks == chunks
    ensures first.Done? && second.Done? ==> second.pruned == [] && second.superseded == []
    ensures first.Done? ==>
              && (forall id <- first.pruned :: id !in chunks)
              && Elems(first.pruned) == EligibleIds(old(catalog.headers), Policy(retainLatest, cutoff, referenced))
  {
    ghost var policy := Policy(retainLatest, cutoff, referenced);
    ghost var c := Ctx(catalog.headers, catalog.chunks, policy, now, text, false);
    ghost var e, f;
    first, e := catalog.PruneRowPlans(retainLatest, cutoff, referenced, now, text, false, None, hows, commits);
    headers, chunks := catalog.headers, catalog.chunks;
    MarkedUnique(c.headers, e.pruned, e.superseded, now, text);
    ghost var d := Ctx(headers, chunks, policy, later, again, false);
    second, f := catalog.PruneRowPlans(retainLatest, cutoff, referenced, later, again, false, None, hows2, commits2);
    if first.Done? {
      assert Elems(first.failed) == {};
      NothingLeftToDo(c, e, d, f, catalog.headers, catalog.chunks);
      forall id | id in first.pruned ensures id !in chunks {
        assert id in Elems(first.pruned) && id in e.gone;
      }
      if second.Done? {
        EmptyElems(second.pruned);
        EmptyElems(second.superseded);
      }
    }
  }

  lemma EmptyElems(xs: seq<int>)
    ensures Elems(xs) == {} <==> xs == []
  {
    if xs != [] {
      assert xs[0] in Elems(xs);
    }
  }

  /** A dry run names the plans a real run with clean deletes prunes and supersedes, and
      changes nothing. */
  method PreviewThenPrune(catalog: Catalog, retainLatest: int, cutoff: Option<int>, referenced: set<int>, now: int,
                          later: int, text: string, hows: nat -> Delete, commits: nat)
    returns (preview: PassResult, performed: PassResult, ghost between: seq<Header>)
    requires UniqueIds(catalog.headers) && forall k: nat :: Clean(hows(k))
    modifies catalog
    ensures between == old(catalog.headers)
    ensures preview.Done? && performed.Done? ==>
              Elems(preview.pruned) == Elems(performed.pruned)
              && Elems(preview.superseded) == Elems(performed.superseded)
  {
    ghost var e, f;
    preview, e := catalog.PruneRowPlans(retainLatest, cutoff, referenced, now, text, true, None, hows, 0);
    between := catalog.headers;
    performed, f := catalog.PruneRowPlans(retainLatest, cutoff, referenced, later, text, false, None, hows, commits);
    if preview.Done? && performed.Done? {
      assert Elems(preview.failed) == {} && Elems(performed.failed) == {};
    }
  }
}
