/** Paging a plan that merely validates: when following cursors gives the pages of one pass. */
module RowPlanPageResume {
  import opened Ordering
  import opened RowPlanChunks
  import opened RowPlanPages
  import opened RowPlanValidation
  import opened RowPlanResume

  function Opened(table: seq<Chunk>, h: Header): Handle { ChunkedPlan(table, h.plan, h.targetCount, HeaderWidth(h)) }

  /** All targets of a plan, as one read gives them. */
  function Whole(table: seq<Chunk>, h: Header): seq<Emitted> {
    ReadFrom(table, h.plan, h.targetCount, HeaderWidth(h), 0).emitted
  }

  /** A page can be served from here: its first chunk starts on the boundary its header implies,
      and a last page that is not full meets no stray chunk. */
  ghost predicate PageResumes(table: seq<Chunk>, h: Header, limit: nat, start: nat) {
    OnBoundary(table, h, start) && (start + limit <= h.targetCount || NoStrays(table, h, start))
  }

  ghost function Resumes(table: seq<Chunk>, h: Header, limit: nat): nat -> bool {
    (start: nat) => PageResumes(table, h, limit, start)
  }

  /** Something holds of every page start from here to the total. */
  ghost predicate EveryPage(holds: nat -> bool, limit: nat, start: nat, total: nat)
    requires limit >= 1
    decreases total - start
  {
    start < total ==> holds(start) && EveryPage(holds, limit, start + limit, total)
  }

  function WholePage(whole: seq<Emitted>, limit: nat, start: nat): Page
    requires start <= |whole|
  {
    PageOf(whole[start..][..Count(whole[start..], limit)], start, |whole|)
  }

  /** A page served from a stream that begins with the rest of the plan. */
  lemma FrontOfRest(read: Read, rest: seq<Emitted>, limit: nat, start: nat, total: nat)
    requires limit >= 1 && rest <= read.emitted && start + |rest| == total
    ensures FrontPage(read, limit, start, total) == Served(PageOf(rest[..Count(rest, limit)], start, total))
       <==> limit <= |rest| || read == Read(rest, Finished)
  {
    var n := Count(read.emitted, limit);
    if limit <= |rest| {
      assert read.emitted[..limit] == rest[..limit];
    } else if |read.emitted| == |rest| {
      assert read.emitted == rest;
    } else {
      assert |read.emitted[..n]| == n > |rest|;
    }
  }

  /** A request for one page gives the page of the whole plan exactly when the page resumes. */
  lemma PageServedExactly(table: seq<Chunk>, h: Header, limit: nat, start: nat)
    requires Sound(table, h) && limit >= 1 && start < h.targetCount
    ensures |Whole(table, h)| == h.targetCount
    ensures PageAt(Opened(table, h), limit, start) == Served(WholePage(Whole(table, h), limit, start))
       <==> PageResumes(table, h, limit, start)
  {
    var whole, read := Whole(table, h), ReadFrom(table, h.plan, h.targetCount, HeaderWidth(h), start);
    ResumeSucceedsExactly(table, h, start);
    assert TargetsFrom(Opened(table, h), start) == read;
    if OnBoundary(table, h, start) {
      FrontOfRest(read, whole[start..], limit, start, h.targetCount);
    }
  }

  lemma FollowedFirst(fetch: int -> PageResult, start: int, steps: nat, page: Page, rest: Walk)
    requires page.next.Some? && steps >= 1
    ensures Followed(fetch, start, steps) == Then(page, rest) && rest.raised.None?
       <==> fetch(start) == Served(page) && Followed(fetch, page.next.value, steps - 1) == rest && rest.raised.None?
  {
    var walk := Then(page, rest);
    assert walk.pages[0] == page && walk.pages[1..] == rest.pages;
    if fetch(start).Served? && fetch(start).page.next.Some? {
      var other := Followed(fetch, fetch(start).page.next.value, steps - 1);
      assert Then(fetch(start).page, other).pages[0] == fetch(start).page;
      assert Then(fetch(start).page, other).pages[1..] == other.pages;
    }
  }

  lemma {:induction false} WholeSlices(whole: seq<Emitted>, limit: nat, start: nat)
    requires limit >= 1 && start < |whole|
    ensures Enough(Read(whole[start..], Finished), start, |whole|)
    ensures var walk := Sliced(Read(whole[start..], Finished), limit, start, |whole|);
            && walk.raised.None?
            && (start + limit >= |whole| ==> walk == Walk([WholePage(whole, limit, start)], None))
            && (start + limit < |whole| ==>
                  && Enough(Read(whole[start + limit..], Finished), start + limit, |whole|)
                  && walk == Then(WholePage(whole, limit, start),
                                  Sliced(Read(whole[start + limit..], Finished), limit, start + limit, |whole|)))
    decreases |whole| - start
  {
    if start + limit < |whole| {
      assert whole[start..][limit..] == whole[start + limit..];
      WholeSlices(whole, limit, start + limit);
    }
  }

  /** The single pass over the whole plan from an ordinal on. */
  function WholeWalk(whole: seq<Emitted>, limit: nat, start: nat): (walk: Walk)
    requires limit >= 1 && start < |whole|
  {
    Sliced(Read(whole[start..], Finished), limit, start, |whole|)
  }

  /** Following the cursors from a page on gives the single pass exactly when the page is the one
      of the whole plan and the rest follows it. */
  lemma FollowedPage(fetch: int -> PageResult, whole: seq<Emitted>, limit: nat, start: nat, steps: nat)
    requires limit >= 1 && start < |whole| && steps >= |whole| - start
    ensures start + limit >= |whole| ==>
              (Followed(fetch, start, steps) == WholeWalk(whole, limit, start)
               <==> fetch(start) == Served(WholePage(whole, limit, start)))
    ensures start + limit < |whole| ==>
              (Followed(fetch, start, steps) == WholeWalk(whole, limit, start)
               <==> fetch(start) == Served(WholePage(whole, limit, start))
                    && Followed(fetch, start + limit, steps - 1) == WholeWalk(whole, limit, start + limit))
  {
    WholeSlices(whole, limit, start);
    var page := WholePage(whole, limit, start);
    if start + limit < |whole| {
      WholeSlices(whole, limit, start + limit);
      FollowedFirst(fetch, start, steps, page, WholeWalk(whole, limit, start + limit));
    } else {
      LastPage(fetch, start, steps, page);
    }
  }

  lemma {:induction false} FollowingExactly(fetch: int -> PageResult, whole: seq<Emitted>, limit: nat, start: nat,
                                            steps: nat, resumes: nat -> bool)
    requires limit >= 1 && start < |whole| && steps >= |whole| - start
    requires forall k: nat | k < |whole| :: fetch(k) == Served(WholePage(whole, limit, k)) <==> resumes(k)
    ensures Followed(fetch, start, steps) == WholeWalk(whole, limit, start)
       <==> EveryPage(resumes, limit, start, |whole|)
    decreases steps
  {
    FollowedPage(fetch, whole, limit, start, steps);
    if start + limit < |whole| {
      FollowingExactly(fetch, whole, limit, start + limit, steps - 1, resumes);
    }
  }

  lemma LastPage(fetch: int -> PageResult, start: int, steps: nat, page: Page)
    requires page.next.None?
    ensures Followed(fetch, start, steps) == Walk([page], None) <==> fetch(start) == Served(page)
  {
    if fetch(start).Served? && fetch(start).page.next.Some? && steps >= 1 {
      var other := Followed(fetch, fetch(start).page.next.value, steps - 1);
      assert Then(fetch(start).page, other).pages[0] == fetch(start).page;
    } else if fetch(start).Served? {
      assert [fetch(start).page][0] == fetch(start).page;
    }
  }

  /** On a plan with a clean report, following the cursors from the first page gives the pages of
      the single pass exactly when every page of it can be resumed. */
  lemma ValidatedPagesAgreeExactly(table: seq<Chunk>, h: Header, limit: nat, steps: nat)
    requires Sound(table, h) && limit >= 1 && 0 < h.targetCount <= steps
    ensures Enough(TargetsFrom(Opened(table, h), 0), 0, h.targetCount)
    ensures Followed(Fetch(Opened(table, h), limit), 0, steps)
            == Sliced(TargetsFrom(Opened(table, h), 0), limit, 0, h.targetCount)
       <==> EveryPage(Resumes(table, h, limit), limit, 0, h.targetCount)
  {
    SoundPlansRead(table, h);
    var whole := Whole(table, h);
    assert whole[0..] == whole;
    assert TargetsFrom(Opened(table, h), 0) == Read(whole, Finished);
    forall k: nat | k < |whole|
      ensures Fetch(Opened(table, h), limit)(k) == Served(WholePage(whole, limit, k)) <==> Resumes(table, h, limit)(k)
    {
      PageServedExactly(table, h, limit, k);
    }
    FollowingExactly(Fetch(Opened(table, h), limit), whole, limit, 0, steps, Resumes(table, h, limit));
  }
}
