/** Pages of a plan's targets: the stateless cursor form and the single-pass walk. */
module RowPlanPages {
  import opened Ordering
  import opened RowPlanChunks
  import opened RowPlanReads

  /** An opened plan: small plans carry their targets in the header. */
  datatype Handle =
    | InlinePlan(stored: seq<Target>, total: int)
    | ChunkedPlan(table: seq<Chunk>, plan: string, total: int, chunkSize: int)

  /** What iterating the handle's targets from an ordinal on yields. */
  function TargetsFrom(h: Handle, start: int): Read {
    match h
    case InlinePlan(stored, _) => Read(Suffix(stored, 0, start), Finished)
    case ChunkedPlan(table, plan, total, chunkSize) => ReadFrom(table, plan, total, chunkSize, start)
  }

  method IterTargets(h: Handle, start: int) returns (read: Read)
    ensures read == TargetsFrom(h, start)
  {
    match h {
      case InlinePlan(stored, _) =>
        var emitted: seq<Emitted> := [];
        for ordinal := 0 to |stored|
          invariant emitted == Suffix(stored[..ordinal], 0, start)
        {
          SuffixSplits(stored[..ordinal + 1], ordinal, 0, start);
          assert stored[..ordinal + 1][..ordinal] == stored[..ordinal]
                 && stored[..ordinal + 1][ordinal..] == [stored[ordinal]];
          if ordinal >= start {
            emitted := emitted + [Emitted(ordinal, stored[ordinal].id, stored[ordinal].rowId)];
          }
        }
        assert stored[..|stored|] == stored;
        read := Read(emitted, Finished);
      case ChunkedPlan(table, plan, total, chunkSize) =>
        read := IterChunkedTargets(table, plan, total, chunkSize, start);
    }
  }

  /** One page.  `next` is the cursor to resume from; there is one iff the page ends short of
      the promised total. */
  datatype Page = Page(targets: seq<Emitted>, start: int, next: Option<int>)

  datatype PageResult = Served(page: Page) | BadCursor | Raised(why: ReadOutcome)

  function PageOf(targets: seq<Emitted>, start: int, total: int): Page {
    var next := start + |targets|;
    Page(targets, start, if next < total then Some(next) else None)
  }

  function Count(targets: seq<Emitted>, limit: nat): (n: nat)
    ensures n <= |targets| && n <= limit && (n == limit || n == |targets|)
  {
    if limit <= |targets| then limit else |targets|
  }

  /** The page at the front of a stream: the stream is not asked for more than `limit`
      targets, so a fault behind them goes unnoticed. */
  function FrontPage(read: Read, limit: nat, start: int, total: int): PageResult {
    var n := Count(read.emitted, limit);
    if n < limit && !read.outcome.Finished? then Raised(read.outcome)
    else Served(PageOf(read.emitted[..n], start, total))
  }

  function PageAt(h: Handle, limit: nat, start: int): PageResult {
    if start < 0 then BadCursor else FrontPage(TargetsFrom(h, start), limit, start, h.total)
  }

  method FetchPage(h: Handle, limit: nat, cursor: Option<int>) returns (result: PageResult)
    requires limit >= 1
    ensures result == PageAt(h, limit, if cursor.Some? then cursor.value else 0)
  {
    var start := if cursor.Some? then cursor.value else 0;
    if start < 0 {
      return BadCursor;
    }
    var read := IterTargets(h, start);
    var collected: seq<Emitted> := [];
    while |collected| < limit
      invariant |collected| <= limit && |collected| <= |read.emitted| && collected == read.emitted[..|collected|]
    {
      if |collected| == |read.emitted| {
        if !read.outcome.Finished? {
          return Raised(read.outcome);
        }
        break;
      }
      collected := collected + [read.emitted[|collected|]];
    }
    result := Served(PageOf(collected, start, h.total));
  }

  // ------------------------------------------------------------ single pass

  datatype Walk = Walk(pages: seq<Page>, raised: Option<ReadOutcome>)

  function Then(page: Page, rest: Walk): Walk { Walk([page] + rest.pages, rest.raised) }

  /** A stream that ends without raising has all the promised targets. */
  predicate Enough(read: Read, start: int, total: int) {
    read.outcome.Finished? ==> |read.emitted| >= total - start
  }

  function Rest(read: Read, n: nat): Read
    requires n <= |read.emitted|
  {
    Read(read.emitted[n..], read.outcome)
  }

  /** Slicing one stream into pages. */
  function Sliced(read: Read, limit: nat, start: int, total: int): Walk
    requires limit >= 1 && Enough(read, start, total)
    decreases |read.emitted|
  {
    var n := Count(read.emitted, limit);
    if n < limit && !read.outcome.Finished? then Walk([], Some(read.outcome))
    else
      var page := PageOf(read.emitted[..n], start, total);
      if page.next.None? then Walk([page], None) else Then(page, Sliced(Rest(read, n), limit, start + n, total))
  }

  /** What a consumer of the page iterator has after asking for some pages, and whether the
      iterator has ended by then. */
  datatype Iteration = Iteration(walk: Walk, ended: bool)

  function Ahead(page: Page, rest: Iteration): Iteration { Iteration(Then(page, rest.walk), rest.ended) }

  /** Slicing a stream into at most `asked` pages. */
  function SlicedFor(read: Read, limit: nat, start: int, total: int, asked: nat): Iteration
    requires limit >= 1
    decreases asked
  {
    if asked == 0 then Iteration(Walk([], None), false)
    else
      var n := Count(read.emitted, limit);
      if n < limit && !read.outcome.Finished? then Iteration(Walk([], Some(read.outcome)), true)
      else
        var page := PageOf(read.emitted[..n], start, total);
        if page.next.None? then Iteration(Walk([page], None), true)
        else Ahead(page, SlicedFor(Rest(read, n), limit, start + n, total, asked - 1))
  }

  /** Asking for more pages than targets are left ends the iteration, with all its pages. */
  lemma {:induction false} EnoughEnds(read: Read, limit: nat, start: int, total: int, asked: nat)
    requires limit >= 1 && Enough(read, start, total) && asked > |read.emitted|
    ensures SlicedFor(read, limit, start, total, asked) == Iteration(Sliced(read, limit, start, total), true)
    decreases asked
  {
    var n := Count(read.emitted, limit);
    if !(n < limit && !read.outcome.Finished?) && start + n < total {
      EnoughEnds(Rest(read, n), limit, start + n, total, asked - 1);
    }
  }

  /** A stream that ends early keeps the iteration going, empty page after empty page. */
  lemma {:induction false} TooFewNeverEnds(read: Read, limit: nat, start: int, total: int, asked: nat)
    requires limit >= 1 && !Enough(read, start, total)
    ensures !SlicedFor(read, limit, start, total, asked).ended
    ensures |SlicedFor(read, limit, start, total, asked).walk.pages| == asked
    decreases asked
  {
    if asked > 0 {
      var n := Count(read.emitted, limit);
      TooFewNeverEnds(Rest(read, n), limit, start + n, total, asked - 1);
    }
  }

  /** What the handle stores covers the header's promise from `start` on: always so for chunks,
      whose reader raises when it runs short. */
  predicate HoldsEnough(h: Handle, start: int) { h.InlinePlan? ==> start >= h.total || |h.stored| >= h.total }

  lemma EnoughExactly(h: Handle, start: nat)
    ensures Enough(TargetsFrom(h, start), start, h.total) <==> HoldsEnough(h, start)
  {
    if h.ChunkedPlan? {
      ReadsAreConsecutive(h.table, h.plan, h.total, h.chunkSize, start);
    }
  }

  function PagesAsked(h: Handle, limit: nat, start: int, asked: nat): Iteration
    requires limit >= 1
  {
    SlicedFor(TargetsFrom(h, start), limit, start, h.total, asked)
  }

  /** Over a handle the iteration ends exactly when inline storage, if that is what it has,
      holds the promised total or the start is past it. */
  lemma PagesEndExactly(h: Handle, limit: nat, start: nat)
    requires limit >= 1
    ensures (exists asked: nat :: PagesAsked(h, limit, start, asked).ended) <==> HoldsEnough(h, start)
  {
    var read := TargetsFrom(h, start);
    EnoughExactly(h, start);
    if Enough(read, start, h.total) {
      EnoughEnds(read, limit, start, h.total, |read.emitted| + 1);
      assert PagesAsked(h, limit, start, |read.emitted| + 1).ended;
    } else {
      forall asked: nat ensures !PagesAsked(h, limit, start, asked).ended {
        TooFewNeverEnds(read, limit, start, h.total, asked);
      }
    }
  }

  /** A consumer that asks the iterator for some pages from a cursor on; `None` is the error for a
      negative cursor. */
  method IterPages(h: Handle, limit: nat, cursor: Option<int>, asked: nat) returns (result: Option<Iteration>)
    requires limit >= 1
    ensures var start := if cursor.Some? then cursor.value else 0;
            result == if start < 0 then None else Some(PagesAsked(h, limit, start, asked))
  {
    var start := if cursor.Some? then cursor.value else 0;
    if start < 0 {
      return None;
    }
    var read := IterTargets(h, start);
    var pages := SlicePages(read, limit, start, h.total, asked);
    result := Some(pages);
  }

  method SlicePages(read: Read, limit: nat, start: int, total: int, asked: nat) returns (result: Iteration)
    requires limit >= 1
    ensures result == SlicedFor(read, limit, start, total, asked)
  {
    var left, ordinal, pages: seq<Page> := read, start, [];
    for k := 0 to asked
      invariant var rest := SlicedFor(left, limit, ordinal, total, asked - k);
                SlicedFor(read, limit, start, total, asked)
                == Iteration(Walk(pages + rest.walk.pages, rest.walk.raised), rest.ended)
    {
      var n := Count(left.emitted, limit);
      if n < limit && !left.outcome.Finished? {
        assert pages + [] == pages;
        return Iteration(Walk(pages, Some(left.outcome)), true);
      }
      var page := PageOf(left.emitted[..n], ordinal, total);
      if page.next.None? {
        return Iteration(Walk(pages + [page], None), true);
      }
      Regroup(pages, [page], SlicedFor(Rest(left, n), limit, ordinal + n, total, asked - k - 1).walk.pages);
      left, ordinal, pages := Rest(left, n), ordinal + n, pages + [page];
    }
    assert pages + [] == pages;
    result := Iteration(Walk(pages, None), false);
  }

  // -------------------------------------------------- following the cursors

  /** The handle gives the targets from any ordinal on. */
  ghost predicate Serves(h: Handle, targets: seq<Target>) {
    && |targets| >= h.total
    && forall start: nat :: TargetsFrom(h, start) == Read(Suffix(targets, 0, start), Finished)
  }

  /** Inline storage that holds the promised total serves its targets, and only then. */
  lemma InlineServes(h: Handle)
    requires h.InlinePlan?
    ensures Serves(h, h.stored) <==> |h.stored| >= h.total
  {
  }

  lemma WrittenServes(table: seq<Chunk>, plan: string, targets: seq<Target>, chunkSize: int, clock: nat -> int)
    requires Stores(table, plan, targets, Width(chunkSize), clock)
    ensures Serves(ChunkedPlan(table, plan, |targets|, chunkSize), targets)
  {
    forall start: nat
      ensures ReadFrom(table, plan, |targets|, chunkSize, start) == Read(Suffix(targets, 0, start), Finished)
    {
      ReadsTheSuffix(table, plan, targets, chunkSize, clock, start);
    }
  }

  function Fetch(h: Handle, limit: nat): int -> PageResult { (start: int) => PageAt(h, limit, start) }

  /** Calling for a page again and again with the cursor it returned. */
  function Followed(fetch: int -> PageResult, start: int, steps: nat): Walk
    decreases steps
  {
    match fetch(start)
    case Served(page) =>
      if page.next.None? || steps == 0 then Walk([page], None)
      else Then(page, Followed(fetch, page.next.value, steps - 1))
    case Raised(why) => Walk([], Some(why))
    case BadCursor => Walk([], None)
  }

  function Concat(pages: seq<Page>): seq<Emitted> {
    if pages == [] then [] else pages[0].targets + Concat(pages[1..])
  }

  lemma SuffixDrop(targets: seq<Target>, start: nat, n: nat)
    requires n <= |Suffix(targets, 0, start)|
    ensures Rest(Read(Suffix(targets, 0, start), Finished), n) == Read(Suffix(targets, 0, start + n), Finished)
    ensures Suffix(targets, 0, start) == Suffix(targets, 0, start)[..n] + Suffix(targets, 0, start + n)
  {
    assert Suffix(targets, 0, start)[n..] == Suffix(targets, 0, start + n);
  }

  lemma ConcatThen(page: Page, rest: Walk)
    ensures Concat(Then(page, rest).pages) == page.targets + Concat(rest.pages)
  {
    assert ([page] + rest.pages)[1..] == rest.pages;
  }

  /** The pages of a stream of targets. */
  ghost predicate PagesCover(walk: Walk, stream: seq<Emitted>, wanted: int) {
    && walk.raised.None? && Concat(walk.pages) <= stream && |Concat(walk.pages)| >= wanted
    && walk.pages != [] && walk.pages[|walk.pages| - 1].next.None?
  }

  lemma {:induction false} SlicesCover(targets: seq<Target>, limit: nat, start: nat, total: int)
    requires limit >= 1 && |targets| >= total
    ensures PagesCover(Sliced(Read(Suffix(targets, 0, start), Finished), limit, start, total),
                       Suffix(targets, 0, start), total - start)
    decreases total - start
  {
    var stream := Suffix(targets, 0, start);
    var n := Count(stream, limit);
    var page := PageOf(stream[..n], start, total);
    if page.next.None? {
      assert Concat([page]) == page.targets + Concat([]);
    } else {
      SuffixDrop(targets, start, n);
      SlicesCover(targets, limit, start + n, total);
      ConcatThen(page, Sliced(Read(Suffix(targets, 0, start + n), Finished), limit, start + n, total));
    }
  }

  function SuffixPage(targets: seq<Target>, limit: nat, start: int, total: int): Page {
    PageOf(Suffix(targets, 0, start)[..Count(Suffix(targets, 0, start), limit)], start, total)
  }

  lemma {:induction false} FollowingSlices(fetch: int -> PageResult, targets: seq<Target>, limit: nat, start: nat,
                                           total: int, steps: nat)
    requires limit >= 1 && |targets| >= total && steps >= total - start
    requires forall k: nat :: fetch(k) == Served(SuffixPage(targets, limit, k, total))
    ensures Followed(fetch, start, steps) == Sliced(Read(Suffix(targets, 0, start), Finished), limit, start, total)
    decreases steps
  {
    var stream := Suffix(targets, 0, start);
    var n := Count(stream, limit);
    if start + n < total {
      SuffixDrop(targets, start, n);
      FollowingSlices(fetch, targets, limit, start + n, total, steps - 1);
    }
  }

  lemma ServedPages(h: Handle, targets: seq<Target>, limit: nat)
    requires limit >= 1 && Serves(h, targets)
    ensures forall start: nat :: Fetch(h, limit)(start) == Served(SuffixPage(targets, limit, start, h.total))
  {
    forall start: nat ensures PageAt(h, limit, start) == Served(SuffixPage(targets, limit, start, h.total)) {
      assert TargetsFrom(h, start) == Read(Suffix(targets, 0, start), Finished);
    }
  }

  /** On a handle that serves its targets, the single pass gives the pages that following
      the cursors gives, in no more requests than targets are left; strung together they are
      the targets from the cursor on, none lost and none repeated, up to at least the
      promised total. */
  lemma PagesAgree(h: Handle, targets: seq<Target>, limit: nat, start: nat, steps: nat)
    requires limit >= 1 && Serves(h, targets) && steps >= h.total - start
    ensures Enough(TargetsFrom(h, start), start, h.total)
    ensures var walk := Sliced(TargetsFrom(h, start), limit, start, h.total);
            walk == Followed(Fetch(h, limit), start, steps)
            && PagesCover(walk, Suffix(targets, 0, start), h.total - start)
  {
    assert TargetsFrom(h, start) == Read(Suffix(targets, 0, start), Finished);
    SlicesCover(targets, limit, start, h.total);
    ServedPages(h, targets, limit);
    FollowingSlices(Fetch(h, limit), targets, limit, start, h.total, steps);
  }

  /** A stored plan of exactly its promised size is paged completely. */
  lemma WalkIsTheSuffix(h: Handle, targets: seq<Target>, limit: nat, start: nat)
    requires limit >= 1 && Serves(h, targets) && |targets| == h.total
    ensures Enough(TargetsFrom(h, start), start, h.total)
    ensures Concat(Sliced(TargetsFrom(h, start), limit, start, h.total).pages) == Suffix(targets, 0, start)
  {
    assert TargetsFrom(h, start) == Read(Suffix(targets, 0, start), Finished);
    SlicesCover(targets, limit, start, h.total);
  }

  /** Inline storage shorter than the header promises makes a cursor come back unchanged, so
      a client that follows it never ends; that is the only case. */
  lemma CursorsProgressExactly(stored: seq<Target>, total: int, limit: nat)
    requires limit >= 1
    ensures (forall start: nat | start < total ::
               PageAt(InlinePlan(stored, total), limit, start).page.next != Some(start))
       <==> |stored| >= total
  {
    var h := InlinePlan(stored, total);
    forall start: nat | start < total
      ensures PageAt(h, limit, start).page.next == Some(start) <==> start >= |stored|
    {
      assert |TargetsFrom(h, start).emitted| == if start >= |stored| then 0 else |stored| - start;
    }
    if |stored| < total {
      assert PageAt(h, limit, |stored|).page.next == Some(|stored|);
    }
  }
}
