/** Listing row-plan headers page by page: an engine-ordered reader, a bounded top-k reader
    for engines that cannot order, and the walk that follows the returned cursors. */
module RowPlanListing {
  import opened Ordering
  import opened RowPlanHeaders

  datatype Key = Key(created: int, id: int)

  function KeyOf(row: Header): Key { Key(row.created, row.id) }

  predicate Before(a: Key, b: Key) { a.created < b.created || (a.created == b.created && a.id < b.id) }

  /** The requested filters.  An empty string leaves a column unfiltered. */
  datatype Query = Query(equal: map<string, string>, frozen: Option<bool>, since: Option<int>, until: Option<int>)

  function Column(row: Header, name: string): string { if name in row.columns then row.columns[name] else "" }

  predicate ColumnsMatch(q: Query, row: Header) {
    && (forall c <- q.equal :: q.equal[c] != "" ==> Column(row, c) == q.equal[c])
    && (q.frozen.Some? ==> row.frozen == q.frozen.value)
  }

  /** The client-side matcher. */
  predicate Matches(q: Query, row: Header) {
    && ColumnsMatch(q, row)
    && (q.since.Some? ==> row.created >= q.since.value)
    && (q.until.Some? ==> row.created <= q.until.value)
  }

  /** The pushed-down lower bound on the creation time: the later of `since` and the cursor's. */
  function LowerBound(q: Query, cursor: Option<Key>): Option<int> {
    match (q.since, cursor)
    case (Some(since), Some(key)) => Some(if since > key.created then since else key.created)
    case (Some(since), None) => Some(since)
    case (None, Some(key)) => Some(key.created)
    case (None, None) => None
  }

  /** The predicate pushed down to the engine. */
  predicate PushedDown(q: Query, cursor: Option<Key>, row: Header) {
    && ColumnsMatch(q, row)
    && (LowerBound(q, cursor).Some? ==> row.created >= LowerBound(q, cursor).value)
    && (q.until.Some? ==> row.created <= q.until.value)
  }

  function Pushed(q: Query, cursor: Option<Key>): Header -> bool { (row: Header) => PushedDown(q, cursor, row) }

  predicate Beyond(cursor: Option<Key>, row: Header) { cursor.None? || Before(cursor.value, KeyOf(row)) }

  function Wanted(q: Query, cursor: Option<Key>): Header -> bool {
    (row: Header) => Matches(q, row) && Beyond(cursor, row)
  }

  /** The matching plans after a cursor, in key order: what pages are cut from. */
  function Listing(table: seq<Header>, q: Query, cursor: Option<Key>): seq<Header> {
    StableSort(Filter(table, Wanted(q, cursor)), ByKey)
  }

  // ------------------------------------------------------------- ordered rows

  ghost predicate Ascending(rows: seq<Header>) {
    forall i, j :: 0 <= i < j < |rows| ==> Before(KeyOf(rows[i]), KeyOf(rows[j]))
  }

  /** With unique ids an ordered permutation is strictly ascending. */
  lemma SortedIsAscending(rows: seq<Header>, sorted: seq<Header>)
    requires UniqueIds(rows) && multiset(sorted) == multiset(rows) && SortedBy(sorted, ByKey)
    ensures Ascending(sorted)
  {
    PermutedIdsDiffer(rows, sorted);
    forall i, j | 0 <= i < j < |sorted| ensures Before(KeyOf(sorted[i]), KeyOf(sorted[j])) {
      assert ByKey(sorted[i], sorted[j]);
    }
  }

  lemma {:induction false} AscendingIsUnique(a: seq<Header>, b: seq<Header>)
    requires Ascending(a) && Ascending(b) && multiset(a) == multiset(b)
    ensures a == b
  {
    SortedUnique(a, b, ByKey);
  }

  lemma ListingAscends(table: seq<Header>, q: Query, cursor: Option<Key>)
    requires UniqueIds(table)
    ensures Ascending(Listing(table, q, cursor))
    ensures multiset(Listing(table, q, cursor)) == multiset(Filter(table, Wanted(q, cursor)))
  {
    var rows := Filter(table, Wanted(q, cursor));
    FilterUnique(table, Wanted(q, cursor));
    SortSorts(rows, ByKey);
    SortedIsAscending(rows, StableSort(rows, ByKey));
  }

  lemma {:induction false} FilterAscending(rows: seq<Header>, keep: Header -> bool)
    requires Ascending(rows)
    ensures Ascending(Filter(rows, keep))
  {
    if rows != [] {
      FilterAscending(rows[1..], keep);
      var rest := Filter(rows[1..], keep);
      forall i | 0 <= i < |rest| ensures Before(KeyOf(rows[0]), KeyOf(rest[i])) {
        assert rest[i] in rows[1..];
        var j :| 0 <= j < |rows[1..]| && rows[1..][j] == rest[i];
        assert rows[j + 1] == rest[i];
      }
    }
  }

  // ---------------------------------------------------------------- two readers

  /** What an engine that can order returns. */
  ghost predicate EngineOrdered(scan: seq<Header>, table: seq<Header>, q: Query, cursor: Option<Key>) {
    multiset(scan) == multiset(Filter(table, Pushed(q, cursor))) && SortedBy(scan, ByKey)
  }

  lemma EngineListing(scan: seq<Header>, table: seq<Header>, q: Query, cursor: Option<Key>)
    requires UniqueIds(table) && EngineOrdered(scan, table, q, cursor)
    ensures Ascending(scan) && Filter(scan, Wanted(q, cursor)) == Listing(table, q, cursor)
    ensures forall row <- scan :: PushedDown(q, cursor, row)
  {
    var pushed := Filter(table, Pushed(q, cursor));
    FilterUnique(table, Pushed(q, cursor));
    SortedIsAscending(pushed, scan);
    FilterAscending(scan, Wanted(q, cursor));
    PushedKeepsWanted(scan, table, q, cursor);
    ListingAscends(table, q, cursor);
    AscendingIsUnique(Filter(scan, Wanted(q, cursor)), Listing(table, q, cursor));
    PermutationMembers(scan, pushed);
  }

  lemma PushedKeepsWanted(scan: seq<Header>, table: seq<Header>, q: Query, cursor: Option<Key>)
    requires multiset(scan) == multiset(Filter(table, Pushed(q, cursor)))
    ensures multiset(Filter(scan, Wanted(q, cursor))) == multiset(Filter(table, Wanted(q, cursor)))
  {
    RowsBeyond(table, scan, Pushed(q, cursor), Wanted(q, cursor));
  }

  datatype Verdict = Stop | Skip | Keep

  /** What the ordered reader does with a row of the scan. */
  function Judge(q: Query, cursor: Option<Key>, row: Header): Verdict {
    if q.until.Some? && row.created > q.until.value then Stop
    else if q.since.Some? && row.created < q.since.value then Skip
    else if cursor.Some? && !Before(cursor.value, KeyOf(row)) then Skip
    else Keep
  }

  lemma JudgeIsWanted(q: Query, cursor: Option<Key>, row: Header)
    requires PushedDown(q, cursor, row)
    ensures !Judge(q, cursor, row).Stop? && (Judge(q, cursor, row).Keep? <==> Wanted(q, cursor)(row))
  {
  }

  /** What is wanted of the scan from a row on, and what the reader's verdict on the row says
      about it: it stops only where no wanted row follows. */
  ghost predicate JudgedAt(rests: seq<seq<Header>>, scan: seq<Header>, q: Query, cursor: Option<Key>, i: nat)
    requires i < |scan| && |rests| == |scan| + 1
  {
    match Judge(q, cursor, scan[i])
    case Stop => rests[i] == []
    case Skip => rests[i] == rests[i + 1]
    case Keep => rests[i] == [scan[i]] + rests[i + 1]
  }

  /** Reads the ordered scan until the page and one more row are found. */
  method ReadPlansOrdered(scan: seq<Header>, q: Query, cursor: Option<Key>, pageSize: nat, ghost table: seq<Header>)
    returns (rows: seq<Header>, hasMore: bool)
    requires UniqueIds(table) && EngineOrdered(scan, table, q, cursor)
    ensures rows == FirstOf(Listing(table, q, cursor), pageSize)
    ensures hasMore <==> |Listing(table, q, cursor)| > pageSize
  {
    EngineListing(scan, table, q, cursor);
    ghost var rests := OrderedScanJudges(scan, q, cursor);
    rows, hasMore := ScanOrdered(scan, q, cursor, pageSize, rests);
  }

  method ScanOrdered(scan: seq<Header>, q: Query, cursor: Option<Key>, pageSize: nat, ghost rests: seq<seq<Header>>)
    returns (rows: seq<Header>, hasMore: bool)
    requires |rests| == |scan| + 1 && rests[|scan|] == []
    requires forall i: nat :: i < |scan| ==> JudgedAt(rests, scan, q, cursor, i)
    ensures rows == FirstOf(rests[0], pageSize)
    ensures hasMore <==> |rests[0]| > pageSize
  {
    rows, hasMore := [], false;
    var i := 0;
    while i < |scan|
      invariant i <= |scan| && |rows| <= pageSize
      invariant rests[0] == rows + rests[i]
    {
      assert JudgedAt(rests, scan, q, cursor, i);
      var verdict := Judge(q, cursor, scan[i]);
      if verdict.Stop? {
        break;
      }
      if verdict.Keep? {
        if |rows| == pageSize {
          PageReached(rows, rests[i], pageSize);
          return rows, true;
        }
        Regroup(rows, [scan[i]], rests[i + 1]);
        rows := rows + [scan[i]];
      }
      i := i + 1;
    }
    PageReached(rows, [], pageSize);
  }

  lemma PageReached<T>(rows: seq<T>, rest: seq<T>, pageSize: nat)
    requires |rows| <= pageSize && (rest == [] || |rows| == pageSize)
    ensures FirstOf(rows + rest, pageSize) == rows && (|rows + rest| > pageSize <==> rest != [])
  {
  }

  lemma OrderedScanJudges(scan: seq<Header>, q: Query, cursor: Option<Key>) returns (rests: seq<seq<Header>>)
    requires Ascending(scan) && forall row <- scan :: PushedDown(q, cursor, row)
    ensures |rests| == |scan| + 1 && rests[|scan|] == [] && rests[0] == Filter(scan, Wanted(q, cursor))
    ensures forall i: nat :: i < |scan| ==> JudgedAt(rests, scan, q, cursor, i)
  {
    var keep := Wanted(q, cursor);
    rests := seq(|scan| + 1, i requires 0 <= i <= |scan| => Filter(scan[i..], keep));
    assert scan[0..] == scan;
    forall i: nat | i < |scan| ensures JudgedAt(rests, scan, q, cursor, i) {
      JudgeIsWanted(q, cursor, scan[i]);
      FilterHead(scan, i, keep);
    }
  }

  lemma TakeTail<T>(xs: seq<T>, k: nat)
    requires xs != [] && k > 0
    ensures FirstOf(xs, k) == [xs[0]] + FirstOf(xs[1..], k - 1)
  {
  }

  /** Only the k smallest so far matter for the k smallest. */
  lemma {:induction false} TopOfInsert(row: Header, rows: seq<Header>, k: nat)
    ensures FirstOf(Insert(row, rows, ByKey), k) == FirstOf(Insert(row, FirstOf(rows, k), ByKey), k)
  {
    if k == 0 {
    } else if rows == [] {
      assert FirstOf(rows, k) == rows;
    } else {
      TakeTail(rows, k);
      assert FirstOf(rows, k - 1) == FirstOf(FirstOf(rows, k), k - 1);
      TopOfInsert(row, rows[1..], k - 1);
      TopOfInsertStep(row, rows, FirstOf(rows, k), k);
    }
  }

  lemma TopOfInsertStep(row: Header, rows: seq<Header>, top: seq<Header>, k: nat)
    requires rows != [] && k > 0 && top == [rows[0]] + FirstOf(rows[1..], k - 1) && top == FirstOf(rows, k)
    requires FirstOf(rows, k - 1) == FirstOf(top, k - 1)
    requires FirstOf(Insert(row, rows[1..], ByKey), k - 1)
             == FirstOf(Insert(row, FirstOf(rows[1..], k - 1), ByKey), k - 1)
    ensures FirstOf(Insert(row, rows, ByKey), k) == FirstOf(Insert(row, top, ByKey), k)
  {
    assert top[1..] == FirstOf(rows[1..], k - 1);
    if ByKey(row, rows[0]) {
      SameHead(row, rows, top, k);
    } else {
      SameHead(rows[0], Insert(row, rows[1..], ByKey), Insert(row, top[1..], ByKey), k);
    }
  }

  lemma SameHead<T>(head: T, a: seq<T>, b: seq<T>, k: nat)
    requires k > 0 && FirstOf(a, k - 1) == FirstOf(b, k - 1)
    ensures FirstOf([head] + a, k) == FirstOf([head] + b, k)
  {
    TakeTail([head] + a, k);
    TakeTail([head] + b, k);
    assert ([head] + a)[1..] == a && ([head] + b)[1..] == b;
  }

  lemma InsertLast(rows: seq<Header>, row: Header)
    requires UniqueIds(rows + [row])
    ensures StableSort(rows + [row], ByKey) == Insert(row, StableSort(rows, ByKey), ByKey)
  {
    var all, sorted := rows + [row], Insert(row, StableSort(rows, ByKey), ByKey);
    SortSorts(rows, ByKey);
    InsertSorted(row, StableSort(rows, ByKey), ByKey);
    SortSorts(all, ByKey);
    assert multiset(sorted) == multiset([row]) + multiset(rows) == multiset(all);
    SortedIsAscending(all, sorted);
    SortedIsAscending(all, StableSort(all, ByKey));
    AscendingIsUnique(sorted, StableSort(all, ByKey));
  }

  lemma UniquePrefix(rows: seq<Header>, n: nat)
    requires UniqueIds(rows) && n <= |rows|
    ensures UniqueIds(rows[..n])
  {
  }

  lemma AddCandidate(table: seq<Header>, q: Query, cursor: Option<Key>, i: nat)
    requires UniqueIds(table) && i < |table|
    ensures var wanted := Wanted(q, cursor)(table[i]);
            var before, after := Listing(table[..i], q, cursor), Listing(table[..i + 1], q, cursor);
            && after == (if wanted then Insert(table[i], before, ByKey) else before)
            && |after| == |before| + (if wanted then 1 else 0)
  {
    var keep := Wanted(q, cursor);
    FilterSnoc(table, i, keep);
    if keep(table[i]) {
      UniquePrefix(table, i + 1);
      FilterUnique(table[..i + 1], keep);
      InsertLast(Filter(table[..i], keep), table[i]);
    } else {
      assert Filter(table[..i + 1], keep) == Filter(table[..i], keep);
    }
  }

  /** The test the bounded reader applies. */
  predicate Qualifies(q: Query, cursor: Option<Key>, row: Header) {
    PushedDown(q, cursor, row) && Matches(q, row) && !(cursor.Some? && !Before(cursor.value, KeyOf(row)))
  }

  lemma QualifiesIsWanted(q: Query, cursor: Option<Key>, row: Header)
    ensures Qualifies(q, cursor, row) <==> Wanted(q, cursor)(row)
  {
  }

  lemma TakeTwice<T>(xs: seq<T>, n: nat)
    ensures FirstOf(FirstOf(xs, n + 1), n) == FirstOf(xs, n)
  {
  }

  lemma HeapStep(table: seq<Header>, q: Query, cursor: Option<Key>, i: nat, k: nat)
    requires UniqueIds(table) && i < |table|
    ensures var before, after := Listing(table[..i], q, cursor), Listing(table[..i + 1], q, cursor);
            if Qualifies(q, cursor, table[i])
            then FirstOf(Insert(table[i], FirstOf(before, k), ByKey), k) == FirstOf(after, k) && |after| == |before| + 1
            else after == before
  {
    AddCandidate(table, q, cursor, i);
    QualifiesIsWanted(q, cursor, table[i]);
    TopOfInsert(table[i], Listing(table[..i], q, cursor), k);
  }

  /** The listings of the table's prefixes, as the bounded reader sees them one row apart. */
  ghost predicate GrowsAt(listings: seq<seq<Header>>, table: seq<Header>, q: Query, cursor: Option<Key>, k: nat, i: nat)
    requires i < |table| && |listings| == |table| + 1
  {
    if Qualifies(q, cursor, table[i])
    then FirstOf(Insert(table[i], FirstOf(listings[i], k), ByKey), k) == FirstOf(listings[i + 1], k)
         && |listings[i + 1]| == |listings[i]| + 1
    else listings[i + 1] == listings[i]
  }

  lemma PrefixListings(table: seq<Header>, q: Query, cursor: Option<Key>, k: nat) returns (listings: seq<seq<Header>>)
    requires UniqueIds(table)
    ensures |listings| == |table| + 1 && listings[0] == [] && listings[|table|] == Listing(table, q, cursor)
    ensures forall i: nat :: i < |table| ==> GrowsAt(listings, table, q, cursor, k, i)
  {
    listings := seq(|table| + 1, i requires 0 <= i <= |table| => Listing(table[..i], q, cursor));
    forall i: nat | i < |table| ensures GrowsAt(listings, table, q, cursor, k, i) {
      GrowsHere(listings, table, q, cursor, k, i);
    }
    EmptyListing(table, q, cursor);
  }

  lemma GrowsHere(listings: seq<seq<Header>>, table: seq<Header>, q: Query, cursor: Option<Key>, k: nat, i: nat)
    requires UniqueIds(table) && i < |table| && |listings| == |table| + 1
    requires listings[i] == Listing(table[..i], q, cursor) && listings[i + 1] == Listing(table[..i + 1], q, cursor)
    ensures GrowsAt(listings, table, q, cursor, k, i)
  {
    HeapStep(table, q, cursor, i, k);
  }

  lemma EmptyListing(table: seq<Header>, q: Query, cursor: Option<Key>)
    ensures Listing(table[..0], q, cursor) == [] && table[..|table|] == table
  {
    assert table[..0] == [];
  }

  /** Keeps the k smallest keys seen so far while it counts what qualifies. */
  method Smallest(table: seq<Header>, q: Query, cursor: Option<Key>, k: nat, ghost listings: seq<seq<Header>>)
    returns (kept: seq<Header>, qualifying: nat)
    requires |listings| == |table| + 1 && listings[0] == []
    requires forall i: nat :: i < |table| ==> GrowsAt(listings, table, q, cursor, k, i)
    ensures kept == FirstOf(listings[|table|], k) && qualifying == |listings[|table|]|
  {
    kept, qualifying := [], 0;
    for i := 0 to |table|
      invariant kept == FirstOf(listings[i], k) && qualifying == |listings[i]|
    {
      assert GrowsAt(listings, table, q, cursor, k, i);
      if Qualifies(q, cursor, table[i]) {
        kept, qualifying := FirstOf(Insert(table[i], kept, ByKey), k), qualifying + 1;
      }
    }
  }

  /** The page from a bounded top-k of one row more than it holds. */
  method ReadPlansBoundedHeap(table: seq<Header>, q: Query, cursor: Option<Key>, pageSize: nat)
    returns (rows: seq<Header>, hasMore: bool)
    requires UniqueIds(table)
    ensures rows == FirstOf(Listing(table, q, cursor), pageSize)
    ensures hasMore <==> |Listing(table, q, cursor)| > pageSize
  {
    ghost var listings := PrefixListings(table, q, cursor, pageSize + 1);
    var kept, qualifying := Smallest(table, q, cursor, pageSize + 1, listings);
    TakeTwice(listings[|table|], pageSize);
    rows, hasMore := FirstOf(kept, pageSize), qualifying > pageSize;
  }

  // --------------------------------------------------------------------- pages

  datatype Page = Page(records: seq<Header>, next: Option<Key>, hasMore: bool)

  function NormalizePageSize(requested: Option<int>, standard: nat, maximum: nat): (size: Option<nat>)
    requires 1 <= standard && 1 <= maximum
    ensures size.None? <==> requested.Some? && requested.value <= 0
    ensures size.Some? ==> size.value >= 1
    ensures requested.None? ==> size == Some(standard)
    ensures requested.Some? && size.Some? ==> size.value <= maximum && size.value <= requested.value
    ensures requested.Some? && size.Some? ==> size.value == maximum || size.value == requested.value
  {
    match requested
    case None => Some(standard)
    case Some(n) => if n <= 0 then None else Some(if n < maximum then n else maximum)
  }

  function PageAfter(table: seq<Header>, q: Query, cursor: Option<Key>, pageSize: nat): Page {
    PageOfListing(Listing(table, q, cursor), pageSize)
  }

  /** One page, whichever reader serves it: `ordered` is the engine's ordered scan, if it can
      give one. */
  method ListRowPlans(table: seq<Header>, ordered: Option<seq<Header>>, q: Query, cursor: Option<Key>, pageSize: nat)
    returns (page: Page)
    requires UniqueIds(table) && (ordered.Some? ==> EngineOrdered(ordered.value, table, q, cursor))
    ensures page == PageAfter(table, q, cursor, pageSize)
  {
    var rows, hasMore;
    if ordered.Some? {
      rows, hasMore := ReadPlansOrdered(ordered.value, q, cursor, pageSize, table);
      MatchingStays(table, q, cursor, pageSize);
      rows := Filter(rows, MatcherOf(q));
    } else {
      rows, hasMore := ReadPlansBoundedHeap(table, q, cursor, pageSize);
    }
    PageFrom(Listing(table, q, cursor), rows, hasMore, pageSize);
    page := Page(rows, if hasMore && rows != [] then Some(KeyOf(rows[|rows| - 1])) else None, hasMore);
  }

  lemma PageFrom(listing: seq<Header>, rows: seq<Header>, hasMore: bool, pageSize: nat)
    requires rows == FirstOf(listing, pageSize) && (hasMore <==> |listing| > pageSize)
    ensures PageOfListing(listing, pageSize)
         == Page(rows, if hasMore && rows != [] then Some(KeyOf(rows[|rows| - 1])) else None, hasMore)
  {
  }

  function MatcherOf(q: Query): Header -> bool { (row: Header) => Matches(q, row) }

  lemma MatchingStays(table: seq<Header>, q: Query, cursor: Option<Key>, pageSize: nat)
    ensures Filter(FirstOf(Listing(table, q, cursor), pageSize), MatcherOf(q))
            == FirstOf(Listing(table, q, cursor), pageSize)
  {
    var listing := Listing(table, q, cursor);
    SortMembers(Filter(table, Wanted(q, cursor)), ByKey);
    forall row | row in FirstOf(listing, pageSize) ensures MatcherOf(q)(row) {
      assert row in listing;
      assert Wanted(q, cursor)(row);
    }
    FilterAll(FirstOf(listing, pageSize), MatcherOf(q));
  }

  lemma RowsBeyond(table: seq<Header>, listing: seq<Header>, keep: Header -> bool, later: Header -> bool)
    requires multiset(listing) == multiset(Filter(table, keep)) && forall row: Header :: later(row) ==> keep(row)
    ensures multiset(Filter(listing, later)) == multiset(Filter(table, later))
  {
    FilterFilter(table, keep, later, later);
    FilterPermutation(listing, Filter(table, keep), later);
  }

  lemma BeyondLater(q: Query, cursor: Option<Key>, last: Header, row: Header)
    requires Wanted(q, cursor)(last)
    ensures Wanted(q, Some(KeyOf(last)))(row) ==> Wanted(q, cursor)(row)
  {
  }

  /** What is left after a page is the listing after its cursor. */
  lemma NextListing(table: seq<Header>, q: Query, cursor: Option<Key>, n: nat)
    requires UniqueIds(table) && 0 < n <= |Listing(table, q, cursor)|
    ensures Listing(table, q, Some(KeyOf(Listing(table, q, cursor)[n - 1]))) == Listing(table, q, cursor)[n..]
  {
    var listing := Listing(table, q, cursor);
    var key := Some(KeyOf(listing[n - 1]));
    ListingAscends(table, q, cursor);
    ListingAscends(table, q, key);
    SortMembers(Filter(table, Wanted(q, cursor)), ByKey);
    assert Wanted(q, cursor)(listing[n - 1]);
    forall row: Header ensures Wanted(q, key)(row) ==> Wanted(q, cursor)(row) {
      BeyondLater(q, cursor, listing[n - 1], row);
    }
    RowsBeyond(table, listing, Wanted(q, cursor), Wanted(q, key));
    AfterNth(listing, q, n);
    AscendingIsUnique(Listing(table, q, key), listing[n..]);
  }

  lemma AfterNth(listing: seq<Header>, q: Query, n: nat)
    requires Ascending(listing) && 0 < n <= |listing| && forall row <- listing :: Matches(q, row)
    ensures Filter(listing, Wanted(q, Some(KeyOf(listing[n - 1])))) == listing[n..]
    ensures Ascending(listing[n..])
  {
    var keep := Wanted(q, Some(KeyOf(listing[n - 1])));
    forall i: nat | i < |listing| ensures keep(listing[i]) <==> i >= n {
      assert Matches(q, listing[i]);
      if i < n - 1 {
        assert Before(KeyOf(listing[i]), KeyOf(listing[n - 1]));
      } else if i > n - 1 {
        assert Before(KeyOf(listing[n - 1]), KeyOf(listing[i]));
      }
    }
    FilterFrom(listing, n, |listing|, keep);
    assert listing[..|listing|] == listing;
  }

  /** Following the cursors from one on, at most so many requests: the records seen, and
      whether the walk ended. */
  function Visited(fetch: Option<Key> -> Page, cursor: Option<Key>, requests: nat): (seq<Header>, bool)
    decreases requests
  {
    if requests == 0 then ([], false)
    else
      var page := fetch(cursor);
      if page.next.None? then (page.records, true)
      else
        var rest := Visited(fetch, page.next, requests - 1);
        (page.records + rest.0, rest.1)
  }

  function PageOfListing(listing: seq<Header>, pageSize: nat): Page {
    var records := FirstOf(listing, pageSize);
    var hasMore := |listing| > pageSize;
    Page(records, if hasMore && records != [] then Some(KeyOf(records[|records| - 1])) else None, hasMore)
  }

  /** From a cursor the walk gets a page of what is left, and what is left after that page
      is what the page's cursor leaves. */
  ghost predicate WalksAt(fetch: Option<Key> -> Page, listing: Option<Key> -> seq<Header>, pageSize: nat,
                          c: Option<Key>)
    requires pageSize >= 1
  {
    var rows := listing(c);
    if |rows| > pageSize
    then fetch(c) == Page(rows[..pageSize], Some(KeyOf(rows[pageSize - 1])), true)
         && listing(Some(KeyOf(rows[pageSize - 1]))) == rows[pageSize..]
    else fetch(c) == Page(rows, None, false)
  }

  lemma {:induction false} WalkVisitsListing(
      fetch: Option<Key> -> Page, listing: Option<Key> -> seq<Header>, cursor: Option<Key>, pageSize: nat,
      requests: nat)
    requires pageSize >= 1 && requests > |listing(cursor)|
    requires forall c: Option<Key> :: WalksAt(fetch, listing, pageSize, c)
    ensures Visited(fetch, cursor, requests) == (listing(cursor), true)
    decreases requests
  {
    var rows := listing(cursor);
    assert WalksAt(fetch, listing, pageSize, cursor);
    if |rows| > pageSize {
      WalkVisitsListing(fetch, listing, Some(KeyOf(rows[pageSize - 1])), pageSize, requests - 1);
      assert rows == rows[..pageSize] + rows[pageSize..];
    }
  }

  function Fetcher(table: seq<Header>, q: Query, pageSize: nat): Option<Key> -> Page {
    (cursor: Option<Key>) => PageAfter(table, q, cursor, pageSize)
  }

  function ListingFrom(table: seq<Header>, q: Query): Option<Key> -> seq<Header> {
    (cursor: Option<Key>) => Listing(table, q, cursor)
  }

  /** The walk ends within as many requests as there are matches left (and one for none), and
      visits the listing: every match after the cursor, once, in key order. */
  lemma FollowingCursorsVisitsAll(table: seq<Header>, q: Query, cursor: Option<Key>, pageSize: nat, requests: nat)
    requires UniqueIds(table) && pageSize >= 1 && requests > |Listing(table, q, cursor)|
    ensures Visited(Fetcher(table, q, pageSize), cursor, requests) == (Listing(table, q, cursor), true)
  {
    forall c: Option<Key> ensures WalksAt(Fetcher(table, q, pageSize), ListingFrom(table, q), pageSize, c) {
      WalksHere(table, q, pageSize, c);
    }
    WalkVisitsListing(Fetcher(table, q, pageSize), ListingFrom(table, q), cursor, pageSize, requests);
  }

  lemma WalksHere(table: seq<Header>, q: Query, pageSize: nat, c: Option<Key>)
    requires UniqueIds(table) && pageSize >= 1
    ensures WalksAt(Fetcher(table, q, pageSize), ListingFrom(table, q), pageSize, c)
  {
    var listing := Listing(table, q, c);
    PageIs(listing, pageSize);
    if |listing| > pageSize {
      NextListing(table, q, c, pageSize);
    }
  }

  lemma PageIs(listing: seq<Header>, pageSize: nat)
    requires pageSize >= 1
    ensures PageOfListing(listing, pageSize)
         == if |listing| > pageSize then Page(listing[..pageSize], Some(KeyOf(listing[pageSize - 1])), true)
            else Page(listing, None, false)
  {
  }

  /** A header that a query asks for, in raw fields: each filter that is not empty names its
      column's value, the frozen flag is the one asked for, and the creation time is in range. */
  ghost predicate Asked(q: Query, row: Header) {
    && (forall c <- q.equal :: q.equal[c] == "" || (c in row.columns && row.columns[c] == q.equal[c]))
    && (q.frozen == None || q.frozen == Some(row.frozen))
    && (q.since.None? || q.since.value <= row.created) && (q.until.None? || row.created <= q.until.value)
  }

  lemma MatchesMeansAsked(q: Query, row: Header)
    ensures Matches(q, row) <==> Asked(q, row)
  {
  }

  /** In order of creation, those of one time by id. */
  ghost predicate InKeyOrder(rows: seq<Header>) {
    forall i, j :: 0 <= i < j < |rows| ==>
      rows[i].created < rows[j].created || (rows[i].created == rows[j].created && rows[i].id < rows[j].id)
  }

  /** The listing after a cursor is every plan asked for with a later key, once, in key order. */
  lemma ListingIsEveryMatchOnce(table: seq<Header>, q: Query, cursor: Option<Key>)
    requires UniqueIds(table)
    ensures var listing := Listing(table, q, cursor);
            && InKeyOrder(listing)
            && (forall row: Header :: row in listing <==>
                  && row in table && Asked(q, row)
                  && (cursor.Some? ==> row.created > cursor.value.created ||
                                       (row.created == cursor.value.created && row.id > cursor.value.id)))
            && forall i, j :: 0 <= i < j < |listing| ==> listing[i] != listing[j]
  {
    var listing := Listing(table, q, cursor);
    ListingAscends(table, q, cursor);
    SortMembers(Filter(table, Wanted(q, cursor)), ByKey);
    forall i, j | 0 <= i < j < |listing|
      ensures listing[i].created < listing[j].created
              || (listing[i].created == listing[j].created && listing[i].id < listing[j].id)
    {
      assert Before(KeyOf(listing[i]), KeyOf(listing[j]));
    }
    forall row: Header
      ensures row in listing <==>
                && row in table && Asked(q, row)
                && (cursor.Some? ==> row.created > cursor.value.created ||
                                     (row.created == cursor.value.created && row.id > cursor.value.id))
    {
      MatchesMeansAsked(q, row);
      assert row in listing <==> row in table && Wanted(q, cursor)(row);
    }
  }
}
