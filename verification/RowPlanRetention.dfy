/** Which row plans retention may touch: the order plans are ranked in, and what pruning does
    to the ranks of the plans that stay. */
module RowPlanRetention {
  import opened Ordering
  import opened RowPlanHeaders

  predicate IsPrunable(h: Header) { !h.frozen && h.copiedBytes <= 0 && h.artifact == "" }

  predicate SeriesLe(a: Header, b: Header) { a.series <= b.series }

  /** Later creation first, then the greater id. */
  predicate NewestLe(a: Header, b: Header) { a.created > b.created || (a.created == b.created && a.id >= b.id) }

  /** Series ascending, and within a series the newest plan first. */
  predicate RetentionLe(a: Header, b: Header) { a.series < b.series || (a.series == b.series && NewestLe(a, b)) }

  function Live(): Header -> bool { (h: Header) => !h.state.Pruned? }

  // ---------------------------------------------------------------------- order

  function Reversed<T>(xs: seq<T>): seq<T> {
    if xs == [] then [] else Reversed(xs[1..]) + [xs[0]]
  }

  /** Python's `sort(reverse=True)`: descending, equals in their original order. */
  function SortReversed<T>(xs: seq<T>, le: (T, T) -> bool): seq<T> {
    Reversed(StableSort(Reversed(xs), le))
  }

  lemma {:induction false} ReversedPermutes<T>(xs: seq<T>)
    ensures multiset(Reversed(xs)) == multiset(xs)
  {
    if xs != [] {
      ReversedPermutes(xs[1..]);
      assert xs == [xs[0]] + xs[1..];
    }
  }

  lemma {:induction false} ReversedAt<T>(xs: seq<T>, k: nat)
    requires k < |xs|
    ensures |Reversed(xs)| == |xs| && Reversed(xs)[k] == xs[|xs| - 1 - k]
  {
    if |xs| > 1 {
      ReversedAt(xs[1..], if k < |xs| - 1 then k else 0);
    }
  }

  lemma ReverseSortedDescends(rows: seq<Header>)
    ensures SortedBy(SortReversed(rows, ByKey), NewestLe)
    ensures multiset(SortReversed(rows, ByKey)) == multiset(rows)
  {
    var sorted := StableSort(Reversed(rows), ByKey);
    SortSorts(Reversed(rows), ByKey);
    ReversedPermutes(rows);
    ReversedPermutes(sorted);
    forall i, j | 0 <= i < j < |SortReversed(rows, ByKey)|
      ensures NewestLe(SortReversed(rows, ByKey)[i], SortReversed(rows, ByKey)[j])
    {
      ReversedAt(sorted, 0);
      ReversedAt(sorted, i);
      ReversedAt(sorted, j);
      assert ByKey(sorted[|sorted| - 1 - j], sorted[|sorted| - 1 - i]);
    }
  }

  /** What the two stable passes yield, when the engine cannot order. */
  function TwoPassOrder(rows: seq<Header>): seq<Header> {
    StableSort(SortReversed(rows, ByKey), SeriesLe)
  }

  lemma TwoPassIsSorted(rows: seq<Header>)
    ensures SortedBy(TwoPassOrder(rows), RetentionLe)
    ensures multiset(TwoPassOrder(rows)) == multiset(rows)
  {
    ReverseSortedDescends(rows);
    StableTwoPass(SortReversed(rows, ByKey), SeriesLe, NewestLe);
    var sorted := TwoPassOrder(rows);
    forall i, j | 0 <= i < j < |sorted| ensures RetentionLe(sorted[i], sorted[j]) {
      assert Lex(SeriesLe, NewestLe)(sorted[i], sorted[j]);
    }
  }

  /** With unique ids only one order is possible: both paths scan the same sequence. */
  lemma OrderIsUnique(rows: seq<Header>, a: seq<Header>, b: seq<Header>)
    requires UniqueIds(rows) && multiset(a) == multiset(rows) == multiset(b)
    requires SortedBy(a, RetentionLe) && SortedBy(b, RetentionLe)
    ensures a == b
  {
    PermutationMembers(a, rows);
    forall x, y | x in a && y in a && RetentionLe(x, y) && RetentionLe(y, x) ensures x == y {
      SameIdIsSame(rows, x, y);
    }
    SortedUnique(a, b, RetentionLe);
  }

  /** The scan of the plans that are not pruned yet; `ordered` is the engine's ordered scan,
      if it can give one. */
  method IterPlansForRetention(headers: seq<Header>, ordered: Option<seq<Header>>) returns (scan: seq<Header>)
    requires UniqueIds(headers)
    requires ordered.Some? ==>
               multiset(ordered.value) == multiset(Filter(headers, Live())) && SortedBy(ordered.value, RetentionLe)
    ensures scan == RetentionScan(headers)
    ensures SortedBy(scan, RetentionLe) && multiset(scan) == multiset(Filter(headers, Live()))
  {
    var live := Filter(headers, Live());
    TwoPassIsSorted(live);
    if ordered.Some? {
      FilterUnique(headers, Live());
      OrderIsUnique(live, ordered.value, TwoPassOrder(live));
      return ordered.value;
    }
    scan := TwoPassOrder(live);
  }

  function RetentionScan(headers: seq<Header>): seq<Header> { TwoPassOrder(Filter(headers, Live())) }

  // ---------------------------------------------------------------------- ranks

  predicate IsNewer(g: Header, h: Header) {
    g.series == h.series && (g.created > h.created || (g.created == h.created && g.id > h.id))
  }

  function NewerThan(h: Header): Header -> bool { (g: Header) => !g.state.Pruned? && IsNewer(g, h) }

  /** How many plans of its series that are not pruned are newer than a plan. */
  function Rank(headers: seq<Header>, h: Header): nat { |Filter(headers, NewerThan(h))| }

  function InSeries(series: int): Header -> bool { (h: Header) => h.series == series }

  /** The count a scan has reached for a series is the rank of the plan it comes to. */
  lemma ScanCountsRank(headers: seq<Header>, scan: seq<Header>, i: nat)
    requires UniqueIds(headers) && multiset(scan) == multiset(Filter(headers, Live())) && SortedBy(scan, RetentionLe)
    requires i < |scan|
    ensures |Filter(scan[..i], InSeries(scan[i].series))| == Rank(headers, scan[i])
  {
    var h, live := scan[i], Filter(headers, Live());
    FilterUnique(headers, Live());
    FilterPermutation(scan, live, NewerThan(h));
    FilterFilter(headers, Live(), NewerThan(h), NewerThan(h));
    NewerComeFirst(live, scan, i);
    PermutationMembers(Filter(scan, NewerThan(h)), Filter(headers, NewerThan(h)));
  }

  lemma NewerComeFirst(live: seq<Header>, scan: seq<Header>, i: nat)
    requires UniqueIds(live) && multiset(scan) == multiset(live) && SortedBy(scan, RetentionLe) && i < |scan|
    requires forall h <- live :: !h.state.Pruned?
    ensures Filter(scan, NewerThan(scan[i])) == Filter(scan[..i], InSeries(scan[i].series))
  {
    var h := scan[i];
    forall k: nat | k < |scan| ensures NewerThan(h)(scan[k]) <==> k < i && InSeries(h.series)(scan[k]) {
      NewerAt(live, scan, i, k);
    }
    FilterBefore(scan, i, NewerThan(h), InSeries(h.series));
  }

  lemma NewerAt(live: seq<Header>, scan: seq<Header>, i: nat, k: nat)
    requires UniqueIds(live) && multiset(scan) == multiset(live) && SortedBy(scan, RetentionLe) && i < |scan|
    requires k < |scan|
    requires forall h <- live :: !h.state.Pruned?
    ensures NewerThan(scan[i])(scan[k]) <==> k < i && scan[k].series == scan[i].series
  {
    PermutationMembers(scan, live);
    PermutedIdsDiffer(live, scan);
    assert scan[k] in live;
    if k < i {
      assert RetentionLe(scan[k], scan[i]);
    } else if k > i {
      assert RetentionLe(scan[i], scan[k]);
    }
  }

  lemma FilterBefore<T>(xs: seq<T>, i: nat, p: T -> bool, q: T -> bool)
    requires i <= |xs| && forall k: nat :: k < |xs| ==> (p(xs[k]) <==> k < i && q(xs[k]))
    ensures Filter(xs, p) == Filter(xs[..i], q)
  {
    AgreeAt(xs[..i], p, q);
    NoneIn(xs, i, p);
    JoinAt(xs, i, p);
  }

  lemma JoinAt<T>(xs: seq<T>, i: nat, p: T -> bool)
    requires i <= |xs|
    ensures Filter(xs, p) == Filter(xs[..i], p) + Filter(xs[i..], p)
  {
    assert xs == xs[..i] + xs[i..];
    FilterAppend(xs[..i], xs[i..], p);
  }

  lemma AgreeAt<T>(xs: seq<T>, p: T -> bool, q: T -> bool)
    requires forall k: nat :: k < |xs| ==> (p(xs[k]) <==> q(xs[k]))
    ensures Filter(xs, p) == Filter(xs, q)
  {
    forall x | x in xs ensures p(x) <==> q(x) {
      var k :| 0 <= k < |xs| && xs[k] == x;
    }
    FilterAgree(xs, p, q);
  }

  lemma NoneIn<T>(xs: seq<T>, i: nat, keep: T -> bool)
    requires i <= |xs| && forall k: nat :: i <= k < |xs| ==> !keep(xs[k])
    ensures Filter(xs[i..], keep) == []
  {
    forall x | x in xs[i..] ensures !keep(x) {
      var k :| 0 <= k < |xs[i..]| && xs[i..][k] == x;
      assert x == xs[i + k];
    }
    FilterNone(xs[i..], keep);
  }

  // -------------------------------------------------------------- what may change

  /** One retention policy, and the plans that training or evaluation evidence names. */
  datatype Policy = Policy(retainLatest: nat, cutoff: Option<int>, referenced: set<int>)

  predicate Ranked(headers: seq<Header>, p: Policy, h: Header) {
    !h.state.Pruned? && Rank(headers, h) >= p.retainLatest
  }

  predicate OldEnough(p: Policy, h: Header) { p.cutoff.Some? && h.created <= p.cutoff.value }

  /** The plans a pass may prune. */
  predicate Eligible(headers: seq<Header>, p: Policy, h: Header) {
    Ranked(headers, p, h) && IsPrunable(h) && OldEnough(p, h) && h.id !in p.referenced
  }

  /** The plans a pass retires without deleting anything. */
  predicate Retires(headers: seq<Header>, p: Policy, h: Header) {
    Ranked(headers, p, h) && h.state.Active? && !Eligible(headers, p, h)
  }

  function EligibleIds(headers: seq<Header>, p: Policy): set<int> {
    set h | h in headers && Eligible(headers, p, h) :: h.id
  }

  function RetiredIds(headers: seq<Header>, p: Policy): set<int> {
    set h | h in headers && Retires(headers, p, h) :: h.id
  }

  /** A state flip rewrites the lifecycle columns and no others. */
  function FlipSuperseded(h: Header, now: int, policy: string): Header {
    h.(state := Superseded, policy := policy,
       supersededAt := if h.supersededAt.Some? then h.supersededAt else Some(now))
  }

  function FlipPruned(h: Header, now: int, policy: string): Header {
    h.(state := Pruned, supersededAt := if h.supersededAt.Some? then h.supersededAt else Some(now), policy := policy,
       prunedAt := Some(now), summary := "", chunkCount := 0)
  }

  function Marking(pruned: set<int>, superseded: set<int>, now: int, policy: string): Header -> Header {
    (h: Header) =>
      if h.id in pruned then FlipPruned(h, now, policy)
      else if h.id in superseded then FlipSuperseded(h, now, policy)
      else h
  }

  /** The headers after some were marked pruned and others superseded. */
  function Marked(headers: seq<Header>, pruned: set<int>, superseded: set<int>, now: int, policy: string): seq<Header> {
    Map(headers, Marking(pruned, superseded, now, policy))
  }

  /** A pass, finished or not, has only marked what it may. */
  ghost predicate Lawful(headers: seq<Header>, p: Policy, pruned: set<int>, superseded: set<int>) {
    pruned <= EligibleIds(headers, p) && superseded <= RetiredIds(headers, p)
  }

  lemma {:induction false} RanksOnlyFall(headers: seq<Header>, h: Header, pruned: set<int>, superseded: set<int>,
                                         now: int, policy: string)
    requires forall g <- headers :: g.id in superseded ==> !g.state.Pruned?
    ensures Rank(Marked(headers, pruned, superseded, now, policy), h) <= Rank(headers, h)
  {
    if headers != [] {
      var m := Marking(pruned, superseded, now, policy);
      RanksOnlyFall(headers[1..], h, pruned, superseded, now, policy);
      MarkedTail(headers, pruned, superseded, now, policy);
      RankTail(headers, h);
      RankTail(Marked(headers, pruned, superseded, now, policy), h);
      assert headers[0] in headers;
      assert NewerThan(h)(m(headers[0])) ==> NewerThan(h)(headers[0]);
    } else {
      assert Marked(headers, pruned, superseded, now, policy) == [];
    }
  }

  lemma RankTail(headers: seq<Header>, h: Header)
    requires headers != []
    ensures Rank(headers, h) == (if NewerThan(h)(headers[0]) then 1 else 0) + Rank(headers[1..], h)
  {
  }

  lemma MarkedTail(headers: seq<Header>, pruned: set<int>, superseded: set<int>, now: int, policy: string)
    requires headers != []
    ensures Marked(headers, pruned, superseded, now, policy)[1..]
            == Marked(headers[1..], pruned, superseded, now, policy)
    ensures Marked(headers, pruned, superseded, now, policy)[0] == Marking(pruned, superseded, now, policy)(headers[0])
  {
  }

  /** The newer plans of the series that rank among the retained. */
  function RetainedNewer(headers: seq<Header>, n: nat, h: Header): Header -> bool {
    (g: Header) => NewerThan(h)(g) && Rank(headers, g) < n
  }

  function RetainedInSeries(headers: seq<Header>, n: nat, series: int): Header -> bool {
    (g: Header) => g.series == series && Rank(headers, g) < n
  }

  lemma {:induction false} RetainedFillUp(headers: seq<Header>, scan: seq<Header>, n: nat, series: int, i: nat)
    requires UniqueIds(headers) && multiset(scan) == multiset(Filter(headers, Live())) && SortedBy(scan, RetentionLe)
    requires i <= |scan|
    ensures var all, retained := |Filter(scan[..i],
                                         InSeries(series))|, |Filter(scan[..i], RetainedInSeries(headers, n, series))|;
            retained >= if all < n then all else n
  {
    if i > 0 {
      RetainedFillUp(headers, scan, n, series, i - 1);
      ScanCountsRank(headers, scan, i - 1);
      FillOne(headers, scan, n, series, i - 1);
    }
  }

  lemma FillOne(headers: seq<Header>, scan: seq<Header>, n: nat, series: int, i: nat)
    requires i < |scan| && |Filter(scan[..i], InSeries(scan[i].series))| == Rank(headers, scan[i])
    requires var all, retained := |Filter(scan[..i],
                                          InSeries(series))|, |Filter(scan[..i], RetainedInSeries(headers, n, series))|;
             retained >= if all < n then all else n
    ensures var all, retained := |Filter(scan[..i + 1],
                                         InSeries(series))|, |Filter(scan[..i + 1],
                                                                     RetainedInSeries(headers, n, series))|;
            retained >= if all < n then all else n
  {
    FilterSnoc(scan, i, InSeries(series));
    FilterSnoc(scan, i, RetainedInSeries(headers, n, series));
  }

  /** A plan that ranks past the retained ones has a full set of retained plans before it. */
  lemma RetainedAreFull(headers: seq<Header>, n: nat, h: Header)
    requires UniqueIds(headers) && h in headers && !h.state.Pruned? && Rank(headers, h) >= n
    ensures |Filter(headers, RetainedNewer(headers, n, h))| >= n
  {
    var live := Filter(headers, Live());
    var scan := TwoPassOrder(live);
    TwoPassIsSorted(live);
    FilterUnique(headers, Live());
    PermutationMembers(scan, live);
    assert h in scan;
    var i :| 0 <= i < |scan| && scan[i] == h;
    ScanCountsRank(headers, scan, i);
    RetainedFillUp(headers, scan, n, h.series, i);
    NewerComeFirst(live, scan, i);
    RetainedCount(headers, scan, n, i);
  }

  lemma RetainedCount(headers: seq<Header>, scan: seq<Header>, n: nat, i: nat)
    requires multiset(scan) == multiset(Filter(headers, Live())) && i < |scan|
    requires Filter(scan, NewerThan(scan[i])) == Filter(scan[..i], InSeries(scan[i].series))
    ensures |Filter(headers, RetainedNewer(headers, n, scan[i]))|
            == |Filter(scan[..i], RetainedInSeries(headers, n, scan[i].series))|
  {
    var h, keep := scan[i], RetainedInSeries(headers, n, scan[i].series);
    FilterFilter(scan[..i], InSeries(h.series), keep, keep);
    FilterFilter(scan, NewerThan(h), keep, RetainedNewer(headers, n, h));
    FilterPermutation(scan, Filter(headers, Live()), RetainedNewer(headers, n, h));
    FilterFilter(headers, Live(), RetainedNewer(headers, n, h), RetainedNewer(headers, n, h));
    PermutationMembers(Filter(scan, RetainedNewer(headers, n, h)), Filter(headers, RetainedNewer(headers, n, h)));
  }

  lemma {:induction false} RetainedStay(all: seq<Header>, headers: seq<Header>, h: Header, n: nat, pruned: set<int>,
                                        superseded: set<int>, now: int, policy: string)
    requires forall g <- headers :: g.id in pruned ==> Rank(all, g) >= n
    ensures Rank(Marked(headers, pruned, superseded, now, policy), h) >= |Filter(headers, RetainedNewer(all, n, h))|
  {
    if headers != [] {
      RetainedStay(all, headers[1..], h, n, pruned, superseded, now, policy);
      MarkedTail(headers, pruned, superseded, now, policy);
      RankTail(Marked(headers, pruned, superseded, now, policy), h);
      assert headers[0] in headers;
    }
  }

  lemma PrunedRankPast(headers: seq<Header>, p: Policy, pruned: set<int>, g: Header)
    requires UniqueIds(headers) && pruned <= EligibleIds(headers, p) && g in headers && g.id in pruned
    ensures Eligible(headers, p, g)
  {
    assert g.id in EligibleIds(headers, p);
    var e :| e in headers && Eligible(headers, p, e) && e.id == g.id;
    SameIdIsSame(headers, e, g);
  }

  lemma RetiredIsActive(headers: seq<Header>, p: Policy, superseded: set<int>, g: Header)
    requires UniqueIds(headers) && superseded <= RetiredIds(headers, p) && g in headers && g.id in superseded
    ensures Retires(headers, p, g)
  {
    assert g.id in RetiredIds(headers, p);
    var e :| e in headers && Retires(headers, p, e) && e.id == g.id;
    SameIdIsSame(headers, e, g);
  }

  /** Removing pruned plans never moves a plan into or out of the retained ranks. */
  lemma PruningKeepsPlaces(headers: seq<Header>, p: Policy, h: Header, pruned: set<int>, superseded: set<int>,
                           now: int, policy: string)
    requires UniqueIds(headers) && Lawful(headers, p, pruned, superseded) && h in headers && !h.state.Pruned?
    ensures Rank(Marked(headers, pruned, superseded, now, policy), h) < p.retainLatest
       <==> Rank(headers, h) < p.retainLatest
  {
    forall g | g in headers && g.id in superseded ensures !g.state.Pruned? {
      RetiredIsActive(headers, p, superseded, g);
    }
    RanksOnlyFall(headers, h, pruned, superseded, now, policy);
    if Rank(headers, h) >= p.retainLatest {
      RetainedAreFull(headers, p.retainLatest, h);
      forall g | g in headers && g.id in pruned ensures Rank(headers, g) >= p.retainLatest {
        PrunedRankPast(headers, p, pruned, g);
      }
      RetainedStay(headers, headers, h, p.retainLatest, pruned, superseded, now, policy);
    }
  }

  // ----------------------------------------------------- verdicts in raw fields

  /** The plans of its series, not pruned, that were created after a plan, or with it under a
      greater id. */
  ghost function NewerIds(headers: seq<Header>, h: Header): set<int> {
    set g | g in headers && !g.state.Pruned? && g.series == h.series
            && (g.created > h.created || (g.created == h.created && g.id > h.id)) :: g.id
  }

  /** Not pruned yet, and enough plans of the series are newer. */
  ghost predicate PastRetained(headers: seq<Header>, p: Policy, h: Header) {
    !h.state.Pruned? && |NewerIds(headers, h)| >= p.retainLatest
  }

  /** Past the retained plans, no evidence of any kind, and no younger than a cutoff that is set. */
  ghost predicate MayPrune(headers: seq<Header>, p: Policy, h: Header) {
    && PastRetained(headers, p, h)
    && !h.frozen && h.copiedBytes <= 0 && h.artifact == "" && h.id !in p.referenced
    && p.cutoff.Some? && h.created <= p.cutoff.value
  }

  /** Active and past the retained plans, but not to be pruned. */
  ghost predicate MayRetire(headers: seq<Header>, p: Policy, h: Header) {
    h.state.Active? && PastRetained(headers, p, h) && !MayPrune(headers, p, h)
  }

  lemma NewerTail(rows: seq<Header>, h: Header)
    requires UniqueIds(rows) && rows != []
    ensures NewerIds(rows, h) == NewerIds(rows[1..], h) + if NewerThan(h)(rows[0]) then {rows[0].id} else {}
    ensures rows[0].id !in NewerIds(rows[1..], h)
  {
    assert rows == [rows[0]] + rows[1..];
    forall g | g in rows[1..] ensures g.id != rows[0].id {
      var k :| 0 <= k < |rows[1..]| && rows[1..][k] == g;
      assert rows[k + 1] == g;
    }
  }

  lemma {:induction false} RankCountsNewer(rows: seq<Header>, h: Header)
    requires UniqueIds(rows)
    ensures Rank(rows, h) == |NewerIds(rows, h)|
  {
    if rows != [] {
      NewerTail(rows, h);
      RankTail(rows, h);
      RankCountsNewer(rows[1..], h);
    }
  }

  /** What a pass may prune and retire, on the headers alone. */
  lemma VerdictsExactly(headers: seq<Header>, p: Policy, h: Header)
    requires UniqueIds(headers)
    ensures Eligible(headers, p, h) <==> MayPrune(headers, p, h)
    ensures Retires(headers, p, h) <==> MayRetire(headers, p, h)
  {
    RankCountsNewer(headers, h);
  }
}
