/** Checking stored chunks against their header, and what a clean report guarantees. */
module RowPlanValidation {
  import opened Ordering
  import opened RowPlanChunks
  import opened TargetDigests

  /** What a plan header promises of its chunks.  The digest is kept as the text it hashes. */
  datatype Header = Header(plan: string, targetCount: int, chunkCount: int, chunkSize: int, digest: Option<string>)

  datatype Issue =
    | DuplicateChunk(index: int)
    | NonContiguousChunk(index: int)
    | ChunkBoundsMismatch(index: int)
    | ChunkSizeMismatch(index: int)
    | TargetCountMismatch(held: int)
    | ChunkCountMismatch(found: int)
    | DigestMismatch

  /** A header that gives no width is read at the default one. */
  function HeaderWidth(h: Header): (width: int)
    ensures h.chunkSize == 0 ==> width == 4096
    ensures h.chunkSize != 0 ==> width == h.chunkSize
  {
    if h.chunkSize == 0 then DEFAULT_CHUNK_SIZE else h.chunkSize
  }

  /** The chunks a validation visits. */
  function Visited(table: seq<Chunk>, h: Header): seq<Chunk> {
    ChunkRows(table, h.plan, Base(0, Width(HeaderWidth(h))),
              ScanEnd(Base(0, Width(HeaderWidth(h))), h.targetCount, Window(Width(HeaderWidth(h)))))
  }

  function AllIds(rows: seq<Chunk>): seq<string> {
    if rows == [] then [] else AllIds(rows[..|rows| - 1]) + rows[|rows| - 1].ids
  }

  /** Where the last of some chunks ends. */
  function EndOf(rows: seq<Chunk>): int {
    if rows == [] then 0 else rows[|rows| - 1].start + |rows[|rows| - 1].ids|
  }

  predicate FreshIndex(rows: seq<Chunk>, k: nat)
    requires k < |rows|
  {
    forall j :: 0 <= j < k ==> rows[j].index != rows[k].index
  }

  predicate ChunkFits(rows: seq<Chunk>, k: nat)
    requires k < |rows|
  {
    var c := rows[k];
    FreshIndex(rows, k) && c.start == EndOf(rows[..k]) && c.end == c.start + |c.ids| - 1 && c.count == |c.ids|
  }

  /** What a report without structural issues says. */
  ghost predicate Sound(table: seq<Chunk>, h: Header) {
    var rows := Visited(table, h);
    && (forall k :: 0 <= k < |rows| ==> ChunkFits(rows, k))
    && |AllIds(rows)| == h.targetCount
    && (h.chunkCount != 0 ==> |rows| == h.chunkCount)
    && (h.digest.Some? ==> Fold(AllIds(rows)) == h.digest.value)
  }

  /** The chunks that count: the first with each index. */
  function FreshRows(rows: seq<Chunk>): seq<Chunk> {
    if rows == [] then []
    else
      var n := |rows| - 1;
      FreshRows(rows[..n]) + if FreshIndex(rows, n) then [rows[n]] else []
  }

  /** What is wrong with chunk `k` of a scan: its index came before; or it does not start where the
      counted chunks before it end; or its end or its count is not what its ids give. */
  ghost predicate IssueAt(rows: seq<Chunk>, k: nat, issue: Issue)
    requires k < |rows|
  {
    var c := rows[k];
    match issue
    case DuplicateChunk(index) => index == c.index && !FreshIndex(rows, k)
    case NonContiguousChunk(index) => index == c.index && FreshIndex(rows, k) && c.start != EndOf(FreshRows(rows[..k]))
    case ChunkBoundsMismatch(index) => index == c.index && FreshIndex(rows, k) && c.end != c.start + |c.ids| - 1
    case ChunkSizeMismatch(index) => index == c.index && FreshIndex(rows, k) && c.count != |c.ids|
    case _ => false
  }

  /** An issue that some of the first `n` chunks have. */
  ghost predicate IssueAmong(rows: seq<Chunk>, n: nat, issue: Issue)
    requires n <= |rows|
  {
    exists k: nat :: k < n && IssueAt(rows, k, issue)
  }

  lemma FreshInPrefix(rows: seq<Chunk>, n: nat, k: nat)
    requires k < n <= |rows|
    ensures FreshIndex(rows[..n], k) <==> FreshIndex(rows, k)
  {
  }

  lemma FreshNext(rows: seq<Chunk>, i: nat)
    requires i < |rows|
    ensures FreshRows(rows[..i + 1]) == FreshRows(rows[..i]) + if FreshIndex(rows, i) then [rows[i]] else []
  {
    assert rows[..i + 1][..i] == rows[..i];
    FreshInPrefix(rows, i + 1, i);
  }

  lemma {:induction false} AllFresh(rows: seq<Chunk>, n: nat)
    requires n <= |rows| && forall k :: 0 <= k < n ==> FreshIndex(rows, k)
    ensures FreshRows(rows[..n]) == rows[..n]
  {
    if n > 0 {
      AllFresh(rows, n - 1);
      FreshNext(rows, n - 1);
      assert rows[..n] == rows[..n - 1] + [rows[n - 1]];
    }
  }

  lemma OneMore(rows: seq<Chunk>, i: nat, issue: Issue)
    requires i < |rows|
    ensures IssueAmong(rows, i + 1, issue) <==> IssueAmong(rows, i, issue) || IssueAt(rows, i, issue)
  {
    if IssueAmong(rows, i, issue) {
      var k: nat :| k < i && IssueAt(rows, k, issue);
    }
  }

  lemma FitsAreFresh(rows: seq<Chunk>)
    requires forall k :: 0 <= k < |rows| ==> ChunkFits(rows, k)
    ensures forall k: nat :: k < |rows| ==> FreshIndex(rows, k)
    ensures FreshRows(rows) == rows
  {
    forall k: nat | k < |rows| ensures FreshIndex(rows, k) {
      assert ChunkFits(rows, k);
    }
    AllFresh(rows, |rows|);
    assert rows[..|rows|] == rows;
  }

  /** Chunks fit exactly when none of them has an issue. */
  lemma FitsExactly(rows: seq<Chunk>)
    ensures (forall k :: 0 <= k < |rows| ==> ChunkFits(rows, k))
       <==> forall issue :: !IssueAmong(rows, |rows|, issue)
  {
    if forall k :: 0 <= k < |rows| ==> ChunkFits(rows, k) {
      FitsAreFresh(rows);
      forall k: nat, issue | k < |rows| ensures !IssueAt(rows, k, issue) {
        assert ChunkFits(rows, k);
        AllFresh(rows, k);
      }
    }
    if forall issue :: !IssueAmong(rows, |rows|, issue) {
      forall k: nat | k < |rows| ensures FreshIndex(rows, k) {
        assert !IssueAmong(rows, |rows|, DuplicateChunk(rows[k].index));
        assert !IssueAt(rows, k, DuplicateChunk(rows[k].index));
      }
      forall k: nat | k < |rows| ensures ChunkFits(rows, k) {
        NoIssueFits(rows, k);
      }
    }
  }

  lemma NoIssueFits(rows: seq<Chunk>, k: nat)
    requires k < |rows| && (forall issue :: !IssueAmong(rows, |rows|, issue))
    requires forall j: nat :: j < |rows| ==> FreshIndex(rows, j)
    ensures ChunkFits(rows, k)
  {
    AllFresh(rows, k);
    forall issue ensures !IssueAt(rows, k, issue) {
      assert !IssueAmong(rows, |rows|, issue);
    }
    assert !IssueAt(rows, k, NonContiguousChunk(rows[k].index));
    assert !IssueAt(rows, k, ChunkBoundsMismatch(rows[k].index));
    assert !IssueAt(rows, k, ChunkSizeMismatch(rows[k].index));
  }

  method CheckChunk(c: Chunk, expected: int) returns (issues: seq<Issue>)
    ensures forall issue :: issue in issues <==>
              || (issue == NonContiguousChunk(c.index) && c.start != expected)
              || (issue == ChunkBoundsMismatch(c.index) && c.end != c.start + |c.ids| - 1)
              || (issue == ChunkSizeMismatch(c.index) && c.count != |c.ids|)
  {
    issues := [];
    if c.start != expected {
      issues := issues + [NonContiguousChunk(c.index)];
    }
    if c.end != c.start + |c.ids| - 1 {
      issues := issues + [ChunkBoundsMismatch(c.index)];
    }
    if c.count != |c.ids| {
      issues := issues + [ChunkSizeMismatch(c.index)];
    }
  }

  lemma FoldAppend(a: seq<string>, b: seq<string>, k: nat)
    requires k < |b|
    ensures Fold(a + b[..k + 1]) == Fold(a + b[..k]) + b[k] + "\n"
  {
    assert (a + b[..k + 1])[..|a| + k] == a + b[..k];
  }

  method FoldIds(digest: string, ids: seq<string>, ghost before: seq<string>) returns (folded: string)
    requires digest == Fold(before)
    ensures folded == Fold(before + ids)
  {
    folded := digest;
    assert before + ids[..0] == before;
    for k := 0 to |ids|
      invariant folded == Fold(before + ids[..k])
    {
      FoldAppend(before, ids, k);
      folded := folded + ids[k] + "\n";
    }
    assert ids[..|ids|] == ids;
  }

  /** What is counted of the first `i` chunks. */
  ghost predicate CountedUpTo(rows: seq<Chunk>, i: nat, chunks: nat, targets: nat, expected: int, digest: string)
    requires i <= |rows|
  {
    var counted := FreshRows(rows[..i]);
    chunks == |counted| && targets == |AllIds(counted)| && expected == EndOf(counted) && digest == Fold(AllIds(counted))
  }

  lemma CountNext(rows: seq<Chunk>, i: nat, chunks: nat, targets: nat, expected: int, digest: string, folded: string)
    requires i < |rows| && CountedUpTo(rows, i, chunks, targets, expected, digest)
    requires folded == Fold(AllIds(FreshRows(rows[..i])) + rows[i].ids)
    ensures if FreshIndex(rows, i)
            then CountedUpTo(rows, i + 1, chunks + 1, targets + |rows[i].ids|, rows[i].start + |rows[i].ids|, folded)
            else CountedUpTo(rows, i + 1, chunks, targets, expected, digest)
  {
    var before := FreshRows(rows[..i]);
    FreshNext(rows, i);
    if FreshIndex(rows, i) {
      assert (before + [rows[i]])[..|before|] == before;
    } else {
      assert before + [] == before;
    }
  }

  ghost predicate SeenUpTo(rows: seq<Chunk>, i: nat, seen: set<int>)
    requires i <= |rows|
  {
    forall x :: x in seen <==> exists j :: 0 <= j < i && rows[j].index == x
  }

  lemma SeenIsStale(rows: seq<Chunk>, i: nat, seen: set<int>)
    requires i < |rows| && SeenUpTo(rows, i, seen)
    ensures rows[i].index in seen <==> !FreshIndex(rows, i)
    ensures SeenUpTo(rows, i + 1, seen + {rows[i].index})
  {
  }

  datatype Tally = Tally(seen: set<int>, chunks: nat, targets: nat, expected: int, digest: string)

  ghost predicate Tallied(rows: seq<Chunk>, i: nat, t: Tally)
    requires i <= |rows|
  {
    SeenUpTo(rows, i, t.seen) && CountedUpTo(rows, i, t.chunks, t.targets, t.expected, t.digest)
  }

  /** One chunk of the scan; a repeated index is reported and skipped, and everything else is
      counted even when it is reported. */
  method ScanChunk(rows: seq<Chunk>, i: nat, t: Tally) returns (found: seq<Issue>, after: Tally)
    requires i < |rows| && Tallied(rows, i, t)
    ensures forall issue :: issue in found <==> IssueAt(rows, i, issue)
    ensures Tallied(rows, i + 1, after)
  {
    var c := rows[i];
    SeenIsStale(rows, i, t.seen);
    var folded := FoldIds(t.digest, c.ids, AllIds(FreshRows(rows[..i])));
    CountNext(rows, i, t.chunks, t.targets, t.expected, t.digest, folded);
    if c.index in t.seen {
      assert t.seen + {c.index} == t.seen;
      return [DuplicateChunk(c.index)], t;
    }
    found := CheckChunk(c, t.expected);
    after := Tally(t.seen + {c.index}, t.chunks + 1, t.targets + |c.ids|, c.start + |c.ids|, folded);
  }

  lemma IssuesNext(rows: seq<Chunk>, i: nat, before: seq<Issue>, found: seq<Issue>)
    requires i < |rows| && (forall issue :: issue in before <==> IssueAmong(rows, i, issue))
    requires forall issue :: issue in found <==> IssueAt(rows, i, issue)
    ensures forall issue :: issue in before + found <==> IssueAmong(rows, i + 1, issue)
  {
    forall issue ensures issue in before + found <==> IssueAmong(rows, i + 1, issue) {
      OneMore(rows, i, issue);
    }
  }

  /** Visits the chunks in order. */
  method ScanChunks(rows: seq<Chunk>) returns (issues: seq<Issue>, chunks: nat, targets: nat, digest: string)
    ensures forall issue :: issue in issues <==> IssueAmong(rows, |rows|, issue)
    ensures chunks == |FreshRows(rows)| && targets == |AllIds(FreshRows(rows))|
    ensures digest == Fold(AllIds(FreshRows(rows)))
  {
    issues := [];
    var t := Tally({}, 0, 0, 0, "");
    for i := 0 to |rows|
      invariant forall issue :: issue in issues <==> IssueAmong(rows, i, issue)
      invariant Tallied(rows, i, t)
    {
      var found, after := ScanChunk(rows, i, t);
      IssuesNext(rows, i, issues, found);
      issues, t := issues + found, after;
    }
    assert rows[..|rows|] == rows;
    chunks, targets, digest := t.chunks, t.targets, t.digest;
  }

  /** What a report has to say: the issues of the chunks visited, and whether the counted chunks,
      their targets and their digest are those of the header. */
  ghost predicate Deserved(table: seq<Chunk>, h: Header, issue: Issue) {
    var rows := Visited(table, h);
    var counted := FreshRows(rows);
    match issue
    case TargetCountMismatch(held) => held == |AllIds(counted)| != h.targetCount
    case ChunkCountMismatch(found) => h.chunkCount != 0 && found == |counted| != h.chunkCount
    case DigestMismatch =>
      h.digest.Some? && |AllIds(counted)| == h.targetCount && Fold(AllIds(counted)) != h.digest.value
    case _ => IssueAmong(rows, |rows|, issue)
  }

  lemma SoundDeservesNone(table: seq<Chunk>, h: Header, issue: Issue)
    requires Sound(table, h)
    ensures !Deserved(table, h, issue)
  {
    var rows := Visited(table, h);
    FitsExactly(rows);
    FitsAreFresh(rows);
    assert !IssueAmong(rows, |rows|, issue);
  }

  lemma UndeservedIsNotAmong(table: seq<Chunk>, h: Header, issue: Issue)
    requires !Deserved(table, h, issue)
    ensures !IssueAmong(Visited(table, h), |Visited(table, h)|, issue)
  {
  }

  lemma NoneDeservedFits(table: seq<Chunk>, h: Header)
    requires forall issue :: !Deserved(table, h, issue)
    ensures forall k :: 0 <= k < |Visited(table, h)| ==> ChunkFits(Visited(table, h), k)
    ensures FreshRows(Visited(table, h)) == Visited(table, h)
  {
    forall issue ensures !IssueAmong(Visited(table, h), |Visited(table, h)|, issue) {
      UndeservedIsNotAmong(table, h, issue);
    }
    FitsExactly(Visited(table, h));
    FitsAreFresh(Visited(table, h));
  }

  lemma NoneDeservedIsSound(table: seq<Chunk>, h: Header)
    requires forall issue :: !Deserved(table, h, issue)
    ensures Sound(table, h)
  {
    NoneDeservedFits(table, h);
    assert !Deserved(table, h, TargetCountMismatch(|AllIds(Visited(table, h))|));
    assert !Deserved(table, h, ChunkCountMismatch(|Visited(table, h)|));
    assert !Deserved(table, h, DigestMismatch);
  }

  /** No issue is deserved exactly when the stored chunks are what the header promises. */
  lemma SoundExactly(table: seq<Chunk>, h: Header)
    ensures Sound(table, h) <==> forall issue :: !Deserved(table, h, issue)
  {
    if Sound(table, h) {
      forall issue ensures !Deserved(table, h, issue) {
        SoundDeservesNone(table, h, issue);
      }
    }
    if forall issue :: !Deserved(table, h, issue) {
      NoneDeservedIsSound(table, h);
    }
  }

  /** What the header is compared with after the scan. */
  method CheckHeader(h: Header, chunks: nat, targets: nat, digest: string) returns (issues: seq<Issue>)
    ensures forall issue :: issue in issues <==>
              || (issue == TargetCountMismatch(targets) && targets != h.targetCount)
              || (issue == ChunkCountMismatch(chunks) && h.chunkCount != 0 && chunks != h.chunkCount)
              || (issue == DigestMismatch && h.digest.Some? && targets == h.targetCount && digest != h.digest.value)
  {
    issues := [];
    if targets != h.targetCount {
      issues := issues + [TargetCountMismatch(targets)];
    }
    if h.chunkCount != 0 && chunks != h.chunkCount {
      issues := issues + [ChunkCountMismatch(chunks)];
    }
    if h.digest.Some? && targets == h.targetCount && digest != h.digest.value {
      issues := issues + [DigestMismatch];
    }
  }

  /** The report names exactly the issues there are; it is clean exactly when the stored chunks
      are what the header promises. */
  method ValidateOnePlan(table: seq<Chunk>, h: Header) returns (issues: seq<Issue>)
    ensures forall issue :: issue in issues <==> Deserved(table, h, issue)
    ensures issues == [] <==> Sound(table, h)
  {
    var rows := IterChunkRows(table, h.plan, h.targetCount, HeaderWidth(h), 0);
    var found, chunks, targets, digest := ScanChunks(rows);
    var more := CheckHeader(h, chunks, targets, digest);
    issues := found + more;
    forall issue ensures issue in issues <==> Deserved(table, h, issue) {
      assert issue in issues <==> issue in found || issue in more;
    }
    SoundExactly(table, h);
    NoneInEmpty(issues);
  }

  lemma NoneInEmpty(issues: seq<Issue>)
    ensures issues == [] <==> forall issue :: issue !in issues
  {
    if issues != [] {
      var first := issues[0];
      assert first in issues;
    }
  }

  // ------------------------------------------------------------ what it means

  function IdsOf(emitted: seq<Emitted>): seq<string> { Map(emitted, (e: Emitted) => e.id) }

  lemma {:induction false} AllIdsHead(rows: seq<Chunk>)
    requires rows != []
    ensures AllIds(rows) == rows[0].ids + AllIds(rows[1..])
  {
    if |rows| > 1 {
      AllIdsHead(rows[..|rows| - 1]);
      assert rows[..|rows| - 1][1..] == rows[1..][..|rows[1..]| - 1];
    } else {
      assert rows == [rows[0]] && rows[..0] == [];
    }
  }

  lemma StreamFirst(rows: seq<Chunk>, base: int, wanted: int)
    requires rows != [] && rows[0].start == base
    ensures Stream(rows, base, wanted) == Piece(rows[0], wanted) + Stream(rows[1..], base + |rows[0].ids|, wanted)
    ensures FirstGap(rows, base) == FirstGap(rows[1..], base + |rows[0].ids|)
  {
  }

  lemma SplitHead(rows: seq<Chunk>, more: seq<Chunk>, base: int, wanted: int)
    requires rows != [] && rows[0].start == base
    requires var next, end := base + |rows[0].ids|, base + |rows[0].ids| + |AllIds(rows[1..])|;
             && Stream(rows[1..] + more, next, wanted) == Stream(rows[1..], next, wanted) + Stream(more, end, wanted)
             && FirstGap(rows[1..] + more, next) == FirstGap(more, end)
    ensures Stream(rows + more, base, wanted)
            == Stream(rows, base, wanted) + Stream(more, base + |AllIds(rows)|, wanted)
    ensures FirstGap(rows + more, base) == FirstGap(more, base + |AllIds(rows)|)
  {
    AllIdsHead(rows);
    var both := rows + more;
    assert both[0] == rows[0] && both[1..] == rows[1..] + more;
    JoinHead(rows, both, base, wanted, Stream(more, base + |AllIds(rows)|, wanted));
  }

  lemma JoinHead(rows: seq<Chunk>, both: seq<Chunk>, base: int, wanted: int, rest: seq<Emitted>)
    requires rows != [] && both != [] && both[0] == rows[0] && rows[0].start == base
    requires Stream(both[1..], base + |rows[0].ids|, wanted) == Stream(rows[1..], base + |rows[0].ids|, wanted) + rest
    ensures Stream(both, base, wanted) == Stream(rows, base, wanted) + rest
    ensures FirstGap(both, base) == FirstGap(both[1..], base + |rows[0].ids|)
  {
    StreamFirst(rows, base, wanted);
    StreamFirst(both, base, wanted);
    Regroup(Piece(rows[0], wanted), Stream(rows[1..], base + |rows[0].ids|, wanted), rest);
  }

  lemma {:induction false} StreamSplit(rows: seq<Chunk>, more: seq<Chunk>, base: int, wanted: int)
    requires FirstGap(rows, base).None?
    ensures Stream(rows + more, base, wanted)
            == Stream(rows, base, wanted) + Stream(more, base + |AllIds(rows)|, wanted)
    ensures FirstGap(rows + more, base) == FirstGap(more, base + |AllIds(rows)|)
  {
    if rows == [] {
      assert rows + more == more;
    } else {
      StreamSplit(rows[1..], more, base + |rows[0].ids|, wanted);
      SplitHead(rows, more, base, wanted);
    }
  }

  /** Chunks that follow one another from an ordinal stream all their targets from it on. */
  lemma {:induction false} StreamIds(rows: seq<Chunk>, base: int, wanted: int)
    requires FirstGap(rows, base).None? && wanted <= base
    ensures IdsOf(Stream(rows, base, wanted)) == AllIds(rows)
  {
    if rows != [] {
      AllIdsHead(rows);
      StreamIds(rows[1..], base + |rows[0].ids|, wanted);
      var piece := Piece(rows[0], wanted);
      assert IdsOf(piece) == rows[0].ids by {
        forall k | 0 <= k < |piece| ensures piece[k].id == rows[0].ids[k] {
          assert piece[k] == TargetAt(rows[0], k);
        }
      }
    }
  }

  lemma {:induction false} FitsHaveNoGap(rows: seq<Chunk>, n: nat)
    requires n <= |rows| && forall k :: 0 <= k < |rows| ==> ChunkFits(rows, k)
    ensures FirstGap(rows[..n], 0).None? && EndOf(rows[..n]) == |AllIds(rows[..n])|
  {
    if n > 0 {
      FitsHaveNoGap(rows, n - 1);
      assert ChunkFits(rows, n - 1);
      assert rows[..n] == rows[..n - 1] + [rows[n - 1]] && rows[..n][..n - 1] == rows[..n - 1];
      StreamSplit(rows[..n - 1], [rows[n - 1]], 0, 0);
    }
  }

  lemma SoundHasNoGap(table: seq<Chunk>, h: Header)
    requires Sound(table, h)
    ensures FirstGap(Visited(table, h), 0).None?
  {
    var rows := Visited(table, h);
    assert forall k :: 0 <= k < |rows| ==> ChunkFits(rows, k);
    FitsHaveNoGap(rows, |rows|);
    assert rows[..|rows|] == rows;
  }

  /** A clean report means that a read from the start ends without raising and gives exactly
      the promised count of targets, and that their ids hash to the header's digest. */
  lemma SoundPlansRead(table: seq<Chunk>, h: Header)
    requires Sound(table, h)
    ensures var read := ReadFrom(table, h.plan, h.targetCount, HeaderWidth(h), 0);
            && read.outcome.Finished? && |read.emitted| == h.targetCount
            && (h.digest.Some? ==> Fold(IdsOf(read.emitted)) == h.digest.value)
  {
    SoundHasNoGap(table, h);
    StreamIds(Visited(table, h), 0, 0);
  }

  /** So the digest pins the content: however the chunks of a plan came about, a clean report
      against the header of a write means that reading gives the ids that were written. */
  lemma CleanReportsPinTheIds(table: seq<Chunk>, h: Header, ids: seq<string>)
    requires Sound(table, h) && h.digest == Some(Fold(ids))
    requires NewlineFree(ids) && NewlineFree(IdsOf(ReadFrom(table, h.plan, h.targetCount, HeaderWidth(h), 0).emitted))
    ensures IdsOf(ReadFrom(table, h.plan, h.targetCount, HeaderWidth(h), 0).emitted) == ids
  {
    SoundPlansRead(table, h);
    FoldInjective(IdsOf(ReadFrom(table, h.plan, h.targetCount, HeaderWidth(h), 0).emitted), ids);
  }
}
