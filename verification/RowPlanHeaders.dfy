/** Row-plan headers as rows of one table with unique ids. */
module RowPlanHeaders {
  import opened Ordering

  datatype PlanState = Active | Superseded | Pruned

  /** A plan header.  `id` and `series` are the ranks of the plan id and of its series (view,
      grain, source snapshot and base policy) in their string order; `columns` holds the
      columns a listing can filter on; `versions` and `fragments` are body columns that scans
      do not read. */
  datatype Header = Header(
    id: int, series: int, created: int, state: PlanState, frozen: bool, copiedBytes: int, artifact: string,
    columns: map<string, string>, chunkCount: nat, summary: string, versions: map<string, int>, fragments: seq<int>,
    supersededAt: Option<int>, prunedAt: Option<int>, policy: string)

  /** Creation time, then id: the order of the row key. */
  predicate ByKey(a: Header, b: Header) { a.created < b.created || (a.created == b.created && a.id <= b.id) }

  ghost predicate UniqueIds(headers: seq<Header>) {
    forall i, j :: 0 <= i < j < |headers| ==> headers[i].id != headers[j].id
  }

  lemma {:induction false} FilterUnique(rows: seq<Header>, keep: Header -> bool)
    requires UniqueIds(rows)
    ensures UniqueIds(Filter(rows, keep))
  {
    if rows != [] {
      FilterUnique(rows[1..], keep);
      var rest := Filter(rows[1..], keep);
      forall i | 0 <= i < |rest| ensures rest[i].id != rows[0].id {
        assert rest[i] in rows[1..];
        var j :| 0 <= j < |rows[1..]| && rows[1..][j] == rest[i];
        assert rows[j + 1] == rest[i];
      }
    }
  }

  lemma SameIdIsSame(rows: seq<Header>, a: Header, b: Header)
    requires UniqueIds(rows) && a in rows && b in rows && a.id == b.id
    ensures a == b
  {
    var i :| 0 <= i < |rows| && rows[i] == a;
    var j :| 0 <= j < |rows| && rows[j] == b;
  }

  lemma {:induction false} UniqueOnce(rows: seq<Header>, h: Header)
    requires UniqueIds(rows)
    ensures multiset(rows)[h] <= 1
  {
    if rows != [] {
      assert rows == [rows[0]] + rows[1..];
      UniqueOnce(rows[1..], h);
      if h == rows[0] {
        forall i | 0 <= i < |rows[1..]| ensures rows[1..][i] != h {
          assert rows[i + 1].id != rows[0].id;
        }
        assert h !in rows[1..];
        assert h !in multiset(rows[1..]);
      }
    }
  }

  /** A permutation of rows with unique ids has them too. */
  lemma PermutedIdsDiffer(rows: seq<Header>, permuted: seq<Header>)
    requires UniqueIds(rows) && multiset(permuted) == multiset(rows)
    ensures UniqueIds(permuted)
  {
    PermutationMembers(permuted, rows);
    forall i, j | 0 <= i < j < |permuted| ensures permuted[i].id != permuted[j].id {
      assert permuted[i] in rows && permuted[j] in rows;
      if permuted[i].id == permuted[j].id {
        SameIdIsSame(rows, permuted[i], permuted[j]);
        assert permuted == permuted[..i] + [permuted[i]] + permuted[i + 1..j] + [permuted[j]] + permuted[j + 1..];
        assert multiset(rows)[permuted[i]] >= 2;
        UniqueOnce(rows, permuted[i]);
      }
    }
  }
}
