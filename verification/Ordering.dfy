/** Sequences and stable sorting: what Python's `sorted`, list comprehensions and
    an engine's `ORDER BY` mean in the models of the other modules. */
module Ordering {

  datatype Option<+T> = None | Some(value: T)

  function AtMost(n: nat, bound: nat): (m: nat)
    ensures m <= bound && m <= n && (m == n || m == bound)
  {
    if n < bound then n else bound
  }

  function FirstOf<T>(xs: seq<T>, n: nat): (ys: seq<T>)
    ensures |ys| == AtMost(n, |xs|)
  {
    xs[..AtMost(n, |xs|)]
  }

  lemma Regroup<T>(a: seq<T>, b: seq<T>, c: seq<T>)
    ensures a + (b + c) == (a + b) + c
  {
  }

  // ---------------------------------------------------------------- filtering

  function Filter<T>(xs: seq<T>, keep: T -> bool): (ys: seq<T>)
    ensures |ys| <= |xs|
    ensures forall y <- ys :: y in xs && keep(y)
    ensures forall x <- xs :: keep(x) ==> x in ys
  {
    if xs == [] then [] else (if keep(xs[0]) then [xs[0]] else []) + Filter(xs[1..], keep)
  }

  lemma {:induction false} FilterAppend<T>(xs: seq<T>, ys: seq<T>, keep: T -> bool)
    ensures Filter(xs + ys, keep) == Filter(xs, keep) + Filter(ys, keep)
  {
    if xs == [] {
      assert xs + ys == ys;
    } else {
      assert (xs + ys)[1..] == xs[1..] + ys;
      FilterAppend(xs[1..], ys, keep);
    }
  }

  lemma FilterSnoc<T>(xs: seq<T>, n: nat, keep: T -> bool)
    requires n < |xs|
    ensures Filter(xs[..n + 1], keep) == Filter(xs[..n], keep) + (if keep(xs[n]) then [xs[n]] else [])
  {
    assert xs[..n + 1] == xs[..n] + [xs[n]];
    FilterAppend(xs[..n], [xs[n]], keep);
  }

  lemma {:induction false} FilterAll<T>(xs: seq<T>, keep: T -> bool)
    requires forall x <- xs :: keep(x)
    ensures Filter(xs, keep) == xs
  {
    if xs != [] {
      FilterAll(xs[1..], keep);
    }
  }

  lemma {:induction false} FilterNone<T>(xs: seq<T>, keep: T -> bool)
    requires forall x <- xs :: !keep(x)
    ensures Filter(xs, keep) == []
  {
    if xs != [] {
      FilterNone(xs[1..], keep);
    }
  }

  lemma {:induction false} FilterCounts<T>(xs: seq<T>, keep: T -> bool, x: T)
    ensures multiset(Filter(xs, keep))[x] == if keep(x) then multiset(xs)[x] else 0
  {
    if xs != [] {
      assert xs == [xs[0]] + xs[1..];
      FilterCounts(xs[1..], keep, x);
    }
  }

  lemma {:induction false} FilterFilter<T>(xs: seq<T>, p: T -> bool, q: T -> bool, both: T -> bool)
    requires forall x <- xs :: both(x) <==> p(x) && q(x)
    ensures Filter(Filter(xs, p), q) == Filter(xs, both)
  {
    if xs != [] {
      FilterFilter(xs[1..], p, q, both);
      FilterAppend(if p(xs[0]) then [xs[0]] else [], Filter(xs[1..], p), q);
    }
  }

  lemma FilterFrom<T>(ys: seq<T>, n: nat, k: nat, keep: T -> bool)
    requires k <= |ys| && forall i :: 0 <= i < |ys| ==> (keep(ys[i]) <==> i >= n)
    ensures Filter(ys[..k], keep) == ys[if k <= n then k else n..k]
  {
    var m := if k <= n then k else n;
    assert ys[..k] == ys[..m] + ys[m..k];
    FilterAppend(ys[..m], ys[m..k], keep);
    FilterNone(ys[..m], keep);
    FilterAll(ys[m..k], keep);
  }

  lemma FilterHead<T>(xs: seq<T>, i: nat, keep: T -> bool)
    requires i < |xs|
    ensures Filter(xs[i..], keep) == (if keep(xs[i]) then [xs[i]] else []) + Filter(xs[i + 1..], keep)
  {
    assert xs[i..][1..] == xs[i + 1..];
  }

  lemma {:induction false} FilterAgree<T>(xs: seq<T>, p: T -> bool, q: T -> bool)
    requires forall x <- xs :: p(x) <==> q(x)
    ensures Filter(xs, p) == Filter(xs, q)
  {
    if xs != [] {
      FilterAgree(xs[1..], p, q);
    }
  }

  lemma PermutationMembers<T>(xs: seq<T>, ys: seq<T>)
    requires multiset(xs) == multiset(ys)
    ensures |xs| == |ys|
    ensures forall x :: x in xs <==> x in ys
  {
    assert |multiset(xs)| == |multiset(ys)|;
    forall x ensures x in xs <==> x in ys {
      assert x in xs <==> x in multiset(xs);
      assert x in ys <==> x in multiset(ys);
    }
  }

  lemma DropHead<T>(xs: seq<T>)
    requires xs != []
    ensures multiset(xs[1..]) == multiset(xs) - multiset{xs[0]}
  {
    assert xs == [xs[0]] + xs[1..];
  }

  /** Where the head of one permutation sits in the other, and what is left. */
  lemma Partner<T>(xs: seq<T>, ys: seq<T>) returns (k: nat)
    requires multiset(xs) == multiset(ys) && xs != []
    ensures k < |ys| && ys[k] == xs[0]
    ensures ys == ys[..k] + [ys[k]] + ys[k + 1..]
    ensures multiset(xs[1..]) == multiset(ys[..k] + ys[k + 1..])
  {
    PermutationMembers(xs, ys);
    assert xs[0] in ys;
    k :| 0 <= k < |ys| && ys[k] == xs[0];
    DropHead(xs);
    assert ys == ys[..k] + [ys[k]] + ys[k + 1..];
    assert multiset(ys) == multiset(ys[..k]) + multiset{ys[k]} + multiset(ys[k + 1..]);
    assert multiset(ys[..k] + ys[k + 1..]) == multiset(ys[..k]) + multiset(ys[k + 1..]);
  }

  lemma {:induction false} FilterPermutation<T>(xs: seq<T>, ys: seq<T>, keep: T -> bool)
    requires multiset(xs) == multiset(ys)
    ensures multiset(Filter(xs, keep)) == multiset(Filter(ys, keep))
  {
    PermutationMembers(xs, ys);
    if xs != [] {
      var k := Partner(xs, ys);
      FilterPermutation(xs[1..], ys[..k] + ys[k + 1..], keep);
      FilterAppend(ys[..k], ys[k + 1..], keep);
      FilterAppend(ys[..k] + [ys[k]], ys[k + 1..], keep);
      FilterAppend(ys[..k], [ys[k]], keep);
    }
  }

  // ----------------------------------------------------------------- mapping

  function Map<T, U>(xs: seq<T>, f: T -> U): (ys: seq<U>)
    ensures |ys| == |xs|
    ensures forall i :: 0 <= i < |xs| ==> ys[i] == f(xs[i])
  {
    seq(|xs|, i requires 0 <= i < |xs| => f(xs[i]))
  }

  lemma MapAppend<T, U>(xs: seq<T>, ys: seq<T>, f: T -> U)
    ensures Map(xs + ys, f) == Map(xs, f) + Map(ys, f)
  {
  }

  lemma MapMap<T, U, V>(xs: seq<T>, f: T -> U, g: U -> V, h: T -> V)
    requires forall x <- xs :: g(f(x)) == h(x)
    ensures Map(Map(xs, f), g) == Map(xs, h)
  {
  }

  lemma {:induction false} MapPermutation<T, U>(xs: seq<T>, ys: seq<T>, f: T -> U)
    requires multiset(xs) == multiset(ys)
    ensures multiset(Map(xs, f)) == multiset(Map(ys, f))
  {
    PermutationMembers(xs, ys);
    if xs != [] {
      var k := Partner(xs, ys);
      MapPermutation(xs[1..], ys[..k] + ys[k + 1..], f);
      MapAppend(ys[..k], ys[k + 1..], f);
      MapAppend(ys[..k] + [ys[k]], ys[k + 1..], f);
      MapAppend(ys[..k], [ys[k]], f);
      assert xs == [xs[0]] + xs[1..];
      MapAppend([xs[0]], xs[1..], f);
    }
  }

  // ----------------------------------------------------------------- sorting

  ghost predicate TotalPreorder<T(!new)>(le: (T, T) -> bool) {
    && (forall x, y :: le(x, y) || le(y, x))
    && (forall x, y, z :: le(x, y) && le(y, z) ==> le(x, z))
  }

  ghost predicate SortedBy<T>(xs: seq<T>, le: (T, T) -> bool) {
    forall i, j | 0 <= i < j < |xs| :: le(xs[i], xs[j])
  }

  function Insert<T>(x: T, xs: seq<T>, le: (T, T) -> bool): (ys: seq<T>)
    ensures multiset(ys) == multiset([x]) + multiset(xs)
  {
    if xs == [] || le(x, xs[0]) then [x] + xs
    else
      assert xs == [xs[0]] + xs[1..];
      [xs[0]] + Insert(x, xs[1..], le)
  }

  /** Python's `sorted`: a permutation, ordered, and stable (an element that came
      first stays first among its equals). */
  function StableSort<T>(xs: seq<T>, le: (T, T) -> bool): (ys: seq<T>)
    ensures multiset(ys) == multiset(xs)
    ensures |ys| == |xs|
  {
    if xs == [] then []
    else
      assert xs == [xs[0]] + xs[1..];
      var ys := Insert(xs[0], StableSort(xs[1..], le), le);
      PermutationMembers(ys, xs);
      ys
  }

  lemma {:induction false} InsertSorted<T(!new)>(x: T, xs: seq<T>, le: (T, T) -> bool)
    requires TotalPreorder(le) && SortedBy(xs, le)
    ensures SortedBy(Insert(x, xs, le), le)
  {
    if xs == [] || le(x, xs[0]) {
    } else {
      InsertSorted(x, xs[1..], le);
      var rest := Insert(x, xs[1..], le);
      forall y | y in rest ensures le(xs[0], y) {
        assert y in multiset(rest);
        assert y == x || y in multiset(xs[1..]);
      }
    }
  }

  lemma {:induction false} SortSorts<T(!new)>(xs: seq<T>, le: (T, T) -> bool)
    requires TotalPreorder(le)
    ensures SortedBy(StableSort(xs, le), le)
  {
    if xs != [] {
      SortSorts(xs[1..], le);
      InsertSorted(xs[0], StableSort(xs[1..], le), le);
    }
  }

  lemma SortMembers<T>(xs: seq<T>, le: (T, T) -> bool)
    ensures forall x :: x in StableSort(xs, le) <==> x in xs
  {
    PermutationMembers(StableSort(xs, le), xs);
  }

  ghost predicate Antisymmetric<T>(xs: seq<T>, le: (T, T) -> bool) {
    forall x, y | x in xs && y in xs && le(x, y) && le(y, x) :: x == y
  }

  /** A permutation is sorted in one way only when no two different members tie. */
  lemma {:induction false} SortedUnique<T>(xs: seq<T>, ys: seq<T>, le: (T, T) -> bool)
    requires multiset(xs) == multiset(ys)
    requires SortedBy(xs, le) && SortedBy(ys, le)
    requires Antisymmetric(xs, le)
    ensures xs == ys
  {
    PermutationMembers(xs, ys);
    if xs != [] {
      assert xs[0] == ys[0] by {
        assert ys[0] in xs && xs[0] in ys;
        var i :| 0 <= i < |xs| && xs[i] == ys[0];
        var j :| 0 <= j < |ys| && ys[j] == xs[0];
        assert i == 0 || le(xs[0], xs[i]);
        assert j == 0 || le(ys[0], ys[j]);
      }
      DropHead(xs);
      DropHead(ys);
      SortedUnique(xs[1..], ys[1..], le);
    }
  }

  predicate LexLe<T>(first: (T, T) -> bool, second: (T, T) -> bool, x: T, y: T) {
    first(x, y) && (first(y, x) ==> second(x, y))
  }

  function Lex<T>(first: (T, T) -> bool, second: (T, T) -> bool): (T, T) -> bool {
    (x, y) => LexLe(first, second, x, y)
  }

  lemma {:induction false} InsertStable<T(!new)>(
      x: T, xs: seq<T>, first: (T, T) -> bool, second: (T, T) -> bool)
    requires TotalPreorder(first)
    requires SortedBy(xs, Lex(first, second))
    requires forall y <- xs :: second(x, y)
    ensures SortedBy(Insert(x, xs, first), Lex(first, second))
  {
    var lex := Lex(first, second);
    if xs == [] || first(x, xs[0]) {
      forall y | y in xs ensures lex(x, y) {
        var i :| 0 <= i < |xs| && xs[i] == y;
        assert i == 0 || lex(xs[0], xs[i]);
      }
    } else {
      InsertStable(x, xs[1..], first, second);
      var rest := Insert(x, xs[1..], first);
      forall y | y in rest ensures lex(xs[0], y) {
        assert y in multiset(rest);
        assert y == x || y in multiset(xs[1..]);
      }
    }
  }

  /** Two passes: sort by the minor key, then stably by the major key. */
  lemma {:induction false} StableTwoPass<T(!new)>(
      xs: seq<T>, first: (T, T) -> bool, second: (T, T) -> bool)
    requires TotalPreorder(first)
    requires SortedBy(xs, second)
    ensures SortedBy(StableSort(xs, first), Lex(first, second))
  {
    if xs != [] {
      StableTwoPass(xs[1..], first, second);
      var sorted := StableSort(xs[1..], first);
      forall y | y in sorted ensures second(xs[0], y) {
        SortMembers(xs[1..], first);
        var i :| 0 <= i < |xs[1..]| && xs[1..][i] == y;
      }
      InsertStable(xs[0], sorted, first, second);
    }
  }

  lemma {:induction false} FilterSorted<T>(xs: seq<T>, keep: T -> bool, le: (T, T) -> bool)
    requires SortedBy(xs, le)
    ensures SortedBy(Filter(xs, keep), le)
  {
    if xs != [] {
      FilterSorted(xs[1..], keep, le);
      var rest := Filter(xs[1..], keep);
      forall j | 0 <= j < |rest| ensures le(xs[0], rest[j]) {
        assert rest[j] in xs[1..];
        var i :| 0 <= i < |xs[1..]| && xs[1..][i] == rest[j];
      }
    }
  }

  // --------------------------------------------------------------- integers

  predicate IntLe(x: int, y: int) { x <= y }

  /** Sorting integers leaves nothing to choose: the sorted sequence is a function
      of the multiset. */
  lemma SortedIntsUnique(xs: seq<int>, ys: seq<int>)
    requires multiset(xs) == multiset(ys)
    requires SortedBy(xs, IntLe) && SortedBy(ys, IntLe)
    ensures xs == ys
  {
    SortedUnique(xs, ys, IntLe);
  }

  function Sum(xs: seq<int>): int {
    if xs == [] then 0 else Sum(xs[..|xs| - 1]) + xs[|xs| - 1]
  }
}
