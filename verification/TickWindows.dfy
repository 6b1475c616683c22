/** Tick-index windows: how a scan of one alignment is cut into bounded pieces. */
module TickWindows {
  import opened Ordering

  /** Integer division as the engine does it: towards zero. */
  function TruncDiv(t: int, width: nat): int
    requires width > 0
  {
    if t >= 0 then t / width else -((-t) / width)
  }

  predicate InWindow(t: int, window: int, width: nat) {
    window * width <= t < (window + 1) * width
  }

  /** The window a tick is counted under holds it exactly when the tick is not negative, or
      lies on a window's edge: division towards zero counts other negative ticks one window
      too high. */
  lemma OwnWindowHoldsTick(t: int, width: nat)
    requires width > 0
    ensures InWindow(t, TruncDiv(t, width), width) <==> t >= 0 || t % width == 0
  {
    if t < 0 {
      var q := (-t) / width;
      assert -t == q * width + (-t) % width;
      assert TruncDiv(t, width) * width == -(q * width);
      if t % width == 0 {
        assert (-t) % width == 0 by { NegatedMultiple(t, width); }
      } else {
        assert (-t) % width != 0 by { NegatedMultiple(t, width); }
      }
    }
  }

  lemma NegatedMultiple(t: int, width: nat)
    requires width > 0
    ensures t % width == 0 <==> (-t) % width == 0
  {
    var q, r := t / width, t % width;
    assert t == q * width + r;
    if r == 0 {
      assert -t == (-q) * width;
      MultipleOf(-q, width);
    } else {
      assert -t == (-q - 1) * width + (width - r);
      RemainderOf(-q - 1, width - r, width);
    }
  }

  lemma MultipleOf(q: int, width: nat)
    requires width > 0
    ensures (q * width) % width == 0
  {
    RemainderOf(q, 0, width);
  }

  lemma FloorWindow(t: int, w: int, width: nat)
    requires width > 0
    ensures InWindow(t, w, width) <==> w == t / width
  {
    if InWindow(t, w, width) {
      RemainderOf(w, t - w * width, width);
    }
  }

  lemma AtLeastOne(d: int, width: nat)
    requires d >= 1
    ensures d * width >= width
  {
  }

  lemma QuotientUnique(q: int, r: int, q': int, r': int, width: nat)
    requires 0 <= r < width && 0 <= r' < width
    requires q * width + r == q' * width + r'
    ensures q == q' && r == r'
  {
    if q > q' {
      AtLeastOne(q - q', width);
    } else if q < q' {
      AtLeastOne(q' - q, width);
    }
  }

  lemma RemainderOf(q: int, r: int, width: nat)
    requires 0 <= r < width
    ensures (q * width + r) % width == r && (q * width + r) / width == q
  {
    var x := q * width + r;
    QuotientUnique(q, r, x / width, x % width, width);
  }

  datatype Bounds = Bounds(lowest: int, highest: int, count: nat, windows: seq<int>)

  ghost predicate StrictlyAscending(xs: seq<int>) {
    forall i, j :: 0 <= i < j < |xs| ==> xs[i] < xs[j]
  }

  /** The windows that hold some tick, in order. */
  ghost predicate Occupied(windows: seq<int>, ticks: seq<int>, width: nat)
    requires width > 0
  {
    && StrictlyAscending(windows)
    && (forall t <- ticks :: TruncDiv(t, width) in windows)
    && (forall w <- windows :: exists t <- ticks :: TruncDiv(t, width) == w)
  }

  method OccupiedWindows(ticks: seq<int>, width: nat) returns (windows: seq<int>)
    requires width > 0
    ensures Occupied(windows, ticks, width)
  {
    var seen: seq<int> := [];
    for i := 0 to |ticks|
      invariant forall k :: 0 <= k < i ==> TruncDiv(ticks[k], width) in seen
      invariant forall w <- seen :: exists t <- ticks :: TruncDiv(t, width) == w
      invariant forall j, k :: 0 <= j < k < |seen| ==> seen[j] != seen[k]
    {
      var window := TruncDiv(ticks[i], width);
      if window !in seen {
        seen := seen + [window];
      }
    }
    windows := StableSort(seen, IntLe);
    DistinctSort(seen);
  }

  /** Folds the tick column of one alignment; `None` when it has no rows. */
  method TickIndexBounds(ticks: seq<int>, width: nat) returns (bounds: Option<Bounds>)
    requires width > 0
    ensures bounds.None? <==> ticks == []
    ensures bounds.Some? ==>
              var b := bounds.value;
              && b.count == |ticks| && b.lowest in ticks && b.highest in ticks
              && (forall t <- ticks :: b.lowest <= t <= b.highest)
              && Occupied(b.windows, ticks, width)
  {
    if ticks == [] {
      return None;
    }
    var lowest, highest := ticks[0], ticks[0];
    for i := 0 to |ticks|
      invariant lowest in ticks && highest in ticks
      invariant forall k :: 0 <= k < i ==> lowest <= ticks[k] <= highest
    {
      lowest := if ticks[i] < lowest then ticks[i] else lowest;
      highest := if ticks[i] > highest then ticks[i] else highest;
    }
    var windows := OccupiedWindows(ticks, width);
    bounds := Some(Bounds(lowest, highest, |ticks|, windows));
  }

  lemma StillDistinct(xs: seq<int>, ys: seq<int>, i: nat, j: nat)
    requires multiset(ys) == multiset(xs) && i < j < |ys|
    requires forall j, k :: 0 <= j < k < |xs| ==> xs[j] != xs[k]
    ensures ys[i] != ys[j]
  {
    DistinctCounts(xs, ys[i]);
    if ys[i] == ys[j] {
      TwiceCounts(ys, i, j);
    }
  }

  lemma DistinctSort(xs: seq<int>)
    requires forall j, k :: 0 <= j < k < |xs| ==> xs[j] != xs[k]
    ensures StrictlyAscending(StableSort(xs, IntLe))
    ensures forall x :: x in StableSort(xs, IntLe) <==> x in xs
  {
    SortSorts(xs, IntLe);
    SortMembers(xs, IntLe);
    SortedDistinct(xs, StableSort(xs, IntLe));
  }

  lemma SortedDistinct(xs: seq<int>, ys: seq<int>)
    requires forall j, k :: 0 <= j < k < |xs| ==> xs[j] != xs[k]
    requires multiset(ys) == multiset(xs) && SortedBy(ys, IntLe)
    ensures StrictlyAscending(ys)
  {
    forall i, j | 0 <= i < j < |ys| ensures ys[i] < ys[j] {
      assert IntLe(ys[i], ys[j]);
      StillDistinct(xs, ys, i, j);
    }
  }

  lemma {:induction false} DistinctCounts(xs: seq<int>, x: int)
    requires forall j, k :: 0 <= j < k < |xs| ==> xs[j] != xs[k]
    ensures multiset(xs)[x] <= 1
  {
    if xs != [] {
      assert xs == [xs[0]] + xs[1..];
      DistinctCounts(xs[1..], x);
      if x == xs[0] {
        assert x !in xs[1..];
        assert x !in multiset(xs[1..]);
      }
    }
  }

  lemma TwiceCounts(xs: seq<int>, i: nat, j: nat)
    requires i < j < |xs| && xs[i] == xs[j]
    ensures multiset(xs)[xs[i]] >= 2
  {
    assert xs == xs[..i] + [xs[i]] + xs[i + 1..j] + [xs[j]] + xs[j + 1..];
  }

  /** Whether some tick is counted under the window that holds `t`. */
  predicate Seen(t: int, ticks: seq<int>, width: nat)
    requires width > 0
  {
    exists u <- ticks :: TruncDiv(u, width) == t / width
  }

  /** A tick lies in at most one window, and in a listed one exactly when some tick, it or
      another, is counted under that window. */
  lemma WindowsPartition(ticks: seq<int>, width: nat, windows: seq<int>, t: int)
    requires width > 0 && Occupied(windows, ticks, width)
    ensures forall w :: InWindow(t, w, width) <==> w == t / width
    ensures (exists w <- windows :: InWindow(t, w, width)) <==> Seen(t, ticks, width)
    ensures t in ticks && (t >= 0 || t % width == 0) ==> Seen(t, ticks, width)
  {
    forall w ensures InWindow(t, w, width) <==> w == t / width {
      FloorWindow(t, w, width);
    }
    if t in ticks && (t >= 0 || t % width == 0) {
      OwnWindowHoldsTick(t, width);
      assert TruncDiv(t, width) == t / width;
    }
  }
}
