/** The statistics a stream starts with, computed from its sorted rows on the
    in-memory path and in one pass over an engine-ordered scan on the streaming path. */
module StreamStatistics {
  import opened Ordering
  import opened Alignment
  import opened SegmentAgreement

  function Forward(earlier: int, later: int): seq<int> { if later > earlier then [later - earlier] else [] }

  /** The differences between consecutive times that move forward. */
  function PositiveIntervals(times: seq<int>): seq<int> {
    var n := |times|;
    if n < 2 then [] else PositiveIntervals(times[..n - 1]) + Forward(times[n - 2], times[n - 1])
  }

  /** The integer part of `statistics.median`; the two middle values are averaged. */
  function Median(intervals: seq<int>): Option<int> {
    if intervals == [] then None
    else
      var sorted, n := StableSort(intervals, IntLe), |intervals|;
      Some(if n % 2 == 1 then sorted[n / 2] else (sorted[n / 2 - 1] + sorted[n / 2]) / 2)
  }

  /** Python's `round` of a quotient: ties go to the even neighbour. */
  function RoundRatio(a: nat, b: nat): nat
    requires b > 0
  {
    var q, rest := a / b, a % b;
    if 2 * rest < b || (2 * rest == b && q % 2 == 0) then q else q + 1
  }

  function DroppedIn(interval: int, median: int): nat
    requires median > 0
  {
    if 2 * interval > 3 * median then Max(1, RoundRatio(interval, median) - 1) else 0
  }

  function Dropped(intervals: seq<int>, median: Option<int>): nat
  {
    if intervals == [] || median.None? || median.value <= 0 then 0
    else Dropped(intervals[..|intervals| - 1], median) + DroppedIn(intervals[|intervals| - 1], median.value)
  }

  /** Receive time minus source time, where both are known. */
  function Latencies(table: seq<Observation>): seq<int> {
    Map(Filter(table, HasBothClocks), ReceiveLatency)
  }

  predicate HasBothClocks(o: Observation) { o.rawLogTime.Some? && o.timestamp.Some? }

  function ReceiveLatency(o: Observation): int {
    if HasBothClocks(o) then o.rawLogTime.value - o.timestamp.value else 0
  }

  function LatencyDrift(latencies: seq<int>): int {
    if |latencies| >= 2 then MaxOf(latencies) - MinOf(latencies) else 0
  }

  function DriftThreshold(r: Recipe): int {
    if r.tolerance.Some? then r.tolerance.value else Max(1, r.step / 2)
  }

  function Finalized(observations: nat, intervals: seq<int>, latencies: seq<int>, r: Recipe,
                     errors: Option<seq<nat>>): StreamStats
  {
    var median, drift := Median(intervals), LatencyDrift(latencies);
    StreamStats(observations, 0, 0, 0, errors, 0, 0, None, median, Dropped(intervals, median), drift,
                drift > DriftThreshold(r))
  }

  function TimedObservations(rows: seq<TimedRow>): seq<Observation> { Map(rows, (x: TimedRow) => x.obs) }

  /** The initial statistics of the in-memory path. */
  function BatchStats(rows: seq<TimedRow>, r: Recipe): StreamStats {
    Finalized(|rows|, PositiveIntervals(Times(rows)), Latencies(TimedObservations(rows)), r, Some([]))
  }

  method CountDropped(intervals: seq<int>, median: Option<int>) returns (dropped: nat)
    ensures dropped == Dropped(intervals, median)
  {
    dropped := 0;
    if median.Some? && median.value > 0 {
      for i := 0 to |intervals|
        invariant dropped == Dropped(intervals[..i], median)
      {
        assert intervals[..i + 1][..i] == intervals[..i];
        if 2 * intervals[i] > 3 * median.value {
          dropped := dropped + Max(1, RoundRatio(intervals[i], median.value) - 1);
        }
      }
      assert intervals[..|intervals|] == intervals;
    }
  }

  method CollectLatencies(table: seq<Observation>) returns (latencies: seq<int>)
    ensures latencies == Latencies(table)
  {
    latencies := [];
    for i := 0 to |table|
      invariant latencies == Latencies(table[..i])
    {
      LatenciesSnoc(table, i);
      if HasBothClocks(table[i]) {
        latencies := latencies + [table[i].rawLogTime.value - table[i].timestamp.value];
      }
    }
    assert table[..|table|] == table;
  }

  method InitialStreamStats(rows: seq<TimedRow>, r: Recipe) returns (st: StreamStats)
    ensures st == BatchStats(rows, r)
  {
    var intervals := PositiveIntervals(Times(rows));
    var median := Median(intervals);
    var dropped := CountDropped(intervals, median);
    var latencies := CollectLatencies(TimedObservations(rows));
    var drift := if |latencies| >= 2 then MaxOf(latencies) - MinOf(latencies) else 0;
    st := StreamStats(|rows|, 0, 0, 0, Some([]), 0, 0, None, median, dropped, drift, drift > DriftThreshold(r));
  }

  lemma LatenciesSnoc(table: seq<Observation>, n: nat)
    requires n < |table|
    ensures Latencies(table[..n + 1]) ==
            Latencies(table[..n]) + if HasBothClocks(table[n]) then [ReceiveLatency(table[n])] else []
  {
    FilterSnoc(table, n, HasBothClocks);
  }

  // ------------------------------------------------- what the statistics mean

  function Gaps(times: seq<int>): seq<int> {
    if times == [] then [] else seq(|times| - 1, i requires 0 <= i < |times| - 1 => times[i + 1] - times[i])
  }

  predicate Positive(x: int) { x > 0 }

  lemma GapsSnoc(times: seq<int>)
    requires |times| >= 2
    ensures Gaps(times) == Gaps(times[..|times| - 1]) + [times[|times| - 1] - times[|times| - 2]]
  {
  }

  lemma FilterOne(xs: seq<int>, earlier: int, later: int)
    ensures Filter(xs + [later - earlier], Positive) == Filter(xs, Positive) + Forward(earlier, later)
  {
    FilterAppend(xs, [later - earlier], Positive);
  }

  lemma NoGaps(times: seq<int>)
    requires |times| < 2
    ensures Filter(Gaps(times), Positive) == []
  {
    assert Gaps(times) == [];
  }

  lemma IntervalsSnoc(times: seq<int>, intervals: seq<int>)
    requires |times| >= 2 && PositiveIntervals(times[..|times| - 1]) == intervals
    ensures PositiveIntervals(times) == intervals + Forward(times[|times| - 2], times[|times| - 1])
  {
  }

  lemma {:induction false} IntervalsMeaning(times: seq<int>)
    ensures PositiveIntervals(times) == Filter(Gaps(times), Positive)
  {
    var n := |times|;
    if n < 2 {
      NoGaps(times);
    } else {
      var gaps := Gaps(times[..n - 1]);
      IntervalsMeaning(times[..n - 1]);
      IntervalsSnoc(times, Filter(gaps, Positive));
      GapsSnoc(times);
      FilterOne(gaps, times[n - 2], times[n - 1]);
    }
  }

  function LessThan(v: int): int -> bool { (x: int) => x < v }

  function AtMostThat(v: int): int -> bool { (x: int) => x <= v }

  /** Place `k` of the sorted elements holds `v`: at most `k` are less, more than `k` are not more. */
  predicate NthSmallest(xs: seq<int>, k: nat, v: int) {
    v in xs && |Filter(xs, LessThan(v))| <= k < |Filter(xs, AtMostThat(v))|
  }

  lemma FilterWithin<T>(xs: seq<T>, ys: seq<T>, keep: T -> bool)
    requires forall y <- ys :: !keep(y)
    ensures |Filter(xs + ys, keep)| <= |xs|
  {
    FilterAppend(xs, ys, keep);
    FilterNone(ys, keep);
  }

  lemma FilterBeyond<T>(xs: seq<T>, ys: seq<T>, keep: T -> bool)
    requires forall x <- xs :: keep(x)
    ensures |Filter(xs + ys, keep)| >= |xs|
  {
    FilterAppend(xs, ys, keep);
    FilterAll(xs, keep);
  }

  lemma FewBelow(ys: seq<int>, k: nat)
    requires SortedBy(ys, IntLe) && k < |ys|
    ensures |Filter(ys, LessThan(ys[k]))| <= k
  {
    var v := ys[k];
    forall y | y in ys[k..] ensures !LessThan(v)(y) {
      var i :| 0 <= i < |ys[k..]| && ys[k..][i] == y;
      assert i == 0 || IntLe(v, ys[k + i]);
    }
    FilterWithin(ys[..k], ys[k..], LessThan(v));
    assert ys[..k] + ys[k..] == ys;
  }

  lemma EnoughUpTo(ys: seq<int>, k: nat)
    requires SortedBy(ys, IntLe) && k < |ys|
    ensures |Filter(ys, AtMostThat(ys[k]))| >= k + 1
  {
    var v := ys[k];
    forall y | y in ys[..k + 1] ensures AtMostThat(v)(y) {
      var i :| 0 <= i < |ys[..k + 1]| && ys[..k + 1][i] == y;
      assert i == k || IntLe(ys[i], v);
    }
    FilterBeyond(ys[..k + 1], ys[k + 1..], AtMostThat(v));
    assert ys[..k + 1] + ys[k + 1..] == ys;
  }

  lemma SortedPlace(ys: seq<int>, k: nat)
    requires SortedBy(ys, IntLe) && k < |ys|
    ensures NthSmallest(ys, k, ys[k])
  {
    FewBelow(ys, k);
    EnoughUpTo(ys, k);
  }

  lemma PlaceOfPermutation(xs: seq<int>, ys: seq<int>, k: nat, v: int)
    requires multiset(xs) == multiset(ys) && NthSmallest(ys, k, v)
    ensures NthSmallest(xs, k, v)
  {
    PermutationMembers(xs, ys);
    FilterPermutation(xs, ys, LessThan(v));
    FilterPermutation(xs, ys, AtMostThat(v));
    PermutationMembers(Filter(xs, LessThan(v)), Filter(ys, LessThan(v)));
    PermutationMembers(Filter(xs, AtMostThat(v)), Filter(ys, AtMostThat(v)));
  }

  /** The middle one of an odd number; of an even number the mean of the middle two, rounded down. */
  ghost predicate RightMedian(xs: seq<int>, median: Option<int>) {
    if xs == [] then median.None?
    else
      median.Some? &&
      if |xs| % 2 == 1 then NthSmallest(xs, |xs| / 2, median.value)
      else exists a, b :: MiddleTwo(xs, a, b) && 0 <= a + b - 2 * median.value <= 1
  }

  predicate MiddleTwo(xs: seq<int>, a: int, b: int)
    requires |xs| >= 2
  {
    NthSmallest(xs, |xs| / 2 - 1, a) && NthSmallest(xs, |xs| / 2, b)
  }

  lemma SortedPlaceOf(xs: seq<int>, k: nat)
    requires k < |xs|
    ensures NthSmallest(xs, k, StableSort(xs, IntLe)[k])
  {
    SortSorts(xs, IntLe);
    SortedPlace(StableSort(xs, IntLe), k);
    PlaceOfPermutation(xs, StableSort(xs, IntLe), k, StableSort(xs, IntLe)[k]);
  }

  lemma MedianIsRight(xs: seq<int>)
    ensures RightMedian(xs, Median(xs))
  {
    if xs != [] {
      var sorted, n := StableSort(xs, IntLe), |xs|;
      SortedPlaceOf(xs, n / 2);
      if n % 2 == 0 {
        SortedPlaceOf(xs, n / 2 - 1);
        assert MiddleTwo(xs, sorted[n / 2 - 1], sorted[n / 2]);
      }
    }
  }

  /** Frames missing in one interval: none up to one and a half medians, else one less than the
      nearest number of medians, the even one of two. */
  predicate RightDrop(interval: int, median: int, dropped: int) {
    if 2 * interval <= 3 * median then dropped == 0
    else
      && dropped >= 1 && (2 * dropped + 1) * median <= 2 * interval <= (2 * dropped + 3) * median
      && (2 * interval == (2 * dropped + 1) * median || 2 * interval == (2 * dropped + 3) * median ==>
            dropped % 2 == 1)
  }

  lemma RoundsToNearest(a: nat, b: nat)
    requires b > 0
    ensures var q := RoundRatio(a, b);
            && (2 * q - 1) * b <= 2 * a <= (2 * q + 1) * b
            && (2 * a == (2 * q - 1) * b || 2 * a == (2 * q + 1) * b ==> q % 2 == 0)
  {
    var q, rest := a / b, a % b;
    assert a == q * b + rest;
    Doubled(q, b);
  }

  lemma Doubled(q: nat, b: nat)
    ensures (2 * q - 1) * b == 2 * (q * b) - b && (2 * q + 1) * b == 2 * (q * b) + b
    ensures (2 * (q + 1) - 1) * b == 2 * (q * b) + b && (2 * (q + 1) + 1) * b == 2 * (q * b) + 3 * b
  {
  }

  lemma AtLeastTwo(q: nat, a: int, b: int)
    requires 2 * a <= (2 * q + 1) * b && 2 * a > 3 * b && b > 0
    ensures q >= 2
  {
    if q <= 1 {
      ScaleAtMost(2 * q + 1, 3, b);
    }
  }

  lemma ScaleAtMost(m: nat, n: nat, b: int)
    requires m <= n && b > 0
    ensures m * b <= n * b
  {
  }

  lemma DropIsRight(interval: int, median: int)
    requires median > 0
    ensures RightDrop(interval, median, DroppedIn(interval, median))
  {
    if 2 * interval > 3 * median {
      RoundsToNearest(interval, median);
      AtLeastTwo(RoundRatio(interval, median), interval, median);
    }
  }

  /** The drops of all intervals against a positive median add up. */
  ghost predicate RightDrops(intervals: seq<int>, median: Option<int>, dropped: int) {
    if median.None? || median.value <= 0 then dropped == 0
    else exists drops: seq<int> ::
      && |drops| == |intervals| && Sum(drops) == dropped
      && forall i :: 0 <= i < |intervals| ==> RightDrop(intervals[i], median.value, drops[i])
  }

  lemma {:induction false} DropsAreRight(intervals: seq<int>, median: Option<int>)
    ensures RightDrops(intervals, median, Dropped(intervals, median))
  {
    if median.Some? && median.value > 0 {
      if intervals == [] {
        assert Sum([]) == 0;
      } else {
        var n := |intervals| - 1;
        DropsAreRight(intervals[..n], median);
        var drops: seq<int> :|
          && |drops| == n && Sum(drops) == Dropped(intervals[..n], median)
          && forall i :: 0 <= i < n ==> RightDrop(intervals[..n][i], median.value, drops[i]);
        DropIsRight(intervals[n], median.value);
        var all := drops + [DroppedIn(intervals[n], median.value)];
        assert all[..n] == drops;
        assert forall i :: 0 <= i < n ==> intervals[..n][i] == intervals[i];
      }
    }
  }

  /** Receive time minus source time of an observation that has both. */
  predicate Delayed(o: Observation, delay: int) {
    o.timestamp.Some? && o.rawLogTime == Some(o.timestamp.value + delay)
  }

  ghost predicate SomeDelayed(obs: seq<Observation>, delay: int) { exists o <- obs :: Delayed(o, delay) }

  /** The spread of the delays: the largest difference of two, 0 where there is none. */
  ghost predicate RightSpread(obs: seq<Observation>, spread: int) {
    && (forall x, y | SomeDelayed(obs, x) && SomeDelayed(obs, y) :: x - y <= spread)
    && (spread == 0 || exists x, y :: SomeDelayed(obs, x) && SomeDelayed(obs, y) && x - y == spread)
  }

  lemma LatenciesMeaning(obs: seq<Observation>)
    ensures forall x :: x in Latencies(obs) <==> SomeDelayed(obs, x)
  {
    var picked := Filter(obs, HasBothClocks);
    forall x | x in Latencies(obs) ensures SomeDelayed(obs, x) {
      var i :| 0 <= i < |picked| && Latencies(obs)[i] == x;
      assert picked[i] in obs && Delayed(picked[i], x);
    }
    forall o, x | o in obs && Delayed(o, x) ensures x in Latencies(obs) {
      assert HasBothClocks(o) && o in picked;
      var i :| 0 <= i < |picked| && picked[i] == o;
      assert Latencies(obs)[i] == x;
    }
  }

  lemma SpreadIsRight(obs: seq<Observation>, latencies: seq<int>)
    requires forall x :: x in latencies <==> SomeDelayed(obs, x)
    ensures RightSpread(obs, LatencyDrift(latencies))
  {
    if |latencies| >= 2 {
      assert SomeDelayed(obs, MaxOf(latencies)) && SomeDelayed(obs, MinOf(latencies));
    }
  }

  /** Drift is a spread beyond the tolerance, or where none is set beyond half a step. */
  predicate RightDriftFlag(flag: bool, spread: int, r: Recipe) {
    flag <==> if r.tolerance.Some? then spread > r.tolerance.value else spread > 1 && 2 * spread > r.step
  }

  lemma DriftFlagIsRight(spread: int, r: Recipe)
    ensures RightDriftFlag(spread > DriftThreshold(r), spread, r)
  {
  }

  /** What a stream's statistics say of its rows before any tick. */
  ghost predicate RightStart(rows: seq<TimedRow>, st: StreamStats, r: Recipe) {
    var intervals := Filter(Gaps(Times(rows)), Positive);
    && Fresh(st) && st.observations == |rows|
    && RightMedian(intervals, st.medianInterval) && RightDrops(intervals, st.medianInterval, st.droppedFrames)
    && RightSpread(TimedObservations(rows), st.latencyDrift)
    && RightDriftFlag(st.driftDetected, st.latencyDrift, r)
  }

  lemma FinalizedIsRight(n: nat, intervals: seq<int>, obs: seq<Observation>, latencies: seq<int>, r: Recipe,
                         errors: Option<seq<nat>>)
    requires forall x :: x in latencies <==> SomeDelayed(obs, x)
    ensures var st := Finalized(n, intervals, latencies, r, errors);
            && st.observations == n
            && RightMedian(intervals, st.medianInterval) && RightDrops(intervals, st.medianInterval, st.droppedFrames)
            && RightSpread(obs, st.latencyDrift) && RightDriftFlag(st.driftDetected, st.latencyDrift, r)
  {
    MedianIsRight(intervals);
    DropsAreRight(intervals, Median(intervals));
    SpreadIsRight(obs, latencies);
    DriftFlagIsRight(LatencyDrift(latencies), r);
  }

  lemma StartIsRight(rows: seq<TimedRow>, r: Recipe)
    ensures RightStart(rows, BatchStats(rows, r), r)
  {
    IntervalsMeaning(Times(rows));
    LatenciesMeaning(TimedObservations(rows));
    FinalizedIsRight(|rows|, PositiveIntervals(Times(rows)), TimedObservations(rows),
                     Latencies(TimedObservations(rows)), r, Some([]));
  }

  // -------------------------------------------------------------- one-pass form

  /** What the scan loop holds per stream. */
  datatype Running = Running(observations: nat, previous: Option<int>, intervals: seq<int>, latencies: seq<int>)

  function TimeIn(clock: Clock, s: StreamSpec): Observation -> int { (o: Observation) => TimeOf(o, clock, s) }

  function RunningOver(rows: seq<Observation>, clock: Clock, s: StreamSpec): Running {
    var times := Map(rows, TimeIn(clock, s));
    Running(|rows|, if rows == [] then None else Some(times[|rows| - 1]), PositiveIntervals(times), Latencies(rows))
  }

  function Advance(run: Running, o: Observation, t: int): Running {
    Running(run.observations + 1, Some(t),
            run.intervals + (if run.previous.None? then [] else Forward(run.previous.value, t)),
            run.latencies + if HasBothClocks(o) then [ReceiveLatency(o)] else [])
  }

  lemma PositiveIntervalsSnoc(times: seq<int>, t: int)
    ensures PositiveIntervals(times + [t]) ==
            PositiveIntervals(times) + if times == [] then [] else Forward(times[|times| - 1], t)
  {
    assert (times + [t])[..|times|] == times;
    if times == [] {
      assert PositiveIntervals([t]) == [];
    }
  }

  lemma LatenciesOfMore(rows: seq<Observation>, o: Observation)
    ensures Latencies(rows + [o]) == Latencies(rows) + if HasBothClocks(o) then [ReceiveLatency(o)] else []
  {
    assert (rows + [o])[..|rows| + 1] == rows + [o] && (rows + [o])[..|rows|] == rows;
    LatenciesSnoc(rows + [o], |rows|);
  }

  lemma AdvanceExtends(rows: seq<Observation>, o: Observation, clock: Clock, s: StreamSpec)
    ensures RunningOver(rows + [o], clock, s) == Advance(RunningOver(rows, clock, s), o, TimeOf(o, clock, s))
  {
    var times, t := Map(rows, TimeIn(clock, s)), TimeOf(o, clock, s);
    TimesSnoc(rows, o, TimeIn(clock, s));
    assert Map(rows + [o], TimeIn(clock, s)) == times + [t];
    PositiveIntervalsSnoc(times, t);
    LatenciesOfMore(rows, o);
  }

  lemma TimesSnoc(rows: seq<Observation>, o: Observation, time: Observation -> int)
    ensures Map(rows + [o], time) == Map(rows, time) + [time(o)]
  {
  }

  function Matching(s: StreamSpec): Observation -> bool { (o: Observation) => Matches(o, s) }

  function StreamScan(scan: seq<Observation>, s: StreamSpec): seq<Observation> {
    Filter(scan, Matching(s))
  }

  /** Some row of a selected stream has neither clock: the scan raises on it. */
  predicate Untimed(o: Observation, r: Recipe) {
    ClockValue(o, r.clock).None? && exists s <- r.streams :: Matches(o, s)
  }

  /** One scanned row offered to every selected stream. */
  method ObserveRow(o: Observation, r: Recipe, before: seq<Running>) returns (runs: Option<seq<Running>>)
    requires |before| == |r.streams|
    ensures runs.None? <==> Untimed(o, r)
    ensures runs.Some? ==> |runs.value| == |r.streams| && forall k :: 0 <= k < |r.streams| ==>
              runs.value[k]
              == if Matches(o, r.streams[k]) then Advance(before[k], o, TimeOf(o, r.clock, r.streams[k])) else before[k]
  {
    var after := before;
    for k := 0 to |r.streams|
      invariant |after| == |r.streams|
      invariant forall j :: 0 <= j < k && Matches(o, r.streams[j]) ==> ClockValue(o, r.clock).Some?
      invariant forall j :: 0 <= j < k ==>
                  after[j]
                  == if Matches(o, r.streams[j]) then Advance(before[j], o, TimeOf(o, r.clock, r.streams[j]))
                     else before[j]
      invariant forall j :: k <= j < |after| ==> after[j] == before[j]
    {
      if !Matches(o, r.streams[k]) {
        continue;
      }
      if ClockValue(o, r.clock).None? {
        return None;
      }
      var t := ClockValue(o, r.clock).value - r.streams[k].latency;
      var run := after[k];
      run := run.(observations := run.observations + 1);
      if run.previous.Some? && t > run.previous.value {
        run := run.(intervals := run.intervals + [t - run.previous.value]);
      }
      run := run.(previous := Some(t));
      if HasBothClocks(o) {
        run := run.(latencies := run.latencies + [o.rawLogTime.value - o.timestamp.value]);
      }
      after := after[k := run];
    }
    runs := Some(after);
  }

  function RunningAll(scan: seq<Observation>, r: Recipe): (runs: seq<Running>)
    ensures |runs| == |r.streams|
  {
    seq(|r.streams|, k requires 0 <= k < |r.streams| =>
      RunningOver(StreamScan(scan, r.streams[k]), r.clock, r.streams[k]))
  }

  lemma ScanStep(scan: seq<Observation>, i: nat, r: Recipe, k: nat)
    requires i < |scan| && k < |r.streams|
    ensures RunningAll(scan[..i + 1], r)[k] ==
            if Matches(scan[i], r.streams[k])
            then Advance(RunningAll(scan[..i], r)[k], scan[i], TimeOf(scan[i], r.clock, r.streams[k]))
            else RunningAll(scan[..i], r)[k]
  {
    var s := r.streams[k];
    FilterSnoc(scan, i, Matching(s));
    if Matches(scan[i], s) {
      AdvanceExtends(StreamScan(scan[..i], s), scan[i], r.clock, s);
    } else {
      assert StreamScan(scan[..i + 1], s) == StreamScan(scan[..i], s);
    }
  }

  function FinalizedRun(run: Running, r: Recipe): StreamStats {
    Finalized(run.observations, run.intervals, run.latencies, r, None)
  }

  method FinalizeStreamStats(runs: seq<Running>, r: Recipe) returns (stats: seq<StreamStats>)
    ensures stats == Map(runs, (run: Running) => FinalizedRun(run, r))
  {
    stats := [];
    for k := 0 to |runs|
      invariant |stats| == k
      invariant forall j :: 0 <= j < k ==> stats[j] == FinalizedRun(runs[j], r)
    {
      var median, drift := Median(runs[k].intervals), LatencyDrift(runs[k].latencies);
      var dropped := CountDropped(runs[k].intervals, median);
      stats := stats + [StreamStats(runs[k].observations, 0, 0, 0, None, 0, 0, None, median, dropped, drift,
                                    drift > DriftThreshold(r))];
    }
  }

  /** The scan loop over every stream; `None` is the error raised for a row of a
      selected stream without any timestamp. */
  method StreamingStreamStats(scan: seq<Observation>, r: Recipe) returns (stats: Option<seq<StreamStats>>)
    ensures stats.None? <==> exists o <- scan :: Untimed(o, r)
    ensures stats.Some? ==> stats.value == Map(RunningAll(scan, r), (run: Running) => FinalizedRun(run, r))
  {
    var runs := seq(|r.streams|, _ => Running(0, None, [], []));
    for i := 0 to |scan|
      invariant forall o <- scan[..i] :: !Untimed(o, r)
      invariant runs == RunningAll(scan[..i], r)
    {
      var after := ObserveRow(scan[i], r, runs);
      if after.None? {
        return None;
      }
      forall k | 0 <= k < |r.streams| ensures RunningAll(scan[..i + 1], r)[k] == after.value[k] {
        ScanStep(scan, i, r, k);
      }
      runs := after.value;
    }
    assert scan[..|scan|] == scan;
    var finished := FinalizeStreamStats(runs, r);
    stats := Some(finished);
  }

  // ------------------------------------------------------- the two forms agree

  lemma DriftOfPermutation(a: seq<int>, b: seq<int>)
    requires multiset(a) == multiset(b)
    ensures LatencyDrift(a) == LatencyDrift(b)
  {
    PermutationMembers(a, b);
  }

  lemma LatenciesOfPermutation(a: seq<Observation>, b: seq<Observation>)
    requires multiset(a) == multiset(b)
    ensures multiset(Latencies(a)) == multiset(Latencies(b))
  {
    FilterPermutation(a, b, HasBothClocks);
    MapPermutation(Filter(a, HasBothClocks), Filter(b, HasBothClocks), ReceiveLatency);
  }

  predicate ClockLe(a: Observation, b: Observation, clock: Clock) {
    ClockColumn(a, clock).Some? && ClockColumn(b, clock).Some? ==>
      ClockColumn(a, clock).value <= ClockColumn(b, clock).value
  }

  function InClockOrder(clock: Clock): (Observation, Observation) -> bool { (a, b) => ClockLe(a, b, clock) }

  /** The engine's promise for an ordered scan; where NULLs go is left open. */
  ghost predicate OrderedScan(scan: seq<Observation>, table: seq<Observation>, clock: Clock) {
    multiset(scan) == multiset(table) && SortedBy(scan, InClockOrder(clock))
  }

  /** Every row of the stream has its clock column set; other rows need not. */
  ghost predicate StreamClocked(table: seq<Observation>, clock: Clock, s: StreamSpec) {
    forall o <- table :: Matches(o, s) ==> ClockColumn(o, clock).Some?
  }

  lemma StreamScanPicks(table: seq<Observation>, scan: seq<Observation>, clock: Clock, s: StreamSpec)
    requires OrderedScan(scan, table, clock) && StreamClocked(table, clock, s)
    ensures multiset(StreamScan(scan, s)) == multiset(Filter(table, Selecting(clock, s)))
    ensures forall o <- StreamScan(scan, s) :: ClockColumn(o, clock).Some?
  {
    PermutationMembers(scan, table);
    FilterAgree(scan, Matching(s), Selecting(clock, s));
    FilterPermutation(scan, table, Selecting(clock, s));
  }

  lemma StampedParts(picked: seq<Observation>, clock: Clock, s: StreamSpec)
    ensures Times(Map(picked, Stamping(clock, s))) == Map(picked, TimeIn(clock, s))
    ensures TimedObservations(Map(picked, Stamping(clock, s))) == picked
  {
  }

  lemma StreamMembersAgree(table: seq<Observation>, scan: seq<Observation>, clock: Clock, s: StreamSpec)
    requires OrderedScan(scan, table, clock) && StreamClocked(table, clock, s)
    ensures multiset(TimedObservations(TimedRows(table, clock, s))) == multiset(StreamScan(scan, s))
    ensures multiset(Times(TimedRows(table, clock, s))) == multiset(Map(StreamScan(scan, s), TimeIn(clock, s)))
  {
    var picked, rows := Filter(table, Selecting(clock, s)), TimedRows(table, clock, s);
    StreamScanPicks(table, scan, clock, s);
    StampedParts(picked, clock, s);
    TimesOfPermutation(rows, Map(picked, Stamping(clock, s)));
    MapPermutation(StreamScan(scan, s), picked, TimeIn(clock, s));
  }

  lemma TimesOfPermutation(a: seq<TimedRow>, b: seq<TimedRow>)
    requires multiset(a) == multiset(b)
    ensures multiset(Times(a)) == multiset(Times(b))
    ensures multiset(TimedObservations(a)) == multiset(TimedObservations(b))
  {
    var time, obs := (x: TimedRow) => x.time, (x: TimedRow) => x.obs;
    MapPermutation(a, b, time);
    MapPermutation(a, b, obs);
    assert Times(a) == Map(a, time) && Times(b) == Map(b, time);
    assert TimedObservations(a) == Map(a, obs) && TimedObservations(b) == Map(b, obs);
  }

  /** A scan in clock order meets a stream's corrected times in order. */
  lemma ScanTimesAscend(scan: seq<Observation>, clock: Clock, s: StreamSpec)
    requires SortedBy(scan, InClockOrder(clock)) && forall o <- StreamScan(scan, s) :: ClockColumn(o, clock).Some?
    ensures SortedBy(Map(StreamScan(scan, s), TimeIn(clock, s)), IntLe)
  {
    var picked := StreamScan(scan, s);
    FilterSorted(scan, Matching(s), InClockOrder(clock));
    forall i, j | 0 <= i < j < |picked| ensures TimeOf(picked[i], clock, s) <= TimeOf(picked[j], clock, s) {
      assert InClockOrder(clock)(picked[i], picked[j]) && picked[i] in picked && picked[j] in picked;
    }
  }

  lemma RowTimesAscend(rows: seq<TimedRow>)
    requires SortedBy(rows, TimedLe)
    ensures SortedBy(Times(rows), IntLe)
  {
  }

  lemma StreamTimesAgree(table: seq<Observation>, scan: seq<Observation>, clock: Clock, s: StreamSpec)
    requires OrderedScan(scan, table, clock) && StreamClocked(table, clock, s)
    ensures Times(TimedRows(table, clock, s)) == Map(StreamScan(scan, s), TimeIn(clock, s))
  {
    StreamMembersAgree(table, scan, clock, s);
    StreamScanPicks(table, scan, clock, s);
    TimedRowsContents(table, clock, s);
    RowTimesAscend(TimedRows(table, clock, s));
    ScanTimesAscend(scan, clock, s);
    SortedIntsUnique(Times(TimedRows(table, clock, s)), Map(StreamScan(scan, s), TimeIn(clock, s)));
  }

  /** Scanning a table in clock order and collecting per stream gives the statistics
      the sorted rows give: same count, same interval sequence (so the same median and
      dropped frames), same latency drift and drift flag. */
  lemma OnePassStatsAgree(table: seq<Observation>, scan: seq<Observation>, s: StreamSpec, r: Recipe)
    requires OrderedScan(scan, table, r.clock) && StreamClocked(table, r.clock, s)
    ensures var run, rows := RunningOver(StreamScan(scan, s), r.clock, s), TimedRows(table, r.clock, s);
            && run.observations == |rows|
            && run.intervals == PositiveIntervals(Times(rows))
            && FinalizedRun(run, r) == BatchStats(rows, r).(sourceErrors := None)
  {
    var rows := TimedRows(table, r.clock, s);
    StreamTimesAgree(table, scan, r.clock, s);
    StreamMembersAgree(table, scan, r.clock, s);
    LatenciesOfPermutation(StreamScan(scan, s), TimedObservations(rows));
    DriftOfPermutation(Latencies(StreamScan(scan, s)), Latencies(TimedObservations(rows)));
    assert |rows| == |Times(rows)|;
  }
}
