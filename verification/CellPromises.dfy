/** What one aligned cell says of its stream, in the times and samples of the rows alone:
    when it is aligned, from which sources, with which numbers and which value. */
module CellPromises {
  import opened Ordering
  import opened Alignment
  import opened SegmentAgreement

  // ------------------------------------------------------------------ values

  function Lerp(left: real, right: real, ratio: real): real { left + (right - left) * ratio }

  /** The sample between two source samples; none unless both are numbers, or vectors
      of one length. */
  function Interpolated(before: Sample, after: Sample, t: int, beforeTime: int, afterTime: int): Sample {
    if beforeTime == afterTime then NoSample
    else
      var ratio := (t - beforeTime) as real / (afterTime - beforeTime) as real;
      match (before, after)
      case (Scalar(x), Scalar(y)) => Scalar(Lerp(x, y, ratio))
      case (Vector(xs), Vector(ys)) =>
        if |xs| != |ys| then NoSample
        else Vector(seq(|xs|, i requires 0 <= i < |xs| => Lerp(xs[i], ys[i], ratio)))
      case _ => NoSample
  }

  /** The point at `t` of the line through (t0, a) and (t1, b), and so between a and b. */
  predicate OnLine(v: real, a: real, b: real, t: int, t0: int, t1: int) {
    (v - a) * (t1 - t0) as real == (b - a) * (t - t0) as real && (a <= v <= b || b <= v <= a)
  }

  predicate SampleOnLine(v: Sample, a: Sample, b: Sample, t: int, t0: int, t1: int) {
    match v
    case NoSample => false
    case Scalar(x) => a.Scalar? && b.Scalar? && OnLine(x, a.x, b.x, t, t0, t1)
    case Vector(xs) =>
      a.Vector? && b.Vector? && |a.xs| == |b.xs| == |xs| &&
      forall i :: 0 <= i < |xs| ==> OnLine(xs[i], a.xs[i], b.xs[i], t, t0, t1)
  }

  predicate Alike(a: Sample, b: Sample) {
    (a.Scalar? && b.Scalar?) || (a.Vector? && b.Vector? && |a.xs| == |b.xs|)
  }

  lemma ProductNonNegative(a: real, b: real)
    requires 0.0 <= a && 0.0 <= b
    ensures 0.0 <= a * b
  {
  }

  lemma ScaledWithin(d: real, ratio: real)
    requires 0.0 <= ratio <= 1.0
    ensures 0.0 <= d ==> 0.0 <= d * ratio <= d
    ensures d <= 0.0 ==> d <= d * ratio <= 0.0
  {
    if 0.0 <= d {
      ProductNonNegative(d, ratio);
      ProductNonNegative(d, 1.0 - ratio);
      assert d * (1.0 - ratio) == d - d * ratio;
    } else {
      ProductNonNegative(-d, ratio);
      ProductNonNegative(-d, 1.0 - ratio);
      assert -d * (1.0 - ratio) == -d + d * ratio;
      assert -d * ratio == -(d * ratio);
    }
  }

  lemma Quotient(part: real, whole: real)
    requires 0.0 <= part <= whole && whole > 0.0
    ensures 0.0 <= part / whole <= 1.0
    ensures (part / whole) * whole == part
  {
  }

  lemma ScaleUp(d: real, ratio: real, part: real, whole: real)
    requires ratio * whole == part
    ensures (d * ratio) * whole == d * part
  {
    Associates(d, ratio, whole);
  }

  lemma Associates(a: real, b: real, c: real)
    ensures (a * b) * c == a * (b * c)
  {
  }

  lemma StepOnLine(v: real, a: real, b: real, d: real, step: real, t: int, t0: int, t1: int)
    requires v == a + step && b == a + d
    requires step * (t1 - t0) as real == d * (t - t0) as real
    requires 0.0 <= step <= d || d <= step <= 0.0
    ensures OnLine(v, a, b, t, t0, t1)
  {
    assert v - a == step && b - a == d;
  }

  lemma LerpOnLine(a: real, b: real, t: int, t0: int, t1: int)
    requires t0 < t < t1
    ensures OnLine(Lerp(a, b, (t - t0) as real / (t1 - t0) as real), a, b, t, t0, t1)
  {
    var part, whole := (t - t0) as real, (t1 - t0) as real;
    Quotient(part, whole);
    ScaledWithin(b - a, part / whole);
    ScaleUp(b - a, part / whole, part, whole);
    StepOnLine(Lerp(a, b, part / whole), a, b, b - a, (b - a) * (part / whole), t, t0, t1);
  }

  /** A computed linear value is, componentwise, the point at the tick of the line through its
      two sources, and there is one exactly when the samples are alike. */
  lemma LinearValueOnLine(before: Sample, after: Sample, t: int, beforeTime: int, afterTime: int)
    requires beforeTime < t < afterTime
    ensures var v := Interpolated(before, after, t, beforeTime, afterTime);
            && (v != NoSample ==> SampleOnLine(v, before, after, t, beforeTime, afterTime))
            && (v != NoSample <==> Alike(before, after))
  {
    match (before, after)
    case (Scalar(x), Scalar(y)) => LerpOnLine(x, y, t, beforeTime, afterTime);
    case (Vector(xs), Vector(ys)) =>
      if |xs| == |ys| {
        var v := Interpolated(before, after, t, beforeTime, afterTime);
        forall i | 0 <= i < |xs| ensures OnLine(v.xs[i], xs[i], ys[i], t, beforeTime, afterTime) {
          LerpOnLine(xs[i], ys[i], t, beforeTime, afterTime);
        }
      }
    case _ =>
  }

  /** Reads the value of an aligned cell from its source rows. */
  function HydrateCell(cell: Cell, t: int): (hydrated: Cell)
    ensures ViewOf(hydrated) == ViewOf(cell)
  {
    if !cell.Aligned? || cell.sources == [] then cell
    else if |cell.sources| == 2 then
      var before, after := cell.sources[0], cell.sources[1];
      var value := Interpolated(before.obs.sample, after.obs.sample, t, before.time, after.time);
      cell.(value := value, valueMissing := value.NoSample?)
    else cell.(value := cell.sources[0].obs.sample)
  }

  /** The value of a cell: its source's sample, or the point of the line through its two. */
  predicate RightValue(sources: seq<TimedRow>, value: Sample, missing: bool, t: int) {
    if |sources| == 1 then value == sources[0].obs.sample && !missing
    else
      && |sources| == 2 && (missing <==> value.NoSample?)
      && (value.NoSample? <==> !Alike(sources[0].obs.sample, sources[1].obs.sample))
      && (!value.NoSample? ==>
            SampleOnLine(value, sources[0].obs.sample, sources[1].obs.sample, t, sources[0].time, sources[1].time))
  }

  lemma HydratedValue(cell: Cell, t: int)
    requires cell.Aligned? && 1 <= |cell.sources| <= 2 && !cell.valueMissing
    requires |cell.sources| == 2 ==> cell.sources[0].time < t < cell.sources[1].time
    ensures var h := HydrateCell(cell, t);
            h.sources == cell.sources && RightValue(h.sources, h.value, h.valueMissing, t)
  {
    if |cell.sources| == 2 {
      var before, after := cell.sources[0], cell.sources[1];
      LinearValueOnLine(before.obs.sample, after.obs.sample, t, before.time, after.time);
    }
  }

  // ------------------------------------------------------ status and numbers

  ghost predicate HasTime(rows: seq<TimedRow>, time: int) { exists x <- rows :: x.time == time }

  /** Within the tolerance of the tick; any time is where none is set. */
  predicate Near(time: int, t: int, tolerance: Option<nat>) {
    tolerance.Some? ==> t - tolerance.value <= time <= t + tolerance.value
  }

  ghost predicate NearBelow(rows: seq<TimedRow>, t: int, tolerance: Option<nat>) {
    exists x <- rows :: x.time <= t && Near(x.time, t, tolerance)
  }

  ghost predicate NearAbove(rows: seq<TimedRow>, t: int, tolerance: Option<nat>) {
    exists x <- rows :: t <= x.time && Near(x.time, t, tolerance)
  }

  /** Whether there is a row close enough for a method: anywhere, at or before the tick, or at
      the tick or on both sides of it. */
  ghost predicate Alignable(rows: seq<TimedRow>, m: Interpolation, t: int, tolerance: Option<nat>) {
    match m
    case Nearest => NearBelow(rows, t, tolerance) || NearAbove(rows, t, tolerance)
    case Previous => NearBelow(rows, t, tolerance)
    case Linear => NearBelow(rows, t, tolerance) && NearAbove(rows, t, tolerance)
  }

  /** Whether a method has anything to pick, whatever the tolerance. */
  ghost predicate Pickable(rows: seq<TimedRow>, m: Interpolation, t: int) { Alignable(rows, m, t, None) }

  /** The times of the sources a method picks at `t`: the latest at or before it; one at the
      least distance, the earlier of two; the tick itself or else its two neighbours. */
  ghost predicate RightTimes(rows: seq<TimedRow>, m: Interpolation, times: seq<int>, t: int) {
    && (forall time <- times :: HasTime(rows, time))
    && match m
       case Previous => |times| == 1 && times[0] <= t && forall x <- rows :: x.time <= t ==> x.time <= times[0]
       case Nearest => |times| == 1 && forall x <- rows :: AtLeastAsFar(x.time, times[0], t)
       case Linear =>
         if HasTime(rows, t) then times == [t]
         else |times| == 2 && times[0] < t < times[1] && forall x <- rows :: x.time <= times[0] || times[1] <= x.time
  }

  /** `time` is no nearer to `t` than `best`, and not before it at the same distance. */
  predicate AtLeastAsFar(time: int, best: int, t: int) {
    if best <= t then time <= best || t - best <= time - t else time >= best || best - t < t - time
  }

  /** The distance of two times. */
  predicate Apart(a: int, b: int, distance: nat) { distance == a - b || distance == b - a }

  /** 1 at the tick; falls linearly to 0 at the tolerance, or like scale / (scale + error), the
      scale being the step. */
  predicate RightConfidence(confidence: real, absoluteError: nat, r: Recipe) {
    && 0.0 <= confidence <= 1.0
    && (absoluteError == 0 ==> confidence == 1.0)
    && match r.tolerance
       case Some(bound) => confidence * bound as real == (bound - absoluteError) as real
       case None =>
         var scale := if r.step == 0 then 1 else r.step;
         confidence * (scale + absoluteError) as real == scale as real
  }

  /** The numbers of an aligned cell: those of its one source, or of the tick itself. */
  predicate RightNumbers(times: seq<int>, sourceTime: int, error: int, absoluteError: nat, confidence: real, t: int,
                         r: Recipe) {
    && sourceTime == (if |times| == 1 then times[0] else t)
    && error == sourceTime - t && Apart(sourceTime, t, absoluteError)
    && RightConfidence(confidence, absoluteError, r)
  }

  /** What was found too far: the one source, or of two neighbours the nearer, the earlier of
      equals; and how far, of two the farther. */
  ghost predicate TooFar(rows: seq<TimedRow>, m: Interpolation, nearest: int, absoluteError: nat, t: int) {
    if !m.Linear? then RightTimes(rows, m, [nearest], t) && Apart(nearest, t, absoluteError)
    else exists times :: RightTimes(rows, m, times, t) && |times| == 2 && NearerOf(times, nearest, absoluteError, t)
  }

  predicate NearerOf(times: seq<int>, nearest: int, absoluteError: nat, t: int)
    requires |times| == 2
  {
    if t - times[0] <= times[1] - t then nearest == times[0] && absoluteError == times[1] - t
    else nearest == times[1] && absoluteError == t - times[0]
  }

  /** The whole of a cell but for the rows behind its times: aligned exactly when a row is close
      enough, missing exactly when there is nothing to pick, out of tolerance otherwise. */
  ghost predicate RightView(rows: seq<TimedRow>, m: Interpolation, view: CellView, t: int, r: Recipe) {
    && (view.AlignedView? <==> Alignable(rows, m, t, r.tolerance))
    && (view.MissingView? <==> !Pickable(rows, m, t))
    && match view
       case MissingView(reason) =>
         reason == if rows == [] then StreamMissing else if m.Previous? then NoPreviousSample else NoLinearBracket
       case OutOfToleranceView(nearest, absoluteError) =>
         && r.tolerance.Some? && absoluteError > r.tolerance.value
         && TooFar(rows, m, nearest, absoluteError, t)
       case AlignedView(times, sourceTime, error, absoluteError, confidence) =>
         && RightTimes(rows, m, times, t) && (forall time <- times :: Near(time, t, r.tolerance))
         && RightNumbers(times, sourceTime, error, absoluteError, confidence, t, r)
  }

  ghost predicate KeepsPromises(rows: seq<TimedRow>, m: Interpolation, cell: Cell, t: int, r: Recipe) {
    && RightView(rows, m, ViewOf(cell), t, r)
    && (forall x <- Sources(cell) :: x in rows)
    && (cell.Aligned? ==> RightValue(cell.sources, cell.value, cell.valueMissing, t))
  }

  // -------------------------------------------------------- what is promised

  lemma ConfidenceIsRight(absoluteError: nat, r: Recipe)
    requires r.tolerance.Some? ==> absoluteError <= r.tolerance.value
    ensures RightConfidence(Confidence(absoluteError, r.tolerance, r.step), absoluteError, r)
  {
    match r.tolerance
    case Some(bound) =>
      if bound > 0 {
        Quotient(absoluteError as real, bound as real);
      }
    case None =>
      var scale := if r.step == 0 then 1 else r.step;
      Hyperbola(absoluteError as real, scale as real);
  }

  lemma Hyperbola(d: real, scale: real)
    requires d >= 0.0 && scale > 0.0
    ensures var c := 1.0 / (1.0 + d / scale); c * (scale + d) == scale
  {
    var ratio := d / scale;
    assert ratio * scale == d;
    var c := 1.0 / (1.0 + ratio);
    assert c * (1.0 + ratio) == 1.0;
    assert c * (scale + d) == (c * (1.0 + ratio)) * scale;
  }

  lemma OneTime(x: TimedRow)
    ensures Times([x]) == [x.time]
  {
  }

  /** The cell of a single source that a method rightly picks. */
  lemma SourceViewIsRight(rows: seq<TimedRow>, m: Interpolation, x: TimedRow, t: int, r: Recipe)
    requires RightTimes(rows, m, [x.time], t) && Pickable(rows, m, t)
    requires Alignable(rows, m, t, r.tolerance) <==> Near(x.time, t, r.tolerance)
    requires m.Linear? ==> x.time == t
    ensures RightView(rows, m, ViewOf(SourceCell(x, t, r)), t, r)
  {
    OneTime(x);
    if Near(x.time, t, r.tolerance) {
      ConfidenceIsRight(Abs(x.time - t), r);
    }
  }

  lemma PreviousViewIsRight(rows: seq<TimedRow>, t: int, r: Recipe)
    requires SortedBy(rows, TimedLe)
    ensures RightView(rows, Previous, ViewOf(AlignCell(rows, Previous, t, r)), t, r)
  {
    PreviousIsLatest(rows, t);
    var candidate := PreviousRow(rows, t);
    if candidate.Some? {
      assert [candidate.value.time][0] == candidate.value.time;
      SourceViewIsRight(rows, Previous, candidate.value, t, r);
    }
  }

  lemma NearestTimeIsRight(rows: seq<TimedRow>, t: int)
    requires rows != []
    ensures RightTimes(rows, Nearest, [NearestRow(rows, t).time], t)
  {
    var best := NearestRow(rows, t);
    forall x | x in rows ensures AtLeastAsFar(x.time, best.time, t) {
      assert !Closer(x, best, t);
    }
    assert [best.time][0] == best.time;
  }

  lemma NearestViewIsRight(rows: seq<TimedRow>, t: int, r: Recipe)
    ensures RightView(rows, Nearest, ViewOf(AlignCell(rows, Nearest, t, r)), t, r)
  {
    if rows != [] {
      NearestTimeIsRight(rows, t);
      assert [NearestRow(rows, t).time][0] == NearestRow(rows, t).time;
      SourceViewIsRight(rows, Nearest, NearestRow(rows, t), t, r);
    }
  }

  lemma TwoTimes(x: TimedRow, y: TimedRow)
    ensures Times([x, y]) == [x.time, y.time]
  {
  }

  /** The cell of two neighbours of the tick. */
  lemma BracketViewIsRight(rows: seq<TimedRow>, x: TimedRow, y: TimedRow, t: int, r: Recipe)
    requires RightTimes(rows, Linear, [x.time, y.time], t) && x in rows && y in rows && x.time < t < y.time
    ensures RightView(rows, Linear, ViewOf(LinearCell(None, Some(x), Some(y), t, r)), t, r)
  {
    TwoTimes(x, y);
    var times := [x.time, y.time];
    assert times[0] == x.time && times[1] == y.time;
    assert Pickable(rows, Linear, t);
  }

  lemma LinearViewIsRight(rows: seq<TimedRow>, t: int, r: Recipe)
    requires SortedBy(rows, TimedLe)
    ensures RightView(rows, Linear, ViewOf(AlignCell(rows, Linear, t, r)), t, r)
  {
    ExactIsFound(rows, t);
    PreviousIsLatest(rows, t - 1);
    AfterIsEarliest(rows, t);
    var exact, before, after := ExactRow(rows, t), BeforeRow(rows, t), AfterRow(rows, t);
    if exact.Some? {
      assert [exact.value.time][0] == exact.value.time && HasTime(rows, t);
      SourceViewIsRight(rows, Linear, exact.value, t, r);
    } else if before.Some? && after.Some? {
      var times := [before.value.time, after.value.time];
      assert times[0] == before.value.time && times[1] == after.value.time;
      assert RightTimes(rows, Linear, times, t);
      BracketViewIsRight(rows, before.value, after.value, t, r);
    }
  }

  /** Status, times and numbers of every cell, for every method and tolerance. */
  lemma ViewIsRight(rows: seq<TimedRow>, m: Interpolation, t: int, r: Recipe)
    requires SortedBy(rows, TimedLe)
    ensures RightView(rows, m, ViewOf(AlignCell(rows, m, t, r)), t, r)
  {
    match m
    case Previous => PreviousViewIsRight(rows, t, r);
    case Nearest => NearestViewIsRight(rows, t, r);
    case Linear => LinearViewIsRight(rows, t, r);
  }

  lemma TimesOfSources(sources: seq<TimedRow>)
    ensures |Times(sources)| == |sources|
    ensures forall i :: 0 <= i < |sources| ==> Times(sources)[i] == sources[i].time
  {
  }

  lemma AlignedShape(rows: seq<TimedRow>, m: Interpolation, cell: Cell, t: int, r: Recipe)
    requires RightView(rows, m, ViewOf(cell), t, r) && cell.Aligned?
    ensures 1 <= |cell.sources| <= 2
    ensures |cell.sources| == 2 ==> cell.sources[0].time < t < cell.sources[1].time
  {
    TimesOfSources(cell.sources);
    assert RightTimes(rows, m, Times(cell.sources), t);
  }

  lemma NotYetMissing(rows: seq<TimedRow>, m: Interpolation, t: int, r: Recipe)
    ensures AlignCell(rows, m, t, r).Aligned? ==> !AlignCell(rows, m, t, r).valueMissing
  {
  }

  lemma HydratedKeeps(rows: seq<TimedRow>, m: Interpolation, cell: Cell, t: int, r: Recipe)
    requires RightView(rows, m, ViewOf(cell), t, r) && forall x <- Sources(cell) :: x in rows
    requires cell.Aligned? ==> !cell.valueMissing
    ensures KeepsPromises(rows, m, HydrateCell(cell, t), t, r)
  {
    if cell.Aligned? {
      AlignedShape(rows, m, cell, t, r);
      HydratedValue(cell, t);
    }
  }

  lemma CellKeepsPromises(rows: seq<TimedRow>, m: Interpolation, t: int, r: Recipe)
    requires SortedBy(rows, TimedLe)
    ensures KeepsPromises(rows, m, HydrateCell(AlignCell(rows, m, t, r), t), t, r)
  {
    ViewIsRight(rows, m, t, r);
    SourcesAreRows(rows, m, t, r);
    NotYetMissing(rows, m, t, r);
    HydratedKeeps(rows, m, AlignCell(rows, m, t, r), t, r);
  }

  /** Of the rows at one time a method takes the last in sort order where it looks back from the
      tick, the first otherwise. */
  ghost predicate RightRow(rows: seq<TimedRow>, m: Interpolation, x: TimedRow, t: int) {
    forall y <- rows :: y.time == x.time ==>
      if m.Previous? || (m.Linear? && x.time < t) then y.obs.sortRank <= x.obs.sortRank
      else x.obs.sortRank <= y.obs.sortRank
  }

  /** Which of tied rows the whole stream gives. */
  lemma SourcesByKey(rows: seq<TimedRow>, m: Interpolation, t: int, r: Recipe)
    requires SortedBy(rows, TimedLe)
    ensures forall x <- Sources(AlignCell(rows, m, t, r)) :: RightRow(rows, m, x, t)
  {
    match m
    case Previous => PreviousIsLatest(rows, t);
    case Nearest =>
      if rows != [] {
        var best := NearestRow(rows, t);
        forall y | y in rows && y.time == best.time ensures best.obs.sortRank <= y.obs.sortRank {
          assert !Closer(y, best, t);
        }
      }
    case Linear => LinearSourcesByKey(rows, t, r);
  }

  lemma LinearSourcesByKey(rows: seq<TimedRow>, t: int, r: Recipe)
    requires SortedBy(rows, TimedLe)
    ensures forall x <- Sources(AlignCell(rows, Linear, t, r)) :: RightRow(rows, Linear, x, t)
  {
    SourcesOfPicks(ExactRow(rows, t), BeforeRow(rows, t), AfterRow(rows, t), t, r);
    ExactIsFound(rows, t);
    PreviousIsLatest(rows, t - 1);
    AfterIsEarliest(rows, t);
  }

  // --------------------------------------------------------------- whole rows

  /** A row's flags: why its cells lack a source, or a value. */
  ghost predicate RightFlags(cells: seq<Cell>, flags: set<(nat, Reason)>) {
    forall i: nat, reason: Reason :: (i, reason) in flags <==>
      i < |cells| &&
      match cells[i]
      case Missing(why) => reason == why
      case OutOfTolerance(_, _) => reason == ToleranceExceeded
      case Aligned(_, _, _, _, _, _, valueMissing) => valueMissing && reason == LinearValueMissing
  }

  /** A row's confidence: the least of its cells', where a cell without a source has none. */
  ghost predicate RightRowConfidence(cells: seq<Cell>, confidence: real) {
    if cells == [] then confidence == 0.0
    else
      && (forall cell <- cells :: confidence <= if cell.Aligned? then cell.confidence else 0.0)
      && exists cell <- cells :: confidence == if cell.Aligned? then cell.confidence else 0.0
  }

  lemma FlagsAreRight(cells: seq<Cell>)
    ensures RightFlags(cells, RowFlags(cells))
  {
  }

  lemma {:induction false} RowConfidenceIsRight(cells: seq<Cell>)
    ensures RightRowConfidence(cells, MinConfidence(cells))
  {
    if |cells| > 1 {
      var n := |cells| - 1;
      RowConfidenceIsRight(cells[..n]);
      assert cells == cells[..n] + [cells[n]];
    }
  }

  /** A cell computed from a segment's slice keeps its promises towards the whole stream. */
  lemma SliceKeepsPromises(seg: seq<TimedRow>, full: seq<TimedRow>, lo: int, hi: int, m: Interpolation, t: int,
                           r: Recipe)
    requires Suffices(seg, full, lo, hi) && lo <= t <= hi
    ensures KeepsPromises(full, m, HydrateCell(AlignCell(seg, m, t, r), t), t, r)
  {
    CellKeepsPromises(seg, m, t, r);
    ViewIsRight(full, m, t, r);
    CellsAgree(seg, full, lo, hi, t, m, r);
  }
}
