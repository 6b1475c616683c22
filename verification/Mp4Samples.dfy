/** Sample tables of one video track (sections 8.6.1, 8.6.2, 8.7.3, 8.7.4 and 8.7.5 of
    ISO/IEC 14496-12): byte ranges, timings, sync frames and the keyframe map. */
module Mp4Samples {
  import opened Ordering

  datatype ChunkRun = ChunkRun(firstChunk: nat, samplesPerChunk: nat)
  datatype TimeRun = TimeRun(count: nat, delta: int)

  datatype Track = Track(
    timescale: nat, stts: seq<TimeRun>, ctts: seq<TimeRun>, stss: seq<nat>, stsz: seq<nat>,
    stsc: seq<ChunkRun>, chunkOffsets: seq<nat>)

  datatype ByteRange = ByteRange(start: nat, end: nat)
  datatype Timing = Timing(presentation: int, decode: int, duration: int)

  function TotalCount(runs: seq<TimeRun>): nat {
    if runs == [] then 0 else runs[0].count + TotalCount(runs[1..])
  }

  function FrameCount(track: Track): nat {
    if track.stsz != [] then |track.stsz| else TotalCount(track.stts)
  }

  // ------------------------------------------------------- samples per chunk

  predicate RunLe(a: ChunkRun, b: ChunkRun) { a.firstChunk <= b.firstChunk }

  /** Length of the leading runs that have begun at `chunk`. */
  function Begun(runs: seq<ChunkRun>, chunk: nat): (n: nat)
    ensures n <= |runs|
    ensures forall i :: 0 <= i < n ==> runs[i].firstChunk <= chunk
    ensures n < |runs| ==> runs[n].firstChunk > chunk
  {
    if runs == [] || runs[0].firstChunk > chunk then 0 else 1 + Begun(runs[1..], chunk)
  }

  function SamplesInChunk(runs: seq<ChunkRun>, chunk: nat): nat
    requires runs != []
  {
    var n := Begun(runs, chunk);
    if n == 0 then runs[0].samplesPerChunk else runs[n - 1].samplesPerChunk
  }

  /** Run-length expansion: a run rules from its first chunk to the next run's. */
  lemma {:induction false} RunRulesItsChunks(runs: seq<ChunkRun>, i: nat, chunk: nat)
    requires i < |runs| && SortedBy(runs, RunLe)
    requires runs[i].firstChunk <= chunk && (i + 1 < |runs| ==> chunk < runs[i + 1].firstChunk)
    ensures Begun(runs, chunk) == i + 1
    ensures SamplesInChunk(runs, chunk) == runs[i].samplesPerChunk
  {
    if i > 0 {
      assert RunLe(runs[0], runs[i]);
      RunRulesItsChunks(runs[1..], i - 1, chunk);
    }
  }

  method SamplesPerChunk(runs: seq<ChunkRun>, chunk: nat) returns (samples: nat)
    requires runs != []
    ensures samples == SamplesInChunk(runs, chunk)
  {
    var active := runs[0];
    for i := 0 to |runs|
      invariant i <= Begun(runs, chunk)
      invariant active == if i == 0 then runs[0] else runs[i - 1]
    {
      if runs[i].firstChunk > chunk {
        break;
      }
      active := runs[i];
    }
    samples := active.samplesPerChunk;
  }

  // ------------------------------------------------------------- byte ranges

  /** Samples stored in the first `chunks` chunks; chunk numbers start at 1. */
  function SamplesBefore(runs: seq<ChunkRun>, chunks: nat): nat
    requires runs != []
  {
    if chunks == 0 then 0 else SamplesBefore(runs, chunks - 1) + SamplesInChunk(runs, chunks)
  }

  function SizeOf(sizes: seq<nat>, from: nat, to: nat): nat
    requires from <= to <= |sizes|
  {
    if from == to then 0 else SizeOf(sizes, from, to - 1) + sizes[to - 1]
  }

  /** Where sample `i`, stored in chunk number `c + 1`, lies in the file: after the
      earlier samples of its chunk. */
  function RangeIn(track: Track, runs: seq<ChunkRun>, c: nat, i: nat): ByteRange
    requires runs != [] && c < |track.chunkOffsets| && SamplesBefore(runs, c) <= i < |track.stsz|
  {
    var start := track.chunkOffsets[c] + SizeOf(track.stsz, SamplesBefore(runs, c), i);
    ByteRange(start, start + track.stsz[i])
  }

  function SortedRuns(track: Track): (runs: seq<ChunkRun>)
    ensures |runs| == |track.stsc|
  {
    StableSort(track.stsc, RunLe)
  }

  predicate HasRangeTables(track: Track) {
    track.stsz != [] && track.chunkOffsets != [] && track.stsc != []
  }

  /** The first `done` samples carry the range of the chunk that holds them, the others
      none. */
  ghost predicate RangesUpTo(ranges: seq<Option<ByteRange>>, track: Track, done: nat) {
    && HasRangeTables(track)
    && |ranges| == |track.stsz| && done <= |ranges|
    && (forall i :: done <= i < |ranges| ==> ranges[i] == None)
    && (forall i :: 0 <= i < done ==> ranges[i].Some?)
    && (forall c: nat, i: nat {:trigger RangeIn(track, SortedRuns(track), c, i)} ::
          c < |track.chunkOffsets| && i < done &&
          SamplesBefore(SortedRuns(track), c) <= i < SamplesBefore(SortedRuns(track), c + 1) ==>
            ranges[i] == Some(RangeIn(track, SortedRuns(track), c, i)))
  }

  lemma {:induction false} SamplesBeforeMonotone(runs: seq<ChunkRun>, a: nat, b: nat)
    requires runs != [] && a <= b
    ensures SamplesBefore(runs, a) <= SamplesBefore(runs, b)
    decreases b
  {
    if a < b {
      SamplesBeforeMonotone(runs, a, b - 1);
    }
  }

  /** A sample lies in one chunk only. */
  lemma ChunkOfSampleIsUnique(runs: seq<ChunkRun>, c: nat, d: nat, i: nat)
    requires runs != []
    requires SamplesBefore(runs, c) <= i < SamplesBefore(runs, c + 1)
    requires SamplesBefore(runs, d) <= i < SamplesBefore(runs, d + 1)
    ensures c == d
  {
    if c < d {
      SamplesBeforeMonotone(runs, c + 1, d);
    } else if d < c {
      SamplesBeforeMonotone(runs, d + 1, c);
    }
  }

  predicate HoldsSample(runs: seq<ChunkRun>, c: nat, i: nat)
    requires runs != []
  {
    SamplesBefore(runs, c) <= i < SamplesBefore(runs, c + 1)
  }

  /** The chunk that holds sample `i`, counted from zero. */
  function ChunkOf(runs: seq<ChunkRun>, chunks: nat, i: nat): (c: nat)
    requires runs != [] && i < SamplesBefore(runs, chunks)
    ensures c < chunks && HoldsSample(runs, c, i)
    decreases chunks
  {
    SomeChunk(runs, chunks, i);
    var last := chunks - 1;
    if SamplesBefore(runs, last) <= i then last else ChunkOf(runs, last, i)
  }

  lemma SomeChunk(runs: seq<ChunkRun>, chunks: nat, i: nat)
    requires runs != [] && i < SamplesBefore(runs, chunks)
    ensures chunks > 0
  {
  }

  /** The byte range of an assigned sample. */
  function RangeOf(track: Track, i: nat): ByteRange
    requires i < Assigned(track)
  {
    RangeIn(track, SortedRuns(track), ChunkOf(SortedRuns(track), |track.chunkOffsets|, i), i)
  }

  /** Assigned samples form a prefix: as many as the listed chunks hold. */
  function Assigned(track: Track): (n: nat)
    ensures n <= FrameCount(track)
  {
    if !HasRangeTables(track) then 0
    else
      var held := SamplesBefore(SortedRuns(track), |track.chunkOffsets|);
      if held < |track.stsz| then held else |track.stsz|
  }

  lemma RangesExtend(ranges: seq<Option<ByteRange>>, track: Track, c: nat, i: nat)
    requires RangesUpTo(ranges, track, i) && i < |ranges| && c < |track.chunkOffsets|
    requires SamplesBefore(SortedRuns(track), c) <= i < SamplesBefore(SortedRuns(track), c + 1)
    ensures RangesUpTo(ranges[i := Some(RangeIn(track, SortedRuns(track), c, i))], track, i + 1)
  {
    var runs := SortedRuns(track);
    var after := ranges[i := Some(RangeIn(track, runs, c, i))];
    forall d: nat, j: nat {:trigger RangeIn(track, runs, d, j)} |
        d < |track.chunkOffsets| && j < i + 1 && SamplesBefore(runs, d) <= j < SamplesBefore(runs, d + 1)
      ensures after[j] == Some(RangeIn(track, runs, d, j))
    {
      if j == i {
        ChunkOfSampleIsUnique(runs, c, d, i);
      } else {
        assert ranges[j] == Some(RangeIn(track, runs, d, j));
      }
    }
  }

  /** Hands one chunk its samples, in order, until the samples run out. */
  method AssignChunk(track: Track, c: nat, before: seq<Option<ByteRange>>, first: nat, samples: nat)
    returns (ranges: seq<Option<ByteRange>>, next: nat)
    requires HasRangeTables(track) && c < |track.chunkOffsets|
    requires RangesUpTo(before, track, first) && first == SamplesBefore(SortedRuns(track), c)
    requires first + samples == SamplesBefore(SortedRuns(track), c + 1)
    ensures RangesUpTo(ranges, track, next)
    ensures next == if first + samples <= |track.stsz| then first + samples else |track.stsz|
  {
    ranges, next := before, first;
    var offset := track.chunkOffsets[c];
    for k := 0 to samples
      invariant RangesUpTo(ranges, track, next) && next == first + k
      invariant offset == track.chunkOffsets[c] + SizeOf(track.stsz, first, next)
    {
      if next >= |track.stsz| {
        return;
      }
      var size := track.stsz[next];
      RangesExtend(ranges, track, c, next);
      ranges := ranges[next := Some(ByteRange(offset, offset + size))];
      offset := offset + size;
      next := next + 1;
    }
  }

  method AssignNext(track: Track, runs: seq<ChunkRun>, c: nat, before: seq<Option<ByteRange>>, first: nat)
    returns (ranges: seq<Option<ByteRange>>, next: nat)
    requires HasRangeTables(track) && c < |track.chunkOffsets| && runs == SortedRuns(track)
    requires RangesUpTo(before, track, first) && first == SamplesBefore(runs, c)
    ensures RangesUpTo(ranges, track, next)
    ensures next == if SamplesBefore(runs, c + 1) <= |track.stsz| then SamplesBefore(runs, c + 1) else |track.stsz|
  {
    var samples := SamplesPerChunk(runs, c + 1);
    ranges, next := AssignChunk(track, c, before, first, samples);
  }

  lemma AssignedAll(track: Track, c: nat)
    requires HasRangeTables(track) && c < |track.chunkOffsets|
    requires SamplesBefore(SortedRuns(track), c + 1) >= |track.stsz|
    ensures Assigned(track) == |track.stsz|
  {
    SamplesBeforeMonotone(SortedRuns(track), c + 1, |track.chunkOffsets|);
  }

  /** Walks the chunks in order until every sample has its range. */
  method SampleByteRanges(track: Track) returns (ranges: seq<Option<ByteRange>>)
    ensures |ranges| == FrameCount(track)
    ensures !HasRangeTables(track) ==> forall range <- ranges :: range == None
    ensures HasRangeTables(track) ==> RangesUpTo(ranges, track, Assigned(track))
  {
    ranges := seq(FrameCount(track), _ => None);
    if !HasRangeTables(track) {
      return;
    }
    var runs := SortedRuns(track);
    var sampleIndex: nat := 0;
    for c := 0 to |track.chunkOffsets|
      invariant RangesUpTo(ranges, track, sampleIndex) && sampleIndex == SamplesBefore(runs, c)
    {
      ranges, sampleIndex := AssignNext(track, runs, c, ranges, sampleIndex);
      if sampleIndex >= |track.stsz| {
        AssignedAll(track, c);
        return;
      }
    }
  }

  // ----------------------------------------------------- what the ranges mean

  lemma RangeSteps(track: Track, runs: seq<ChunkRun>, c: nat, i: nat)
    requires runs != [] && c < |track.chunkOffsets| && SamplesBefore(runs, c) <= i < |track.stsz|
    ensures RangeIn(track, runs, c, i).end == RangeIn(track, runs, c, i).start + track.stsz[i]
    ensures i == SamplesBefore(runs, c) ==> RangeIn(track, runs, c, i).start == track.chunkOffsets[c]
    ensures i > SamplesBefore(runs, c) ==> RangeIn(track, runs, c, i).start == RangeIn(track, runs, c, i - 1).end
  {
  }

  lemma SameChunkBefore(runs: seq<ChunkRun>, c: nat, d: nat, i: nat)
    requires runs != [] && HoldsSample(runs, c, i) && SamplesBefore(runs, c) < i && HoldsSample(runs, d, i - 1)
    ensures d == c
  {
    ChunkOfSampleIsUnique(runs, c, d, i - 1);
  }

  /** In its chunk a sample comes right after the one before it, and the first at the chunk's
      offset; it is as long as its size says. */
  lemma RangesTileChunks(track: Track, i: nat)
    requires i < Assigned(track)
    ensures var runs := SortedRuns(track);
            var c := ChunkOf(runs, |track.chunkOffsets|, i);
            && RangeOf(track, i).end == RangeOf(track, i).start + track.stsz[i]
            && (i == SamplesBefore(runs, c) ==> RangeOf(track, i).start == track.chunkOffsets[c])
            && (i > SamplesBefore(runs, c) ==> RangeOf(track, i).start == RangeOf(track, i - 1).end)
  {
    var runs := SortedRuns(track);
    var c := ChunkOf(runs, |track.chunkOffsets|, i);
    RangeSteps(track, runs, c, i);
    if i > SamplesBefore(runs, c) {
      SameChunkBefore(runs, c, ChunkOf(runs, |track.chunkOffsets|, i - 1), i);
    }
  }

  /** Chunk `c`, counted from zero, holds as many samples as the run that rules it says: the last
      to begin at or before its number, which counts from one, or the first of all. */
  lemma ChunkHolds(track: Track, c: nat, r: nat)
    requires track.stsc != [] && r < |track.stsc|
    requires var runs := SortedRuns(track);
             (r == 0 || runs[r].firstChunk <= c + 1) && (r + 1 < |runs| ==> c + 1 < runs[r + 1].firstChunk)
    ensures var runs := SortedRuns(track);
            SamplesBefore(runs, c + 1) - SamplesBefore(runs, c) == runs[r].samplesPerChunk
  {
    SortSorts(track.stsc, RunLe);
    if SortedRuns(track)[r].firstChunk <= c + 1 {
      RunRulesItsChunks(SortedRuns(track), r, c + 1);
    }
  }

  // ----------------------------------------------------------------- timings

  function Repeated(value: int, count: nat): seq<int> { seq(count, _ => value) }

  /** A run-length table written out. */
  function Expand(runs: seq<TimeRun>): (values: seq<int>)
    ensures |values| == TotalCount(runs)
  {
    if runs == [] then [] else Repeated(runs[0].delta, runs[0].count) + Expand(runs[1..])
  }

  function ValueAt(runs: seq<TimeRun>, i: nat): int {
    if i < TotalCount(runs) then Expand(runs)[i] else 0
  }

  lemma {:induction false} ExpandAppend(a: seq<TimeRun>, b: seq<TimeRun>)
    ensures Expand(a + b) == Expand(a) + Expand(b)
  {
    if a == [] {
      assert a + b == b;
    } else {
      assert (a + b)[1..] == a[1..] + b;
      ExpandAppend(a[1..], b);
    }
  }

  /** Extends run by run until there are enough values, then pads with zeros. */
  method ExpandPadded(runs: seq<TimeRun>, count: nat) returns (values: seq<int>)
    ensures |values| >= count
    ensures forall i :: 0 <= i < count ==> values[i] == ValueAt(runs, i)
  {
    values := [];
    var k := 0;
    while k < |runs|
      invariant k <= |runs|
      invariant values == Expand(runs[..k])
    {
      assert runs[..k + 1] == runs[..k] + [runs[k]];
      ExpandAppend(runs[..k], [runs[k]]);
      assert Expand([runs[k]]) == Repeated(runs[k].delta, runs[k].count);
      values := values + Repeated(runs[k].delta, runs[k].count);
      k := k + 1;
      if |values| >= count {
        break;
      }
    }
    assert runs == runs[..k] + runs[k..];
    ExpandAppend(runs[..k], runs[k..]);
    assert k == |runs| ==> runs[k..] == [];
    if |values| < count {
      values := values + Repeated(0, count - |values|);
    }
  }

  /** The sum of the durations of the samples decoded before sample `i`. */
  function DecodeTime(runs: seq<TimeRun>, i: nat): int {
    if i == 0 then 0 else DecodeTime(runs, i - 1) + ValueAt(runs, i - 1)
  }

  function TimingAt(track: Track, i: nat): Timing {
    Timing(DecodeTime(track.stts, i) + ValueAt(track.ctts, i), DecodeTime(track.stts, i), ValueAt(track.stts, i))
  }

  predicate HasTimings(track: Track) { FrameCount(track) > 0 && track.stts != [] && track.timescale != 0 }

  method SampleTimings(track: Track) returns (timings: seq<Option<Timing>>)
    ensures |timings| == FrameCount(track)
    ensures forall i :: 0 <= i < |timings| ==>
              timings[i] == if HasTimings(track) then Some(TimingAt(track, i)) else None
  {
    var count := FrameCount(track);
    if !HasTimings(track) {
      return seq(count, _ => None);
    }
    var durations := ExpandPadded(track.stts, count);
    var offsets := ExpandPadded(track.ctts, count);
    var decode := 0;
    timings := [];
    for i := 0 to count
      invariant |timings| == i && decode == DecodeTime(track.stts, i)
      invariant forall k :: 0 <= k < i ==> timings[k] == Some(TimingAt(track, k))
    {
      timings := timings + [Some(Timing(decode + offsets[i], decode, durations[i]))];
      decode := decode + durations[i];
    }
  }

  /** Without sample sizes there are as many frames as the time table lists durations. */
  lemma FramesCounted(track: Track)
    ensures FrameCount(track) == if track.stsz != [] then |track.stsz| else |Expand(track.stts)|
  {
  }

  /** What a run-length table says: the values of run `k` stand after those of the runs before. */
  lemma ValuesOfRun(runs: seq<TimeRun>, k: nat, j: nat)
    requires k < |runs| && j < runs[k].count
    ensures ValueAt(runs, TotalCount(runs[..k]) + j) == runs[k].delta
  {
    assert runs == runs[..k] + ([runs[k]] + runs[k + 1..]);
    ExpandAppend(runs[..k], [runs[k]] + runs[k + 1..]);
    ExpandAppend([runs[k]], runs[k + 1..]);
    assert Expand([runs[k]]) == Repeated(runs[k].delta, runs[k].count);
  }

  /** The first sample is decoded at 0, each next one the duration of the one before later, and
      a sample is shown its composition offset after it is decoded. */
  lemma TimingsRun(track: Track, i: nat)
    ensures TimingAt(track, 0).decode == 0
    ensures TimingAt(track, i + 1).decode == TimingAt(track, i).decode + TimingAt(track, i).duration
    ensures TimingAt(track, i).presentation == TimingAt(track, i).decode + ValueAt(track.ctts, i)
    ensures TimingAt(track, i).duration == ValueAt(track.stts, i)
    ensures i >= TotalCount(track.ctts) ==> TimingAt(track, i).presentation == TimingAt(track, i).decode
    ensures i >= TotalCount(track.stts) ==> TimingAt(track, i).duration == 0
  {
  }

  // -------------------------------------------------------------- sync frames

  ghost predicate StrictlyAscending(xs: seq<nat>) {
    forall i, j :: 0 <= i < j < |xs| ==> xs[i] < xs[j]
  }

  /** The usable sync frames: every frame without a sync table, else the listed sample
      numbers that exist, counted from zero. */
  predicate IsSync(track: Track, frame: nat) {
    frame < FrameCount(track) && (track.stss == [] || frame + 1 in track.stss)
  }

  lemma BelowAll(xs: seq<nat>, bound: nat)
    requires forall x: nat :: x in xs ==> x < bound
    ensures forall i :: 0 <= i < |xs| ==> xs[i] < bound
  {
    forall i | 0 <= i < |xs| ensures xs[i] < bound {
      assert xs[i] in xs;
    }
  }

  function SyncUpTo(track: Track, n: nat): (frames: seq<nat>)
    ensures StrictlyAscending(frames)
    ensures forall f: nat :: f in frames <==> f < n && IsSync(track, f)
  {
    if n == 0 then []
    else
      var before := SyncUpTo(track, n - 1);
      BelowAll(before, n - 1);
      before + if IsSync(track, n - 1) then [n - 1] else []
  }

  function SyncFrames(track: Track): (frames: seq<nat>)
    ensures StrictlyAscending(frames)
    ensures forall f: nat :: f in frames <==> IsSync(track, f)
  {
    SyncUpTo(track, FrameCount(track))
  }

  /** Without a table every frame is a sync frame; with one, sample `n` of it is frame `n - 1`. */
  lemma SyncMeaning(track: Track)
    ensures track.stss == [] ==> SyncFrames(track) == seq(FrameCount(track), i => i)
    ensures forall n <- track.stss :: 1 <= n <= FrameCount(track) ==> n - 1 in SyncFrames(track)
    ensures track.stss != [] ==> forall f <- SyncFrames(track) :: f + 1 in track.stss && f < FrameCount(track)
  {
    if track.stss == [] {
      AllSync(track, FrameCount(track));
    }
    forall n | n in track.stss && 1 <= n <= FrameCount(track) ensures n - 1 in SyncFrames(track) {
      var f: nat := n - 1;
      assert f + 1 == n && IsSync(track, f);
    }
  }

  lemma {:induction false} AllSync(track: Track, n: nat)
    requires track.stss == [] && n <= FrameCount(track)
    ensures SyncUpTo(track, n) == seq(n, i => i)
  {
    if n > 0 {
      AllSync(track, n - 1);
    }
  }

  /** The map's keyframes: the usable sync frames, or frame 0 when there are none. */
  function Keyframes(track: Track): (frames: seq<nat>)
    requires FrameCount(track) > 0
    ensures frames != [] && StrictlyAscending(frames)
    ensures forall f <- frames :: f < FrameCount(track)
  {
    if SyncFrames(track) == [] then [0]
    else
      assert SyncFrames(track)[0] in SyncFrames(track);
      SyncFrames(track)
  }

  // ------------------------------------------------------------- keyframe map

  datatype Frame = Frame(index: nat, isKeyframe: bool, range: Option<ByteRange>, timing: Option<Timing>)
  datatype Gop = Gop(first: nat, last: nat, frames: seq<Frame>, byteStart: Option<nat>, byteEnd: Option<nat>)

  function FrameOf(index: nat, first: nat, ranges: seq<Option<ByteRange>>, timings: seq<Option<Timing>>): Frame {
    Frame(index, index == first, if index < |ranges| then ranges[index] else None,
          if index < |timings| then timings[index] else None)
  }

  /** Frames `first..last`, in order. */
  function FramesBetween(first: nat, end: nat, ranges: seq<Option<ByteRange>>,
                         timings: seq<Option<Timing>>): (frames: seq<Frame>)
    requires first <= end
    ensures |frames| == end - first
    ensures forall k :: 0 <= k < |frames| ==> frames[k] == FrameOf(first + k, first, ranges, timings)
    ensures forall k :: 0 <= k < |frames| ==> frames[k].index == first + k && (frames[k].isKeyframe <==> k == 0)
    ensures forall k :: 0 <= k < |frames| && first + k < |ranges| ==> frames[k].range == ranges[first + k]
    ensures forall k :: 0 <= k < |frames| && first + k < |timings| ==> frames[k].timing == timings[first + k]
  {
    seq(end - first, k requires 0 <= k => FrameOf(first + k, first, ranges, timings))
  }

  function NextFirst(sync: seq<nat>, g: nat, frameCount: nat): nat
    requires g < |sync|
  {
    if g + 1 < |sync| then sync[g + 1] else frameCount
  }

  /** The span of a GOP's assigned byte ranges. */
  ghost predicate SpansRanges(gop: Gop) {
    && (gop.byteStart.None? <==> forall f <- gop.frames :: f.range.None?)
    && (gop.byteEnd.None? <==> gop.byteStart.None?)
    && (gop.byteStart.Some? ==> forall f <- gop.frames :: f.range.Some? ==>
          gop.byteStart.value <= f.range.value.start && f.range.value.end <= gop.byteEnd.value)
    && (gop.byteStart.Some? ==> exists f <- gop.frames :: f.range.Some? && f.range.value.start == gop.byteStart.value)
    && (gop.byteEnd.Some? ==> exists f <- gop.frames :: f.range.Some? && f.range.value.end == gop.byteEnd.value)
  }

  function MinByte(a: Option<nat>, b: nat): Option<nat> { Some(if a.Some? && a.value < b then a.value else b) }
  function MaxByte(a: Option<nat>, b: nat): Option<nat> { Some(if a.Some? && a.value > b then a.value else b) }

  method BuildGop(first: nat, last: nat, ranges: seq<Option<ByteRange>>, timings: seq<Option<Timing>>)
    returns (gop: Gop)
    requires first <= last
    ensures gop.first == first && gop.last == last
    ensures gop.frames == FramesBetween(first, last + 1, ranges, timings)
    ensures SpansRanges(gop)
  {
    var frames: seq<Frame> := [];
    var byteStart: Option<nat>, byteEnd: Option<nat> := None, None;
    for index := first to last + 1
      invariant frames == FramesBetween(first, index, ranges, timings)
      invariant SpansRanges(Gop(first, last, frames, byteStart, byteEnd))
    {
      var frame := FrameOf(index, first, ranges, timings);
      frames := frames + [frame];
      if frame.range.Some? {
        byteStart := MinByte(byteStart, frame.range.value.start);
        byteEnd := MaxByte(byteEnd, frame.range.value.end);
      }
    }
    gop := Gop(first, last, frames, byteStart, byteEnd);
  }

  /** GOP number `g`: from its keyframe to the frame before the next one. */
  ghost predicate IsGop(gop: Gop, sync: seq<nat>, g: nat, frameCount: nat, ranges: seq<Option<ByteRange>>,
                        timings: seq<Option<Timing>>)
    requires g < |sync|
  {
    && gop.first == sync[g] < NextFirst(sync, g, frameCount) == gop.last + 1
    && gop.frames == FramesBetween(gop.first, gop.last + 1, ranges, timings)
    && SpansRanges(gop)
  }

  ghost predicate IsKeyframeMap(gops: seq<Gop>, sync: seq<nat>, frameCount: nat, ranges: seq<Option<ByteRange>>,
                                timings: seq<Option<Timing>>) {
    |gops| == |sync| && forall g: nat :: g < |gops| ==> IsGop(gops[g], sync, g, frameCount, ranges, timings)
  }

  method BuildKeyframeMap(frameCount: nat, syncFrames: seq<nat>, ranges: seq<Option<ByteRange>>,
                          timings: seq<Option<Timing>>)
    returns (gops: seq<Gop>)
    requires frameCount > 0 && StrictlyAscending(syncFrames)
    requires forall f <- syncFrames :: f < frameCount
    ensures IsKeyframeMap(gops, if syncFrames == [] then [0] else syncFrames, frameCount, ranges, timings)
  {
    var sync := if syncFrames == [] then [0] else syncFrames;
    gops := [];
    for g := 0 to |sync|
      invariant |gops| == g
      invariant forall k: nat :: k < g ==> IsGop(gops[k], sync, k, frameCount, ranges, timings)
    {
      var first, next := sync[g], NextFirst(sync, g, frameCount);
      assert first in sync && (g + 1 < |sync| ==> sync[g + 1] in sync);
      var last := if next - 1 < frameCount - 1 then next - 1 else frameCount - 1;
      if last < first {
        last := first;
      }
      var gop := BuildGop(first, last, ranges, timings);
      gops := gops + [gop];
    }
  }

  // ------------------------------------------------------------------ lookup

  datatype LookupResult = NotInMap | NoRange | Bytes(range: ByteRange)

  /** Scans one GOP's frame records for an index. */
  method FindInGop(gop: Gop, frameIndex: nat, ghost ranges: seq<Option<ByteRange>>, ghost timings: seq<Option<Timing>>)
    returns (hit: Option<Frame>)
    requires gop.first <= gop.last && gop.frames == FramesBetween(gop.first, gop.last + 1, ranges, timings)
    ensures hit
            == if gop.first <= frameIndex <= gop.last then Some(FrameOf(frameIndex, gop.first, ranges, timings))
               else None
  {
    for k := 0 to |gop.frames|
      invariant frameIndex < gop.first || frameIndex >= gop.first + k
    {
      if gop.frames[k].index == frameIndex {
        return Some(gop.frames[k]);
      }
    }
    hit := None;
  }

  lemma KeyframesAscend(sync: seq<nat>, g: nat, h: nat)
    requires StrictlyAscending(sync) && g <= h < |sync|
    ensures sync[g] <= sync[h]
  {
  }

  /** The frames a map covers: from its first keyframe to the last frame. */
  lemma GopSpan(gops: seq<Gop>, g: nat, sync: seq<nat>, frameCount: nat, ranges: seq<Option<ByteRange>>,
                timings: seq<Option<Timing>>)
    requires StrictlyAscending(sync) && IsKeyframeMap(gops, sync, frameCount, ranges, timings) && g < |gops|
    ensures sync[0] <= gops[g].first <= gops[g].last < frameCount
  {
    assert IsGop(gops[g], sync, g, frameCount, ranges, timings);
    KeyframesAscend(sync, 0, g);
    if g + 1 < |sync| {
      var n := |sync| - 1;
      assert IsGop(gops[n], sync, n, frameCount, ranges, timings);
      KeyframesAscend(sync, g + 1, n);
    }
  }

  lemma GopsInOrder(gops: seq<Gop>, g: nat, h: nat, sync: seq<nat>, frameCount: nat,
                    ranges: seq<Option<ByteRange>>, timings: seq<Option<Timing>>)
    requires StrictlyAscending(sync) && IsKeyframeMap(gops, sync, frameCount, ranges, timings)
    requires g < h < |gops|
    ensures gops[g].last < gops[h].first
  {
    assert IsGop(gops[g], sync, g, frameCount, ranges, timings);
    assert IsGop(gops[h], sync, h, frameCount, ranges, timings);
    KeyframesAscend(sync, g + 1, h);
  }

  /** GOPs partition the frames from the first keyframe on: every one of them lies in
      one GOP only. */
  lemma GopOfFrameIsUnique(gops: seq<Gop>, g: nat, h: nat, frame: nat, sync: seq<nat>, frameCount: nat,
                           ranges: seq<Option<ByteRange>>, timings: seq<Option<Timing>>)
    requires StrictlyAscending(sync) && IsKeyframeMap(gops, sync, frameCount, ranges, timings)
    requires g < |gops| && h < |gops|
    requires gops[g].first <= frame <= gops[g].last && gops[h].first <= frame <= gops[h].last
    ensures g == h
  {
    if g < h {
      GopsInOrder(gops, g, h, sync, frameCount, ranges, timings);
    } else if h < g {
      GopsInOrder(gops, h, g, sync, frameCount, ranges, timings);
    }
  }

  /** Lookup finds exactly the frames from the first keyframe on, each in its GOP, and
      answers with the sample's byte range when it has one. */
  method LookUpFrame(gops: seq<Gop>, frameIndex: nat, ghost sync: seq<nat>, ghost frameCount: nat,
                     ghost ranges: seq<Option<ByteRange>>, ghost timings: seq<Option<Timing>>)
    returns (result: LookupResult, ghost gop: nat)
    requires sync != [] && StrictlyAscending(sync) && IsKeyframeMap(gops, sync, frameCount, ranges, timings)
    ensures result.NotInMap? <==> frameIndex < sync[0] || frameIndex >= frameCount
    ensures !result.NotInMap? ==> gop < |gops| && gops[gop].first <= frameIndex <= gops[gop].last
    ensures !result.NotInMap? ==>
              result == if frameIndex < |ranges| && ranges[frameIndex].Some? then Bytes(ranges[frameIndex].value)
                        else NoRange
  {
    gop := 0;
    for g := 0 to |gops|
      invariant g > 0 ==> frameIndex < sync[0] || frameIndex >= gops[g - 1].last + 1
    {
      assert IsGop(gops[g], sync, g, frameCount, ranges, timings);
      if g > 0 { assert IsGop(gops[g - 1], sync, g - 1, frameCount, ranges, timings); }
      var hit := FindInGop(gops[g], frameIndex, ranges, timings);
      if hit.Some? {
        GopSpan(gops, g, sync, frameCount, ranges, timings);
        gop := g;
        if hit.value.range.None? {
          return NoRange, gop;
        }
        return Bytes(hit.value.range.value), gop;
      }
    }
    assert IsGop(gops[|gops| - 1], sync, |gops| - 1, frameCount, ranges, timings);
    result := NotInMap;
  }

  lemma GopBounds(gops: seq<Gop>, sync: seq<nat>, frameCount: nat, ranges: seq<Option<ByteRange>>,
                  timings: seq<Option<Timing>>)
    requires IsKeyframeMap(gops, sync, frameCount, ranges, timings)
    ensures |gops| == |sync|
    ensures forall g :: 0 <= g < |gops| ==>
              gops[g].first == sync[g] && gops[g].last + 1 == NextFirst(sync, g, frameCount)
  {
    forall g: nat | g < |gops| ensures gops[g].first == sync[g] && gops[g].last + 1 == NextFirst(sync, g, frameCount) {
      assert IsGop(gops[g], sync, g, frameCount, ranges, timings);
    }
  }

  /** Exactly the assigned samples have a range, the one the tables give. */
  ghost predicate HaveRanges(track: Track, ranges: seq<Option<ByteRange>>) {
    |ranges| == FrameCount(track) && forall i: nat :: i < |ranges| ==> HasItsRange(track, ranges, i)
  }

  ghost predicate HasItsRange(track: Track, ranges: seq<Option<ByteRange>>, i: nat)
    requires i < |ranges|
  {
    if i < Assigned(track) then ranges[i] == Some(RangeOf(track, i)) else ranges[i] == None
  }

  lemma AssignedHaveRanges(track: Track, ranges: seq<Option<ByteRange>>)
    requires |ranges| == FrameCount(track)
    requires !HasRangeTables(track) ==> forall range <- ranges :: range == None
    requires HasRangeTables(track) ==> RangesUpTo(ranges, track, Assigned(track))
    ensures HaveRanges(track, ranges)
  {
    forall i: nat | i < |ranges| ensures HasItsRange(track, ranges, i) {
      assert ranges[i] in ranges;
    }
  }

  method InspectTrack(track: Track)
    returns (gops: seq<Gop>, ranges: seq<Option<ByteRange>>, timings: seq<Option<Timing>>)
    requires FrameCount(track) > 0
    ensures IsKeyframeMap(gops, Keyframes(track), FrameCount(track), ranges, timings) && HaveRanges(track, ranges)
  {
    ranges := SampleByteRanges(track);
    AssignedHaveRanges(track, ranges);
    timings := SampleTimings(track);
    gops := BuildKeyframeMap(FrameCount(track), SyncFrames(track), ranges, timings);
  }

  /** From the sample tables to the bytes of one frame.  A frame from the first keyframe
      on is found in its GOP; its byte range, when assigned, is the one the tables give. */
  method InspectAndRead(track: Track, frameIndex: nat) returns (gops: seq<Gop>, result: LookupResult)
    requires FrameCount(track) > 0
    ensures |gops| == |Keyframes(track)|
    ensures forall g :: 0 <= g < |gops| ==>
              gops[g].first == Keyframes(track)[g]
              && gops[g].last + 1 == NextFirst(Keyframes(track), g, FrameCount(track))
    ensures result.NotInMap? <==> frameIndex < Keyframes(track)[0] || frameIndex >= FrameCount(track)
    ensures result.Bytes? <==> Keyframes(track)[0] <= frameIndex < Assigned(track)
    ensures result.Bytes? ==> result.range == RangeOf(track, frameIndex)
  {
    var ranges, timings;
    gops, ranges, timings := InspectTrack(track);
    GopBounds(gops, Keyframes(track), FrameCount(track), ranges, timings);
    ghost var gop;
    result, gop := LookUpFrame(gops, frameIndex, Keyframes(track), FrameCount(track), ranges, timings);
    if frameIndex < FrameCount(track) {
      assert HasItsRange(track, ranges, frameIndex);
    }
  }
}
