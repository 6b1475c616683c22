/** The recursive walk over MP4 boxes (section 4.2 of ISO/IEC 14496-12). */
module Mp4Boxes {
  import opened Ordering

  type Byte = x: int | 0 <= x < 256

  function U32(data: seq<Byte>, offset: nat): nat
    requires offset + 4 <= |data|
  {
    var a: nat, b: nat, c: nat, d: nat := data[offset], data[offset + 1], data[offset + 2], data[offset + 3];
    ((a * 256 + b) * 256 + c) * 256 + d
  }

  function U64(data: seq<Byte>, offset: nat): nat
    requires offset + 8 <= |data|
  {
    U32(data, offset) * 0x1_0000_0000 + U32(data, offset + 4)
  }

  datatype Kind = FileType | TrackBox | Container | Other

  /** A box's name: its four letters as one number. */
  type FourCc = nat

  const FTYP: FourCc := 0x66747970
  const TRAK: FourCc := 0x7472616b
  const MOOV: FourCc := 0x6d6f6f76
  const MDIA: FourCc := 0x6d646961
  const MINF: FourCc := 0x6d696e66
  const STBL: FourCc := 0x7374626c
  const DINF: FourCc := 0x64696e66
  const EDTS: FourCc := 0x65647473
  const MVEX: FourCc := 0x6d766578

  function KindOf(fourcc: FourCc): Kind {
    if fourcc == FTYP then FileType
    else if fourcc == TRAK then TrackBox
    else if fourcc == MOOV || fourcc == MDIA || fourcc == MINF || fourcc == STBL || fourcc == DINF || fourcc == EDTS
         || fourcc == MVEX
    then Container
    else Other
  }

  function Letters(name: string): FourCc
    requires |name| == 4
  {
    ((name[0] as int * 256 + name[1] as int) * 256 + name[2] as int) * 256 + name[3] as int
  }

  /** Which boxes nest, and which open a track, by the letters of their names. */
  lemma KindsByName(fourcc: FourCc)
    ensures KindOf(fourcc).FileType? <==> fourcc == Letters("ftyp")
    ensures KindOf(fourcc).TrackBox? <==> fourcc == Letters("trak")
    ensures KindOf(fourcc).Container? <==>
              fourcc in {Letters("moov"), Letters("mdia"), Letters("minf"), Letters("stbl"), Letters("dinf"),
                         Letters("edts"), Letters("mvex")}
  {
  }

  predicate Nests(kind: Kind) { kind.TrackBox? || kind.Container? }

  // ------------------------------------------------------------ one header

  datatype Header = Truncated | Header(fourcc: FourCc, payload: nat, end: nat)

  /** The header at `offset` of a box inside a parent ending at `limit`: a 32-bit size,
      a 64-bit one after size 1, or the rest of the parent after size 0. */
  function ReadHeader(file: seq<Byte>, offset: nat, limit: nat): Header
    requires offset + 8 <= limit <= |file|
  {
    var size32, fourcc := U32(file, offset), U32(file, offset + 4);
    if size32 == 1 then
      if offset + 16 > |file| then Truncated else Header(fourcc, offset + 16, offset + U64(file, offset + 8))
    else Header(fourcc, offset + 8, if size32 == 0 then limit else offset + size32)
  }

  predicate FitsIn(h: Header, limit: nat) { h.Header? && h.payload <= h.end <= limit }

  // ------------------------------------------------------------- box trees

  /** Sibling boxes in file order: a box, what it contains, and the boxes after it. */
  datatype Boxes = Done | Box(fourcc: FourCc, start: nat, payload: nat, end: nat, inner: Boxes, next: Boxes)

  /** The boxes between two offsets; `None` when some box does not fit its parent. */
  function Parse(file: seq<Byte>, start: nat, end: nat): Option<Boxes>
    requires end <= |file|
    decreases end - start
  {
    if start + 8 > end then Some(Done)
    else
      var h := ReadHeader(file, start, end);
      if !FitsIn(h, end) then None
      else
        var inner := if Nests(KindOf(h.fourcc)) then Parse(file, h.payload, h.end) else Some(Done);
        if inner.None? then None
        else
          var next := Parse(file, h.end, end);
          if next.None? then None
          else Some(Box(h.fourcc, start, h.payload, h.end, inner.value, next.value))
  }

  /** Siblings tile their parent from `lo`, each child inside its parent's payload. */
  ghost predicate WellNested(boxes: Boxes, lo: nat, hi: nat) {
    match boxes
    case Done => true
    case Box(_, start, payload, end, inner, next) =>
      && start == lo && start + 8 <= payload <= end <= hi
      && WellNested(inner, payload, end)
      && WellNested(next, end, hi)
  }

  /** Every accepted child stays inside its parent and siblings never overlap. */
  lemma {:induction false} AcceptedBoxesNest(file: seq<Byte>, start: nat, end: nat)
    requires end <= |file|
    requires Parse(file, start, end).Some?
    ensures WellNested(Parse(file, start, end).value, start, end)
    decreases end - start
  {
    if start + 8 <= end {
      var h := ReadHeader(file, start, end);
      if Nests(KindOf(h.fourcc)) {
        AcceptedBoxesNest(file, h.payload, h.end);
      }
      AcceptedBoxesNest(file, h.end, end);
    }
  }

  // ------------------------------------------------------------ bytes read

  /** The ranges the walk ranges: every header, and the payloads it interprets. */
  function Reads(boxes: Boxes, inTrack: bool): seq<(nat, nat)> {
    match boxes
    case Done => []
    case Box(fourcc, start, payload, end, inner, next) =>
      var kind := KindOf(fourcc);
      [(start, payload)]
      + (if Nests(kind) then Reads(inner, inTrack || kind.TrackBox?)
         else if kind.FileType? || inTrack then [(payload, end)]
         else [])
      + Reads(next, inTrack)
  }

  function BytesIn(ranges: seq<(nat, nat)>): int {
    if ranges == [] then 0 else BytesIn(ranges[..|ranges| - 1]) + ranges[|ranges| - 1].1 - ranges[|ranges| - 1].0
  }

  /** Ranges in file order inside [lo, hi], none of them overlapping another. */
  ghost predicate Disjoint(ranges: seq<(nat, nat)>, lo: nat, hi: nat) {
    && (forall i :: 0 <= i < |ranges| ==> lo <= ranges[i].0 <= ranges[i].1 <= hi)
    && (forall i, j :: 0 <= i < j < |ranges| ==> ranges[i].1 <= ranges[j].0)
  }

  lemma DisjointAppend(a: seq<(nat, nat)>, b: seq<(nat, nat)>, lo: nat, mid: nat, hi: nat)
    requires Disjoint(a, lo, mid) && Disjoint(b, mid, hi) && lo <= mid <= hi
    ensures Disjoint(a + b, lo, hi)
  {
  }

  lemma {:induction false} BytesInAppend(a: seq<(nat, nat)>, b: seq<(nat, nat)>)
    ensures BytesIn(a + b) == BytesIn(a) + BytesIn(b)
  {
    if b == [] {
      assert a + b == a;
    } else {
      assert (a + b)[..|a + b| - 1] == a + b[..|b| - 1];
      BytesInAppend(a, b[..|b| - 1]);
    }
  }

  lemma {:induction false} DisjointBytes(ranges: seq<(nat, nat)>, lo: nat, hi: nat)
    requires Disjoint(ranges, lo, hi) && lo <= hi
    ensures 0 <= BytesIn(ranges) <= hi - lo
  {
    if ranges != [] {
      var last := ranges[|ranges| - 1];
      DisjointBytes(ranges[..|ranges| - 1], lo, last.0);
    }
  }

  /** On success no byte is read twice, so the count is at most the span walked. */
  lemma {:induction false} NoByteCountedTwice(boxes: Boxes, lo: nat, hi: nat, inTrack: bool)
    requires WellNested(boxes, lo, hi) && lo <= hi
    ensures Disjoint(Reads(boxes, inTrack), lo, hi)
    ensures 0 <= BytesIn(Reads(boxes, inTrack)) <= hi - lo
  {
    if boxes.Box? {
      var kind := KindOf(boxes.fourcc);
      var body := if Nests(kind) then Reads(boxes.inner, inTrack || kind.TrackBox?)
                  else if kind.FileType? || inTrack then [(boxes.payload, boxes.end)]
                  else [];
      if Nests(kind) {
        NoByteCountedTwice(boxes.inner, boxes.payload, boxes.end, inTrack || kind.TrackBox?);
      }
      NoByteCountedTwice(boxes.next, boxes.end, hi, inTrack);
      DisjointAppend([(boxes.start, boxes.payload)], body, lo, boxes.payload, boxes.end);
      DisjointAppend([(boxes.start, boxes.payload)] + body, Reads(boxes.next, inTrack), lo, boxes.end, hi);
    }
    DisjointBytes(Reads(boxes, inTrack), lo, hi);
  }

  // -------------------------------------------------------- the parser state

  datatype Leaf = Leaf(fourcc: FourCc, payload: seq<Byte>)

  /** What the walk collects: the brands payload of the last `ftyp`, and per track the
      leaf boxes found in it. */
  datatype Found = Found(brands: Option<seq<Byte>>, tracks: seq<seq<Leaf>>)

  /** The effect of a list of boxes on what has been found; `track` is the track being
      filled, if any. */
  function Collect(file: seq<Byte>, boxes: Boxes, track: Option<nat>, found: Found): (after: Found)
    requires WellNestedIn(file, boxes)
    requires track.Some? ==> track.value < |found.tracks|
    ensures |found.tracks| <= |after.tracks|
  {
    match boxes
    case Done => found
    case Box(fourcc, _, payload, end, inner, next) =>
      var here :=
        match KindOf(fourcc)
        case FileType => found.(brands := Some(file[payload..end]))
        case TrackBox => Collect(file, inner, Some(|found.tracks|), found.(tracks := found.tracks + [[]]))
        case Container => Collect(file, inner, track, found)
        case Other =>
          if track.None? then found
          else
            var leaves := found.tracks[track.value] + [Leaf(fourcc, file[payload..end])];
            found.(tracks := found.tracks[track.value := leaves]);
      Collect(file, next, track, here)
  }

  predicate WellNestedIn(file: seq<Byte>, boxes: Boxes) {
    boxes.Box? ==>
      && boxes.payload <= boxes.end <= |file|
      && WellNestedIn(file, boxes.inner)
      && WellNestedIn(file, boxes.next)
  }

  lemma {:induction false} NestedInFile(file: seq<Byte>, boxes: Boxes, lo: nat, hi: nat)
    requires WellNested(boxes, lo, hi) && hi <= |file|
    ensures WellNestedIn(file, boxes)
  {
    if boxes.Box? {
      NestedInFile(file, boxes.inner, boxes.payload, boxes.end);
      NestedInFile(file, boxes.next, boxes.end, hi);
    }
  }

  /** The walk never forgets a track: a track leaf box is appended only to the track
      it lies in, so earlier tracks keep their leaves. */
  lemma {:induction false} CollectKeepsOtherTracks(file: seq<Byte>, boxes: Boxes, track: Option<nat>, found: Found,
                                                   other: nat)
    requires WellNestedIn(file, boxes)
    requires track.Some? ==> track.value < |found.tracks|
    requires other < |found.tracks| && track != Some(other)
    ensures Collect(file, boxes, track, found).tracks[other] == found.tracks[other]
  {
    if boxes.Box? {
      var here :=
        match KindOf(boxes.fourcc)
        case FileType => found.(brands := Some(file[boxes.payload..boxes.end]))
        case TrackBox => Collect(file, boxes.inner, Some(|found.tracks|), found.(tracks := found.tracks + [[]]))
        case Container => Collect(file, boxes.inner, track, found)
        case Other =>
          if track.None? then found
          else
            var leaves := found.tracks[track.value] + [Leaf(boxes.fourcc, file[boxes.payload..boxes.end])];
            found.(tracks := found.tracks[track.value := leaves]);
      match KindOf(boxes.fourcc)
      case TrackBox =>
        CollectKeepsOtherTracks(file, boxes.inner, Some(|found.tracks|), found.(tracks := found.tracks + [[]]), other);
        CollectKeepsOtherTracks(file, boxes.next, track, here, other);
      case Container =>
        CollectKeepsOtherTracks(file, boxes.inner, track, found, other);
        CollectKeepsOtherTracks(file, boxes.next, track, here, other);
      case _ =>
        CollectKeepsOtherTracks(file, boxes.next, track, here, other);
    }
  }

  class Mp4State {
    var brands: Option<seq<Byte>>
    var tracks: seq<seq<Leaf>>
    var bytesRead: nat

    function View(): Found
      reads this
    {
      Found(brands, tracks)
    }

    constructor ()
      ensures View() == Found(None, []) && bytesRead == 0
    {
      brands, tracks, bytesRead := None, [], 0;
    }

    method ReadPayload(file: seq<Byte>, start: nat, end: nat) returns (payload: seq<Byte>)
      requires start <= end <= |file|
      modifies this`bytesRead
      ensures payload == file[start..end] && bytesRead == old(bytesRead) + (end - start)
    {
      payload := file[start..end];
      bytesRead := bytesRead + |payload|;
    }

    method ReadBoxHeader(file: seq<Byte>, offset: nat, end: nat) returns (h: Header)
      requires offset + 8 <= end <= |file|
      modifies this`bytesRead
      ensures h == ReadHeader(file, offset, end)
      ensures h.Header? ==> bytesRead == old(bytesRead) + (h.payload - offset)
    {
      bytesRead := bytesRead + 8;
      var size32, fourcc := U32(file, offset), U32(file, offset + 4);
      var headerSize, boxSize := 8, size32;
      if size32 == 1 {
        if offset + 16 > |file| {
          return Truncated;
        }
        bytesRead := bytesRead + 8;
        boxSize, headerSize := U64(file, offset + 8), 16;
      } else if size32 == 0 {
        boxSize := end - offset;
      }
      h := Header(fourcc, offset + headerSize, offset + boxSize);
    }

    method KeepLeaf(file: seq<Byte>, fourcc: FourCc, payload: nat, end: nat, track: nat)
      requires payload <= end <= |file| && track < |tracks|
      modifies this
      ensures brands == old(brands)
      ensures tracks == old(tracks)[track := old(tracks)[track] + [Leaf(fourcc, file[payload..end])]]
      ensures bytesRead == old(bytesRead) + (end - payload)
    {
      var leaf := ReadPayload(file, payload, end);
      tracks := tracks[track := tracks[track] + [Leaf(fourcc, leaf)]];
    }

    /** A track box opens a track and puts what is inside it there. */
    method ParseTrackBox(file: seq<Byte>, start: nat, end: nat) returns (ok: bool)
      requires end <= |file|
      modifies this
      ensures ok <==> Parse(file, start, end).Some?
      ensures ok ==>
                var inner := Parse(file, start, end).value;
                && WellNestedIn(file, inner)
                && View() == Collect(file, inner, Some(|old(tracks)|), Found(old(brands), old(tracks) + [[]]))
                && bytesRead == old(bytesRead) + BytesIn(Reads(inner, true))
      ensures |tracks| >= old(|tracks|)
      decreases end - start, 2
    {
      tracks := tracks + [[]];
      ok := ParseBoxes(file, start, end, Some(|tracks| - 1));
    }

    /** What is inside a box: its nested boxes, or its payload. */
    method ParseBody(file: seq<Byte>, offset: nat, h: Header, end: nat, track: Option<nat>) returns (ok: bool)
      requires FitsIn(h, end) && offset + 8 <= h.payload && end <= |file|
      requires track.Some? ==> track.value < |tracks|
      modifies this
      ensures ok <==> (Nests(KindOf(h.fourcc)) ==> Parse(file, h.payload, h.end).Some?)
      ensures ok ==>
                var inner := if Nests(KindOf(h.fourcc)) then Parse(file, h.payload, h.end).value else Done;
                && WellNestedIn(file, inner)
                && View() == Collect(file, Box(h.fourcc, offset, h.payload, h.end, inner, Done), track, old(View()))
                && bytesRead == old(bytesRead) +
                   if Nests(KindOf(h.fourcc)) then BytesIn(Reads(inner, track.Some? || KindOf(h.fourcc).TrackBox?))
                   else if KindOf(h.fourcc).FileType? || track.Some? then h.end - h.payload
                   else 0
      ensures |tracks| >= old(|tracks|)
      decreases end - offset, 0
    {
      ok := true;
      match KindOf(h.fourcc) {
        case FileType =>
          var payload := ReadPayload(file, h.payload, h.end);
          brands := Some(payload);
        case TrackBox =>
          ok := ParseTrackBox(file, h.payload, h.end);
        case Container =>
          ok := ParseBoxes(file, h.payload, h.end, track);
        case Other =>
          if track.Some? {
            KeepLeaf(file, h.fourcc, h.payload, h.end, track.value);
          }
      }
    }

    /** Walks the boxes between two offsets; false is the error raised for a box that
        is truncated or does not fit its parent. */
    method ParseBoxes(file: seq<Byte>, start: nat, end: nat, track: Option<nat>) returns (ok: bool)
      requires end <= |file|
      requires track.Some? ==> track.value < |tracks|
      modifies this
      ensures ok <==> Parse(file, start, end).Some?
      ensures ok ==> WellNestedIn(file, Parse(file, start, end).value)
      ensures ok ==> View() == Collect(file, Parse(file, start, end).value, track, old(View()))
      ensures ok ==> bytesRead == old(bytesRead) + BytesIn(Reads(Parse(file, start, end).value, track.Some?))
      ensures |tracks| >= old(|tracks|)
      decreases end - start, 1
    {
      ghost var full := Parse(file, start, end);
      if full.Some? {
        AcceptedBoxesNest(file, start, end);
        NestedInFile(file, full.value, start, end);
      }
      var offset := start;
      while offset + 8 <= end
        invariant start <= offset && |tracks| >= old(|tracks|)
        invariant full.Some? <==> Parse(file, offset, end).Some?
        invariant full.Some? ==>
                    var rest := Parse(file, offset, end).value;
                    && WellNestedIn(file, rest)
                    && Collect(file, rest, track, View()) == Collect(file, full.value, track, old(View()))
                    && bytesRead + BytesIn(Reads(rest, track.Some?))
                       == old(bytesRead) + BytesIn(Reads(full.value, track.Some?))
        decreases end - offset
      {
        ghost var rest := Parse(file, offset, end);
        var h := ReadBoxHeader(file, offset, end);
        if !FitsIn(h, end) {
          return false;
        }
        var fits := ParseBody(file, offset, h, end, track);
        if !fits {
          return false;
        }
        if rest.Some? {
          AppendReads(rest.value, track.Some?);
        }
        offset := h.end;
      }
      ok := true;
    }

    /** The walk over a whole file: on success at most the file's bytes were read. */
    method ParseFile(file: seq<Byte>) returns (ok: bool)
      requires View() == Found(None, []) && bytesRead == 0
      modifies this
      ensures ok <==> Parse(file, 0, |file|).Some?
      ensures ok ==> bytesRead <= |file| && WellNested(Parse(file, 0, |file|).value, 0, |file|)
      ensures ok ==> WellNestedIn(file, Parse(file, 0, |file|).value)
      ensures ok ==> View() == Collect(file, Parse(file, 0, |file|).value, None, Found(None, []))
    {
      ok := ParseBoxes(file, 0, |file|, None);
      if ok {
        AcceptedBoxesNest(file, 0, |file|);
        NoByteCountedTwice(Parse(file, 0, |file|).value, 0, |file|, false);
      }
    }
  }

  lemma AppendReads(boxes: Boxes, inTrack: bool)
    requires boxes.Box?
    ensures var kind := KindOf(boxes.fourcc);
            BytesIn(Reads(boxes, inTrack)) ==
            boxes.payload - boxes.start + BytesIn(Reads(boxes.next, inTrack)) +
            (if Nests(kind) then BytesIn(Reads(boxes.inner, inTrack || kind.TrackBox?))
             else if kind.FileType? || inTrack then boxes.end - boxes.payload
             else 0)
  {
    var kind := KindOf(boxes.fourcc);
    var body := if Nests(kind) then Reads(boxes.inner, inTrack || kind.TrackBox?)
                else if kind.FileType? || inTrack then [(boxes.payload, boxes.end)]
                else [];
    BytesInAppend([(boxes.start, boxes.payload)], body);
    BytesInAppend([(boxes.start, boxes.payload)] + body, Reads(boxes.next, inTrack));
    assert BytesIn([(boxes.start, boxes.payload)]) == boxes.payload - boxes.start;
    assert BytesIn([(boxes.payload, boxes.end)]) == boxes.end - boxes.payload;
  }
}
