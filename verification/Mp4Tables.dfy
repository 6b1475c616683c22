/** Decoding the sample tables of a track from its leaf boxes (sections 8.4.2, 8.6.1, 8.6.2,
    8.7.3, 8.7.4 and 8.7.5 of ISO/IEC 14496-12), against the encoding those sections define. */
module Mp4Tables {
  import opened Ordering
  import opened Mp4Boxes
  import opened Mp4Samples

  const WORD: nat := 0x1_0000_0000

  // ------------------------------------------------------------- fixed entries

  /** So many entries of `stride` bytes each, or as many as the data holds. */
  function Entries<T>(data: seq<Byte>, count: nat, stride: nat, decode: seq<Byte> -> T): (entries: seq<T>)
    requires stride >= 1
    ensures |entries| <= count
    decreases count
  {
    if count == 0 || |data| < stride then []
    else [decode(data[..stride])] + Entries(data[stride..], count - 1, stride, decode)
  }

  method ParseEntries<T>(payload: seq<Byte>, from: nat, count: nat, stride: nat, decode: seq<Byte> -> T)
    returns (entries: seq<T>)
    requires stride >= 1 && from <= |payload|
    ensures entries == Entries(payload[from..], count, stride, decode)
  {
    entries := [];
    var offset, k := from, 0;
    while k < count
      invariant from <= offset <= |payload| && k <= count
      invariant Entries(payload[from..], count, stride, decode)
                == entries + Entries(payload[offset..], count - k, stride, decode)
    {
      if offset + stride > |payload| {
        NoEntryAhead(payload, offset, count - k, stride, decode);
        assert entries + [] == entries;
        return;
      }
      EntryAhead(payload, offset, count - k, stride, decode);
      ghost var later := Entries(payload[offset + stride..], count - k - 1, stride, decode);
      Regroup(entries, [decode(payload[offset..offset + stride])], later);
      entries := entries + [decode(payload[offset..offset + stride])];
      offset, k := offset + stride, k + 1;
    }
    assert Entries(payload[offset..], 0, stride, decode) == [] && entries + [] == entries;
  }

  lemma NoEntryAhead<T>(payload: seq<Byte>, offset: nat, count: nat, stride: nat, decode: seq<Byte> -> T)
    requires stride >= 1 && offset <= |payload| < offset + stride
    ensures Entries(payload[offset..], count, stride, decode) == []
  {
  }

  lemma EntryAhead<T>(payload: seq<Byte>, offset: nat, count: nat, stride: nat, decode: seq<Byte> -> T)
    requires stride >= 1 && offset + stride <= |payload| && count >= 1
    ensures Entries(payload[offset..], count, stride, decode)
         == [decode(payload[offset..offset + stride])] + Entries(payload[offset + stride..], count - 1, stride, decode)
  {
    var rest := payload[offset..];
    assert rest[..stride] == payload[offset..offset + stride] && rest[stride..] == payload[offset + stride..];
  }

  function EncodeAll<T>(entries: seq<T>, encode: T -> seq<Byte>): seq<Byte> {
    if entries == [] then [] else encode(entries[0]) + EncodeAll(entries[1..], encode)
  }

  /** An entry's encoding has its length and decodes to the entry. */
  ghost predicate Codes<T>(entries: seq<T>, stride: nat, encode: T -> seq<Byte>, decode: seq<Byte> -> T) {
    forall x <- entries :: |encode(x)| == stride && decode(encode(x)) == x
  }

  lemma FirstEntry<T>(code: seq<Byte>, rest: seq<Byte>, count: nat, stride: nat, decode: seq<Byte> -> T)
    requires |code| == stride >= 1 && count >= 1
    ensures Entries(code + rest, count, stride, decode) == [decode(code)] + Entries(rest, count - 1, stride, decode)
  {
    assert (code + rest)[..stride] == code && (code + rest)[stride..] == rest;
  }

  /** Decoding gives back what was encoded, up to where the data was cut off; what follows
      the announced entries is ignored. */
  lemma {:induction false} EntriesDecode<T>(entries: seq<T>, tail: seq<Byte>, count: nat, stride: nat,
                                            encode: T -> seq<Byte>, decode: seq<Byte> -> T)
    requires stride >= 1 && Codes(entries, stride, encode, decode)
    requires count == |entries| || (count > |entries| && |tail| < stride)
    ensures Entries(EncodeAll(entries, encode) + tail, count, stride, decode) == entries
    decreases |entries|
  {
    if entries != [] {
      EntriesDecode(entries[1..], tail, count - 1, stride, encode, decode);
      assert EncodeAll(entries, encode) + tail == encode(entries[0]) + (EncodeAll(entries[1..], encode) + tail);
      FirstEntry(encode(entries[0]), EncodeAll(entries[1..], encode) + tail, count, stride, decode);
    } else {
      assert EncodeAll(entries, encode) + tail == tail;
    }
  }

  // ------------------------------------------------------------------- integers

  function Digits(m: nat): (bytes: seq<Byte>)
    requires m < WORD
    ensures |bytes| == 4
  {
    [m / 256 / 256 / 256, m / 256 / 256 % 256, m / 256 % 256, m % 256]
  }

  /** Four bytes, most significant first; a negative number as two's complement. */
  function Encode32(n: int): (bytes: seq<Byte>)
    ensures |bytes| == 4
  {
    Digits(n % WORD)
  }

  lemma Decode32(n: nat, tail: seq<Byte>)
    requires n < WORD
    ensures U32(Encode32(n) + tail, 0) == n
  {
    var bytes := Encode32(n) + tail;
    assert n % WORD == n;
    assert bytes[0] == n / 256 / 256 / 256 && bytes[1] == n / 256 / 256 % 256 && bytes[2] == n / 256 % 256
           && bytes[3] == n % 256;
  }

  function Encode64(n: nat): (bytes: seq<Byte>)
    ensures |bytes| == 8
  {
    Encode32(n / WORD) + Encode32(n % WORD)
  }

  lemma U32Shift(head: seq<Byte>, data: seq<Byte>, offset: nat)
    requires offset + 4 <= |data|
    ensures U32(head + data, |head| + offset) == U32(data, offset)
  {
  }

  lemma Decode64(n: nat)
    requires n < WORD * WORD
    ensures U64(Encode64(n), 0) == n
  {
    assert n / WORD < WORD by { QuotientBelow(n); }
    Decode32(n / WORD, Encode32(n % WORD));
    Decode32(n % WORD, []);
    U32Shift(Encode32(n / WORD), Encode32(n % WORD), 0);
    assert Encode32(n % WORD) + [] == Encode32(n % WORD);
  }

  lemma QuotientBelow(n: nat)
    requires n < WORD * WORD
    ensures n / WORD < WORD
  {
  }

  /** A 32-bit word read as two's complement. */
  function Signed(n: nat): int { if n < WORD / 2 then n else n - WORD }

  function Word0(bytes: seq<Byte>): nat { if |bytes| >= 4 then U32(bytes, 0) else 0 }

  function Word1(bytes: seq<Byte>): nat { if |bytes| >= 8 then U32(bytes, 4) else 0 }

  function DecodeWord(): seq<Byte> -> nat { (bytes: seq<Byte>) => Word0(bytes) }

  function DecodeLong(): seq<Byte> -> nat { (bytes: seq<Byte>) => if |bytes| >= 8 then U64(bytes, 0) else 0 }

  function DecodeTimeRun(signed: bool): seq<Byte> -> TimeRun {
    (bytes: seq<Byte>) => TimeRun(Word0(bytes), if signed then Signed(Word1(bytes)) else Word1(bytes))
  }

  /** The third word, the sample description, is not used. */
  function DecodeRun(): seq<Byte> -> ChunkRun { (bytes: seq<Byte>) => ChunkRun(Word0(bytes), Word1(bytes)) }

  function EncodeWord(): nat -> seq<Byte> { (n: nat) => Encode32(n) }

  function EncodeLong(): nat -> seq<Byte> { (n: nat) => Encode64(n) }

  function EncodeTime(): TimeRun -> seq<Byte> { (run: TimeRun) => Encode32(run.count) + Encode32(run.delta) }

  function EncodeRun(): ChunkRun -> seq<Byte> {
    (run: ChunkRun) => Encode32(run.firstChunk) + Encode32(run.samplesPerChunk) + Encode32(1)
  }

  // --------------------------------------------------------------------- tables

  /** A table of entries after its version, flags and count. */
  function Table<T>(payload: seq<Byte>, stride: nat, decode: seq<Byte> -> T): seq<T>
    requires stride >= 1
  {
    if |payload| < 8 then [] else Entries(payload[8..], U32(payload, 4), stride, decode)
  }

  function Sizes(payload: seq<Byte>): seq<nat> {
    if |payload| < 12 then []
    else if U32(payload, 4) != 0 then seq(U32(payload, 8), _ => U32(payload, 4))
    else Entries(payload[12..], U32(payload, 8), 4, DecodeWord())
  }

  /** The timescale of a media header. */
  function Timescale(payload: seq<Byte>): nat {
    if |payload| < 20 then 0
    else if payload[0] == 1 then if |payload| < 32 then 0 else U32(payload, 20)
    else U32(payload, 12)
  }

  method ParseTable<T>(payload: seq<Byte>, stride: nat, decode: seq<Byte> -> T) returns (entries: seq<T>)
    requires stride >= 1
    ensures entries == Table(payload, stride, decode)
  {
    if |payload| < 8 {
      return [];
    }
    entries := ParseEntries(payload, 8, U32(payload, 4), stride, decode);
  }

  method ParseSizes(payload: seq<Byte>) returns (sizes: seq<nat>)
    ensures sizes == Sizes(payload)
  {
    if |payload| < 12 {
      return [];
    }
    var size, count := U32(payload, 4), U32(payload, 8);
    if size != 0 {
      return seq(count, _ => size);
    }
    sizes := ParseEntries(payload, 12, count, 4, DecodeWord());
  }

  datatype LeafKind = MediaHeader | Times | Offsets | SyncTable | SizeTable | RunTable | ChunkTable | LongChunkTable
    | Unused

  const MDHD: FourCc := 0x6d646864
  const STTS: FourCc := 0x73747473
  const CTTS: FourCc := 0x63747473
  const STSS: FourCc := 0x73747373
  const STSZ: FourCc := 0x7374737a
  const STSC: FourCc := 0x73747363
  const STCO: FourCc := 0x7374636f
  const CO64: FourCc := 0x636f3634

  function LeafKindOf(fourcc: FourCc): LeafKind {
    if fourcc == MDHD then MediaHeader
    else if fourcc == STTS then Times
    else if fourcc == CTTS then Offsets
    else if fourcc == STSS then SyncTable
    else if fourcc == STSZ then SizeTable
    else if fourcc == STSC then RunTable
    else if fourcc == STCO then ChunkTable
    else if fourcc == CO64 then LongChunkTable
    else Unused
  }

  /** Each name in the standard stands for one table. */
  lemma LeafNames()
    ensures LeafKindOf(Letters("mdhd")) == MediaHeader
    ensures LeafKindOf(Letters("stts")) == Times
    ensures LeafKindOf(Letters("ctts")) == Offsets
    ensures LeafKindOf(Letters("stss")) == SyncTable
    ensures LeafKindOf(Letters("stsz")) == SizeTable
    ensures LeafKindOf(Letters("stsc")) == RunTable
    ensures LeafKindOf(Letters("stco")) == ChunkTable
    ensures LeafKindOf(Letters("co64")) == LongChunkTable
  {
  }

  /** What a leaf box does to its track; a later box of the same kind replaces the earlier. */
  function WithPayload(track: Track, kind: LeafKind, payload: seq<Byte>): Track {
    match kind
    case MediaHeader => track.(timescale := Timescale(payload))
    case Times => track.(stts := Table(payload, 8, DecodeTimeRun(false)))
    case Offsets => track.(ctts := Table(payload, 8, DecodeTimeRun(payload != [] && payload[0] == 1)))
    case SyncTable => track.(stss := Table(payload, 4, DecodeWord()))
    case SizeTable => track.(stsz := Sizes(payload))
    case RunTable => track.(stsc := Table(payload, 12, DecodeRun()))
    case ChunkTable => track.(chunkOffsets := Table(payload, 4, DecodeWord()))
    case LongChunkTable => track.(chunkOffsets := Table(payload, 8, DecodeLong()))
    case Unused => track
  }

  function WithLeaf(track: Track, leaf: Leaf): Track { WithPayload(track, LeafKindOf(leaf.fourcc), leaf.payload) }

  const NO_TABLES: Track := Track(0, [], [], [], [], [], [])

  /** A track after its leaf boxes, in file order. */
  function WithLeaves(track: Track, leaves: seq<Leaf>): Track
    decreases |leaves|
  {
    if leaves == [] then track else WithLeaves(WithLeaf(track, leaves[0]), leaves[1..])
  }

  method ParseTrack(leaves: seq<Leaf>) returns (track: Track)
    ensures track == WithLeaves(NO_TABLES, leaves)
  {
    track := NO_TABLES;
    assert leaves[0..] == leaves;
    for i := 0 to |leaves|
      invariant WithLeaves(NO_TABLES, leaves) == WithLeaves(track, leaves[i..])
    {
      assert leaves[i..][1..] == leaves[i + 1..];
      track := ParseTrackLeaf(track, leaves[i]);
    }
  }

  method ParseTrackLeaf(track: Track, leaf: Leaf) returns (after: Track)
    ensures after == WithLeaf(track, leaf)
  {
    var payload := leaf.payload;
    match LeafKindOf(leaf.fourcc) {
      case MediaHeader =>
        after := track.(timescale := Timescale(payload));
      case Times =>
        var runs := ParseTable(payload, 8, DecodeTimeRun(false));
        after := track.(stts := runs);
      case Offsets =>
        var runs := ParseTable(payload, 8, DecodeTimeRun(payload != [] && payload[0] == 1));
        after := track.(ctts := runs);
      case SyncTable =>
        var samples := ParseTable(payload, 4, DecodeWord());
        after := track.(stss := samples);
      case SizeTable =>
        var sizes := ParseSizes(payload);
        after := track.(stsz := sizes);
      case RunTable =>
        var runs := ParseTable(payload, 12, DecodeRun());
        after := track.(stsc := runs);
      case ChunkTable =>
        var offsets := ParseTable(payload, 4, DecodeWord());
        after := track.(chunkOffsets := offsets);
      case LongChunkTable =>
        var offsets := ParseTable(payload, 8, DecodeLong());
        after := track.(chunkOffsets := offsets);
      case Unused =>
        after := track;
    }
  }

  // ----------------------------------------------------------------- round trip

  function EncodeTable<T>(version: Byte, entries: seq<T>, encode: T -> seq<Byte>): seq<Byte> {
    [version, 0, 0, 0] + Encode32(|entries|) + EncodeAll(entries, encode)
  }

  /** Every table decodes to the entries it was written from. */
  lemma TableRoundTrip<T>(version: Byte, entries: seq<T>, stride: nat, encode: T -> seq<Byte>, decode: seq<Byte> -> T)
    requires stride >= 1 && |entries| < WORD && Codes(entries, stride, encode, decode)
    ensures Table(EncodeTable(version, entries, encode), stride, decode) == entries
  {
    var body := EncodeAll(entries, encode);
    TableHeader(version, |entries|, body);
    assert body == body + [];
    EntriesDecode(entries, [], |entries|, stride, encode, decode);
  }

  lemma TableHeader(version: Byte, count: nat, body: seq<Byte>)
    requires count < WORD
    ensures var payload := [version, 0, 0, 0] + Encode32(count) + body;
            |payload| >= 8 && U32(payload, 4) == count && payload[8..] == body
  {
    var payload := [version, 0, 0, 0] + Encode32(count) + body;
    assert payload == [version, 0, 0, 0] + (Encode32(count) + body);
    U32Shift([version, 0, 0, 0], Encode32(count) + body, 0);
    Decode32(count, body);
  }

  /** A table cut off inside its entries decodes to the entries that are complete. */
  lemma CutTableKeepsWholeEntries<T>(version: Byte, whole: seq<T>, announced: nat, tail: seq<Byte>, stride: nat,
                                     encode: T -> seq<Byte>, decode: seq<Byte> -> T)
    requires |whole| < announced < WORD && |tail| < stride && Codes(whole, stride, encode, decode)
    ensures Table([version, 0, 0, 0] + Encode32(announced) + EncodeAll(whole, encode) + tail, stride, decode) == whole
  {
    var body := EncodeAll(whole, encode) + tail;
    assert [version, 0, 0, 0] + Encode32(announced) + EncodeAll(whole, encode) + tail
           == [version, 0, 0, 0] + Encode32(announced) + body;
    TableHeader(version, announced, body);
    EntriesDecode(whole, tail, announced, stride, encode, decode);
  }

  lemma WordsCode(values: seq<nat>)
    requires forall v <- values :: v < WORD
    ensures Codes(values, 4, EncodeWord(), DecodeWord())
  {
    forall v | v in values ensures Word0(Encode32(v)) == v {
      Decode32(v, []);
      assert Encode32(v) + [] == Encode32(v);
    }
  }

  lemma LongsCode(values: seq<nat>)
    requires forall v <- values :: v < WORD * WORD
    ensures Codes(values, 8, EncodeLong(), DecodeLong())
  {
    forall v | v in values ensures U64(Encode64(v), 0) == v {
      Decode64(v);
    }
  }

  lemma TwoWords(a: nat, b: nat, tail: seq<Byte>)
    requires a < WORD && b < WORD
    ensures var bytes := Encode32(a) + Encode32(b) + tail; Word0(bytes) == a && Word1(bytes) == b
  {
    var bytes := Encode32(a) + Encode32(b) + tail;
    assert bytes == Encode32(a) + (Encode32(b) + tail);
    Decode32(a, Encode32(b) + tail);
    Decode32(b, tail);
    U32Shift(Encode32(a), Encode32(b) + tail, 0);
  }

  ghost predicate DeltaFits(delta: int, signed: bool) {
    if signed then -(WORD / 2) <= delta < WORD / 2 else 0 <= delta < WORD
  }

  lemma TimesCode(runs: seq<TimeRun>, signed: bool)
    requires forall run <- runs :: run.count < WORD && DeltaFits(run.delta, signed)
    ensures Codes(runs, 8, EncodeTime(), DecodeTimeRun(signed))
  {
    forall run | run in runs ensures DecodeTimeRun(signed)(EncodeTime()(run)) == run {
      TimeCodes(run, signed);
    }
  }

  lemma EncodeWraps(n: int)
    requires 0 - WORD <= n < WORD
    ensures Encode32(n) == Encode32(if n >= 0 then n else n + WORD)
  {
    if n < 0 {
      assert n % WORD == n + WORD;
    } else {
      assert n % WORD == n;
    }
  }

  lemma TimeCodes(run: TimeRun, signed: bool)
    requires run.count < WORD && DeltaFits(run.delta, signed)
    ensures DecodeTimeRun(signed)(EncodeTime()(run)) == run
  {
    var w := if run.delta >= 0 then run.delta else run.delta + WORD;
    EncodeWraps(run.delta);
    TwoWords(run.count, w, []);
    assert EncodeTime()(run) == Encode32(run.count) + Encode32(w) + [];
  }

  lemma RunsCode(runs: seq<ChunkRun>)
    requires forall run <- runs :: run.firstChunk < WORD && run.samplesPerChunk < WORD
    ensures Codes(runs, 12, EncodeRun(), DecodeRun())
  {
    forall run | run in runs ensures DecodeRun()(EncodeRun()(run)) == run {
      TwoWords(run.firstChunk, run.samplesPerChunk, Encode32(1));
    }
  }

  function EncodeSizes(sizes: seq<nat>): seq<Byte> {
    [0, 0, 0, 0] + Encode32(0) + Encode32(|sizes|) + EncodeAll(sizes, EncodeWord())
  }

  lemma SizesRoundTrip(sizes: seq<nat>)
    requires |sizes| < WORD && forall v <- sizes :: v < WORD
    ensures Sizes(EncodeSizes(sizes)) == sizes
  {
    var payload, body := EncodeSizes(sizes), EncodeAll(sizes, EncodeWord());
    assert payload == [0, 0, 0, 0] + (Encode32(0) + (Encode32(|sizes|) + body));
    U32Shift([0, 0, 0, 0], Encode32(0) + (Encode32(|sizes|) + body), 0);
    Decode32(0, Encode32(|sizes|) + body);
    assert payload == ([0, 0, 0, 0] + Encode32(0)) + (Encode32(|sizes|) + body);
    U32Shift([0, 0, 0, 0] + Encode32(0), Encode32(|sizes|) + body, 0);
    Decode32(|sizes|, body);
    assert payload[12..] == body && body == body + [];
    WordsCode(sizes);
    EntriesDecode(sizes, [], |sizes|, 4, EncodeWord(), DecodeWord());
  }

  /** One size for all samples is stored once. */
  lemma UniformSizes(size: nat, count: nat, tail: seq<Byte>)
    requires 0 < size < WORD && count < WORD
    ensures Sizes([0, 0, 0, 0] + Encode32(size) + Encode32(count) + tail) == seq(count, _ => size)
  {
    var payload := [0, 0, 0, 0] + Encode32(size) + Encode32(count) + tail;
    assert payload == [0, 0, 0, 0] + (Encode32(size) + (Encode32(count) + tail));
    U32Shift([0, 0, 0, 0], Encode32(size) + (Encode32(count) + tail), 0);
    Decode32(size, Encode32(count) + tail);
    assert payload == ([0, 0, 0, 0] + Encode32(size)) + (Encode32(count) + tail);
    U32Shift([0, 0, 0, 0] + Encode32(size), Encode32(count) + tail, 0);
    Decode32(count, tail);
  }

  /** The choices a writer has: the versions of the media header and of the composition
      offsets, and whether chunk offsets take 64 bits. */
  datatype Form = Form(header: Byte, offsets: Byte, longChunks: bool)

  /** What a media header holds besides its timescale. */
  datatype HeaderRest = HeaderRest(created: nat, modified: nat, duration: nat, tail: seq<Byte>)

  /** Tables that the format can hold in a form: 32-bit counts and values, composition offsets
      signed in version 1, chunk offsets of 32 or 64 bits. */
  ghost predicate Encodable(t: Track, form: Form) {
    && t.timescale < WORD && |t.stts| < WORD && |t.ctts| < WORD && |t.stss| < WORD && |t.stsz| < WORD && |t.stsc| < WORD
    && |t.chunkOffsets| < WORD
    && (forall run <- t.stts :: run.count < WORD && DeltaFits(run.delta, false))
    && (forall run <- t.ctts :: run.count < WORD && DeltaFits(run.delta, form.offsets == 1))
    && (forall v <- t.stss :: v < WORD) && (forall v <- t.stsz :: v < WORD)
    && (forall v <- t.chunkOffsets :: v < if form.longChunks then WORD * WORD else WORD)
    && forall run <- t.stsc :: run.firstChunk < WORD && run.samplesPerChunk < WORD
  }

  function EncodeHeader(version: Byte, timescale: nat, rest: HeaderRest): seq<Byte> {
    if version == 1 then
      [version, 0, 0, 0] + Encode64(rest.created) + Encode64(rest.modified) + Encode32(timescale)
      + Encode64(rest.duration) + rest.tail
    else
      [version, 0, 0, 0] + Encode32(rest.created) + Encode32(rest.modified) + Encode32(timescale)
      + Encode32(rest.duration) + rest.tail
  }

  /** The boxes that hold a track's tables, under their names in the standard. */
  function EncodeTrack(t: Track, form: Form, rest: HeaderRest): (boxes: seq<Leaf>)
  {
    [Leaf(MDHD, EncodeHeader(form.header, t.timescale, rest)),
     Leaf(STTS, EncodeTable(0, t.stts, EncodeTime())),
     Leaf(CTTS, EncodeTable(form.offsets, t.ctts, EncodeTime())),
     Leaf(STSS, EncodeTable(0, t.stss, EncodeWord())),
     Leaf(STSZ, EncodeSizes(t.stsz)),
     Leaf(STSC, EncodeTable(0, t.stsc, EncodeRun())),
     ChunkBox(t, form)]
  }

  function ChunkBox(t: Track, form: Form): Leaf {
    if form.longChunks then Leaf(CO64, EncodeTable(0, t.chunkOffsets, EncodeLong()))
    else Leaf(STCO, EncodeTable(0, t.chunkOffsets, EncodeWord()))
  }

  lemma WordAt(head: seq<Byte>, n: nat, tail: seq<Byte>)
    requires n < WORD
    ensures U32(head + Encode32(n) + tail, |head|) == n
  {
    assert head + Encode32(n) + tail == head + (Encode32(n) + tail);
    U32Shift(head, Encode32(n) + tail, 0);
    Decode32(n, tail);
  }

  lemma TimescaleRoundTrip(version: Byte, timescale: nat, rest: HeaderRest)
    requires timescale < WORD
    ensures Timescale(EncodeHeader(version, timescale, rest)) == timescale
  {
    var payload := EncodeHeader(version, timescale, rest);
    assert payload[0] == version;
    if version == 1 {
      var head, tail := [version, 0, 0, 0] + Encode64(rest.created) + Encode64(rest.modified),
                        Encode64(rest.duration) + rest.tail;
      assert payload == head + Encode32(timescale) + tail;
      WordAt(head, timescale, tail);
    } else {
      var head, tail := [version, 0, 0, 0] + Encode32(rest.created) + Encode32(rest.modified),
                        Encode32(rest.duration) + rest.tail;
      assert payload == head + Encode32(timescale) + tail;
      WordAt(head, timescale, tail);
    }
  }

  lemma FirstLeaf(track: Track, leaf: Leaf, rest: seq<Leaf>)
    ensures WithLeaves(track, [leaf] + rest) == WithLeaves(WithLeaf(track, leaf), rest)
  {
    assert ([leaf] + rest)[1..] == rest;
  }

  /** A box sets one table of a track and nothing else. */
  ghost predicate Sets(box: Leaf, table: Track -> Track) {
    forall track: Track :: WithLeaf(track, box) == table(track)
  }

  lemma SevenTables(t: Track, a: Leaf, b: Leaf, c: Leaf, d: Leaf, e: Leaf, f: Leaf, g: Leaf)
    requires Sets(a, (track: Track) => track.(timescale := t.timescale))
    requires Sets(b, (track: Track) => track.(stts := t.stts))
    requires Sets(c, (track: Track) => track.(ctts := t.ctts))
    requires Sets(d, (track: Track) => track.(stss := t.stss))
    requires Sets(e, (track: Track) => track.(stsz := t.stsz))
    requires Sets(f, (track: Track) => track.(stsc := t.stsc))
    requires Sets(g, (track: Track) => track.(chunkOffsets := t.chunkOffsets))
    ensures WithLeaves(NO_TABLES, [a, b, c, d, e, f, g]) == t
  {
    SevenLeaves(NO_TABLES, a, b, c, d, e, f, g);
  }

  lemma SevenLeaves(track: Track, a: Leaf, b: Leaf, c: Leaf, d: Leaf, e: Leaf, f: Leaf, g: Leaf)
    ensures WithLeaves(track, [a, b, c, d, e, f, g])
         == WithLeaf(WithLeaf(WithLeaf(WithLeaf(WithLeaf(WithLeaf(WithLeaf(track, a), b), c), d), e), f), g)
  {
    ThreeLeaves(track, a, b, c, [d, e, f, g]);
    var t := WithLeaf(WithLeaf(WithLeaf(track, a), b), c);
    ThreeLeaves(t, d, e, f, [g]);
    assert [a, b, c, d, e, f, g] == [a, b, c] + [d, e, f, g] && [d, e, f, g] == [d, e, f] + [g];
    FirstLeaf(WithLeaf(WithLeaf(WithLeaf(t, d), e), f), g, []);
    assert [g] + [] == [g];
  }

  lemma ThreeLeaves(track: Track, a: Leaf, b: Leaf, c: Leaf, rest: seq<Leaf>)
    ensures WithLeaves(track, [a, b, c] + rest) == WithLeaves(WithLeaf(WithLeaf(WithLeaf(track, a), b), c), rest)
  {
    assert [a, b, c] + rest == [a] + ([b] + ([c] + rest));
    FirstLeaf(track, a, [b] + ([c] + rest));
    FirstLeaf(WithLeaf(track, a), b, [c] + rest);
    FirstLeaf(WithLeaf(WithLeaf(track, a), b), c, rest);
  }

  lemma HeaderDecodes(t: Track, form: Form, rest: HeaderRest, box: Leaf)
    requires Encodable(t, form) && box == Leaf(MDHD, EncodeHeader(form.header, t.timescale, rest))
    ensures Sets(box, (track: Track) => track.(timescale := t.timescale))
  {
    LeafNames();
    TimescaleRoundTrip(form.header, t.timescale, rest);
  }

  lemma TimesDecode(t: Track, form: Form, box: Leaf)
    requires Encodable(t, form) && box == Leaf(STTS, EncodeTable(0, t.stts, EncodeTime()))
    ensures Sets(box, (track: Track) => track.(stts := t.stts))
  {
    LeafNames();
    TimesCode(t.stts, false);
    TableRoundTrip(0, t.stts, 8, EncodeTime(), DecodeTimeRun(false));
  }

  lemma OffsetsDecode(t: Track, form: Form, box: Leaf)
    requires Encodable(t, form) && box == Leaf(CTTS, EncodeTable(form.offsets, t.ctts, EncodeTime()))
    ensures Sets(box, (track: Track) => track.(ctts := t.ctts))
  {
    LeafNames();
    TimesCode(t.ctts, form.offsets == 1);
    TableRoundTrip(form.offsets, t.ctts, 8, EncodeTime(), DecodeTimeRun(form.offsets == 1));
  }

  lemma SyncDecodes(t: Track, form: Form, box: Leaf)
    requires Encodable(t, form) && box == Leaf(STSS, EncodeTable(0, t.stss, EncodeWord()))
    ensures Sets(box, (track: Track) => track.(stss := t.stss))
  {
    LeafNames();
    WordsCode(t.stss);
    TableRoundTrip(0, t.stss, 4, EncodeWord(), DecodeWord());
  }

  lemma SizesDecode(t: Track, form: Form, box: Leaf)
    requires Encodable(t, form) && box == Leaf(STSZ, EncodeSizes(t.stsz))
    ensures Sets(box, (track: Track) => track.(stsz := t.stsz))
  {
    LeafNames();
    SizesRoundTrip(t.stsz);
  }

  lemma RunsDecode(t: Track, form: Form, box: Leaf)
    requires Encodable(t, form) && box == Leaf(STSC, EncodeTable(0, t.stsc, EncodeRun()))
    ensures Sets(box, (track: Track) => track.(stsc := t.stsc))
  {
    LeafNames();
    RunsCode(t.stsc);
    TableRoundTrip(0, t.stsc, 12, EncodeRun(), DecodeRun());
  }

  /** 32-bit and 64-bit chunk offsets. */
  lemma ChunksDecode(t: Track, form: Form, box: Leaf)
    requires Encodable(t, form) && box == ChunkBox(t, form)
    ensures Sets(box, (track: Track) => track.(chunkOffsets := t.chunkOffsets))
  {
    if form.longChunks {
      LongChunksDecode(t.chunkOffsets, box);
    } else {
      ShortChunksDecode(t.chunkOffsets, box);
    }
  }

  lemma LongChunksDecode(offsets: seq<nat>, box: Leaf)
    requires |offsets| < WORD && forall v <- offsets :: v < WORD * WORD
    requires box == Leaf(CO64, EncodeTable(0, offsets, EncodeLong()))
    ensures Sets(box, (track: Track) => track.(chunkOffsets := offsets))
  {
    LeafNames();
    LongsCode(offsets);
    TableRoundTrip(0, offsets, 8, EncodeLong(), DecodeLong());
  }

  lemma ShortChunksDecode(offsets: seq<nat>, box: Leaf)
    requires |offsets| < WORD && forall v <- offsets :: v < WORD
    requires box == Leaf(STCO, EncodeTable(0, offsets, EncodeWord()))
    ensures Sets(box, (track: Track) => track.(chunkOffsets := offsets))
  {
    LeafNames();
    WordsCode(offsets);
    TableRoundTrip(0, offsets, 4, EncodeWord(), DecodeWord());
  }

  /** A track's tables survive being written as leaf boxes, in any form, and parsed again. */
  lemma TrackRoundTrip(t: Track, form: Form, rest: HeaderRest)
    requires Encodable(t, form)
    ensures WithLeaves(NO_TABLES, EncodeTrack(t, form, rest)) == t
  {
    var boxes := EncodeTrack(t, form, rest);
    HeaderDecodes(t, form, rest, boxes[0]);
    TimesDecode(t, form, boxes[1]);
    OffsetsDecode(t, form, boxes[2]);
    SyncDecodes(t, form, boxes[3]);
    SizesDecode(t, form, boxes[4]);
    RunsDecode(t, form, boxes[5]);
    ChunksDecode(t, form, boxes[6]);
    SevenTables(t, boxes[0], boxes[1], boxes[2], boxes[3], boxes[4], boxes[5], boxes[6]);
    assert boxes == [boxes[0], boxes[1], boxes[2], boxes[3], boxes[4], boxes[5], boxes[6]];
  }
}
