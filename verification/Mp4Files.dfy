/** What a file of boxes says, read off the format (section 4.2 of ISO/IEC 14496-12): a tree of
    boxes stands in the bytes, and the walk accepts a file exactly when one does, and finds it. */
module Mp4Files {
  import opened Ordering
  import opened Mp4Boxes
  import opened Mp4Samples
  import opened Mp4Tables

  /** A 32-bit size, a 64-bit one after it, or none: the box reaches to the end of its parent. */
  datatype SizeForm = Short | Long | ToEnd

  /** Sibling boxes: data, or a nest of `size` bytes of boxes; then the boxes after it. */
  datatype Tree =
    | End
    | Data(fourcc: FourCc, form: SizeForm, payload: seq<Byte>, next: Tree)
    | Nest(fourcc: FourCc, form: SizeForm, size: nat, inner: Tree, next: Tree)

  function HeaderSize(form: SizeForm): nat { if form.Long? then 16 else 8 }

  /** The header of a box whose body has `size` bytes stands at `lo`, and the body after it ends
      inside its parent, which ends at `hi`. */
  predicate Headed(file: seq<Byte>, lo: nat, hi: nat, fourcc: FourCc, form: SizeForm, size: nat) {
    && lo + HeaderSize(form) + size <= hi <= |file| && U32(file, lo + 4) == fourcc
    && match form
       case Short => U32(file, lo) == 8 + size
       case Long => U32(file, lo) == 1 && U64(file, lo + 8) == 16 + size
       case ToEnd => U32(file, lo) == 0 && lo + 8 + size == hi
  }

  /** A tree of boxes fills the bytes between two offsets, but for less than a header at the end.
      Tracks and containers nest; other boxes hold data. */
  predicate Written(file: seq<Byte>, lo: nat, hi: nat, tree: Tree)
    decreases tree
  {
    match tree
    case End => hi < lo + 8
    case Data(fourcc, form, payload, next) =>
      var start := lo + HeaderSize(form);
      && !Nests(KindOf(fourcc)) && Headed(file, lo, hi, fourcc, form, |payload|)
      && file[start..start + |payload|] == payload && Written(file, start + |payload|, hi, next)
    case Nest(fourcc, form, size, inner, next) =>
      var start := lo + HeaderSize(form);
      && Nests(KindOf(fourcc)) && Headed(file, lo, hi, fourcc, form, size)
      && Written(file, start, start + size, inner) && Written(file, start + size, hi, next)
  }

  /** What a tree adds to what has been found: each track box opens a track, and data inside it
      goes there; outside tracks only the brands are kept. */
  function FoundIn(tree: Tree, track: Option<nat>, found: Found): (after: Found)
    requires track.Some? ==> track.value < |found.tracks|
    ensures |found.tracks| <= |after.tracks|
  {
    match tree
    case End => found
    case Data(fourcc, _, payload, next) => FoundIn(next, track, WithData(fourcc, payload, track, found))
    case Nest(fourcc, _, _, inner, next) =>
      FoundIn(next, track,
              if KindOf(fourcc).TrackBox?
              then FoundIn(inner, Some(|found.tracks|), found.(tracks := found.tracks + [[]]))
              else FoundIn(inner, track, found))
  }

  function WithData(fourcc: FourCc, payload: seq<Byte>, track: Option<nat>, found: Found): (after: Found)
    requires track.Some? ==> track.value < |found.tracks|
    ensures |after.tracks| == |found.tracks|
  {
    if KindOf(fourcc).FileType? then found.(brands := Some(payload))
    else if track.None? then found
    else found.(tracks := found.tracks[track.value := found.tracks[track.value] + [Leaf(fourcc, payload)]])
  }

  // ------------------------------------------------------------------ one box

  lemma HeaderReadsBack(file: seq<Byte>, lo: nat, hi: nat, fourcc: FourCc, form: SizeForm, size: nat)
    requires Headed(file, lo, hi, fourcc, form, size)
    ensures var start := lo + HeaderSize(form);
            ReadHeader(file, lo, hi) == Mp4Boxes.Header.Header(fourcc, start, start + size)
  {
  }

  // -------------------------------------------------------------- the whole tree

  lemma ParseStep(file: seq<Byte>, lo: nat, hi: nat, fourcc: FourCc, form: SizeForm, size: nat)
    requires Headed(file, lo, hi, fourcc, form, size)
    requires var start := lo + HeaderSize(form);
             && (Nests(KindOf(fourcc)) ==> Parse(file, start, start + size).Some?)
             && Parse(file, start + size, hi).Some?
    ensures Parse(file, lo, hi).Some?
  {
    HeaderReadsBack(file, lo, hi, fourcc, form, size);
  }

  /** The walk accepts every tree that stands between two offsets. */
  lemma {:induction false} WrittenParses(file: seq<Byte>, lo: nat, hi: nat, tree: Tree)
    requires hi <= |file| && Written(file, lo, hi, tree)
    ensures Parse(file, lo, hi).Some?
    decreases tree, 1
  {
    if tree.Data? {
      DataParses(file, lo, hi, tree);
    } else if tree.Nest? {
      NestParses(file, lo, hi, tree);
    }
  }

  lemma {:induction false} DataParses(file: seq<Byte>, lo: nat, hi: nat, tree: Tree)
    requires hi <= |file| && tree.Data? && Written(file, lo, hi, tree)
    ensures Parse(file, lo, hi).Some?
    decreases tree, 0
  {
    WrittenParses(file, lo + HeaderSize(tree.form) + |tree.payload|, hi, tree.next);
    ParseStep(file, lo, hi, tree.fourcc, tree.form, |tree.payload|);
  }

  lemma {:induction false} NestParses(file: seq<Byte>, lo: nat, hi: nat, tree: Tree)
    requires hi <= |file| && tree.Nest? && Written(file, lo, hi, tree)
    ensures Parse(file, lo, hi).Some?
    decreases tree, 0
  {
    var start := lo + HeaderSize(tree.form);
    WrittenParses(file, start, start + tree.size, tree.inner);
    WrittenParses(file, start + tree.size, hi, tree.next);
    ParseStep(file, lo, hi, tree.fourcc, tree.form, tree.size);
  }

  /** The tree that an accepted file holds. */
  function TreeOf(file: seq<Byte>, boxes: Boxes): Tree
    requires WellNestedIn(file, boxes)
  {
    match boxes
    case Done => End
    case Box(fourcc, start, payload, end, inner, next) =>
      var form := if payload == start + 16 then Long else if U32At(file, start) == 0 then ToEnd else Short;
      if Nests(KindOf(fourcc)) then Nest(fourcc, form, end - payload, TreeOf(file, inner), TreeOf(file, next))
      else Data(fourcc, form, file[payload..end], TreeOf(file, next))
  }

  function U32At(file: seq<Byte>, offset: nat): nat { if offset + 4 <= |file| then U32(file, offset) else 0 }

  /** Every accepted file holds a tree. */
  lemma {:induction false} ParsedIsWritten(file: seq<Byte>, lo: nat, hi: nat)
    requires hi <= |file| && Parse(file, lo, hi).Some?
    ensures WellNestedIn(file, Parse(file, lo, hi).value)
    ensures Written(file, lo, hi, TreeOf(file, Parse(file, lo, hi).value))
    decreases hi - lo
  {
    if lo + 8 <= hi {
      var h := ReadHeader(file, lo, hi);
      if Nests(KindOf(h.fourcc)) {
        ParsedIsWritten(file, h.payload, h.end);
      }
      ParsedIsWritten(file, h.end, hi);
    }
  }

  /** A header stands in one form only, with one size. */
  lemma HeadedOnce(file: seq<Byte>, lo: nat, hi: nat, a: FourCc, form: SizeForm, size: nat, b: FourCc, form': SizeForm,
                   size': nat)
    requires Headed(file, lo, hi, a, form, size) && Headed(file, lo, hi, b, form', size')
    ensures a == b && form == form' && size == size'
  {
  }

  /** No two trees stand in the same bytes. */
  lemma {:induction false} WrittenOnce(file: seq<Byte>, lo: nat, hi: nat, a: Tree, b: Tree)
    requires Written(file, lo, hi, a) && Written(file, lo, hi, b)
    ensures a == b
    decreases a, 1
  {
    if a.Data? && b.Data? {
      SameData(file, lo, hi, a, b);
    } else if a.Nest? && b.Nest? {
      SameNest(file, lo, hi, a, b);
    }
  }

  lemma {:induction false} SameData(file: seq<Byte>, lo: nat, hi: nat, a: Tree, b: Tree)
    requires a.Data? && b.Data? && Written(file, lo, hi, a) && Written(file, lo, hi, b)
    ensures a == b
    decreases a, 0
  {
    HeadedOnce(file, lo, hi, a.fourcc, a.form, |a.payload|, b.fourcc, b.form, |b.payload|);
    WrittenOnce(file, lo + HeaderSize(a.form) + |a.payload|, hi, a.next, b.next);
  }

  lemma {:induction false} SameNest(file: seq<Byte>, lo: nat, hi: nat, a: Tree, b: Tree)
    requires a.Nest? && b.Nest? && Written(file, lo, hi, a) && Written(file, lo, hi, b)
    ensures a == b
    decreases a, 0
  {
    HeadedOnce(file, lo, hi, a.fourcc, a.form, a.size, b.fourcc, b.form, b.size);
    var start := lo + HeaderSize(a.form);
    WrittenOnce(file, start, start + a.size, a.inner, b.inner);
    WrittenOnce(file, start + a.size, hi, a.next, b.next);
  }

  /** A tree fills the bytes of a file between two offsets. */
  predicate Fills(tree: Tree, file: seq<Byte>, lo: nat, hi: nat) { Written(file, lo, hi, tree) }

  /** The walk accepts the bytes between two offsets exactly when a tree of boxes stands there,
      and then one tree only. */
  lemma AcceptedExactly(file: seq<Byte>, lo: nat, hi: nat)
    requires hi <= |file|
    ensures Parse(file, lo, hi).Some? <==> exists tree :: Fills(tree, file, lo, hi)
    ensures forall a, b | Fills(a, file, lo, hi) && Fills(b, file, lo, hi) :: a == b
  {
    if Parse(file, lo, hi).Some? {
      ParsedIsWritten(file, lo, hi);
      assert Fills(TreeOf(file, Parse(file, lo, hi).value), file, lo, hi);
    }
    forall tree | Fills(tree, file, lo, hi) ensures Parse(file, lo, hi).Some? {
      WrittenParses(file, lo, hi, tree);
    }
    forall a, b | Fills(a, file, lo, hi) && Fills(b, file, lo, hi) ensures a == b {
      WrittenOnce(file, lo, hi, a, b);
    }
  }

  /** The walk collects what the tree holds. */
  lemma {:induction false} TreeCollected(file: seq<Byte>, boxes: Boxes, track: Option<nat>, found: Found)
    requires WellNestedIn(file, boxes) && (track.Some? ==> track.value < |found.tracks|)
    ensures Collect(file, boxes, track, found) == FoundIn(TreeOf(file, boxes), track, found)
  {
    if boxes.Box? {
      var begun := found.(tracks := found.tracks + [[]]);
      match KindOf(boxes.fourcc)
      case TrackBox =>
        TreeCollected(file, boxes.inner, Some(|found.tracks|), begun);
        TreeCollected(file, boxes.next, track, Collect(file, boxes.inner, Some(|found.tracks|), begun));
      case Container =>
        TreeCollected(file, boxes.inner, track, found);
        TreeCollected(file, boxes.next, track, Collect(file, boxes.inner, track, found));
      case _ =>
        TreeCollected(file, boxes.next, track, WithData(boxes.fourcc, file[boxes.payload..boxes.end], track, found));
    }
  }

  /** A file that a tree fills is accepted, and what is found is what the tree holds. */
  lemma FileMeaning(file: seq<Byte>, tree: Tree)
    requires Written(file, 0, |file|, tree)
    ensures Parse(file, 0, |file|).Some?
    ensures WellNestedIn(file, Parse(file, 0, |file|).value)
    ensures Collect(file, Parse(file, 0, |file|).value, None, Found(None, []))
         == FoundIn(tree, None, Found(None, []))
  {
    WrittenParses(file, 0, |file|, tree);
    ParsedIsWritten(file, 0, |file|);
    var boxes := Parse(file, 0, |file|).value;
    WrittenOnce(file, 0, |file|, tree, TreeOf(file, boxes));
    TreeCollected(file, boxes, None, Found(None, []));
  }

  // ------------------------------------------------------- a track in its file

  /** The data of a tree, in file order. */
  function LeavesIn(tree: Tree): seq<Leaf> {
    match tree
    case End => []
    case Data(fourcc, _, payload, next) => [Leaf(fourcc, payload)] + LeavesIn(next)
    case Nest(_, _, _, inner, next) => LeavesIn(inner) + LeavesIn(next)
  }

  /** No track opens and no brands stand in a tree. */
  predicate Plain(tree: Tree) {
    match tree
    case End => true
    case Data(fourcc, _, _, next) => KindOf(fourcc).Other? && Plain(next)
    case Nest(fourcc, _, _, inner, next) => KindOf(fourcc).Container? && Plain(inner) && Plain(next)
  }

  function WithMore(found: Found, track: nat, leaves: seq<Leaf>): Found
    requires track < |found.tracks|
  {
    found.(tracks := found.tracks[track := found.tracks[track] + leaves])
  }

  lemma MoreAndMore(found: Found, track: nat, a: seq<Leaf>, b: seq<Leaf>)
    requires track < |found.tracks|
    ensures WithMore(WithMore(found, track, a), track, b) == WithMore(found, track, a + b)
    ensures WithMore(found, track, []) == found
  {
    Regroup(found.tracks[track], a, b);
    assert found.tracks[track] + [] == found.tracks[track];
    assert found.tracks[track := found.tracks[track]] == found.tracks;
  }

  /** Inside a track all data goes to it; outside none is kept. */
  lemma {:induction false} PlainTree(tree: Tree, track: nat, found: Found)
    requires Plain(tree) && track < |found.tracks|
    ensures FoundIn(tree, Some(track), found) == WithMore(found, track, LeavesIn(tree))
  {
    match tree
    case End => MoreAndMore(found, track, [], []);
    case Data(fourcc, _, payload, next) =>
      PlainTree(next, track, WithMore(found, track, [Leaf(fourcc, payload)]));
      MoreAndMore(found, track, [Leaf(fourcc, payload)], LeavesIn(next));
    case Nest(_, _, _, inner, next) =>
      PlainTree(inner, track, found);
      PlainTree(next, track, WithMore(found, track, LeavesIn(inner)));
      MoreAndMore(found, track, LeavesIn(inner), LeavesIn(next));
  }

  lemma {:induction false} PlainOutside(tree: Tree, found: Found)
    requires Plain(tree)
    ensures FoundIn(tree, None, found) == found
  {
    match tree
    case End =>
    case Data(_, _, _, next) => PlainOutside(next, found);
    case Nest(_, _, _, inner, next) =>
      PlainOutside(inner, found);
      PlainOutside(next, found);
  }

  /** A movie of one track: its brands, the movie box with the track box, and other boxes. */
  function Movie(brands: seq<Byte>, sizes: (nat, nat), forms: (SizeForm, SizeForm, SizeForm), track: Tree,
                 rest: Tree): Tree {
    Data(FTYP, forms.0, brands, Nest(MOOV, forms.1, sizes.0, Nest(TRAK, forms.2, sizes.1, track, End), rest))
  }

  /** From the tables of a track to the bytes of a file and back: wherever in the track box the
      tables' boxes stand, nested in whatever containers and with sizes given in whatever form,
      the walk and the table parsers give the tables back. */
  lemma MovieRoundTrip(file: seq<Byte>, brands: seq<Byte>, sizes: (nat, nat),
                       forms: (SizeForm, SizeForm, SizeForm), track: Tree, rest: Tree, t: Track, form: Form,
                       header: HeaderRest)
    requires Encodable(t, form) && Plain(track) && Plain(rest) && LeavesIn(track) == EncodeTrack(t, form, header)
    requires Written(file, 0, |file|, Movie(brands, sizes, forms, track, rest))
    ensures Parse(file, 0, |file|).Some? && WellNestedIn(file, Parse(file, 0, |file|).value)
    ensures var found := Collect(file, Parse(file, 0, |file|).value, None, Found(None, []));
            found.brands == Some(brands) && |found.tracks| == 1 && WithLeaves(NO_TABLES, found.tracks[0]) == t
  {
    FileMeaning(file, Movie(brands, sizes, forms, track, rest));
    MovieFound(brands, sizes, forms, track, rest);
    TrackRoundTrip(t, form, header);
  }

  lemma MovieFound(brands: seq<Byte>, sizes: (nat, nat), forms: (SizeForm, SizeForm, SizeForm), track: Tree,
                   rest: Tree)
    requires Plain(track) && Plain(rest)
    ensures FoundIn(Movie(brands, sizes, forms, track, rest), None, Found(None, []))
         == Found(Some(brands), [LeavesIn(track)])
  {
    var begun := Found(Some(brands), [[]]);
    assert [] + [[]] == begun.tracks;
    PlainTree(track, 0, begun);
    assert WithMore(begun, 0, LeavesIn(track)) == Found(Some(brands), [LeavesIn(track)]) by {
      assert [] + LeavesIn(track) == LeavesIn(track);
    }
    PlainOutside(rest, Found(Some(brands), [LeavesIn(track)]));
    assert FoundIn(Nest(TRAK, forms.2, sizes.1, track, End), None, Found(Some(brands), []))
           == FoundIn(track, Some(0), begun);
  }
}
