/** Reclaiming the chunk rows of writes that died before their header: any number of
    compactors beside any number of writers, one writer per plan id. */
module OrphanReclaim {
  import opened Ordering

  /** A chunk row: its plan, its place in it, and when it was sealed. */
  datatype Chunk = Chunk(plan: int, index: nat, created: int)

  // ------------------------------------------------------------ one compaction

  /** The plans with chunk rows but no known header, every row older than the cutoff. */
  function Reclaimable(chunks: seq<Chunk>, known: set<int>, cutoff: int): set<int> {
    set c | c in chunks && c.plan !in known && AllOlder(chunks, c.plan, cutoff) :: c.plan
  }

  predicate AllOlder(chunks: seq<Chunk>, plan: int, cutoff: int) {
    forall c <- chunks :: c.plan == plan ==> c.created < cutoff
  }

  /** The newest row's age per plan without a known header. */
  ghost predicate NewestAges(ages: map<int, int>, chunks: seq<Chunk>, known: set<int>) {
    && (forall c <- chunks :: c.plan !in known ==> c.plan in ages && c.created <= ages[c.plan])
    && (forall p <- ages :: p !in known && exists c <- chunks :: c.plan == p && c.created == ages[p])
  }

  method OrphanAges(chunks: seq<Chunk>, known: set<int>) returns (ages: map<int, int>)
    ensures NewestAges(ages, chunks, known)
  {
    ages := map[];
    for i := 0 to |chunks|
      invariant NewestAges(ages, chunks[..i], known)
    {
      var c := chunks[i];
      assert chunks[..i + 1] == chunks[..i] + [c];
      if c.plan !in known && (c.plan !in ages || c.created > ages[c.plan]) {
        ages := ages[c.plan := c.created];
      }
    }
    assert chunks[..|chunks|] == chunks;
  }

  lemma AgesReclaim(ages: map<int, int>, chunks: seq<Chunk>, known: set<int>, cutoff: int)
    requires NewestAges(ages, chunks, known)
    ensures (set p | p in ages && ages[p] < cutoff) == Reclaimable(chunks, known, cutoff)
  {
    forall p | p in ages ensures ages[p] < cutoff <==> p in Reclaimable(chunks, known, cutoff) {
      var c :| c in chunks && c.plan == p && c.created == ages[p];
      assert ages[p] < cutoff ==> AllOlder(chunks, p, cutoff);
    }
  }

  lemma AgesSplit(ages: map<int, int>, chunks: seq<Chunk>, known: set<int>, cutoff: int)
    requires NewestAges(ages, chunks, known)
    ensures (set p | p in ages && ages[p] < cutoff) + (set p | p in ages && ages[p] >= cutoff) == Unknown(chunks, known)
  {
    forall p | p in ages ensures p in Unknown(chunks, known) {
      var c :| c in chunks && c.plan == p && c.created == ages[p];
    }
  }

  /** The plans without a known header, by whether all their rows are older than the cutoff. */
  method AgedOut(chunks: seq<Chunk>, known: set<int>, cutoff: int) returns (orphans: set<int>, inFlight: set<int>)
    ensures orphans == Reclaimable(chunks, known, cutoff) && orphans !! known
    ensures orphans !! inFlight && orphans + inFlight == Unknown(chunks, known)
  {
    var ages := OrphanAges(chunks, known);
    AgesReclaim(ages, chunks, known, cutoff);
    AgesSplit(ages, chunks, known, cutoff);
    orphans := set p | p in ages && ages[p] < cutoff;
    inFlight := set p | p in ages && ages[p] >= cutoff;
  }

  /** The plans with rows but no known header. */
  function Unknown(chunks: seq<Chunk>, known: set<int>): set<int> { set c | c in chunks && c.plan !in known :: c.plan }

  /** What a compaction leaves of plans without a header is still inside the window. */
  lemma OrphanRowsGo(chunks: seq<Chunk>, known: set<int>, cutoff: int)
    ensures Reclaimable(Filter(chunks, NotOf(Reclaimable(chunks, known, cutoff))), known, cutoff) == {}
  {
    var left := Filter(chunks, NotOf(Reclaimable(chunks, known, cutoff)));
    forall c | c in left && c.plan !in known ensures !AllOlder(left, c.plan, cutoff) {
      assert c in chunks && NotOf(Reclaimable(chunks, known, cutoff))(c);
      var d :| d in chunks && d.plan == c.plan && d.created >= cutoff;
      assert NotOf(Reclaimable(chunks, known, cutoff))(d) && d in left;
    }
  }

  function NotOf(plans: set<int>): Chunk -> bool { (c: Chunk) => c.plan !in plans }

  class Catalog {
    var chunks: seq<Chunk>
    var headers: set<int>

    /** One compaction with nobody else at work: it removes every row of every aged-out orphan
        and no other row, and leaves no aged-out orphan; a dry run removes nothing and reports
        the same plans. */
    method CompactRowPlanChunks(now: int, grace: int, dryRun: bool) returns (orphans: set<int>, inFlight: set<int>)
      modifies this`chunks
      ensures orphans == Reclaimable(old(chunks), headers, now - grace)
      ensures orphans !! inFlight && orphans + inFlight == Unknown(old(chunks), headers)
      ensures chunks == if dryRun then old(chunks) else Filter(old(chunks), NotOf(orphans))
      ensures !dryRun ==> Reclaimable(chunks, headers, now - grace) == {}
    {
      OrphanRowsGo(chunks, headers, now - grace);
      orphans, inFlight := AgedOut(chunks, headers, now - grace);
      if orphans != {} && !dryRun {
        var publishedSince := headers;
        var raced := orphans * publishedSince;
        assert raced == {} && orphans - raced == orphans && inFlight + raced == inFlight;
        orphans, inFlight := orphans - raced, inFlight + raced;
        chunks := Filter(chunks, NotOf(orphans));
      } else if !dryRun {
        FilterAll(chunks, NotOf(orphans));
      }
    }
  }

  // -------------------------------------------------------------- all together

  /** A plan's writer: chunks first, then the header; or it dies. */
  datatype Writer = Writing | Published | Dead

  datatype Compactor =
    | Began(cutoff: int)
    | HeadersRead(cutoff: int, known: set<int>)
    | Scanned(reclaimable: set<int>)
    | Checked(reclaimable: set<int>)
    | Stopped

  /** `history` holds every chunk row ever committed. */
  datatype State = State(
    now: int, chunks: seq<Chunk>, headers: set<int>, writers: map<int, Writer>, compactors: map<nat, Compactor>,
    history: set<Chunk>)

  datatype Step =
    | Tick(to: int)
    | Start(plan: int)
    | Commit(plan: int, batch: seq<Chunk>)
    | Publish(plan: int)
    | Die(plan: int)
    | Begin(k: nat)
    | ReadHeaders(k: nat)
    | ScanChunks(k: nat)
    | Recheck(k: nat)
    | Delete(k: nat, group: set<int>)
    | Stop(k: nat)

  predicate IsWriting(s: State, plan: int) { plan in s.writers && s.writers[plan].Writing? }

  ghost predicate Enabled(s: State, step: Step) {
    match step
    case Tick(to) => to >= s.now
    case Start(p) => p !in s.writers
    case Commit(p, batch) => IsWriting(s, p) && forall c <- batch :: c.plan == p && c.created <= s.now
    case Publish(p) => IsWriting(s, p)
    case Die(p) => IsWriting(s, p)
    case Begin(k) => k !in s.compactors
    case ReadHeaders(k) => k in s.compactors && s.compactors[k].Began?
    case ScanChunks(k) => k in s.compactors && s.compactors[k].HeadersRead?
    case Recheck(k) => k in s.compactors && s.compactors[k].Scanned?
    case Delete(k, group) => k in s.compactors && s.compactors[k].Checked? && group <= s.compactors[k].reclaimable
    case Stop(k) => k in s.compactors
  }

  function WithWriter(s: State, plan: int, w: Writer): State { s.(writers := s.writers[plan := w]) }

  function WithCompactor(s: State, k: nat, c: Compactor): State { s.(compactors := s.compactors[k := c]) }

  ghost function Take(s: State, step: Step, grace: nat): State
    requires Enabled(s, step)
  {
    match step
    case Tick(to) => s.(now := to)
    case Start(p) => WithWriter(s, p, Writing)
    case Commit(p, batch) => s.(chunks := s.chunks + batch, history := s.history + set c <- batch)
    case Publish(p) => WithWriter(s, p, Published).(headers := s.headers + {p})
    case Die(p) => WithWriter(s, p, Dead)
    case Begin(k) => WithCompactor(s, k, Began(s.now - grace))
    case ReadHeaders(k) => WithCompactor(s, k, HeadersRead(s.compactors[k].cutoff, s.headers))
    case ScanChunks(k) =>
      WithCompactor(s, k, Scanned(Reclaimable(s.chunks, s.compactors[k].known, s.compactors[k].cutoff)))
    case Recheck(k) => WithCompactor(s, k, Checked(s.compactors[k].reclaimable - s.headers))
    case Delete(k, group) =>
      WithCompactor(s, k, Checked(s.compactors[k].reclaimable - group)).(chunks := Filter(s.chunks, NotOf(group)))
    case Stop(k) => WithCompactor(s, k, Stopped)
  }

  ghost function Outcome(s: State, steps: seq<Step>, grace: nat): State
    decreases |steps|
  {
    if steps == [] then s
    else if Enabled(s, steps[0]) then Outcome(Take(s, steps[0], grace), steps[1..], grace)
    else Outcome(s, steps[1..], grace)
  }

  /** No committed chunk of a published plan is gone. */
  ghost predicate NothingLost(s: State) {
    forall c <- s.history :: c.plan in s.headers ==> c in s.chunks
  }

  /** Every plan that has rows or a header has, or had, a writer; and rows go missing only from
      plans whose writer died. */
  ghost predicate Coherent(s: State) {
    && (forall p :: p in s.headers <==> p in s.writers && s.writers[p].Published?)
    && (forall c <- s.history :: c.plan in s.writers && (!s.writers[c.plan].Dead? ==> c in s.chunks))
    && (forall c <- s.chunks :: c in s.history)
  }

  /** A compactor about to delete holds plans of dead writers only. */
  ghost predicate Harmless(s: State) {
    forall k <- s.compactors ::
      && (s.compactors[k].Scanned? ==> forall p <- s.compactors[k].reclaimable :: p in s.writers)
      && (s.compactors[k].Checked? ==> forall p <- s.compactors[k].reclaimable :: p in s.writers && s.writers[p].Dead?)
  }

  /** When a compactor re-reads the headers, each writer whose rows it saw all aged out has
      published or died. */
  ghost predicate PromptStep(s: State, step: Step) {
    step.Recheck? && Enabled(s, step) ==> forall p <- s.compactors[step.k].reclaimable :: !IsWriting(s, p)
  }

  ghost predicate Prompt(s: State, steps: seq<Step>, grace: nat)
    decreases |steps|
  {
    steps == [] ||
    if Enabled(s, steps[0]) then PromptStep(s, steps[0]) && Prompt(Take(s, steps[0], grace), steps[1..], grace)
    else Prompt(s, steps[1..], grace)
  }

  lemma CoherentLosesNothing(s: State)
    requires Coherent(s)
    ensures NothingLost(s)
  {
  }

  lemma StepStaysCoherent(s: State, step: Step, grace: nat)
    requires Coherent(s) && Harmless(s) && Enabled(s, step)
    ensures Coherent(Take(s, step, grace))
  {
    match step {
      case Delete(k, group) =>
        var t := Take(s, step, grace);
        forall c | c in t.history && !t.writers[c.plan].Dead? ensures c in t.chunks {
          assert c.plan !in group;
          assert NotOf(group)(c);
        }
      case _ =>
    }
  }

  lemma StepStaysHarmless(s: State, step: Step, grace: nat)
    requires Coherent(s) && Harmless(s) && Enabled(s, step) && PromptStep(s, step)
    ensures Harmless(Take(s, step, grace))
  {
    var t := Take(s, step, grace);
    match step {
      case ScanChunks(k) =>
        forall p | p in t.compactors[k].reclaimable ensures p in t.writers {
          var c :| c in s.chunks && c.plan == p;
          assert c in s.history;
        }
      case Recheck(k) =>
        forall p | p in t.compactors[k].reclaimable ensures p in t.writers && t.writers[p].Dead? {
          assert p in s.compactors[k].reclaimable && p !in s.headers;
        }
      case _ =>
    }
  }

  lemma {:induction false} OutcomeStaysCoherent(s: State, steps: seq<Step>, grace: nat)
    requires Coherent(s) && Harmless(s) && Prompt(s, steps, grace)
    ensures Coherent(Outcome(s, steps, grace))
    decreases |steps|
  {
    if steps != [] {
      if Enabled(s, steps[0]) {
        StepStaysCoherent(s, steps[0], grace);
        StepStaysHarmless(s, steps[0], grace);
        OutcomeStaysCoherent(Take(s, steps[0], grace), steps[1..], grace);
      } else {
        OutcomeStaysCoherent(s, steps[1..], grace);
      }
    }
  }

  /** A start with no compactor at work: every plan with rows has published or is dead. */
  ghost predicate Initial(s: State) {
    && s.compactors == map[] && Coherent(s)
  }

  /** Over every interleaving of writers and compactors in which slow writers are prompt, no
      chunk of a plan whose header is ever published is deleted. */
  lemma ReclaimingIsSafe(s: State, steps: seq<Step>, grace: nat)
    requires Initial(s) && Prompt(s, steps, grace)
    ensures NothingLost(Outcome(s, steps, grace))
  {
    OutcomeStaysCoherent(s, steps, grace);
    CoherentLosesNothing(Outcome(s, steps, grace));
  }

  // ------------------------------------------------------------- the grace window

  /** Every writer in flight that has committed has a row younger than the grace window. */
  ghost predicate Fresh(s: State, grace: nat) {
    forall c <- s.history :: IsWriting(s, c.plan) ==> HasRecent(s.history, c.plan, s.now - grace)
  }

  predicate HasRecent(history: set<Chunk>, plan: int, since: int) {
    exists d <- history :: d.plan == plan && d.created >= since
  }

  ghost predicate AlwaysFresh(s: State, steps: seq<Step>, grace: nat)
    decreases |steps|
  {
    && Fresh(s, grace)
    && (steps == [] ||
        if Enabled(s, steps[0]) then AlwaysFresh(Take(s, steps[0], grace), steps[1..], grace)
        else AlwaysFresh(s, steps[1..], grace))
  }

  /** Cutoffs lie in the past, and no compactor has picked a plan whose writer is in flight. */
  ghost predicate Sparing(s: State, grace: nat) {
    forall k <- s.compactors ::
      && (s.compactors[k].Began? || s.compactors[k].HeadersRead? ==> s.compactors[k].cutoff <= s.now - grace)
      && (s.compactors[k].Scanned? ==>
            forall p <- s.compactors[k].reclaimable :: p in s.writers && !s.writers[p].Writing?)
  }

  lemma FreshAreSpared(s: State, known: set<int>, cutoff: int, grace: nat, p: int)
    requires Coherent(s) && Fresh(s, grace) && cutoff <= s.now - grace && p in Reclaimable(s.chunks, known, cutoff)
    ensures p in s.writers && !IsWriting(s, p)
  {
    var c :| c in s.chunks && c.plan == p && AllOlder(s.chunks, p, cutoff);
    assert c in s.history;
    if IsWriting(s, p) {
      RecentIsNotOlder(s, p, cutoff, grace);
    }
  }

  lemma RecentIsNotOlder(s: State, p: int, cutoff: int, grace: nat)
    requires Coherent(s) && HasRecent(s.history, p, s.now - grace) && cutoff <= s.now - grace && IsWriting(s, p)
    ensures !AllOlder(s.chunks, p, cutoff)
  {
    var d :| d in s.history && d.plan == p && d.created >= s.now - grace;
    assert d in s.chunks;
  }

  lemma StepStaysSparing(s: State, step: Step, grace: nat)
    requires Coherent(s) && Fresh(s, grace) && Sparing(s, grace) && Enabled(s, step)
    ensures Sparing(Take(s, step, grace), grace)
  {
    match step {
      case ScanChunks(k) =>
        forall p | p in Reclaimable(s.chunks, s.compactors[k].known, s.compactors[k].cutoff)
          ensures p in s.writers && !IsWriting(s, p)
        {
          FreshAreSpared(s, s.compactors[k].known, s.compactors[k].cutoff, grace, p);
        }
      case _ =>
    }
  }

  lemma {:induction false} FreshIsPrompt(s: State, steps: seq<Step>, grace: nat)
    requires Coherent(s) && Harmless(s) && Sparing(s, grace) && AlwaysFresh(s, steps, grace)
    ensures Prompt(s, steps, grace)
    decreases |steps|
  {
    if steps != [] {
      if Enabled(s, steps[0]) {
        assert PromptStep(s, steps[0]);
        StepStaysCoherent(s, steps[0], grace);
        StepStaysHarmless(s, steps[0], grace);
        StepStaysSparing(s, steps[0], grace);
        FreshIsPrompt(Take(s, steps[0], grace), steps[1..], grace);
      } else {
        FreshIsPrompt(s, steps[1..], grace);
      }
    }
  }

  /** The grace window does its work as long as a writer in flight always has a committed
      chunk younger than it. */
  lemma GraceWindowIsSafe(s: State, steps: seq<Step>, grace: nat)
    requires Initial(s) && AlwaysFresh(s, steps, grace)
    ensures NothingLost(Outcome(s, steps, grace))
  {
    FreshIsPrompt(s, steps, grace);
    ReclaimingIsSafe(s, steps, grace);
  }

  // ------------------------------------------------------------------ exactness

  /** The schedule that exploits a writer that is not prompt. */
  function Race(k: nat, p: int, reclaimable: set<int>): seq<Step> { [Recheck(k), Delete(k, reclaimable), Publish(p)] }

  /** Promptness is also needed: a compactor that re-reads the headers while a writer it found
      aged out is still in flight can delete that writer's rows before the publish. */
  lemma SlowWritersCanLose(s: State, k: nat, p: int, c: Chunk, grace: nat)
    requires Coherent(s) && k in s.compactors && s.compactors[k].Scanned?
    requires p in s.compactors[k].reclaimable && IsWriting(s, p) && c in s.history && c.plan == p
    ensures !NothingLost(Outcome(s, Race(k, p, s.compactors[k].reclaimable - s.headers), grace))
  {
    var group := s.compactors[k].reclaimable - s.headers;
    var steps := Race(k, p, group);
    var checked := Take(s, Recheck(k), grace);
    var deleted := Take(checked, Delete(k, group), grace);
    var end := Take(deleted, Publish(p), grace);
    assert steps[1..] == [Delete(k, group), Publish(p)] && steps[1..][1..] == [Publish(p)]
           && steps[1..][1..][1..] == [];
    assert p in group && c in end.history && p in end.headers;
    assert forall d <- end.chunks :: NotOf(group)(d);
    assert c !in end.chunks;
    assert Outcome(deleted, [Publish(p)], grace) == end;
    assert Outcome(checked, steps[1..], grace) == Outcome(deleted, [Publish(p)], grace);
    assert Outcome(s, steps, grace) == Outcome(checked, steps[1..], grace);
  }

  /** A whole compaction that starts now, and a publish in its wake. */
  function Attack(s: State, k: nat, p: int, grace: nat): seq<Step> {
    [Begin(k), ReadHeaders(k), ScanChunks(k)] + Race(k, p, Reclaimable(s.chunks, s.headers, s.now - grace) - s.headers)
  }

  function PickedBy(s: State, k: nat, grace: nat): State {
    WithCompactor(s, k, Scanned(Reclaimable(s.chunks, s.headers, s.now - grace)))
  }

  lemma ScansUp(s: State, k: nat, rest: seq<Step>, grace: nat)
    requires k !in s.compactors
    ensures Outcome(s, [Begin(k), ReadHeaders(k), ScanChunks(k)] + rest, grace)
            == Outcome(PickedBy(s, k, grace), rest, grace)
  {
    var s1 := Take(s, Begin(k), grace);
    var s2 := Take(s1, ReadHeaders(k), grace);
    var s3 := Take(s2, ScanChunks(k), grace);
    assert s3.compactors == PickedBy(s, k, grace).compactors;
    assert s3 == PickedBy(s, k, grace);
    StepOne(s2, ScanChunks(k), rest, grace);
    StepOne(s1, ReadHeaders(k), [ScanChunks(k)] + rest, grace);
    StepOne(s, Begin(k), [ReadHeaders(k)] + ([ScanChunks(k)] + rest), grace);
    assert [Begin(k), ReadHeaders(k), ScanChunks(k)] + rest
           == [Begin(k)] + ([ReadHeaders(k)] + ([ScanChunks(k)] + rest));
  }

  /** A writer in flight whose newest committed row has aged out can lose its rows. */
  lemma AgedWriterCanLose(s: State, k: nat, c: Chunk, grace: nat)
    requires Coherent(s) && k !in s.compactors && c in s.history && IsWriting(s, c.plan)
    requires !HasRecent(s.history, c.plan, s.now - grace)
    ensures !NothingLost(Outcome(s, Attack(s, k, c.plan, grace), grace))
  {
    var picked, reclaimable := PickedBy(s, k, grace), Reclaimable(s.chunks, s.headers, s.now - grace);
    assert c in s.chunks && AllOlder(s.chunks, c.plan, s.now - grace);
    assert c.plan in reclaimable;
    ScansUp(s, k, Race(k, c.plan, reclaimable - s.headers), grace);
    SlowWritersCanLose(picked, k, c.plan, c, grace);
  }

  lemma {:induction false} SomeId(taken: set<nat>) returns (k: nat)
    ensures k !in taken && forall j <- taken :: j < k
  {
    if taken == {} {
      k := 0;
    } else {
      var x :| x in taken;
      var k' := SomeId(taken - {x});
      k := if x < k' then k' else x + 1;
      forall j | j in taken ensures j < k {
        assert j == x || j in taken - {x};
      }
    }
  }

  /** Steps that neither move the clock nor commit leave writers as fresh as they were. */
  lemma {:induction false} FreshStays(s: State, steps: seq<Step>, grace: nat)
    requires Fresh(s, grace) && forall step <- steps :: !step.Tick? && !step.Start? && !step.Commit?
    ensures AlwaysFresh(s, steps, grace)
    decreases |steps|
  {
    if steps != [] {
      assert steps[0] in steps && forall step <- steps[1..] :: step in steps;
      if Enabled(s, steps[0]) {
        FreshStays(Take(s, steps[0], grace), steps[1..], grace);
      } else {
        FreshStays(s, steps[1..], grace);
      }
    }
  }

  /** No whole compaction that starts now, and no publish after it, would lose a row. */
  ghost predicate CannotLose(s: State, grace: nat) {
    forall k: nat, p: int | k !in s.compactors :: NothingLost(Outcome(s, Attack(s, k, p, grace), grace))
  }

  lemma FreshExactly(s: State, grace: nat)
    requires Coherent(s) && Harmless(s) && Sparing(s, grace)
    ensures Fresh(s, grace) <==> CannotLose(s, grace)
  {
    if Fresh(s, grace) {
      forall k: nat, p: int | k !in s.compactors ensures NothingLost(Outcome(s, Attack(s, k, p, grace), grace)) {
        var steps := Attack(s, k, p, grace);
        FreshStays(s, steps, grace);
        FreshIsPrompt(s, steps, grace);
        OutcomeStaysCoherent(s, steps, grace);
        CoherentLosesNothing(Outcome(s, steps, grace));
      }
    } else {
      var c :| c in s.history && IsWriting(s, c.plan) && !HasRecent(s.history, c.plan, s.now - grace);
      var k := SomeId(s.compactors.Keys);
      AgedWriterCanLose(s, k, c, grace);
    }
  }

  ghost predicate NeverCanLose(s: State, steps: seq<Step>, grace: nat)
    decreases |steps|
  {
    && CannotLose(s, grace)
    && (steps == [] ||
        if Enabled(s, steps[0]) then NeverCanLose(Take(s, steps[0], grace), steps[1..], grace)
        else NeverCanLose(s, steps[1..], grace))
  }

  /** The assumption is exact: along a run, writers in flight are always fresh if and only if at
      no point a compaction started there could lose the rows of a plan that is published. */
  lemma {:induction false} GraceWindowIsExact(s: State, steps: seq<Step>, grace: nat)
    requires Coherent(s) && Harmless(s) && Sparing(s, grace)
    ensures AlwaysFresh(s, steps, grace) <==> NeverCanLose(s, steps, grace)
    decreases |steps|
  {
    FreshExactly(s, grace);
    if steps != [] && Fresh(s, grace) {
      if Enabled(s, steps[0]) {
        assert PromptStep(s, steps[0]);
        StepStaysCoherent(s, steps[0], grace);
        StepStaysHarmless(s, steps[0], grace);
        StepStaysSparing(s, steps[0], grace);
        GraceWindowIsExact(Take(s, steps[0], grace), steps[1..], grace);
      } else {
        GraceWindowIsExact(s, steps[1..], grace);
      }
    }
  }

  /** A writer that stalls past the grace window between its chunks and its header. */
  function Stall(grace: nat): seq<Step> { [Start(7), Commit(7, [Chunk(7, 0, 0)]), Tick(grace + 1)] }

  function Compaction(): seq<Step> { [Begin(0), ReadHeaders(0), ScanChunks(0)] }

  function Stalled(grace: nat): State {
    State(grace + 1, [Chunk(7, 0, 0)], {}, map[7 := Writing], map[], {Chunk(7, 0, 0)})
  }

  function Picked(grace: nat): State { Stalled(grace).(compactors := map[0 := Scanned({7})]) }

  lemma StallReaches(grace: nat, rest: seq<Step>)
    ensures Outcome(State(0, [], {}, map[], map[], {}), Stall(grace) + rest, grace)
            == Outcome(Stalled(grace), rest, grace)
  {
    var s0 := State(0, [], {}, map[], map[], {});
    var s1 := Take(s0, Start(7), grace);
    var s2 := Take(s1, Commit(7, [Chunk(7, 0, 0)]), grace);
    assert Take(s2, Tick(grace + 1), grace) == Stalled(grace);
    StepOne(s2, Tick(grace + 1), rest, grace);
    StepOne(s1, Commit(7, [Chunk(7, 0, 0)]), [Tick(grace + 1)] + rest, grace);
    StepOne(s0, Start(7), [Commit(7, [Chunk(7, 0, 0)])] + ([Tick(grace + 1)] + rest), grace);
    assert Stall(grace) + rest == [Start(7)] + ([Commit(7, [Chunk(7, 0, 0)])] + ([Tick(grace + 1)] + rest));
  }

  lemma CompactionPicks(grace: nat, rest: seq<Step>)
    ensures Outcome(Stalled(grace), Compaction() + rest, grace) == Outcome(Picked(grace), rest, grace)
  {
    var s0 := Stalled(grace);
    var s1 := Take(s0, Begin(0), grace);
    var s2 := Take(s1, ReadHeaders(0), grace);
    var s3 := Take(s2, ScanChunks(0), grace);
    assert s0.chunks[0] in s0.chunks && AllOlder(s0.chunks, 7, 1);
    assert Reclaimable(s0.chunks, {}, 1) == {7};
    assert s3.compactors == map[0 := Scanned({7})];
    assert s3 == Picked(grace);
    StepOne(s2, ScanChunks(0), rest, grace);
    StepOne(s1, ReadHeaders(0), [ScanChunks(0)] + rest, grace);
    StepOne(s0, Begin(0), [ReadHeaders(0)] + ([ScanChunks(0)] + rest), grace);
    assert Compaction() + rest == [Begin(0)] + ([ReadHeaders(0)] + ([ScanChunks(0)] + rest));
  }

  /** One that happens: the stalled writer publishes a header whose chunks are gone. */
  lemma StalledWriterLoses(grace: nat)
    ensures !NothingLost(Outcome(State(0, [], {}, map[], map[], {}),
                                 Stall(grace) + (Compaction() + Race(0, 7, {7})), grace))
  {
    StallReaches(grace, Compaction() + Race(0, 7, {7}));
    CompactionPicks(grace, Race(0, 7, {7}));
    SlowWritersCanLose(Picked(grace), 0, 7, Chunk(7, 0, 0), grace);
    assert Picked(grace).compactors[0].reclaimable - Picked(grace).headers == {7};
  }

  lemma StepOne(s: State, step: Step, rest: seq<Step>, grace: nat)
    requires Enabled(s, step)
    ensures Outcome(s, [step] + rest, grace) == Outcome(Take(s, step, grace), rest, grace)
  {
    assert ([step] + rest)[1..] == rest;
  }
}
