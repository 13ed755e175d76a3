/** Collapsing gaps, and what becomes of gap rows that no longer are the maximal ranges of the
    needed versions. */
module GapCollapse {
  import opened RangeSets
  import opened Books
  import opened Tables
  import opened BookRuns

  // ---------------------------------------------------------------- collapsing

  /** The book after collapsing: the versions of the actor's own gap rows and the unbooked
      buffered versions `lone` are needed too. */
  ghost function CollapseBook(a: nat, b: Book, t: Tables, lone: set<nat>): Book {
    b.(needed := b.needed + Covered(GapRanges(a, t)) + lone)
  }

  /** A version is needed after collapsing exactly if it was, a row of the actor covers it, or it is
      buffered without sequence rows; nothing else of the book changes. */
  lemma CollapseNeeds(a: nat, b: Book, t: Tables, lone: set<nat>, x: nat)
    ensures x in CollapseBook(a, b, t, lone).needed <==>
      x in b.needed || (exists g :: g in t.gaps && g.actor == a && Within(g.range, x)) || x in lone
    ensures CollapseBook(a, b, t, lone).max == b.max && CollapseBook(a, b, t, lone).partials == b.partials
  {
    if g :| g in t.gaps && g.actor == a && Within(g.range, x) { assert g.range in GapRanges(a, t); }
    if x in Covered(GapRanges(a, t)) {
      var r :| r in GapRanges(a, t) && Within(r, x);
      var g :| g in t.gaps && g.actor == a && g.range == r;
    }
  }

  /** The actor's gap rows are deleted and written anew from the book. */
  ghost function CollapseTables(a: nat, b: Book, t: Tables): Tables {
    Tables((set g | g in t.gaps && g.actor != a) + GapRows(a, Runs(b.needed)), t.seqs)
  }

  /** Whatever the rows were, afterwards they are the maximal ranges of the book. */
  lemma CollapseRepairs(a: nat, b: Book, t: Tables)
    requires KeysUnique(t)
    ensures GapsAgree(a, b.needed, CollapseTables(a, b, t).gaps)
    ensures KeysUnique(CollapseTables(a, b, t)) && OthersSame(a, t, CollapseTables(a, b, t))
  {
    var others := set g | g in t.gaps && g.actor != a;
    GapRunsFit(a, others, b.needed);
  }

  // ---------------------------------------------------------------- spoiled rows

  /** Two rows where the book has one range. */
  predicate Adjacent(a: nat, rows: set<GapRow>, g: Range, h: Range) {
    GapRow(a, g) in rows && GapRow(a, h) in rows && g.hi + 1 == h.lo
  }

  /** A row for a version that is known and not needed. */
  predicate Stale(a: nat, b: Book, rows: set<GapRow>, g: Range, x: nat) {
    GapRow(a, g) in rows && Within(g, x) && x !in b.needed && x <= Top(b)
  }

  ghost predicate Spoiled(a: nat, b: Book, rows: set<GapRow>) {
    || (exists g, h :: Adjacent(a, rows, g, h) && h.lo <= Top(b))
    || (exists g, x :: Stale(a, b, rows, g, x))
  }

  lemma AdjacentDisagrees(a: nat, needed: set<nat>, rows: set<GapRow>, g: Range, h: Range)
    requires Adjacent(a, rows, g, h)
    ensures !GapsAgree(a, needed, rows)
  {
    if GapsAgree(a, needed, rows) {
      RunsMeet(needed, g, h);
      assert false;
    }
  }

  lemma StaleDisagrees(a: nat, b: Book, rows: set<GapRow>, g: Range, x: nat)
    requires Stale(a, b, rows, g, x)
    ensures !GapsAgree(a, b.needed, rows)
  {
    assert GapsAgree(a, b.needed, rows) ==> g in Runs(b.needed);
  }

  lemma SpoiledDisagrees(a: nat, b: Book, rows: set<GapRow>)
    requires Spoiled(a, b, rows)
    ensures !GapsAgree(a, b.needed, rows)
  {
    if g, h :| Adjacent(a, rows, g, h) && h.lo <= Top(b) {
      AdjacentDisagrees(a, b.needed, rows, g, h);
    } else {
      var g, x :| Stale(a, b, rows, g, x);
      StaleDisagrees(a, b, rows, g, x);
    }
  }

  /** The gap rows after booking `V`. */
  ghost function RowsAfter(a: nat, b: Book, rows: set<GapRow>, V: set<nat>): set<GapRow> {
    rows - GapRows(a, GapRemoved(b, V)) + GapRows(a, Runs(GapInserted(b, V)))
  }

  lemma TopGrows(b: Book, V: set<nat>)
    ensures Top(BookGaps(b, V)) >= Top(b) && forall v :: v in V ==> v <= Top(BookGaps(b, V))
  {
  }

  lemma StaleStays(a: nat, b: Book, rows: set<GapRow>, V: set<nat>, g: Range, x: nat)
    requires Stale(a, b, rows, g, x)
    ensures Stale(a, BookGaps(b, V), RowsAfter(a, b, rows, V), g, x)
  {
    TopGrows(b, V);
    GapsNeeded(b, V);
    assert g !in GapRemoved(b, V);
    assert x !in GapOpened(Top(b), V);
  }

  lemma RemovedLeavesStale(a: nat, b: Book, rows: set<GapRow>, V: set<nat>, g: Range, h: Range)
    requires Adjacent(a, rows, g, h) && h.lo <= Top(b)
    ensures g in GapRemoved(b, V) ==> Stale(a, b, rows, h, h.lo)
    ensures h in GapRemoved(b, V) ==> Stale(a, b, rows, g, g.hi)
  {
    assert g in GapRemoved(b, V) ==> g in Runs(b.needed) && g.hi + 1 !in b.needed;
    assert h in GapRemoved(b, V) ==> h in Runs(b.needed) && h.lo - 1 !in b.needed;
  }

  lemma StaleSpoils(a: nat, b: Book, rows: set<GapRow>, V: set<nat>, g: Range, x: nat)
    requires Stale(a, b, rows, g, x)
    ensures Spoiled(a, BookGaps(b, V), RowsAfter(a, b, rows, V))
  {
    StaleStays(a, b, rows, V, g, x);
  }

  lemma AdjacentStays(a: nat, b: Book, rows: set<GapRow>, V: set<nat>, g: Range, h: Range)
    requires Adjacent(a, rows, g, h) && h.lo <= Top(b)
    ensures Spoiled(a, BookGaps(b, V), RowsAfter(a, b, rows, V))
  {
    RemovedLeavesStale(a, b, rows, V, g, h);
    if g in GapRemoved(b, V) {
      StaleSpoils(a, b, rows, V, h, h.lo);
    } else if h in GapRemoved(b, V) {
      StaleSpoils(a, b, rows, V, g, g.hi);
    } else {
      TopGrows(b, V);
      assert Adjacent(a, RowsAfter(a, b, rows, V), g, h);
    }
  }

  /** Booking versions never mends spoiled rows. */
  lemma SpoiledStays(a: nat, b: Book, rows: set<GapRow>, V: set<nat>)
    requires Spoiled(a, b, rows)
    ensures Spoiled(a, BookGaps(b, V), RowsAfter(a, b, rows, V))
  {
    if g, h :| Adjacent(a, rows, g, h) && h.lo <= Top(b) {
      AdjacentStays(a, b, rows, V, g, h);
    } else {
      var g, x :| Stale(a, b, rows, g, x);
      StaleSpoils(a, b, rows, V, g, x);
    }
  }

  lemma GapRunStart(b: Book, V: set<nat>, q: Range) returns (p: Range)
    requires q in Runs(b.needed) && q.hi == Top(b) && !RewrittenBy(Top(b), q, V)
    requires Top(b) + 1 in GapInserted(b, V)
    ensures p in Runs(GapInserted(b, V)) && p.lo == Top(b) + 1
  {
    var m, I := Top(b), GapInserted(b, V);
    p := RunOf(I, m + 1);
    assert m !in I by {
      assert Near(q, m);
      StayingNotCovered(b, V, q, m);
    }
    assert p.lo <= m ==> m in I;
  }

  lemma StrandedPair(b: Book, V: set<nat>) returns (q: Range, p: Range)
    requires Stranded(b, V)
    ensures q in Runs(b.needed) - GapRemoved(b, V) && p in Runs(GapInserted(b, V)) && q.hi + 1 == p.lo
    ensures p.lo <= Top(BookGaps(b, V))
  {
    var r :| r in Runs(V) && Top(b) + 1 < r.lo;
    GapOpens(b, V, r);
    TopGrows(b, V);
    assert r.lo in V;
    q :| q in Runs(b.needed) && q.hi == Top(b) && Untouched(q, V);
    UntouchedStays(Top(b), q, V);
    p := GapRunStart(b, V, q);
  }

  /** Booking versions that strand a run spoils rows that agreed. */
  lemma StrandedSpoils(a: nat, b: Book, rows: set<GapRow>, V: set<nat>)
    requires GapsAgree(a, b.needed, rows) && Stranded(b, V)
    ensures Spoiled(a, BookGaps(b, V), RowsAfter(a, b, rows, V))
  {
    var q, p := StrandedPair(b, V);
    assert GapRow(a, q) in rows;
    assert Adjacent(a, RowsAfter(a, b, rows, V), q, p);
  }

  /** Whether gap rows agree after booking: exactly if they agreed before and nothing is stranded. */
  lemma GapsKeptExactly(a: nat, b: Book, rows: set<GapRow>, V: set<nat>)
    requires GapsAgree(a, b.needed, rows) || Spoiled(a, b, rows)
    ensures GapsAgree(a, BookGaps(b, V).needed, RowsAfter(a, b, rows, V))
       <==> GapsAgree(a, b.needed, rows) && !Stranded(b, V)
    ensures Spoiled(a, BookGaps(b, V), RowsAfter(a, b, rows, V))
       <==> !GapsAgree(a, BookGaps(b, V).needed, RowsAfter(a, b, rows, V))
  {
    if GapsAgree(a, b.needed, rows) {
      GapsAgreeAfter(a, b, rows, V);
      if Stranded(b, V) { StrandedSpoils(a, b, rows, V); }
    } else {
      SpoiledStays(a, b, rows, V);
    }
    if Spoiled(a, BookGaps(b, V), RowsAfter(a, b, rows, V)) {
      SpoiledDisagrees(a, BookGaps(b, V), RowsAfter(a, b, rows, V));
    }
  }

  // ---------------------------------------------------------------- one step, from any rows

  /** Gap rows agree or are spoiled; sequence rows agree. */
  ghost predicate Tracked(a: nat, b: Book, t: Tables) {
    (GapsAgree(a, b.needed, t.gaps) || Spoiled(a, b, t.gaps)) && forall v :: SeqsAgree(a, b.partials, t.seqs, v)
  }

  lemma SpoiledHigher(a: nat, b: Book, b': Book, rows: set<GapRow>)
    requires Spoiled(a, b, rows) && b'.needed == b.needed && Top(b) <= Top(b')
    ensures Spoiled(a, b', rows)
  {
    if g, h :| Adjacent(a, rows, g, h) && h.lo <= Top(b) {
      assert Adjacent(a, rows, g, h) && h.lo <= Top(b');
    } else {
      var g, x :| Stale(a, b, rows, g, x);
      assert Stale(a, b', rows, g, x);
    }
  }

  lemma DoneKeepsKeys(a: nat, b: Book, t: Tables, st: Step)
    requires KeysUnique(t) && Exec(t, RowsOf(DeltaOf(a, b, st))).Done?
    ensures KeysUnique(Exec(t, RowsOf(DeltaOf(a, b, st))).tables)
    ensures OthersSame(a, t, Exec(t, RowsOf(DeltaOf(a, b, st))).tables)
  {
  }

  /** A step whose write succeeds, from agreeing or spoiled rows: the tables agree afterwards
      exactly if they agreed before and no run is stranded. */
  lemma StepTracked(a: nat, b: Book, t: Tables, st: Step)
    requires Tracked(a, b, t) && StampsMatch(b.partials - st.clear, st.parts)
    requires Exec(t, RowsOf(DeltaOf(a, b, st))).Done?
    ensures
      var b', t' := BookStep(b, st), Exec(t, RowsOf(DeltaOf(a, b, st))).tables;
      && Tracked(a, b', t')
      && (GapsAgree(a, b'.needed, t'.gaps) <==> GapsAgree(a, b.needed, t.gaps) && !Stranded(b, st.versions))
      && (Spoiled(a, b', t'.gaps) <==> !GapsAgree(a, b'.needed, t'.gaps))
  {
    var b' := BookStep(b, st);
    StepTables(a, b, t, st);
    SeqTableAgrees(a, b, t.seqs, st);
    assert Top(BookGaps(b, st.versions)) <= Top(b');
    GapsTracked(a, b, t.gaps, st.versions, b');
  }

  /** The gap rows of a step, seen from the book after the whole step. */
  lemma GapsTracked(a: nat, b: Book, rows: set<GapRow>, V: set<nat>, b': Book)
    requires GapsAgree(a, b.needed, rows) || Spoiled(a, b, rows)
    requires b'.needed == BookGaps(b, V).needed && Top(BookGaps(b, V)) <= Top(b')
    ensures
      var rows' := RowsAfter(a, b, rows, V);
      && (GapsAgree(a, b'.needed, rows') <==> GapsAgree(a, b.needed, rows) && !Stranded(b, V))
      && (Spoiled(a, b', rows') <==> !GapsAgree(a, b'.needed, rows'))
  {
    var mid, rows' := BookGaps(b, V), RowsAfter(a, b, rows, V);
    GapsKeptExactly(a, b, rows, V);
    if Spoiled(a, mid, rows') { SpoiledHigher(a, mid, b', rows'); }
    if Spoiled(a, b', rows') { SpoiledDisagrees(a, b', rows'); }
  }

  // ---------------------------------------------------------------- when nothing can be stranded

  /** The greatest version of the book is not itself needed. */
  predicate TopKnown(b: Book) {
    Top(b) !in b.needed
  }

  lemma TopKnownNotStranded(b: Book, V: set<nat>)
    requires TopKnown(b)
    ensures !Stranded(b, V)
  {
    assert forall q :: q in Runs(b.needed) ==> q.hi in b.needed;
  }

  lemma GapsKeepTopKnown(b: Book, V: set<nat>)
    requires TopKnown(b)
    ensures TopKnown(BookGaps(b, V))
  {
    GapsNeeded(b, V);
    assert Top(b) !in GapOpened(Top(b), V);
  }

  /** Booking keeps the greatest version known, so that stranding needs a collapse first. */
  lemma StepKeepsTopKnown(b: Book, op: Op)
    requires TopKnown(b)
    ensures TopKnown(BookStep(b, StepOf(op)))
  {
    var st := StepOf(op);
    var mid := BookClear(BookGaps(b, st.versions), st.clear);
    StepPartsBooked(op);
    GapsKeepTopKnown(b, st.versions);
    TopGrows(b, st.versions);
    MergeTop(mid, st.parts);
  }

  lemma MergeTop(b: Book, P: map<nat, Partial>)
    requires forall v :: v in P ==> v <= Top(b)
    ensures Top(BookMerge(b, P)) == Top(b) && BookMerge(b, P).needed == b.needed
  {
  }

  // ---------------------------------------------------------------- split ranges

  /** The actor's rows together cover the needed versions exactly. */
  ghost predicate Tiled(a: nat, needed: set<nat>, rows: set<GapRow>) {
    && (forall g: Range, x :: TileOf(a, rows, g, x) ==> x in needed)
    && (forall x :: x in needed ==> exists g: Range :: TileOf(a, rows, g, x))
  }

  predicate TileOf(a: nat, rows: set<GapRow>, g: Range, x: nat) {
    GapRow(a, g) in rows && Within(g, x)
  }

  predicate StartsIn(I: set<nat>, x: nat) {
    x in I && (x == 0 || x - 1 !in I)
  }

  lemma StartsARun(I: set<nat>, x: nat)
    ensures StartsIn(I, x) <==> exists p :: p in Runs(I) && p.lo == x
  {
    if StartsIn(I, x) {
      var p := RunOf(I, x);
      assert p.lo < x ==> x - 1 in I;
    }
    if p :| p in Runs(I) && p.lo == x { assert p.lo in I; }
  }

  /** From any rows: the gap insert of a step fails exactly when a row that stays starts where a
      range to be inserted starts. */
  lemma InsertFailsExactly(a: nat, rows: set<GapRow>, I: set<nat>)
    requires GapKeysUnique(rows)
    ensures !GapInsertFits(rows, GapRows(a, Runs(I))) <==> exists g: Range :: GapRow(a, g) in rows && StartsIn(I, g.lo)
  {
    var ins := GapRows(a, Runs(I));
    if g: Range :| GapRow(a, g) in rows && StartsIn(I, g.lo) {
      StartsARun(I, g.lo);
      var p :| p in Runs(I) && p.lo == g.lo;
      assert GapRow(a, p) in ins && SameGapKey(GapRow(a, g), GapRow(a, p));
      assert GapRow(a, g) in rows + ins && GapRow(a, p) in rows + ins;
      assert GapKeysUnique(rows + ins) ==> GapRow(a, g) == GapRow(a, p);
    } else {
      ClashFree(a, rows, I);
    }
  }

  lemma ClashFree(a: nat, rows: set<GapRow>, I: set<nat>)
    requires GapKeysUnique(rows) && forall g: Range :: GapRow(a, g) in rows ==> !StartsIn(I, g.lo)
    ensures GapInsertFits(rows, GapRows(a, Runs(I)))
  {
    var ins := GapRows(a, Runs(I));
    forall g, h | g in rows && h in ins ensures !SameGapKey(g, h) {
      StartsARun(I, h.range.lo);
      assert g.actor == a ==> g == GapRow(a, g.range);
    }
    forall r, q | r in Runs(I) && q in Runs(I) && r.lo == q.lo ensures r == q { RunsMeet(I, r, q); }
  }

  /** A stranded step leaves rows that still cover the needed versions, in pieces. */
  lemma StrandedTiles(a: nat, b: Book, rows: set<GapRow>, V: set<nat>)
    requires GapsAgree(a, b.needed, rows)
    ensures Tiled(a, BookGaps(b, V).needed, RowsAfter(a, b, rows, V))
  {
    var rows', needed' := RowsAfter(a, b, rows, V), BookGaps(b, V).needed;
    forall g: Range, x | TileOf(a, rows', g, x) ensures x in needed' {
      if g in Runs(GapInserted(b, V)) {
        assert x in GapInserted(b, V);
      } else {
        KeptRunStays(b, V, g, x);
      }
    }
    forall x | x in needed' ensures exists g: Range :: TileOf(a, rows', g, x) {
      if x in GapInserted(b, V) {
        var g := RunOf(GapInserted(b, V), x);
        assert TileOf(a, rows', g, x);
      } else {
        var g := RunOf(b.needed, x);
        assert g !in GapRemoved(b, V);
        assert TileOf(a, rows', g, x);
      }
    }
  }

  lemma KeptRunStays(b: Book, V: set<nat>, g: Range, x: nat)
    requires g in Runs(b.needed) - GapRemoved(b, V) && Within(g, x)
    ensures x in BookGaps(b, V).needed
  {
    assert x in b.needed;
    assert Near(g, x);
    StayingNotCovered(b, V, g, x);
  }

  /** A split range that a step rewrites: its delete hits no row, and unless its first version is
      booked the write fails. */
  lemma SplitRangeFails(a: nat, b: Book, t: Tables, st: Step, r: Range)
    requires Tiled(a, b.needed, t.gaps) && GapKeysUnique(t.gaps) && forall x :: x in b.needed ==> x <= Top(b)
    requires r in GapRemoved(b, st.versions) && GapRow(a, r) !in t.gaps
    ensures var out := Exec(t, RowsOf(DeltaOf(a, b, st))); out.Done? ==> !out.effective
    ensures r.lo !in st.versions ==> Exec(t, RowsOf(DeltaOf(a, b, st))) == Violation
  {
    var p := RowsOf(DeltaOf(a, b, st));
    assert GapRow(a, r) in p.gapDel;
    if r.lo !in st.versions {
      SplitStart(a, b, t.gaps, st.versions, r);
      InsertFailsExactly(a, t.gaps - p.gapDel, GapInserted(b, st.versions));
    }
  }

  lemma TileAtStart(a: nat, needed: set<nat>, rows: set<GapRow>, r: Range) returns (g: Range)
    requires Tiled(a, needed, rows) && r in Runs(needed)
    ensures GapRow(a, g) in rows && g.lo == r.lo
  {
    assert Within(r, r.lo) && r.lo in needed;
    g :| TileOf(a, rows, g, r.lo);
    var before := if r.lo > 0 then r.lo - 1 else 0;
    assert g.lo <= before ==> TileOf(a, rows, g, before);
  }

  lemma SplitStart(a: nat, b: Book, rows: set<GapRow>, V: set<nat>, r: Range)
    requires Tiled(a, b.needed, rows) && forall x :: x in b.needed ==> x <= Top(b)
    requires r in GapRemoved(b, V) && GapRow(a, r) !in rows && r.lo !in V
    ensures exists g: Range :: GapRow(a, g) in rows - GapRows(a, GapRemoved(b, V)) && StartsIn(GapInserted(b, V), g.lo)
  {
    var g := TileAtStart(a, b.needed, rows, r);
    assert g !in GapRemoved(b, V) by {
      if g in Runs(b.needed) { RunsMeet(b.needed, g, r); }
    }
    FirstStays(b, V, r);
  }

  lemma CoveredIsNeeded(b: Book, V: set<nat>, x: nat)
    ensures x in Covered(GapRemoved(b, V)) ==> x in b.needed
  {
    if x in Covered(GapRemoved(b, V)) {
      var q :| q in GapRemoved(b, V) && Within(q, x);
    }
  }

  lemma FirstStays(b: Book, V: set<nat>, r: Range)
    requires r in GapRemoved(b, V) && r.lo !in V && forall x :: x in b.needed ==> x <= Top(b)
    ensures StartsIn(GapInserted(b, V), r.lo)
  {
    assert Within(r, r.lo) && r.lo in b.needed && r.lo in Covered(GapRemoved(b, V));
    if r.lo > 0 {
      CoveredIsNeeded(b, V, r.lo - 1);
      assert r.lo - 1 !in GapOpened(Top(b), V);
    }
  }

  /** The gap row `g` stays and starts where a range to be inserted starts. */
  ghost predicate GapClash(a: nat, b: Book, rows: set<GapRow>, st: Step, g: Range) {
    GapRow(a, g) in rows - GapRows(a, GapRemoved(b, st.versions)) && StartsIn(GapInserted(b, st.versions), g.lo)
  }

  /** The sequence row `s` stays and starts where a range to be inserted for its version starts. */
  ghost predicate SeqClash(a: nat, b: Book, rows: set<SeqRow>, st: Step, s: SeqRow) {
    && s in KeptSeqs(a, b, rows, st) && s.actor == a && s.version in st.parts
    && StartsIn(SeqInserted(SeqsOf(b.partials - st.clear, s.version), st.parts[s.version].seqs), s.range.lo)
  }

  lemma SeqClashFails(a: nat, b: Book, rows: set<SeqRow>, st: Step, s: SeqRow)
    requires SeqClash(a, b, rows, st, s)
    ensures !SeqInsertFits(KeptSeqs(a, b, rows, st), NewSeqs(a, b, st))
  {
    var p, I := st.parts[s.version], SeqInserted(SeqsOf(b.partials - st.clear, s.version), st.parts[s.version].seqs);
    StartsARun(I, s.range.lo);
    var r :| r in Runs(I) && r.lo == s.range.lo;
    var u := SeqRow(a, s.version, r, p.lastSeq, p.ts);
    NewSeqAt(a, b, st, u);
    assert SameSeqKey(s, u);
  }

  lemma NoSeqClashFits(a: nat, b: Book, rows: set<SeqRow>, st: Step)
    requires SeqKeysUnique(rows) && forall s :: !SeqClash(a, b, rows, st, s)
    ensures SeqInsertFits(KeptSeqs(a, b, rows, st), NewSeqs(a, b, st))
  {
    var kept, new' := KeptSeqs(a, b, rows, st), NewSeqs(a, b, st);
    assert kept <= rows;
    forall s, u | s in kept && u in new' ensures !SameSeqKey(s, u) {
      NewSeqAt(a, b, st, u);
      StartsARun(SeqInserted(SeqsOf(b.partials - st.clear, u.version), st.parts[u.version].seqs), u.range.lo);
      assert !SeqClash(a, b, rows, st, s);
    }
    forall s, u | s in new' && u in new' && SameSeqKey(s, u) ensures s == u { NewSeqsUnique(a, b, st, s, u); }
    FitsFromPairs(kept, new');
  }

  /** From any rows with unique keys: the write of a step fails exactly when a row that stays starts
      where a range to be inserted starts; while the sequence rows agree, that row is a gap row. */
  lemma StepFailsExactly(a: nat, b: Book, t: Tables, st: Step)
    requires KeysUnique(t)
    ensures Exec(t, RowsOf(DeltaOf(a, b, st))) == Violation
       <==> (exists g :: GapClash(a, b, t.gaps, st, g)) || (exists s :: SeqClash(a, b, t.seqs, st, s))
    ensures (forall v :: SeqsAgree(a, b.partials, t.seqs, v)) ==> forall s :: !SeqClash(a, b, t.seqs, st, s)
  {
    var gaps1 := t.gaps - GapRows(a, GapRemoved(b, st.versions));
    GapsFitExactly(a, b, t.gaps, st);
    SeqsFitExactly(a, b, t.seqs, st);
    assert Exec(t, RowsOf(DeltaOf(a, b, st))) == Violation
      <==> !GapInsertFits(gaps1, GapRows(a, Runs(GapInserted(b, st.versions))))
           || !SeqInsertFits(KeptSeqs(a, b, t.seqs, st), NewSeqs(a, b, st));
  }

  lemma GapsFitExactly(a: nat, b: Book, rows: set<GapRow>, st: Step)
    requires GapKeysUnique(rows)
    ensures !GapInsertFits(rows - GapRows(a, GapRemoved(b, st.versions)), GapRows(a, Runs(GapInserted(b, st.versions))))
       <==> exists g :: GapClash(a, b, rows, st, g)
  {
    InsertFailsExactly(a, rows - GapRows(a, GapRemoved(b, st.versions)), GapInserted(b, st.versions));
    assert forall g: Range ::
      GapClash(a, b, rows, st, g) <==>
      GapRow(a, g) in rows - GapRows(a, GapRemoved(b, st.versions)) && StartsIn(GapInserted(b, st.versions), g.lo);
  }

  lemma SeqsFitExactly(a: nat, b: Book, rows: set<SeqRow>, st: Step)
    requires SeqKeysUnique(rows)
    ensures !SeqInsertFits(KeptSeqs(a, b, rows, st), NewSeqs(a, b, st)) <==> exists s :: SeqClash(a, b, rows, st, s)
    ensures (forall v :: SeqsAgree(a, b.partials, rows, v)) ==> forall s :: !SeqClash(a, b, rows, st, s)
  {
    if s :| SeqClash(a, b, rows, st, s) {
      SeqClashFails(a, b, rows, st, s);
    } else {
      NoSeqClashFits(a, b, rows, st);
    }
    if forall v :: SeqsAgree(a, b.partials, rows, v) { SeqInsertOk(a, b, rows, st); }
  }

  // ---------------------------------------------------------------- a run that ends in a failed write

  /** Versions 1 to 5 are booked and 5 is still buffered without sequence rows when gaps are
      collapsed. Then 8 arrives, then 6. */
  const BOOKED_FIVE := Book({}, Some(5), map[])
  const COLLAPSED_FIVE := Book({5}, Some(5), map[])
  const SPLIT := Book({5, 6, 7}, Some(8), map[])

  const NO_ROWS := Tables({}, {})
  const ROW_FIVE := Tables({GapRow(1, Span(5, 5))}, {})
  const SPLIT_ROWS := Tables({GapRow(1, Span(5, 5)), GapRow(1, Span(6, 7))}, {})

  lemma BookedFive()
    ensures RunBook([InsertDb({1, 2, 3, 4, 5})]) == BOOKED_FIVE
  {
    var ops := [InsertDb({1, 2, 3, 4, 5})];
    RunGapInv(ops);
    assert ops[..0] == [];
    GapsOnlyStep(1, EMPTY_BOOK, {1, 2, 3, 4, 5});
    assert Booked(ops) == {1, 2, 3, 4, 5};
    assert UpTo(5) - {1, 2, 3, 4, 5} == {};
  }

  lemma CollapseFive()
    ensures CollapseBook(1, BOOKED_FIVE, NO_ROWS, {5}) == COLLAPSED_FIVE
    ensures CollapseTables(1, COLLAPSED_FIVE, NO_ROWS) == ROW_FIVE
  {
    assert GapRanges(1, NO_ROWS) == {};
    OneRun(5);
  }

  lemma ArriveEight()
    ensures GapRemoved(COLLAPSED_FIVE, {8}) == {} && GapInserted(COLLAPSED_FIVE, {8}) == {6, 7}
  {
    OneRun(5);
    OneRun(8);
    GapAboveFive();
  }

  lemma RunSixSeven()
    ensures Runs({6, 7}) == {Span(6, 7)}
  {
    assert IsRun({6, 7}, Span(6, 7));
    forall r | r in Runs({6, 7}) ensures r == Span(6, 7) {
      assert r.lo in {6, 7} && r.hi in {6, 7};
    }
  }

  lemma EightSplitsBook()
    ensures BookStep(COLLAPSED_FIVE, StepOf(InsertDb({8}))) == SPLIT
  {
    GapsOnlyStep(1, COLLAPSED_FIVE, {8});
    StrandedWitness();
    GreatestOf(8);
  }

  lemma EightRows()
    ensures RowsOf(DeltaOf(1, COLLAPSED_FIVE, StepOf(InsertDb({8})))) ==
      RowSets({}, {GapRow(1, Span(6, 7))}, {}, {}, {})
  {
    GapsOnlyStep(1, COLLAPSED_FIVE, {8});
    ArriveEight();
    RunSixSeven();
  }

  lemma EightSplitsRows()
    ensures Exec(ROW_FIVE, RowSets({}, {GapRow(1, Span(6, 7))}, {}, {}, {})) == Done(SPLIT_ROWS, true)
  {
    assert ROW_FIVE.gaps - {} + {GapRow(1, Span(6, 7))} == SPLIT_ROWS.gaps;
    assert DropKeys(DropVersions({}, {}), {}) == {};
  }

  lemma GreatestOf(x: nat)
    ensures GreatestOpt({x}) == Some(x)
  {
  }

  lemma SixRewrites()
    ensures Span(5, 7) in GapRemoved(SPLIT, {6})
  {
    OneRun(6);
    assert IsRun(SPLIT.needed, Span(5, 7));
    assert Rewritten(Top(SPLIT), Span(5, 7), Span(6, 6));
  }

  lemma SplitIsTiled()
    ensures Tiled(1, SPLIT.needed, SPLIT_ROWS.gaps)
  {
    assert TileOf(1, SPLIT_ROWS.gaps, Span(5, 5), 5);
    assert TileOf(1, SPLIT_ROWS.gaps, Span(6, 7), 6) && TileOf(1, SPLIT_ROWS.gaps, Span(6, 7), 7);
  }

  lemma SixFails()
    ensures Exec(SPLIT_ROWS, RowsOf(DeltaOf(1, SPLIT, StepOf(InsertDb({6}))))) == Violation
  {
    SixRewrites();
    SplitIsTiled();
    SplitRangeFails(1, SPLIT, SPLIT_ROWS, StepOf(InsertDb({6})), Span(5, 7));
  }

  lemma FiveAgrees()
    ensures Agree(1, BOOKED_FIVE, NO_ROWS)
  {
    assert Runs({}) == {};
  }

  lemma SplitDisagrees()
    ensures !Agree(1, SPLIT, SPLIT_ROWS)
  {
    AdjacentDisagrees(1, SPLIT.needed, SPLIT_ROWS.gaps, Span(5, 5), Span(6, 7));
  }

  /** What the run shows: its books and rows, step by step, from a booked start to a failed write. */
  ghost predicate RunFails(a: nat, b0: Book, t0: Tables, lone: set<nat>, first: set<nat>, second: set<nat>) {
    var b1 := CollapseBook(a, b0, t0, lone);
    var t1 := CollapseTables(a, b1, t0);
    var b2 := BookStep(b1, StepOf(InsertDb(first)));
    var out := Exec(t1, RowsOf(DeltaOf(a, b1, StepOf(InsertDb(first)))));
    && out.Done? && out.effective && !Agree(a, b2, out.tables)
    && Exec(out.tables, RowsOf(DeltaOf(a, b2, StepOf(InsertDb(second))))) == Violation
  }

  /** A run the code can make in which a write fails: collapse, arrival of 8, arrival of 6. */
  lemma CollapseThenViolation()
    ensures RunBook([InsertDb({1, 2, 3, 4, 5})]) == BOOKED_FIVE && Agree(1, BOOKED_FIVE, NO_ROWS)
    ensures RunFails(1, BOOKED_FIVE, NO_ROWS, {5}, {8}, {6})
  {
    BookedFive();
    FiveAgrees();
    CollapseFive();
    EightSplitsBook();
    EightRows();
    EightSplitsRows();
    SplitDisagrees();
    SixFails();
  }
}
