/** The two bookkeeping tables, the row deltas a step writes to them, and the agreement
    between rows and book. */
module Tables {
  import opened RangeSets
  import opened Books

  /** A row of the gaps table; its primary key is (actor, range.lo). */
  datatype GapRow = GapRow(actor: nat, range: Range)

  /** A row of the sequence table; its primary key is (actor, version, range.lo). */
  datatype SeqRow = SeqRow(actor: nat, version: nat, range: Range, lastSeq: nat, ts: nat)

  datatype SeqKey = SeqKey(actor: nat, version: nat, range: Range)

  datatype Tables = Tables(gaps: set<GapRow>, seqs: set<SeqRow>)

  function KeyOf(s: SeqRow): SeqKey {
    SeqKey(s.actor, s.version, s.range)
  }

  predicate SameGapKey(g: GapRow, h: GapRow) {
    g.actor == h.actor && g.range.lo == h.range.lo
  }

  predicate SameSeqKey(s: SeqRow, u: SeqRow) {
    s.actor == u.actor && s.version == u.version && s.range.lo == u.range.lo
  }

  predicate GapKeysUnique(rows: set<GapRow>) {
    forall g, h :: g in rows && h in rows && SameGapKey(g, h) ==> g == h
  }

  predicate SeqKeysUnique(rows: set<SeqRow>) {
    forall s, u :: s in rows && u in rows && SameSeqKey(s, u) ==> s == u
  }

  predicate KeysUnique(t: Tables) {
    GapKeysUnique(t.gaps) && SeqKeysUnique(t.seqs)
  }

  // ---------------------------------------------------------------- one write

  /** The rows of one write: five statements, run in this order. */
  datatype RowSets = RowSets(
    gapDel: set<GapRow>, gapIns: set<GapRow>,
    verDel: set<(nat, nat)>, seqDel: set<SeqKey>, seqIns: set<SeqRow>)

  /** `effective`: every listed delete hit exactly one row. */
  datatype Outcome = Done(tables: Tables, effective: bool) | Violation

  predicate GapInsertFits(rows: set<GapRow>, ins: set<GapRow>) {
    rows !! ins && GapKeysUnique(rows + ins)
  }

  predicate SeqInsertFits(rows: set<SeqRow>, ins: set<SeqRow>) {
    rows !! ins && SeqKeysUnique(rows + ins)
  }

  predicate HitsOne(rows: set<SeqRow>, k: SeqKey) {
    && (exists s :: s in rows && KeyOf(s) == k)
    && (forall s, u :: s in rows && u in rows && KeyOf(s) == k && KeyOf(u) == k ==> s == u)
  }

  function DropVersions(rows: set<SeqRow>, vs: set<(nat, nat)>): set<SeqRow> {
    set s | s in rows && (s.actor, s.version) !in vs
  }

  function DropKeys(rows: set<SeqRow>, ks: set<SeqKey>): set<SeqRow> {
    set s | s in rows && KeyOf(s) !in ks
  }

  function Exec(t: Tables, p: RowSets): Outcome {
    var gaps1 := t.gaps - p.gapDel;
    var seqs1 := DropVersions(t.seqs, p.verDel);
    var seqs2 := DropKeys(seqs1, p.seqDel);
    if GapInsertFits(gaps1, p.gapIns) && SeqInsertFits(seqs2, p.seqIns) then
      Done(Tables(gaps1 + p.gapIns, seqs2 + p.seqIns),
           p.gapDel <= t.gaps && forall k :: k in p.seqDel ==> HitsOne(seqs1, k))
    else
      Violation
  }

  /** The tables as a violation leaves them inside the open transaction: the statements before
      the failing insert have run. */
  function AtViolation(t: Tables, p: RowSets): Tables {
    var gaps1 := t.gaps - p.gapDel;
    if GapInsertFits(gaps1, p.gapIns) then Tables(gaps1 + p.gapIns, DropKeys(DropVersions(t.seqs, p.verDel), p.seqDel))
    else Tables(gaps1, t.seqs)
  }

  // ---------------------------------------------------------------- one step

  /** One bookkeeping step: versions to book, partial versions to clear, parts to merge. */
  datatype Step = Step(versions: set<nat>, clear: set<nat>, parts: map<nat, Partial>)

  datatype SeqChange = SeqChange(removed: set<Range>, inserted: set<nat>, lastSeq: nat, ts: nat)

  datatype Delta = Delta(
    actor: nat, gapRemoved: set<Range>, gapInserted: set<nat>,
    cleared: set<nat>, seqs: map<nat, SeqChange>)

  ghost function BatchStep(es: seq<Entry>): Step {
    Step(BatchVersions(es), BatchComplete(es), BatchPartials(es))
  }

  ghost function BookStep(b: Book, st: Step): Book {
    BookMerge(BookClear(BookGaps(b, st.versions), st.clear), st.parts)
  }

  lemma BookStepBatch(b: Book, es: seq<Entry>)
    ensures BookStep(b, BatchStep(es)) == BookBatch(b, es)
  {
  }

  function SeqsOf(P: map<nat, Partial>, v: nat): set<nat> {
    if v in P then P[v].seqs else {}
  }

  ghost function SeqChangeOf(P: map<nat, Partial>, v: nat, p: Partial): SeqChange {
    SeqChange(SeqRemoved(SeqsOf(P, v), p.seqs), SeqInserted(SeqsOf(P, v), p.seqs), p.lastSeq, p.ts)
  }

  ghost predicate AreSeqChanges(P: map<nat, Partial>, parts: map<nat, Partial>, m: map<nat, SeqChange>) {
    m.Keys == parts.Keys && forall v :: v in m ==> m[v] == SeqChangeOf(P, v, parts[v])
  }

  lemma SeqChangesExist(P: map<nat, Partial>, parts: map<nat, Partial>)
    ensures exists m :: AreSeqChanges(P, parts, m)
  {
    var m := BuildMap(parts.Keys, (v: nat) requires v in parts => SeqChangeOf(P, v, parts[v]));
    assert AreSeqChanges(P, parts, m);
  }

  ghost function SeqChangesOf(P: map<nat, Partial>, parts: map<nat, Partial>): (m: map<nat, SeqChange>)
    ensures AreSeqChanges(P, parts, m)
  {
    SeqChangesExist(P, parts);
    var m :| AreSeqChanges(P, parts, m);
    m
  }

  ghost function DeltaOf(a: nat, b: Book, st: Step): Delta {
    Delta(a, GapRemoved(b, st.versions), GapInserted(b, st.versions),
          st.clear * b.partials.Keys,
          SeqChangesOf(b.partials - st.clear, st.parts))
  }

  lemma GapsOnlyStep(a: nat, b: Book, V: set<nat>)
    ensures BookStep(b, Step(V, {}, map[])) == BookGaps(b, V)
    ensures DeltaOf(a, b, Step(V, {}, map[])) == Delta(a, GapRemoved(b, V), GapInserted(b, V), {}, map[])
  {
    assert BookClear(BookGaps(b, V), {}) == BookGaps(b, V) by { assert b.partials - {} == b.partials; }
    MergeNone(BookGaps(b, V));
    assert {} * b.partials.Keys == {};
    assert SeqChangesOf(b.partials - {}, map[]) == map[];
  }

  lemma ClearOnlyStep(a: nat, b: Book, C: set<nat>)
    ensures BookStep(b, Step({}, C, map[])) == BookClear(b, C)
    ensures DeltaOf(a, b, Step({}, C, map[])) == Delta(a, {}, {}, C * b.partials.Keys, map[])
  {
    assert Runs({}) == {};
    assert GapRemoved(b, {}) == {} && GapInserted(b, {}) == {};
    assert BookGaps(b, {}) == b;
    MergeNone(BookClear(b, C));
    assert SeqChangesOf(b.partials - C, map[]) == map[];
  }

  lemma MergeNone(b: Book)
    ensures BookMerge(b, map[]) == b
  {
    MergeUnique(b.partials, map[], b.partials);
    var none: map<nat, Partial> := map[];
    assert none.Keys - b.partials.Keys == {};
  }

  lemma PartsOnlyStep(a: nat, b: Book, P: map<nat, Partial>)
    ensures BookStep(b, Step({}, {}, P)) == BookMerge(b, P)
    ensures DeltaOf(a, b, Step({}, {}, P)) == Delta(a, {}, {}, {}, SeqChangesOf(b.partials, P))
  {
    ClearOnlyStep(a, b, {});
    assert b.partials - {} == b.partials;
    assert BookClear(BookGaps(b, {}), {}) == b;
    assert Runs({}) == {};
    assert GapRemoved(b, {}) == {} && GapInserted(b, {}) == {};
    assert {} * b.partials.Keys == {};
  }

  function GapRows(a: nat, rs: set<Range>): (rows: set<GapRow>)
    ensures forall g :: g in rows <==> g.actor == a && g.range in rs
  {
    set r | r in rs :: GapRow(a, r)
  }

  ghost function RowsOf(d: Delta): RowSets {
    RowSets(
      GapRows(d.actor, d.gapRemoved),
      GapRows(d.actor, Runs(d.gapInserted)),
      set v | v in d.cleared :: (d.actor, v),
      set v, r | v in d.seqs && r in d.seqs[v].removed :: SeqKey(d.actor, v, r),
      set v, r | v in d.seqs && r in Runs(d.seqs[v].inserted) :: SeqRow(d.actor, v, r, d.seqs[v].lastSeq, d.seqs[v].ts))
  }

  // ---------------------------------------------------------------- agreement

  ghost function GapRanges(a: nat, t: Tables): set<Range> {
    set g | g in t.gaps && g.actor == a :: g.range
  }

  /** The rows of actor `a` are exactly the maximal ranges of the book. */
  ghost predicate Agree(a: nat, b: Book, t: Tables) {
    GapsAgree(a, b.needed, t.gaps) && forall v :: SeqsAgree(a, b.partials, t.seqs, v)
  }

  ghost predicate GapsAgree(a: nat, needed: set<nat>, rows: set<GapRow>) {
    forall r: Range :: GapRow(a, r) in rows <==> r in Runs(needed)
  }

  ghost predicate SeqsAgree(a: nat, P: map<nat, Partial>, rows: set<SeqRow>, v: nat) {
    if v in P then RowsAre(a, v, rows, Runs(P[v].seqs), P[v]) else NoRows(a, v, rows)
  }

  /** The rows of version `v` are the ranges in `R`, all with the stamp of `p`. */
  ghost predicate RowsAre(a: nat, v: nat, rows: set<SeqRow>, R: set<Range>, p: Partial) {
    forall r: Range, l, ts :: SeqRow(a, v, r, l, ts) in rows <==> r in R && l == p.lastSeq && ts == p.ts
  }

  ghost predicate NoRows(a: nat, v: nat, rows: set<SeqRow>) {
    forall r: Range, l, ts :: SeqRow(a, v, r, l, ts) !in rows
  }

  /** Parts merged into a version already in the book carry its last sequence and time. */
  ghost predicate StampsMatch(P: map<nat, Partial>, parts: map<nat, Partial>) {
    forall v :: v in parts && v in P && parts[v].seqs != {} ==> SameStamp(P[v], parts[v])
  }

  predicate SameStamp(p: Partial, q: Partial) {
    p.lastSeq == q.lastSeq && p.ts == q.ts
  }

  predicate OthersSame(a: nat, t: Tables, t': Tables) {
    && (forall g :: g in t.gaps + t'.gaps && g.actor != a ==> (g in t.gaps <==> g in t'.gaps))
    && (forall s :: s in t.seqs + t'.seqs && s.actor != a ==> (s in t.seqs <==> s in t'.seqs))
  }

  /** Inserting the runs of `I` clashes with no row whose range avoids `I`. */
  lemma GapRunsFit(a: nat, rows: set<GapRow>, I: set<nat>)
    requires GapKeysUnique(rows)
    requires forall r: Range, x :: GapRow(a, r) in rows && x in I ==> !Within(r, x)
    ensures GapInsertFits(rows, GapRows(a, Runs(I)))
  {
    forall g, h | g in rows && h in GapRows(a, Runs(I)) ensures !SameGapKey(g, h) {
      assert h.range.lo in I;
      assert g.actor == a ==> g == GapRow(a, g.range);
    }
    forall r, q | r in Runs(I) && q in Runs(I) && r.lo == q.lo ensures r == q { RunsMeet(I, r, q); }
  }

  lemma GapInsertOk(a: nat, b: Book, rows: set<GapRow>, V: set<nat>)
    requires GapsAgree(a, b.needed, rows) && GapKeysUnique(rows)
    ensures GapInsertFits(rows - GapRows(a, GapRemoved(b, V)), GapRows(a, Runs(GapInserted(b, V))))
  {
    GapDelta(b, V);
    forall r: Range, x | GapRow(a, r) in rows - GapRows(a, GapRemoved(b, V)) && x in GapInserted(b, V)
      ensures !Within(r, x)
    {
      assert r in Runs(b.needed) - GapRemoved(b, V);
    }
    GapRunsFit(a, rows - GapRows(a, GapRemoved(b, V)), GapInserted(b, V));
  }

  lemma GapsAgreeAfter(a: nat, b: Book, rows: set<GapRow>, V: set<nat>)
    requires GapsAgree(a, b.needed, rows)
    ensures GapsAgree(a, BookGaps(b, V).needed,
                      rows - GapRows(a, GapRemoved(b, V)) + GapRows(a, Runs(GapInserted(b, V))))
       <==> !Stranded(b, V)
  {
    GapDelta(b, V);
    var rows' := rows - GapRows(a, GapRemoved(b, V)) + GapRows(a, Runs(GapInserted(b, V)));
    var now := Runs(b.needed) - GapRemoved(b, V) + Runs(GapInserted(b, V));
    forall r: Range ensures GapRow(a, r) in rows' <==> r in now {
      assert GapRow(a, r) in rows <==> r in Runs(b.needed);
    }
    if GapsAgree(a, BookGaps(b, V).needed, rows') {
      assert forall r: Range :: r in Runs(BookGaps(b, V).needed) <==> GapRow(a, r) in rows';
      assert Runs(BookGaps(b, V).needed) == now;
    }
  }

  // ---------------------------------------------------------------- sequence rows

  /** The rows of version `v` after one step, pointwise. */
  lemma SeqRowsAfter(a: nat, b: Book, rows: set<SeqRow>, st: Step, v: nat, r: Range, l: nat, ts: nat)
    requires SeqsAgree(a, b.partials, rows, v)
    ensures
      var p := RowsOf(DeltaOf(a, b, st));
      var P := b.partials - st.clear;
      SeqRow(a, v, r, l, ts) in DropKeys(DropVersions(rows, p.verDel), p.seqDel)
      <==> v in P && r in Runs(P[v].seqs) && l == P[v].lastSeq && ts == P[v].ts
           && !(v in st.parts && r in SeqRemoved(P[v].seqs, st.parts[v].seqs))
  {
    var d := DeltaOf(a, b, st);
    var p := RowsOf(d);
    assert (a, v) in p.verDel <==> v in d.cleared;
    assert SeqKey(a, v, r) in p.seqDel <==> v in d.seqs && r in d.seqs[v].removed;
    assert SeqRow(a, v, r, l, ts) in rows
       <==> v in b.partials && r in Runs(b.partials[v].seqs) && l == b.partials[v].lastSeq && ts == b.partials[v].ts;
  }

  ghost function KeptSeqs(a: nat, b: Book, rows: set<SeqRow>, st: Step): set<SeqRow> {
    var p := RowsOf(DeltaOf(a, b, st));
    DropKeys(DropVersions(rows, p.verDel), p.seqDel)
  }

  ghost function NewSeqs(a: nat, b: Book, st: Step): set<SeqRow> {
    RowsOf(DeltaOf(a, b, st)).seqIns
  }

  lemma NewSeqAt(a: nat, b: Book, st: Step, u: SeqRow)
    ensures u in NewSeqs(a, b, st)
       <==> u.actor == a && u.version in st.parts
            && u.range in Runs(SeqInserted(SeqsOf(b.partials - st.clear, u.version), st.parts[u.version].seqs))
            && u.lastSeq == st.parts[u.version].lastSeq && u.ts == st.parts[u.version].ts
  {
    var d := DeltaOf(a, b, st);
    if u.version in st.parts {
      assert d.seqs[u.version] == SeqChangeOf(b.partials - st.clear, u.version, st.parts[u.version]);
    }
  }

  lemma SeqInsertOk(a: nat, b: Book, rows: set<SeqRow>, st: Step)
    requires (forall v :: SeqsAgree(a, b.partials, rows, v)) && SeqKeysUnique(rows)
    ensures SeqInsertFits(KeptSeqs(a, b, rows, st), NewSeqs(a, b, st))
  {
    var kept, new' := KeptSeqs(a, b, rows, st), NewSeqs(a, b, st);
    assert kept <= rows;
    forall s, u | s in kept && u in new' ensures !SameSeqKey(s, u) {
      KeptAvoidsNew(a, b, rows, st, s, u);
    }
    forall s, u | s in new' && u in new' && SameSeqKey(s, u) ensures s == u {
      NewSeqsUnique(a, b, st, s, u);
    }
    FitsFromPairs(kept, new');
  }

  lemma FitsFromPairs(kept: set<SeqRow>, new': set<SeqRow>)
    requires SeqKeysUnique(kept) && SeqKeysUnique(new')
    requires forall s, u :: s in kept && u in new' ==> !SameSeqKey(s, u)
    ensures SeqInsertFits(kept, new')
  {
    assert forall s :: SameSeqKey(s, s);
  }

  lemma NewSeqsUnique(a: nat, b: Book, st: Step, s: SeqRow, u: SeqRow)
    requires s in NewSeqs(a, b, st) && u in NewSeqs(a, b, st) && SameSeqKey(s, u)
    ensures s == u
  {
    NewSeqAt(a, b, st, s);
    NewSeqAt(a, b, st, u);
    RunsMeet(SeqInserted(SeqsOf(b.partials - st.clear, u.version), st.parts[u.version].seqs), s.range, u.range);
  }

  lemma KeptAvoidsNew(a: nat, b: Book, rows: set<SeqRow>, st: Step, s: SeqRow, u: SeqRow)
    requires forall v :: SeqsAgree(a, b.partials, rows, v)
    requires s in KeptSeqs(a, b, rows, st) && u in NewSeqs(a, b, st)
    ensures !SameSeqKey(s, u)
  {
    NewSeqAt(a, b, st, u);
    if s.actor == a && s.version == u.version {
      var v := s.version;
      var P := b.partials - st.clear;
      assert SeqsAgree(a, b.partials, rows, v);
      SeqRowsAfter(a, b, rows, st, v, s.range, s.lastSeq, s.ts);
      SeqDelta(P[v].seqs, st.parts[v].seqs);
      assert u.range.lo in SeqInserted(P[v].seqs, st.parts[v].seqs);
      assert !Near(s.range, u.range.lo);
    }
  }

  lemma SeqDeletesHit(a: nat, b: Book, rows: set<SeqRow>, st: Step, k: SeqKey)
    requires forall v :: SeqsAgree(a, b.partials, rows, v)
    requires k in RowsOf(DeltaOf(a, b, st)).seqDel
    ensures HitsOne(DropVersions(rows, RowsOf(DeltaOf(a, b, st)).verDel), k)
  {
    var d := DeltaOf(a, b, st);
    var v := k.version;
    assert k.actor == a && v in d.seqs && k.range in d.seqs[v].removed;
    var P := b.partials - st.clear;
    assert v in P && k.range in Runs(P[v].seqs);
    assert SeqsAgree(a, b.partials, rows, v);
    var s := SeqRow(a, v, k.range, P[v].lastSeq, P[v].ts);
    assert s in DropVersions(rows, RowsOf(d).verDel) && KeyOf(s) == k;
    forall u | u in rows && KeyOf(u) == k ensures u == s {
      assert u == SeqRow(a, v, k.range, u.lastSeq, u.ts);
    }
  }

  lemma KeptRows(a: nat, b: Book, rows: set<SeqRow>, st: Step, v: nat)
    requires SeqsAgree(a, b.partials, rows, v)
    ensures
      var P := b.partials - st.clear;
      var kept := KeptSeqs(a, b, rows, st);
      if v !in P then NoRows(a, v, kept)
      else if v in st.parts then RowsAre(a, v, kept, Runs(P[v].seqs) - SeqRemoved(P[v].seqs, st.parts[v].seqs), P[v])
      else RowsAre(a, v, kept, Runs(P[v].seqs), P[v])
  {
    var P := b.partials - st.clear;
    forall r: Range, l, ts
      ensures SeqRow(a, v, r, l, ts) in KeptSeqs(a, b, rows, st)
         <==> v in P && r in Runs(P[v].seqs) && l == P[v].lastSeq && ts == P[v].ts
              && !(v in st.parts && r in SeqRemoved(P[v].seqs, st.parts[v].seqs))
    {
      SeqRowsAfter(a, b, rows, st, v, r, l, ts);
    }
  }

  lemma NewRows(a: nat, b: Book, st: Step, v: nat)
    requires v in st.parts
    ensures RowsAre(a, v, NewSeqs(a, b, st),
                    Runs(SeqInserted(SeqsOf(b.partials - st.clear, v), st.parts[v].seqs)), st.parts[v])
  {
    forall r: Range, l, ts
      ensures SeqRow(a, v, r, l, ts) in NewSeqs(a, b, st)
         <==> r in Runs(SeqInserted(SeqsOf(b.partials - st.clear, v), st.parts[v].seqs))
              && l == st.parts[v].lastSeq && ts == st.parts[v].ts
    {
      NewSeqAt(a, b, st, SeqRow(a, v, r, l, ts));
    }
  }

  lemma MergedRows(a: nat, v: nat, kept: set<SeqRow>, new': set<SeqRow>, have: Partial, part: Partial)
    requires RowsAre(a, v, kept, Runs(have.seqs) - SeqRemoved(have.seqs, part.seqs), have)
    requires RowsAre(a, v, new', Runs(SeqInserted(have.seqs, part.seqs)), part)
    ensures RowsAre(a, v, kept + new', Runs(have.seqs + part.seqs), have)
       <==> (part.seqs != {} ==> SameStamp(have, part))
  {
    SeqDelta(have.seqs, part.seqs);
    if part.seqs == {} {
      assert SeqInserted(have.seqs, part.seqs) == {};
      assert Runs(SeqInserted(have.seqs, part.seqs)) == {};
    } else if !SameStamp(have, part) {
      var x :| x in part.seqs;
      var r := RunOf(SeqInserted(have.seqs, part.seqs), x);
      assert SeqRow(a, v, r, part.lastSeq, part.ts) in new';
    }
  }

  /** What one version's rows need so that they agree after the step. */
  ghost predicate StampKept(b: Book, st: Step, v: nat) {
    (v in st.parts && v in b.partials - st.clear && st.parts[v].seqs != {}) ==>
      SameStamp((b.partials - st.clear)[v], st.parts[v])
  }

  lemma NewVersionRows(a: nat, b: Book, rows: set<SeqRow>, st: Step, v: nat)
    requires SeqsAgree(a, b.partials, rows, v) && v in st.parts && v !in b.partials - st.clear
    ensures SeqsAgree(a, BookStep(b, st).partials, KeptSeqs(a, b, rows, st) + NewSeqs(a, b, st), v)
  {
    KeptRows(a, b, rows, st, v);
    NewRows(a, b, st, v);
    assert SeqRemoved({}, st.parts[v].seqs) == {};
    assert SeqInserted({}, st.parts[v].seqs) == st.parts[v].seqs;
  }

  lemma SeqsAgreeAfter(a: nat, b: Book, rows: set<SeqRow>, st: Step, v: nat)
    requires SeqsAgree(a, b.partials, rows, v)
    ensures SeqsAgree(a, BookStep(b, st).partials, KeptSeqs(a, b, rows, st) + NewSeqs(a, b, st), v)
       <==> StampKept(b, st, v)
  {
    var P := b.partials - st.clear;
    if v !in st.parts {
      KeptRows(a, b, rows, st, v);
      assert NoRows(a, v, NewSeqs(a, b, st));
    } else if v !in P {
      NewVersionRows(a, b, rows, st, v);
    } else {
      KeptRows(a, b, rows, st, v);
      NewRows(a, b, st, v);
      MergedRows(a, v, KeptSeqs(a, b, rows, st), NewSeqs(a, b, st), P[v], st.parts[v]);
    }
  }

  lemma StepWritten(a: nat, b: Book, t: Tables, st: Step)
    requires Agree(a, b, t) && KeysUnique(t)
    ensures
      var out := Exec(t, RowsOf(DeltaOf(a, b, st)));
      && out.Done? && out.effective && KeysUnique(out.tables) && OthersSame(a, t, out.tables)
  {
    var p := RowsOf(DeltaOf(a, b, st));
    GapInsertOk(a, b, t.gaps, st.versions);
    SeqInsertOk(a, b, t.seqs, st);
    forall k | k in p.seqDel ensures HitsOne(DropVersions(t.seqs, p.verDel), k) {
      SeqDeletesHit(a, b, t.seqs, st, k);
    }
    assert p.gapDel <= t.gaps;
  }

  lemma StampsKept(b: Book, st: Step)
    ensures StampsMatch(b.partials - st.clear, st.parts) <==> forall v :: StampKept(b, st, v)
  {
    if StampsMatch(b.partials - st.clear, st.parts) {
      forall v ensures StampKept(b, st, v) {}
    }
    if forall v :: StampKept(b, st, v) {
      forall v | v in st.parts && v in b.partials - st.clear && st.parts[v].seqs != {}
        ensures SameStamp((b.partials - st.clear)[v], st.parts[v])
      {
        assert StampKept(b, st, v);
      }
    }
  }

  lemma SeqTableAgrees(a: nat, b: Book, rows: set<SeqRow>, st: Step)
    requires forall v :: SeqsAgree(a, b.partials, rows, v)
    ensures (forall v :: SeqsAgree(a, BookStep(b, st).partials, KeptSeqs(a, b, rows, st) + NewSeqs(a, b, st), v))
       <==> StampsMatch(b.partials - st.clear, st.parts)
  {
    var P', rows' := BookStep(b, st).partials, KeptSeqs(a, b, rows, st) + NewSeqs(a, b, st);
    forall v ensures SeqsAgree(a, P', rows', v) <==> StampKept(b, st, v) {
      SeqsAgreeAfter(a, b, rows, st, v);
    }
    StampsKept(b, st);
    if forall v :: SeqsAgree(a, P', rows', v) {
      forall v ensures StampKept(b, st, v) { assert SeqsAgree(a, P', rows', v); }
    }
  }

  /** The tables after the step, written out. */
  lemma StepTables(a: nat, b: Book, t: Tables, st: Step)
    requires Exec(t, RowsOf(DeltaOf(a, b, st))).Done?
    ensures Exec(t, RowsOf(DeltaOf(a, b, st))).tables == Tables(
      t.gaps - GapRows(a, GapRemoved(b, st.versions)) + GapRows(a, Runs(GapInserted(b, st.versions))),
      KeptSeqs(a, b, t.seqs, st) + NewSeqs(a, b, st))
    ensures BookStep(b, st).needed == BookGaps(b, st.versions).needed
  {
  }

  /** The central step theorem. From tables that agree with the book, the rows computed for a
      step always fit, every delete hits exactly one row, other actors' rows are untouched,
      and the tables agree with the new book exactly when no gap run is stranded and merged
      parts carry the stamps already in the book. */
  lemma StepAgrees(a: nat, b: Book, t: Tables, st: Step)
    requires Agree(a, b, t) && KeysUnique(t)
    ensures
      var out := Exec(t, RowsOf(DeltaOf(a, b, st)));
      && out.Done? && out.effective
      && KeysUnique(out.tables) && OthersSame(a, t, out.tables)
      && (Agree(a, BookStep(b, st), out.tables)
          <==> !Stranded(b, st.versions) && StampsMatch(b.partials - st.clear, st.parts))
  {
    StepWritten(a, b, t, st);
    StepTables(a, b, t, st);
    GapsAgreeAfter(a, b, t.gaps, st.versions);
    SeqTableAgrees(a, b, t.seqs, st);
  }
}
