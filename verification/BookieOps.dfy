/** The operations that change a book and its rows together, loading, and gap collapsing. */
module BookieOps {
  import opened RangeSets
  import opened Books
  import opened Tables
  import opened GapCollapse
  import opened BookSystem
  import opened BookedVersionsModel
  import opened BookieDb

  /** What a write of one step leaves behind, given that book and rows agreed before: nothing
      fails, every delete hits one row, other actors' rows are untouched, and book and rows
      agree again exactly when no gap run is stranded and stamps match. */
  ghost predicate WellWritten(r: Status, a: nat, b: Book, t: Tables, t': Tables, st: Step) {
    && r == Ok(true) && KeysUnique(t') && OthersSame(a, t, t')
    && (Agree(a, BookStep(b, st), t') <==> !Stranded(b, st.versions) && StampsMatch(b.partials - st.clear, st.parts))
  }

  method Write(conn: Conn, c: ComputedChanges, ghost b: Book, ghost st: Step) returns (r: Status)
    requires conn.Valid() && GoodChanges(c) && AbsChanges(c) == DeltaOf(c.actor, b, st)
    modifies conn`gaps, conn`seqs
    ensures old(Agree(c.actor, b, conn.State())) ==> WellWritten(r, c.actor, b, old(conn.State()), conn.State(), st)
  {
    ghost var t := conn.State();
    var p := FromChanges([c]);
    OneDelta(AbsChanges(c));
    assert AbsAll([c]) == [AbsChanges(c)];
    r := conn.Execute(p);
    if Agree(c.actor, b, t) {
      StepAgrees(c.actor, b, t, st);
    }
  }

  lemma OneDelta(d: Delta)
    ensures RowsOfAll([d]) == RowsOf(d)
  {
    assert [d][..0] == [];
    assert RowsOfAll([d]) == Union(NoRowSets(), RowsOf(d));
  }

  /** Book versions and write the gap rows. */
  method InsertDb(bv: BookedVersions, conn: Conn, versions: seq<Range>) returns (r: Status)
    requires bv.Valid() && conn.Valid() && Canonical(versions)
    modifies bv, conn`gaps, conn`seqs
    ensures bv.Valid() && bv.Abs() == BookStep(old(bv.Abs()), Step(Elems(versions), {}, map[]))
    ensures old(Agree(bv.actor, bv.Abs(), conn.State())) ==>
      WellWritten(r, bv.actor, old(bv.Abs()), old(conn.State()), conn.State(), Step(Elems(versions), {}, map[]))
  {
    ghost var b, st := bv.Abs(), Step(Elems(versions), {}, map[]);
    GapsOnlyStep(bv.actor, b, Elems(versions));
    var gaps := bv.ComputeAndApplyGaps(versions);
    r := Write(conn, ComputedChanges(bv.actor, gaps, [], []), b, st);
  }

  /** Drop partial versions that are now complete, in the book and in the rows. */
  method ClearPartials(bv: BookedVersions, conn: Conn, versions: seq<Range>) returns (r: Status)
    requires bv.Valid() && conn.Valid() && Canonical(versions)
    modifies bv, conn`gaps, conn`seqs
    ensures bv.Valid() && bv.Abs() == BookStep(old(bv.Abs()), Step({}, Elems(versions), map[]))
    ensures old(Agree(bv.actor, bv.Abs(), conn.State())) ==>
      WellWritten(r, bv.actor, old(bv.Abs()), old(conn.State()), conn.State(), Step({}, Elems(versions), map[]))
  {
    ghost var b, st := bv.Abs(), Step({}, Elems(versions), map[]);
    ClearOnlyStep(bv.actor, b, Elems(versions));
    var cleared := bv.ComputeAndApplyClearPartials(versions);
    r := Write(conn, ComputedChanges(bv.actor, GapsChanges(None, [], {}), cleared, []), b, st);
  }

  /** Merge parts of versions and write their sequence rows. */
  method InsertPartialsDb(bv: BookedVersions, conn: Conn, parts: map<nat, PartialVersion>)
    returns (r: Status, completed: seq<nat>)
    requires bv.Valid() && conn.Valid() && GoodPartials(parts)
    modifies bv, conn`gaps, conn`seqs
    ensures bv.Valid() && bv.Abs() == BookStep(old(bv.Abs()), Step({}, {}, AbsPartials(parts)))
    ensures CompletedIs(completed, AbsPartials(parts), bv.Abs().partials)
    ensures old(Agree(bv.actor, bv.Abs(), conn.State())) ==>
      WellWritten(r, bv.actor, old(bv.Abs()), old(conn.State()), conn.State(), Step({}, {}, AbsPartials(parts)))
  {
    ghost var b, st := bv.Abs(), Step({}, {}, AbsPartials(parts));
    PartsOnlyStep(bv.actor, b, AbsPartials(parts));
    var changes;
    changes, completed := bv.ComputeAndApplyPartials(parts);
    r := Write(conn, ComputedChanges(bv.actor, GapsChanges(None, [], {}), [], changes), b, st);
  }

  /** Book one batch and write its rows. */
  method BookBatchDb(bv: BookedVersions, conn: Conn, processed: seq<Processed>) returns (r: Status, completed: seq<nat>)
    requires bv.Valid() && conn.Valid() && forall i :: 0 <= i < |processed| ==> GoodEntry(processed[i])
    modifies bv, conn`gaps, conn`seqs
    ensures bv.Valid() && bv.Abs() == BookStep(old(bv.Abs()), BatchStep(AbsEntries(processed)))
    ensures CompletedIs(completed, BatchPartials(AbsEntries(processed)), bv.Abs().partials)
    ensures old(Agree(bv.actor, bv.Abs(), conn.State())) ==>
      WellWritten(r, bv.actor, old(bv.Abs()), old(conn.State()), conn.State(), BatchStep(AbsEntries(processed)))
  {
    ghost var b, st := bv.Abs(), BatchStep(AbsEntries(processed));
    BookStepBatch(b, AbsEntries(processed));
    var c;
    c, completed := bv.ComputeAndApply(processed);
    r := Write(conn, c, b, st);
  }

  // ---------------------------------------------------------------- loading

  /** The partial versions built from some sequence rows of one actor. */
  ghost predicate LoadedFrom(m: map<nat, PartialVersion>, rows: set<SeqRow>) {
    forall v :: LoadedAt(m, rows, v)
  }

  ghost predicate LoadedAt(m: map<nat, PartialVersion>, rows: set<SeqRow>, v: nat) {
    if v in m then
      && (forall x: nat :: x in Elems(m[v].seqs) <==> exists s :: s in rows && s.version == v && Within(s.range, x))
      && exists s :: s in rows && s.version == v && s.lastSeq == m[v].lastSeq && s.ts == m[v].ts
    else
      forall s :: s in rows ==> s.version != v
  }

  lemma LoadOne(m: map<nat, PartialVersion>, rows: set<SeqRow>, row: SeqRow, now: PartialVersion)
    requires LoadedFrom(m, rows)
    requires AbsPartial(now) == Merge(Lookup(AbsPartials(m), row.version),
        Partial(Values(row.range), row.lastSeq, row.ts))
    ensures LoadedFrom(m[row.version := now], rows + {row})
  {
    var m', rows' := m[row.version := now], rows + {row};
    forall v ensures LoadedAt(m', rows', v) {
      assert LoadedAt(m, rows, v);
      if v == row.version { LoadOwn(m, rows, row, now); } else { LoadOther(m, rows, row, now, v); }
    }
  }

  lemma LoadOwn(m: map<nat, PartialVersion>, rows: set<SeqRow>, row: SeqRow, now: PartialVersion)
    requires LoadedAt(m, rows, row.version)
    requires AbsPartial(now) == Merge(Lookup(AbsPartials(m), row.version),
        Partial(Values(row.range), row.lastSeq, row.ts))
    ensures LoadedAt(m[row.version := now], rows + {row}, row.version)
  {
    var v, rows' := row.version, rows + {row};
    assert row in rows';
    forall x: nat ensures x in Elems(now.seqs) <==> exists s :: s in rows' && s.version == v && Within(s.range, x) {
      if v in m && x in Elems(m[v].seqs) {
        var s :| s in rows && s.version == v && Within(s.range, x);
        assert s in rows';
      }
    }
    if v in m {
      var s :| s in rows && s.version == v && s.lastSeq == m[v].lastSeq && s.ts == m[v].ts;
      assert s in rows';
    }
  }

  lemma LoadOther(m: map<nat, PartialVersion>, rows: set<SeqRow>, row: SeqRow, now: PartialVersion, v: nat)
    requires LoadedAt(m, rows, v) && v != row.version
    ensures LoadedAt(m[row.version := now], rows + {row}, v)
  {
    var rows' := rows + {row};
    if v in m {
      forall x: nat ensures x in Elems(m[v].seqs) <==> exists s :: s in rows' && s.version == v && Within(s.range, x) {
        if s :| s in rows && s.version == v && Within(s.range, x) { assert s in rows'; }
      }
      var s :| s in rows && s.version == v && s.lastSeq == m[v].lastSeq && s.ts == m[v].ts;
      assert s in rows';
    }
  }

  /** Load the book of `actor`; `dbMax` is the version the change database reports. */
  method FromConn(conn: Conn, actor: nat, dbMax: Option<nat>) returns (bv: BookedVersions)
    ensures fresh(bv) && bv.Valid() && bv.actor == actor
    ensures IsReload(actor, conn.State(), bv.Abs().needed, bv.Abs().partials)
    ensures bv.max == OptMax(dbMax, GreatestOpt(bv.partials.Keys))
  {
    bv := new BookedVersions(actor);
    bv.max := dbMax;
    LoadPartials(conn, bv);
    LoadNeeded(conn, bv);
    LoadedIsReload(actor, conn.State(), bv.Abs().needed, bv.partials, OwnSeqs(actor, conn.seqs));
  }

  function OwnSeqs(a: nat, rows: set<SeqRow>): set<SeqRow> {
    set s | s in rows && s.actor == a
  }

  lemma RaisedMax(m: Option<nat>, V: set<nat>, v: nat)
    ensures v !in V ==> OptMax(OptMax(m, GreatestOpt(V)), Some(v)) == OptMax(m, GreatestOpt(V + {v}))
    ensures v in V ==> V + {v} == V
  {
    GreatestUnion(V, {v});
    assert GreatestOpt({v}) == Some(v);
  }

  /** One sequence row. */
  method LoadRow(bv: BookedVersions, row: SeqRow, ghost read: set<SeqRow>, ghost start: Option<nat>)
    requires bv.Valid() && LoadedFrom(bv.partials, read) && bv.max == OptMax(start, GreatestOpt(bv.partials.Keys))
    modifies bv`partials, bv`max
    ensures bv.Valid() && LoadedFrom(bv.partials, read + {row})
    ensures bv.max == OptMax(start, GreatestOpt(bv.partials.Keys))
  {
    ghost var before := bv.partials;
    var merged := bv.InsertPartial(row.version, PartialVersion([row.range], row.lastSeq, row.ts));
    assert Elems([row.range]) == Values(row.range);
    LoadOne(before, read, row, merged);
    RaisedMax(start, before.Keys, row.version);
    assert bv.partials.Keys == before.Keys + {row.version};
  }

  method LoadPartials(conn: Conn, bv: BookedVersions)
    requires bv.Valid() && bv.needed == [] && bv.partials == map[]
    modifies bv`partials, bv`max
    ensures bv.Valid() && LoadedFrom(bv.partials, OwnSeqs(bv.actor, conn.seqs))
    ensures bv.max == OptMax(old(bv.max), GreatestOpt(bv.partials.Keys))
  {
    var todo := OwnSeqs(bv.actor, conn.seqs);
    ghost var all, read: set<SeqRow> := todo, {};
    while todo != {}
      invariant todo <= all && read == all - todo
      invariant bv.Valid() && LoadedFrom(bv.partials, read)
      invariant bv.max == OptMax(old(bv.max), GreatestOpt(bv.partials.Keys))
      decreases todo
    {
      var s :| s in todo;
      LoadRow(bv, s, read, old(bv.max));
      read := read + {s};
      todo := todo - {s};
    }
    assert read == all;
  }

  method LoadNeeded(conn: Conn, bv: BookedVersions)
    requires bv.Valid() && bv.needed == []
    modifies bv`needed
    ensures bv.Valid() && Elems(bv.needed) == Covered(GapRanges(bv.actor, conn.State()))
  {
    var rows := set g | g in conn.gaps && g.actor == bv.actor;
    ghost var all, read: seq<Range> := rows, [];
    while rows != {}
      invariant rows <= all && bv.Valid() && Elems(bv.needed) == Elems(read)
      invariant Listed(read) == set g | g in all - rows :: g.range
      decreases rows
    {
      var g :| g in rows;
      bv.needed := Insert(bv.needed, g.range);
      ElemsConcat(read, [g.range]);
      read := read + [g.range];
      rows := rows - {g};
    }
    CoveredListed(read);
    assert Listed(read) == GapRanges(bv.actor, conn.State());
  }

  lemma LoadedIsReload(a: nat, t: Tables, needed: set<nat>, m: map<nat, PartialVersion>, rows: set<SeqRow>)
    requires rows == OwnSeqs(a, t.seqs) && LoadedFrom(m, rows)
    requires needed == Covered(GapRanges(a, t))
    ensures IsReload(a, t, needed, AbsPartials(m))
  {
    var P := AbsPartials(m);
    forall v ensures v in P <==> v in (set s | s in t.seqs && s.actor == a :: s.version) {
      assert LoadedAt(m, rows, v);
      if v in P { var s :| s in rows && s.version == v; }
    }
    forall v | v in P
      ensures P[v].seqs == Covered(SeqRanges(a, t, v))
      ensures exists s :: s in t.seqs && s.actor == a && s.version == v && HasStamp(P[v], (s.lastSeq, s.ts))
    {
      assert LoadedAt(m, rows, v);
      LoadedSeqs(a, t, m, rows, v);
      var s :| s in rows && s.version == v && s.lastSeq == m[v].lastSeq && s.ts == m[v].ts;
      assert s in t.seqs && HasStamp(P[v], (s.lastSeq, s.ts));
    }
  }

  lemma LoadedSeqs(a: nat, t: Tables, m: map<nat, PartialVersion>, rows: set<SeqRow>, v: nat)
    requires rows == OwnSeqs(a, t.seqs) && LoadedFrom(m, rows) && v in m
    ensures Elems(m[v].seqs) == Covered(SeqRanges(a, t, v))
  {
    assert LoadedAt(m, rows, v);
    forall x: nat ensures x in Elems(m[v].seqs) <==> x in Covered(SeqRanges(a, t, v)) {
      if x in Elems(m[v].seqs) {
        var s :| s in rows && s.version == v && Within(s.range, x);
        assert s.range in SeqRanges(a, t, v);
      }
      if x in Covered(SeqRanges(a, t, v)) {
        var r :| r in SeqRanges(a, t, v) && Within(r, x);
        var s :| s in t.seqs && s.actor == a && s.version == v && s.range == r;
        assert s in rows;
      }
    }
  }

  // ---------------------------------------------------------------- collapsing gaps

  /** Buffered versions of `a` that have no sequence row. */
  function Unbooked(a: nat, seqs: set<SeqRow>, buffered: set<(nat, nat)>): set<nat> {
    set k | k in buffered && k.0 == a && !exists s :: s in seqs && s.actor == a && s.version == k.1 :: k.1
  }

  /** Rewrite the gap rows of one actor from its book, its old rows and its unbooked buffered
      versions. `bv` is the working copy that is published afterwards. */
  method CollapseGaps(conn: Conn, bv: BookedVersions) returns (deleted: nat, inserted: nat)
    requires conn.Valid() && bv.Valid()
    modifies conn`gaps, bv`needed
    ensures conn.Valid() && bv.Valid()
    ensures bv.Abs() == CollapseBook(bv.actor, old(bv.Abs()), old(conn.State()),
        Unbooked(bv.actor, conn.seqs, conn.buffered))
    ensures forall x: nat :: x in Elems(bv.needed) <==>
      || x in old(Elems(bv.needed))
      || (exists g :: g in old(conn.gaps) && g.actor == bv.actor && Within(g.range, x))
      || ((bv.actor, x) in conn.buffered && !exists s :: s in conn.seqs && s.actor == bv.actor && s.version == x)
    ensures conn.State() == CollapseTables(bv.actor, bv.Abs(), old(conn.State()))
    ensures GapsAgree(bv.actor, Elems(bv.needed), conn.gaps) && OthersSame(bv.actor, old(conn.State()), conn.State())
    ensures forall v :: v in Unbooked(bv.actor, conn.seqs, conn.buffered) ==> NoRows(bv.actor, v, conn.seqs)
    ensures deleted == |set g | g in old(conn.gaps) && g.actor == bv.actor|
    ensures inserted == |bv.needed|
  {
    var a := bv.actor;
    var rows := set g | g in conn.gaps && g.actor == a;
    deleted := |rows|;
    var known := RangesInAnyOrder(set g | g in rows :: g.range);
    conn.gaps := conn.gaps - rows;
    assert conn.gaps == set g | g in old(conn.gaps) && g.actor != a;
    CoveredListed(known);
    assert Listed(known) == old(GapRanges(a, conn.State()));
    AddNeeded(bv, known, Unbooked(a, conn.seqs, conn.buffered));
    CollapseNeedsExactly(a, old(bv.Abs()), old(conn.State()), conn.seqs, conn.buffered, bv.Abs().needed);
    inserted := InsertOwn(conn, a, bv.needed);
  }

  lemma CollapseNeedsExactly(a: nat, b: Book, t: Tables, seqs: set<SeqRow>, buffered: set<(nat, nat)>, needed: set<nat>)
    requires needed == CollapseBook(a, b, t, Unbooked(a, seqs, buffered)).needed
    ensures forall x: nat :: x in needed <==>
      || x in b.needed
      || (exists g :: g in t.gaps && g.actor == a && Within(g.range, x))
      || ((a, x) in buffered && !exists s :: s in seqs && s.actor == a && s.version == x)
  {
    var lone := Unbooked(a, seqs, buffered);
    forall x: nat ensures x in needed <==>
      || x in b.needed
      || (exists g :: g in t.gaps && g.actor == a && Within(g.range, x))
      || ((a, x) in buffered && !exists s :: s in seqs && s.actor == a && s.version == x)
    {
      CollapseNeeds(a, b, t, lone, x);
      assert x in lone <==> (a, x) in buffered && !exists s :: s in seqs && s.actor == a && s.version == x by {
        if x in lone {
          var k :| k in buffered && k.0 == a && k.1 == x && !exists s :: s in seqs && s.actor == a && s.version == k.1;
          assert k == (a, x);
        }
      }
    }
  }

  /** The two calls of `insert_gaps`. */
  method AddNeeded(bv: BookedVersions, known: seq<Range>, lone: set<nat>)
    requires bv.Valid()
    modifies bv`needed
    ensures bv.Valid() && bv.Abs() == old(bv.Abs()).(needed := old(Elems(bv.needed)) + Elems(known) + lone)
  {
    var singles := Singles(lone);
    bv.needed := InsertEach(bv.needed, known);
    bv.needed := InsertEach(bv.needed, singles);
  }

  /** The given versions as ranges of one version each. */
  method Singles(vs: set<nat>) returns (s: seq<Range>)
    ensures Elems(s) == vs
  {
    s := [];
    var todo := vs;
    while todo != {}
      invariant todo <= vs && Elems(s) == vs - todo
      decreases todo
    {
      var v :| v in todo;
      assert Values(Span(v, v)) == {v};
      assert Elems([Span(v, v)]) == {v};
      ElemsConcat(s, [Span(v, v)]);
      s := s + [Span(v, v)];
      todo := todo - {v};
    }
  }

  /** One insert per needed range, into a table that holds no row of the actor. */
  method InsertOwn(conn: Conn, a: nat, ranges: seq<Range>) returns (inserted: nat)
    requires conn.Valid() && Canonical(ranges) && forall g :: g in conn.gaps ==> g.actor != a
    modifies conn`gaps
    ensures conn.Valid() && conn.gaps == old(conn.gaps) + GapRows(a, Runs(Elems(ranges)))
    ensures inserted == |ranges|
  {
    inserted := 0;
    for i := 0 to |ranges|
      invariant inserted == i && GapKeysUnique(conn.gaps) && SeqKeysUnique(conn.seqs)
      invariant conn.gaps == old(conn.gaps) + GapRows(a, Listed(ranges[..i]))
    {
      var row := GapRow(a, ranges[i]);
      assert ranges[..i + 1] == ranges[..i] + [ranges[i]];
      assert forall g :: g in conn.gaps ==> !SameGapKey(g, row);
      conn.gaps := conn.gaps + {row};
      inserted := inserted + 1;
    }
    assert ranges[..|ranges|] == ranges;
    CanonicalRuns(ranges);
  }
}
