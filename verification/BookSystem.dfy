/** Books of all actors next to the shared tables: agreement over every run, reloading, and
    writing several actors' deltas as one. */
module BookSystem {
  import opened RangeSets
  import opened Books
  import opened Tables
  import opened BookRuns

  datatype Sys = Sys(books: map<nat, Book>, tables: Tables)

  datatype Event = Event(actor: nat, op: Op)

  datatype Result = Fine(sys: Sys) | Broken

  const EMPTY_SYS := Sys(map[], Tables({}, {}))

  function BookOf(books: map<nat, Book>, a: nat): Book {
    if a in books then books[a] else EMPTY_BOOK
  }

  /** Change one book in memory and write its delta; broken if a statement fails or a delete
      misses. */
  ghost function Apply(s: Sys, e: Event): Result {
    var b := BookOf(s.books, e.actor);
    var out := Exec(s.tables, RowsOf(DeltaOf(e.actor, b, StepOf(e.op))));
    if out.Done? && out.effective then
      Fine(Sys(s.books[e.actor := BookStep(b, StepOf(e.op))], out.tables))
    else Broken
  }

  ghost function Run(evs: seq<Event>): Result {
    if evs == [] then Fine(EMPTY_SYS)
    else
      var r := Run(evs[..|evs| - 1]);
      if r.Broken? then Broken else Apply(r.sys, evs[|evs| - 1])
  }

  function OpsOf(evs: seq<Event>, a: nat): seq<Op> {
    if evs == [] then []
    else OpsOf(evs[..|evs| - 1], a) + (if evs[|evs| - 1].actor == a then [evs[|evs| - 1].op] else [])
  }

  /** One last sequence and one time for each version of each actor. */
  type Stamps = (nat, nat) -> (nat, nat)

  predicate HasStamp(p: Partial, stamp: (nat, nat)) {
    p.lastSeq == stamp.0 && p.ts == stamp.1
  }

  predicate Stamped(e: Event, stamps: Stamps) {
    e.op.Batch? ==>
      forall i :: 0 <= i < |e.op.entries| && e.op.entries[i].partial.Some? ==>
        HasStamp(e.op.entries[i].partial.value, stamps(e.actor, e.op.entries[i].versions.lo))
  }

  predicate PartialsStamped(P: map<nat, Partial>, a: nat, stamps: Stamps) {
    forall v :: v in P ==> HasStamp(P[v], stamps(a, v))
  }

  lemma {:induction false} BatchStamped(es: seq<Entry>, a: nat, stamps: Stamps)
    requires Stamped(Event(a, Batch(es)), stamps)
    ensures PartialsStamped(BatchPartials(es), a, stamps)
  {
    if es != [] {
      assert Stamped(Event(a, Batch(es[..|es| - 1])), stamps);
      BatchStamped(es[..|es| - 1], a, stamps);
    }
  }

  ghost predicate SysInv(s: Sys, evs: seq<Event>, stamps: Stamps) {
    && KeysUnique(s.tables)
    && forall a :: ActorInv(s, evs, stamps, a)
  }

  ghost predicate ActorInv(s: Sys, evs: seq<Event>, stamps: Stamps, a: nat) {
    && BookOf(s.books, a) == RunBook(OpsOf(evs, a))
    && Agree(a, BookOf(s.books, a), s.tables)
    && PartialsStamped(BookOf(s.books, a).partials, a, stamps)
  }

  lemma OthersAgree(a: nat, c: nat, b: Book, t: Tables, t': Tables)
    requires a != c && OthersSame(a, t, t') && Agree(c, b, t)
    ensures Agree(c, b, t')
  {
    forall r: Range ensures GapRow(c, r) in t'.gaps <==> r in Runs(b.needed) {
      assert GapRow(c, r) in t'.gaps <==> GapRow(c, r) in t.gaps;
    }
    forall v ensures SeqsAgree(c, b.partials, t'.seqs, v) {
      assert SeqsAgree(c, b.partials, t.seqs, v);
      assert forall r: Range, l, ts :: SeqRow(c, v, r, l, ts) in t'.seqs <==> SeqRow(c, v, r, l, ts) in t.seqs;
    }
  }

  /** The written step of one actor. */
  lemma ActorStep(b: Book, t: Tables, ops: seq<Op>, e: Event, stamps: Stamps)
    requires Agree(e.actor, b, t) && KeysUnique(t) && b == RunBook(ops)
    requires PartialsStamped(b.partials, e.actor, stamps) && Stamped(e, stamps)
    ensures
      var st := StepOf(e.op);
      var out := Exec(t, RowsOf(DeltaOf(e.actor, b, st)));
      && out.Done? && out.effective && KeysUnique(out.tables) && OthersSame(e.actor, t, out.tables)
      && Agree(e.actor, BookStep(b, st), out.tables) && PartialsStamped(BookStep(b, st).partials, e.actor, stamps)
  {
    var st := StepOf(e.op);
    StepAgrees(e.actor, b, t, st);
    RunGapInv(ops);
    BelowMaxNotStranded(b, Booked(ops), st.versions);
    OpStamped(b, e, stamps);
  }

  /** Parts with their stamps match those already here, and keep them. */
  lemma OpStamped(b: Book, e: Event, stamps: Stamps)
    requires PartialsStamped(b.partials, e.actor, stamps) && Stamped(e, stamps)
    ensures StampsMatch(b.partials - StepOf(e.op).clear, StepOf(e.op).parts)
    ensures PartialsStamped(BookStep(b, StepOf(e.op)).partials, e.actor, stamps)
  {
    var st := StepOf(e.op);
    if e.op.Batch? { BatchStamped(e.op.entries, e.actor, stamps); }
    StampedMatch(b.partials - st.clear, st.parts, e.actor, stamps);
    StepKeepsStamps(b, st, e.actor, stamps);
  }

  lemma StampedMatch(P: map<nat, Partial>, parts: map<nat, Partial>, a: nat, stamps: Stamps)
    requires PartialsStamped(P, a, stamps) && PartialsStamped(parts, a, stamps)
    ensures StampsMatch(P, parts)
  {
  }

  lemma ApplyKeepsInv(s: Sys, evs: seq<Event>, e: Event, stamps: Stamps)
    requires SysInv(s, evs, stamps) && Stamped(e, stamps)
    ensures Apply(s, e).Fine? && SysInv(Apply(s, e).sys, evs + [e], stamps)
  {
    var a := e.actor;
    assert ActorInv(s, evs, stamps, a);
    ActorStep(BookOf(s.books, a), s.tables, OpsOf(evs, a), e, stamps);
    var s' := Apply(s, e).sys;
    forall c ensures ActorInv(s', evs + [e], stamps, c) {
      OpsSnoc(evs, e, c);
      assert ActorInv(s, evs, stamps, c);
      if c == a {
        RunSnoc(OpsOf(evs, a), e.op);
      } else {
        OthersAgree(a, c, BookOf(s.books, c), s.tables, s'.tables);
      }
    }
  }

  lemma OpsSnoc(evs: seq<Event>, e: Event, a: nat)
    ensures OpsOf(evs + [e], a) == if e.actor == a then OpsOf(evs, a) + [e.op] else OpsOf(evs, a)
  {
    assert (evs + [e])[..|evs + [e]| - 1] == evs;
  }

  lemma RunSnoc(ops: seq<Op>, op: Op)
    ensures RunBook(ops + [op]) == BookStep(RunBook(ops), StepOf(op))
  {
    assert (ops + [op])[..|ops + [op]| - 1] == ops;
  }

  lemma StepKeepsStamps(b: Book, st: Step, a: nat, stamps: Stamps)
    requires PartialsStamped(b.partials, a, stamps) && PartialsStamped(st.parts, a, stamps)
    ensures PartialsStamped(BookStep(b, st).partials, a, stamps)
  {
  }

  /** Over every run of every mix of actors, no statement fails, every delete hits exactly one
      row, and the rows of each actor are exactly the maximal ranges of its book. */
  lemma {:induction false} MemoryAndTablesAgree(evs: seq<Event>, stamps: Stamps)
    requires forall i :: 0 <= i < |evs| ==> Stamped(evs[i], stamps)
    ensures Run(evs).Fine? && SysInv(Run(evs).sys, evs, stamps)
  {
    if evs == [] {
      assert forall a :: Runs(BookOf(map[], a).needed) == {};
    } else {
      var init := evs[..|evs| - 1];
      MemoryAndTablesAgree(init, stamps);
      ApplyKeepsInv(Run(init).sys, init, evs[|evs| - 1], stamps);
      assert init + [evs[|evs| - 1]] == evs;
    }
  }

  // ---------------------------------------------------------------- reloading

  ghost function SeqRanges(a: nat, t: Tables, v: nat): set<Range> {
    set s | s in t.seqs && s.actor == a && s.version == v :: s.range
  }

  /** What loading actor `a` from the tables yields: rows of a version merge into one partial
      version, which keeps the stamp of one of its rows. */
  ghost predicate IsReload(a: nat, t: Tables, needed: set<nat>, P: map<nat, Partial>) {
    && needed == Covered(GapRanges(a, t))
    && P.Keys == (set s | s in t.seqs && s.actor == a :: s.version)
    && forall v :: v in P ==>
         && P[v].seqs == Covered(SeqRanges(a, t, v))
         && exists s :: s in t.seqs && s.actor == a && s.version == v && HasStamp(P[v], (s.lastSeq, s.ts))
  }

  lemma ReloadNeeded(a: nat, b: Book, t: Tables)
    requires Agree(a, b, t)
    ensures Covered(GapRanges(a, t)) == b.needed
  {
    assert GapRanges(a, t) == Runs(b.needed) by {
      forall r: Range ensures r in GapRanges(a, t) <==> r in Runs(b.needed) {
        assert GapRow(a, r) in t.gaps <==> r in Runs(b.needed);
      }
    }
    CoveredRuns(b.needed);
  }

  lemma ReloadVersion(a: nat, b: Book, t: Tables, needed: set<nat>, P: map<nat, Partial>, v: nat)
    requires Agree(a, b, t) && IsReload(a, t, needed, P)
    ensures v in P <==> v in b.partials && b.partials[v].seqs != {}
    ensures v in P ==> P[v] == b.partials[v]
  {
    LoadedVersion(a, b, t, v);
    if v in P {
      assert SeqsAgree(a, b.partials, t.seqs, v);
      var s :| s in t.seqs && s.actor == a && s.version == v && HasStamp(P[v], (s.lastSeq, s.ts));
      assert s == SeqRow(a, v, s.range, s.lastSeq, s.ts);
    }
  }

  /** Loading gives back the needed versions always, and the partial versions exactly when
      none of them is empty. */
  lemma ReloadGivesBook(a: nat, b: Book, t: Tables, needed: set<nat>, P: map<nat, Partial>)
    requires Agree(a, b, t) && IsReload(a, t, needed, P)
    ensures needed == b.needed
    ensures P == b.partials <==> forall v :: v in b.partials ==> b.partials[v].seqs != {}
  {
    ReloadNeeded(a, b, t);
    forall v ensures (v in P <==> v in b.partials && b.partials[v].seqs != {}) && (v in P ==> P[v] == b.partials[v]) {
      ReloadVersion(a, b, t, needed, P, v);
    }
    if forall v :: v in b.partials ==> b.partials[v].seqs != {} {
      assert P.Keys == b.partials.Keys;
    }
  }

  lemma LoadedVersion(a: nat, b: Book, t: Tables, v: nat)
    requires Agree(a, b, t)
    ensures v in b.partials ==> Covered(SeqRanges(a, t, v)) == b.partials[v].seqs
    ensures v in (set s | s in t.seqs && s.actor == a :: s.version) <==> v in b.partials && b.partials[v].seqs != {}
  {
    assert SeqsAgree(a, b.partials, t.seqs, v);
    if v in b.partials {
      LoadedRanges(a, t, v, b.partials[v]);
      CoveredRuns(b.partials[v].seqs);
    } else {
      forall s | s in t.seqs && s.actor == a ensures s.version != v {
        assert s == SeqRow(a, s.version, s.range, s.lastSeq, s.ts);
      }
    }
  }

  lemma LoadedRanges(a: nat, t: Tables, v: nat, p: Partial)
    requires RowsAre(a, v, t.seqs, Runs(p.seqs), p)
    ensures SeqRanges(a, t, v) == Runs(p.seqs)
    ensures v in (set s | s in t.seqs && s.actor == a :: s.version) <==> p.seqs != {}
  {
    forall s | s in t.seqs && s.actor == a && s.version == v ensures s.range in Runs(p.seqs) && s.range.lo in p.seqs {
      assert s == SeqRow(a, v, s.range, s.lastSeq, s.ts);
    }
    forall r | r in Runs(p.seqs) ensures r in SeqRanges(a, t, v) {
      assert SeqRow(a, v, r, p.lastSeq, p.ts) in t.seqs;
    }
    if p.seqs != {} {
      var x :| x in p.seqs;
      var r := RunOf(p.seqs, x);
      assert SeqRow(a, v, r, p.lastSeq, p.ts) in t.seqs;
    }
  }

  lemma NoEmptyPart(ops: seq<Op>, P: map<nat, Partial>)
    requires P == RunBook(ops).partials
    ensures (forall v :: v in P ==> P[v].seqs != {}) <==> forall v :: !LeftEmpty(ops, v)
  {
    forall v ensures v in P && P[v].seqs == {} <==> LeftEmpty(ops, v) { EmptyPartLeft(ops, v); }
    if v :| LeftEmpty(ops, v) { assert v in P && P[v].seqs == {}; }
    if v :| v in P && P[v].seqs == {} { assert LeftEmpty(ops, v); }
  }

  lemma RunAgrees(evs: seq<Event>, stamps: Stamps, a: nat)
    requires forall i :: 0 <= i < |evs| ==> Stamped(evs[i], stamps)
    ensures Run(evs).Fine?
    ensures BookOf(Run(evs).sys.books, a) == RunBook(OpsOf(evs, a))
    ensures Agree(a, RunBook(OpsOf(evs, a)), Run(evs).sys.tables)
  {
    MemoryAndTablesAgree(evs, stamps);
    assert ActorInv(Run(evs).sys, evs, stamps, a);
  }

  /** After every run, loading an actor gives back the needed versions, and gives back the partial
      versions exactly if no version was left with an empty part. */
  lemma ReloadAfterRun(evs: seq<Event>, stamps: Stamps, a: nat, needed: set<nat>, P: map<nat, Partial>)
    requires forall i :: 0 <= i < |evs| ==> Stamped(evs[i], stamps)
    requires Run(evs).Fine? && IsReload(a, Run(evs).sys.tables, needed, P)
    ensures needed == BookOf(Run(evs).sys.books, a).needed
    ensures P == BookOf(Run(evs).sys.books, a).partials <==> forall v :: !LeftEmpty(OpsOf(evs, a), v)
  {
    RunAgrees(evs, stamps, a);
    ReloadGivesBook(a, RunBook(OpsOf(evs, a)), Run(evs).sys.tables, needed, P);
    NoEmptyPart(OpsOf(evs, a), RunBook(OpsOf(evs, a)).partials);
  }

  lemma {:induction false} OpsFull(evs: seq<Event>, a: nat)
    requires forall i :: 0 <= i < |evs| ==> FullParts(evs[i].op)
    ensures forall i :: 0 <= i < |OpsOf(evs, a)| ==> FullParts(OpsOf(evs, a)[i])
  {
    if evs != [] { OpsFull(evs[..|evs| - 1], a); }
  }

  /** After every run that brings no empty part, loading gives back every actor. */
  lemma ReloadIsLossless(evs: seq<Event>, stamps: Stamps, a: nat, needed: set<nat>, P: map<nat, Partial>)
    requires forall i :: 0 <= i < |evs| ==> Stamped(evs[i], stamps) && FullParts(evs[i].op)
    requires Run(evs).Fine? && IsReload(a, Run(evs).sys.tables, needed, P)
    ensures needed == BookOf(Run(evs).sys.books, a).needed && P == BookOf(Run(evs).sys.books, a).partials
  {
    ReloadAfterRun(evs, stamps, a, needed, P);
    OpsFull(evs, a);
    forall v ensures !LeftEmpty(OpsOf(evs, a), v) { FullPartsStayFull(OpsOf(evs, a), v); }
  }

  // ---------------------------------------------------------------- one write for many actors

  function NoRowSets(): RowSets {
    RowSets({}, {}, {}, {}, {})
  }

  function Union(p: RowSets, q: RowSets): RowSets {
    RowSets(p.gapDel + q.gapDel, p.gapIns + q.gapIns, p.verDel + q.verDel, p.seqDel + q.seqDel, p.seqIns + q.seqIns)
  }

  /** All rows of `p` belong to actors in `A`. */
  predicate Only(p: RowSets, A: set<nat>) {
    && (forall g :: g in p.gapDel ==> g.actor in A)
    && (forall g :: g in p.gapIns ==> g.actor in A)
    && (forall k :: k in p.verDel ==> k.0 in A)
    && (forall k :: k in p.seqDel ==> k.actor in A)
    && (forall s :: s in p.seqIns ==> s.actor in A)
  }

  function Then(out: Outcome, p: RowSets): Outcome {
    match out
    case Violation => Violation
    case Done(t, eff) =>
      match Exec(t, p)
      case Violation => Violation
      case Done(t', eff') => Done(t', eff && eff')
  }

  lemma GapUnion(t: Tables, p: RowSets, q: RowSets, A: set<nat>, B: set<nat>)
    requires Only(p, A) && Only(q, B) && A !! B && KeysUnique(t)
    ensures t.gaps - (p.gapDel + q.gapDel) + (p.gapIns + q.gapIns) == t.gaps - p.gapDel + p.gapIns - q.gapDel + q.gapIns
    ensures GapInsertFits(t.gaps - (p.gapDel + q.gapDel), p.gapIns + q.gapIns)
       <==> && GapInsertFits(t.gaps - p.gapDel, p.gapIns)
            && GapInsertFits(t.gaps - p.gapDel + p.gapIns - q.gapDel, q.gapIns)
  {
    var both := t.gaps - (p.gapDel + q.gapDel);
    var first, second := t.gaps - p.gapDel, t.gaps - p.gapDel + p.gapIns - q.gapDel;
    forall g, h | g in first && h in p.gapIns && SameGapKey(g, h) ensures g in both {}
    forall g, h | g in second && h in q.gapIns && SameGapKey(g, h) ensures g in both {}
  }

  lemma SeqUnion(t: Tables, p: RowSets, q: RowSets, A: set<nat>, B: set<nat>)
    requires Only(p, A) && Only(q, B) && A !! B
    ensures
      var both := DropKeys(DropVersions(t.seqs, p.verDel + q.verDel), p.seqDel + q.seqDel);
      var first := DropKeys(DropVersions(t.seqs, p.verDel), p.seqDel);
      var second := DropKeys(DropVersions(first + p.seqIns, q.verDel), q.seqDel);
      second == both + p.seqIns
  {
  }

  lemma SeqFitsUnion(t: Tables, p: RowSets, q: RowSets, A: set<nat>, B: set<nat>)
    requires Only(p, A) && Only(q, B) && A !! B && KeysUnique(t)
    ensures
      var both := DropKeys(DropVersions(t.seqs, p.verDel + q.verDel), p.seqDel + q.seqDel);
      var first := DropKeys(DropVersions(t.seqs, p.verDel), p.seqDel);
      SeqInsertFits(both, p.seqIns + q.seqIns)
      <==> SeqInsertFits(first, p.seqIns) && SeqInsertFits(both + p.seqIns, q.seqIns)
  {
    var both := DropKeys(DropVersions(t.seqs, p.verDel + q.verDel), p.seqDel + q.seqDel);
    var first := DropKeys(DropVersions(t.seqs, p.verDel), p.seqDel);
    assert both <= first <= t.seqs;
    forall s, u | s in first && u in p.seqIns && SameSeqKey(s, u) ensures s in both {}
    assert both + (p.seqIns + q.seqIns) == both + p.seqIns + q.seqIns;
  }

  lemma HitsUnion(t: Tables, p: RowSets, q: RowSets, A: set<nat>, B: set<nat>, k: SeqKey)
    requires Only(p, A) && Only(q, B) && A !! B
    ensures k in p.seqDel ==>
      (HitsOne(DropVersions(t.seqs, p.verDel + q.verDel), k) <==> HitsOne(DropVersions(t.seqs, p.verDel), k))
    ensures
      var first := DropKeys(DropVersions(t.seqs, p.verDel), p.seqDel) + p.seqIns;
      k in q.seqDel ==>
        (HitsOne(DropVersions(t.seqs, p.verDel + q.verDel), k) <==> HitsOne(DropVersions(first, q.verDel), k))
  {
    var all := DropVersions(t.seqs, p.verDel + q.verDel);
    if k in p.seqDel {
      assert forall s :: KeyOf(s) == k ==> (s in all <==> s in DropVersions(t.seqs, p.verDel));
    }
    if k in q.seqDel {
      var first := DropKeys(DropVersions(t.seqs, p.verDel), p.seqDel) + p.seqIns;
      assert forall s :: KeyOf(s) == k ==> (s in all <==> s in DropVersions(first, q.verDel));
    }
  }

  lemma ExecUnion(t: Tables, p: RowSets, q: RowSets, A: set<nat>, B: set<nat>)
    requires Only(p, A) && Only(q, B) && A !! B && KeysUnique(t)
    ensures Exec(t, Union(p, q)) == Then(Exec(t, p), q)
  {
    GapUnion(t, p, q, A, B);
    SeqUnion(t, p, q, A, B);
    SeqFitsUnion(t, p, q, A, B);
    forall k ensures k in p.seqDel ==>
      (HitsOne(DropVersions(t.seqs, p.verDel + q.verDel), k) <==> HitsOne(DropVersions(t.seqs, p.verDel), k))
    {
      HitsUnion(t, p, q, A, B, k);
    }
    var first := DropKeys(DropVersions(t.seqs, p.verDel), p.seqDel) + p.seqIns;
    forall k ensures k in q.seqDel ==>
      (HitsOne(DropVersions(t.seqs, p.verDel + q.verDel), k) <==> HitsOne(DropVersions(first, q.verDel), k))
    {
      HitsUnion(t, p, q, A, B, k);
    }
    assert p.gapDel + q.gapDel <= t.gaps <==> p.gapDel <= t.gaps && q.gapDel <= t.gaps - p.gapDel + p.gapIns;
    assert DropKeys(DropVersions(t.seqs, p.verDel + q.verDel), p.seqDel + q.seqDel) + p.seqIns + q.seqIns
        == DropKeys(DropVersions(t.seqs, p.verDel + q.verDel), p.seqDel + q.seqDel) + (p.seqIns + q.seqIns);
  }

  ghost function RowsOfAll(ds: seq<Delta>): RowSets {
    if ds == [] then NoRowSets() else Union(RowsOfAll(ds[..|ds| - 1]), RowsOf(ds[|ds| - 1]))
  }

  ghost function ExecEach(t: Tables, ds: seq<Delta>): Outcome {
    if ds == [] then Done(t, true) else Then(ExecEach(t, ds[..|ds| - 1]), RowsOf(ds[|ds| - 1]))
  }

  function Actors(ds: seq<Delta>): set<nat> {
    if ds == [] then {} else Actors(ds[..|ds| - 1]) + {ds[|ds| - 1].actor}
  }

  ghost predicate DistinctActors(ds: seq<Delta>) {
    forall i, j :: 0 <= i < j < |ds| ==> ds[i].actor != ds[j].actor
  }

  lemma {:induction false} RowsOfAllOnly(ds: seq<Delta>)
    ensures Only(RowsOfAll(ds), Actors(ds))
  {
    if ds != [] { RowsOfAllOnly(ds[..|ds| - 1]); }
  }

  lemma {:induction false} ActorIn(ds: seq<Delta>, a: nat)
    ensures a in Actors(ds) <==> exists i :: 0 <= i < |ds| && ds[i].actor == a
  {
    if ds != [] {
      ActorIn(ds[..|ds| - 1], a);
      assert forall i :: 0 <= i < |ds| - 1 ==> ds[..|ds| - 1][i] == ds[i];
    }
  }

  /** One write with the rows of several distinct actors does what their separate writes do one
      after another, failures included. */
  lemma {:induction false} BatchedWriteIsSound(t: Tables, ds: seq<Delta>)
    requires KeysUnique(t) && DistinctActors(ds)
    ensures Exec(t, RowsOfAll(ds)) == ExecEach(t, ds)
  {
    if ds == [] {
      assert Exec(t, NoRowSets()) == Done(t, true) by {
        assert DropKeys(DropVersions(t.seqs, {}), {}) == t.seqs;
        assert t.seqs + {} == t.seqs && t.gaps - {} + {} == t.gaps;
      }
    } else {
      var init, d := ds[..|ds| - 1], ds[|ds| - 1];
      assert forall i :: 0 <= i < |init| ==> init[i] == ds[i];
      BatchedWriteIsSound(t, init);
      RowsOfAllOnly(init);
      ActorIn(init, d.actor);
      ExecUnion(t, RowsOfAll(init), RowsOf(d), Actors(init), {d.actor});
    }
  }
}
