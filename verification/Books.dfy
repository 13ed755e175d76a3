/** What one node knows about one actor's versions, on plain sets: missing versions, the
    greatest version, and the sequence numbers received of incomplete versions. */
module Books {
  import opened RangeSets

  datatype Partial = Partial(seqs: set<nat>, lastSeq: nat, ts: nat)

  datatype Book = Book(needed: set<nat>, max: Option<nat>, partials: map<nat, Partial>)

  const EMPTY_BOOK := Book({}, None, map[])

  /** One processed change set: a range of versions, and the part received of its first
      version when that version is still incomplete. */
  datatype Entry = Entry(versions: Range, partial: Option<Partial>)

  function Top(b: Book): nat {
    if b.max.Some? then b.max.value else 0
  }

  ghost function Greatest(V: set<nat>): (m: nat)
    requires V != {}
    ensures m in V && forall x :: x in V ==> x <= m
  {
    GreatestExists(V);
    var m :| m in V && forall x :: x in V ==> x <= m;
    m
  }

  lemma {:induction false} GreatestExists(V: set<nat>)
    requires V != {}
    ensures exists m :: m in V && forall x :: x in V ==> x <= m
    decreases V
  {
    var y :| y in V;
    var rest := V - {y};
    if rest == {} {
      assert V == {y};
      assert forall x :: x in V ==> x <= y;
    } else {
      GreatestExists(rest);
      var m :| m in rest && forall x :: x in rest ==> x <= m;
      var top := Max(m, y);
      assert top in V && forall x :: x in V ==> x <= top by {
        assert forall x :: x in V ==> x == y || x in rest;
      }
    }
  }

  ghost function GreatestOpt(V: set<nat>): Option<nat> {
    if V == {} then None else Some(Greatest(V))
  }

  function UpTo(m: nat): set<nat> {
    if m == 0 then {} else Values(Span(1, m))
  }

  // ---------------------------------------------------------------- gaps

  /** A run `q` of needed versions is rewritten when `r` arrives: they touch, or `q` meets
      the gap that `r` opens above the greatest version `m`. */
  ghost predicate Rewritten(m: nat, q: Range, r: Range) {
    Touching(q, r) || (m + 1 < r.lo && Overlaps(q, Span(m + 1, r.lo)))
  }

  ghost predicate RewrittenBy(m: nat, q: Range, V: set<nat>) {
    exists r :: r in Runs(V) && Rewritten(m, q, r)
  }

  ghost function GapRemoved(b: Book, V: set<nat>): set<Range> {
    set q | q in Runs(b.needed) && RewrittenBy(Top(b), q, V)
  }

  predicate InGap(m: nat, r: Range, x: nat) {
    m + 1 < r.lo && m + 1 <= x <= r.lo
  }

  ghost function GapOpened(m: nat, V: set<nat>): set<nat> {
    set r, x: nat | r in Runs(V) && m + 1 <= x <= r.lo && InGap(m, r, x) :: x
  }

  ghost function GapInserted(b: Book, V: set<nat>): set<nat> {
    Covered(GapRemoved(b, V)) + GapOpened(Top(b), V) - V
  }

  ghost function BookGaps(b: Book, V: set<nat>): Book {
    b.(needed := b.needed - Covered(GapRemoved(b, V)) + GapInserted(b, V),
       max := OptMax(b.max, GreatestOpt(V)))
  }

  lemma GapsNeeded(b: Book, V: set<nat>)
    ensures BookGaps(b, V).needed == b.needed + GapOpened(Top(b), V) - V
  {
    var b' := BookGaps(b, V);
    forall x | x in b.needed && x in V ensures x in Covered(GapRemoved(b, V)) {
      var q := RunOf(b.needed, x);
      var r := RunOf(V, x);
      assert Rewritten(Top(b), q, r);
    }
    forall x | x in Covered(GapRemoved(b, V)) ensures x in b.needed {
      var q :| q in GapRemoved(b, V) && Within(q, x);
    }
  }

  lemma GapOpenedBelowGreatest(m: nat, V: set<nat>, x: nat)
    requires V != {} && x !in V
    ensures x in GapOpened(m, V) <==> m + 1 <= x <= Greatest(V)
  {
    if x in GapOpened(m, V) {
      var r :| r in Runs(V) && InGap(m, r, x);
      assert r.lo in V;
    }
    if m + 1 <= x <= Greatest(V) {
      var r := RunOf(V, Greatest(V));
      assert InGap(m, r, x);
    }
  }

  /** `K` is the set of all versions booked so far. */
  ghost predicate GapInv(b: Book, K: set<nat>) {
    && b.max == GreatestOpt(K)
    && b.needed == UpTo(Top(b)) - K
  }

  lemma GapStep(b: Book, K: set<nat>, V: set<nat>)
    requires GapInv(b, K)
    ensures GapInv(BookGaps(b, V), K + V)
  {
    var b' := BookGaps(b, V);
    GapsNeeded(b, V);
    if V == {} {
      assert K + V == K;
    } else {
      assert b'.max == GreatestOpt(K + V);
      forall x: nat ensures x in b'.needed <==> x in UpTo(Top(b')) - (K + V) {
        if x !in V { GapOpenedBelowGreatest(Top(b), V, x); }
      }
    }
  }

  /** A gap opens just above a needed run ending in the greatest version, and no arriving
      range touches that run. */
  ghost predicate Stranded(b: Book, V: set<nat>) {
    && Top(b) + 1 !in V
    && (exists r :: r in Runs(V) && Top(b) + 1 < r.lo)
    && (exists q :: q in Runs(b.needed) && q.hi == Top(b) && Untouched(q, V))
  }

  ghost predicate Untouched(q: Range, V: set<nat>) {
    forall r :: r in Runs(V) ==> !Touching(q, r)
  }

  /** The delta rewrites the maximal ranges of `needed` exactly, unless a run is stranded. */
  lemma GapDelta(b: Book, V: set<nat>)
    ensures Runs(BookGaps(b, V).needed) == Runs(b.needed) - GapRemoved(b, V) + Runs(GapInserted(b, V))
       <==> !Stranded(b, V)
    ensures forall q: Range, x :: q in Runs(b.needed) - GapRemoved(b, V) && x in GapInserted(b, V) ==> !Within(q, x)
  {
    forall q: Range, x | q in Runs(b.needed) - GapRemoved(b, V) && x in GapInserted(b, V) && Near(q, x)
      ensures Stranded(b, V) && !Within(q, x)
    {
      OnlyStrandedNear(b, V, q, x);
    }
    RunsDelta(b.needed, GapRemoved(b, V), GapInserted(b, V));
    if Stranded(b, V) {
      StrandedNear(b, V);
    }
  }

  lemma StrandedBy(b: Book, V: set<nat>, q: Range, r: Range)
    requires q in Runs(b.needed) && q.hi == Top(b) && Untouched(q, V)
    requires r in Runs(V) && Top(b) + 1 < r.lo && Top(b) + 1 !in V
    ensures Stranded(b, V)
  {
  }

  lemma InsertedOutside(b: Book, V: set<nat>, x: nat) returns (r: Range)
    requires x in GapInserted(b, V) && x !in Covered(GapRemoved(b, V))
    ensures r in Runs(V) && InGap(Top(b), r, x) && x !in V
  {
    r :| r in Runs(V) && InGap(Top(b), r, x);
  }

  lemma NearStays(b: Book, V: set<nat>, q: Range, r: Range, x: nat)
    requires q in Runs(b.needed) && !RewrittenBy(Top(b), q, V) && Near(q, x)
    requires r in Runs(V) && InGap(Top(b), r, x) && x !in V
    ensures q.hi == Top(b) && x == Top(b) + 1 && Stranded(b, V)
  {
    NotRewritten(Top(b), q, V, r);
    NearGap(Top(b), V, q, r, x);
    StayingUntouched(Top(b), q, V);
    StrandedBy(b, V, q, r);
  }

  lemma NotRewritten(m: nat, q: Range, V: set<nat>, r: Range)
    requires !RewrittenBy(m, q, V) && r in Runs(V)
    ensures !Rewritten(m, q, r)
  {
  }

  lemma OnlyStrandedNear(b: Book, V: set<nat>, q: Range, x: nat)
    requires q in Runs(b.needed) && !RewrittenBy(Top(b), q, V) && x in GapInserted(b, V) && Near(q, x)
    ensures q.hi == Top(b) && x == Top(b) + 1 && Stranded(b, V)
  {
    StayingNotCovered(b, V, q, x);
    var r := InsertedOutside(b, V, x);
    NearStays(b, V, q, r, x);
  }

  lemma StayingUntouched(m: nat, q: Range, V: set<nat>)
    requires !RewrittenBy(m, q, V)
    ensures Untouched(q, V)
  {
    assert forall r :: r in Runs(V) ==> !Rewritten(m, q, r);
  }

  lemma StayingNotCovered(b: Book, V: set<nat>, q: Range, x: nat)
    requires q in Runs(b.needed) && !RewrittenBy(Top(b), q, V) && Near(q, x)
    ensures x !in Covered(GapRemoved(b, V))
  {
    if x in Covered(GapRemoved(b, V)) {
      var p :| p in GapRemoved(b, V) && Within(p, x);
      RunsMeet(b.needed, p, q);
      assert false;
    }
  }

  lemma NearGap(m: nat, V: set<nat>, q: Range, r: Range, x: nat)
    requires r in Runs(V) && InGap(m, r, x) && x !in V && Near(q, x)
    requires !Rewritten(m, q, r)
    ensures q.hi == m && x == m + 1
  {
    assert r.lo in V;
  }

  lemma UntouchedStays(m: nat, q: Range, V: set<nat>)
    requires q.hi == m && Untouched(q, V)
    ensures !RewrittenBy(m, q, V)
  {
    forall p | p in Runs(V) ensures !Rewritten(m, q, p) {
    }
  }

  lemma GapOpens(b: Book, V: set<nat>, r: Range)
    requires r in Runs(V) && Top(b) + 1 < r.lo && Top(b) + 1 !in V
    ensures Top(b) + 1 in GapInserted(b, V)
  {
    assert InGap(Top(b), r, Top(b) + 1);
  }

  lemma StrandedNear(b: Book, V: set<nat>)
    requires Stranded(b, V)
    ensures !Apart(b.needed, GapRemoved(b, V), GapInserted(b, V))
  {
    var r :| r in Runs(V) && Top(b) + 1 < r.lo;
    GapOpens(b, V, r);
    var q :| q in Runs(b.needed) && q.hi == Top(b) && Untouched(q, V);
    UntouchedStays(Top(b), q, V);
    assert q in Runs(b.needed) - GapRemoved(b, V) && Near(q, Top(b) + 1);
  }

  /** A book whose greatest version is itself needed, as gap collapsing can leave it, strands
      that run when a later version arrives: the rows then split one maximal range. */
  lemma StrandedWitness()
    ensures Stranded(Book({5}, Some(5), map[]), {8})
    ensures BookGaps(Book({5}, Some(5), map[]), {8}).needed == {5, 6, 7}
  {
    FiveStranded();
    NeedsBetween(Book({5}, Some(5), map[]));
  }

  lemma NeedsBetween(b: Book)
    requires b.needed == {5} && Top(b) == 5
    ensures BookGaps(b, {8}).needed == {5, 6, 7}
  {
    GapsNeeded(b, {8});
    GapAboveFive();
    assert {5} + {6, 7, 8} - {8} == {5, 6, 7};
  }

  lemma FiveStranded()
    ensures Stranded(Book({5}, Some(5), map[]), {8})
  {
    OneRun(5);
    OneRun(8);
    StrandedBy(Book({5}, Some(5), map[]), {8}, Span(5, 5), Span(8, 8));
  }

  lemma OneRun(x: nat)
    ensures Runs({x}) == {Span(x, x)}
  {
    assert IsRun({x}, Span(x, x));
    forall r | r in Runs({x}) ensures r == Span(x, x) {
      assert r.lo in {x} && r.hi in {x};
    }
  }

  lemma GapAboveFive()
    ensures GapOpened(5, {8}) == {6, 7, 8}
  {
    OneRun(8);
    forall x ensures x in GapOpened(5, {8}) <==> x in {6, 7, 8} {
      if x in {6, 7, 8} { assert InGap(5, Span(8, 8), x); }
    }
  }

  /** Nothing is stranded while every needed version is below the greatest one. */
  lemma BelowMaxNotStranded(b: Book, K: set<nat>, V: set<nat>)
    requires GapInv(b, K)
    ensures !Stranded(b, V)
  {
    assert forall q :: q in Runs(b.needed) ==> q.hi in b.needed;
    assert Top(b) !in b.needed;
  }

  // ---------------------------------------------------------------- partial versions

  ghost predicate IsComplete(p: Partial) {
    forall s: nat :: s <= p.lastSeq ==> s in p.seqs
  }

  function Merge(have: Option<Partial>, p: Partial): Partial {
    if have.None? then p else have.value.(seqs := have.value.seqs + p.seqs)
  }

  function Lookup<V>(m: map<nat, V>, k: nat): Option<V> {
    if k in m then Some(m[k]) else None
  }

  function MergedAt(have: map<nat, Partial>, P: map<nat, Partial>, v: nat): Partial
    requires v in have.Keys + P.Keys
  {
    if v in P then Merge(Lookup(have, v), P[v]) else have[v]
  }

  ghost predicate IsMerge(have: map<nat, Partial>, P: map<nat, Partial>, m: map<nat, Partial>) {
    m.Keys == have.Keys + P.Keys && forall v :: v in m ==> m[v] == MergedAt(have, P, v)
  }

  lemma MergeExists(have: map<nat, Partial>, P: map<nat, Partial>)
    ensures exists m :: IsMerge(have, P, m)
  {
    var m := BuildMap(have.Keys + P.Keys, (v: nat) requires v in have.Keys + P.Keys => MergedAt(have, P, v));
    assert IsMerge(have, P, m);
  }

  /** The partial versions after merging `P` into `have`. */
  ghost function MergeAll(have: map<nat, Partial>, P: map<nat, Partial>): (m: map<nat, Partial>)
    ensures IsMerge(have, P, m)
  {
    MergeExists(have, P);
    var m :| IsMerge(have, P, m);
    m
  }

  lemma MergeUnique(have: map<nat, Partial>, P: map<nat, Partial>, m: map<nat, Partial>)
    requires IsMerge(have, P, m)
    ensures m == MergeAll(have, P)
  {
  }

  ghost function BookMerge(b: Book, P: map<nat, Partial>): Book {
    b.(partials := MergeAll(b.partials, P),
       max := OptMax(b.max, GreatestOpt(P.Keys - b.partials.Keys)))
  }

  function BookClear(b: Book, C: set<nat>): Book {
    b.(partials := b.partials - C)
  }

  ghost function SeqRemoved(E: set<nat>, N: set<nat>): set<Range> {
    set q | q in Runs(E) && exists r :: r in Runs(N) && Touching(q, r)
  }

  ghost function SeqInserted(E: set<nat>, N: set<nat>): set<nat> {
    Covered(SeqRemoved(E, N)) + N
  }

  lemma SeqApart(E: set<nat>, N: set<nat>, q: Range, x: nat)
    requires q in Runs(E) - SeqRemoved(E, N) && x in SeqInserted(E, N)
    ensures !Near(q, x)
  {
    var removed := SeqRemoved(E, N);
    if x in Covered(removed) {
      var p :| p in removed && Within(p, x);
      if Touching(p, q) { RunsMeet(E, p, q); assert false; }
    } else {
      var r := RunOf(N, x);
      assert Near(q, x) ==> Touching(q, r);
    }
  }

  /** Merging `N` into `E` rewrites exactly the ranges of `E` that touch `N`. */
  lemma SeqDelta(E: set<nat>, N: set<nat>)
    ensures Apart(E, SeqRemoved(E, N), SeqInserted(E, N))
    ensures Runs(E + N) == Runs(E) - SeqRemoved(E, N) + Runs(SeqInserted(E, N))
  {
    var removed, I := SeqRemoved(E, N), SeqInserted(E, N);
    forall q, x | q in Runs(E) - removed && x in I ensures !Near(q, x) {
      SeqApart(E, N, q, x);
    }
    DeltaRuns(E, removed, I);
    assert E - Covered(removed) + I == E + N by {
      forall x | x in Covered(removed) ensures x in E {
        var p :| p in removed && Within(p, x);
      }
    }
  }

  // ---------------------------------------------------------------- one batch

  ghost function BatchVersions(es: seq<Entry>): set<nat> {
    if es == [] then {} else BatchVersions(es[..|es| - 1]) + Values(es[|es| - 1].versions)
  }

  ghost function BatchComplete(es: seq<Entry>): set<nat> {
    if es == [] then {}
    else
      var e := es[|es| - 1];
      BatchComplete(es[..|es| - 1]) + (if e.partial.None? then Values(e.versions) else {})
  }

  function AddPartial(P: map<nat, Partial>, e: Entry): map<nat, Partial> {
    if e.partial.None? then P
    else P[e.versions.lo := Merge(Lookup(P, e.versions.lo), e.partial.value)]
  }

  function BatchPartials(es: seq<Entry>): map<nat, Partial> {
    if es == [] then map[] else AddPartial(BatchPartials(es[..|es| - 1]), es[|es| - 1])
  }

  lemma {:induction false} BatchPartialsBooked(es: seq<Entry>)
    ensures BatchPartials(es).Keys <= BatchVersions(es)
    ensures BatchComplete(es) <= BatchVersions(es)
  {
    if es != [] {
      BatchPartialsBooked(es[..|es| - 1]);
      assert Within(es[|es| - 1].versions, es[|es| - 1].versions.lo);
    }
  }

  ghost function BookBatch(b: Book, es: seq<Entry>): Book {
    BookMerge(BookClear(BookGaps(b, BatchVersions(es)), BatchComplete(es)), BatchPartials(es))
  }

  lemma BatchGapStep(b: Book, K: set<nat>, es: seq<Entry>)
    requires GapInv(b, K)
    ensures GapInv(BookBatch(b, es), K + BatchVersions(es))
  {
    GapStep(b, K, BatchVersions(es));
    BatchPartialsBooked(es);
    MergeBelow(BookClear(BookGaps(b, BatchVersions(es)), BatchComplete(es)), BatchPartials(es), K + BatchVersions(es));
  }

  /** Merging parts of booked versions leaves the gaps alone. */
  lemma MergeBelow(b: Book, P: map<nat, Partial>, K: set<nat>)
    requires GapInv(b, K) && P.Keys <= K
    ensures GapInv(BookMerge(b, P), K)
  {
    var fresh' := P.Keys - b.partials.Keys;
    if fresh' != {} {
      assert Greatest(fresh') in K;
    }
  }

  lemma MergeMax(b: Book, P: map<nat, Partial>, K: set<nat>)
    requires b.max == GreatestOpt(K) && b.partials.Keys <= K
    ensures BookMerge(b, P).max == GreatestOpt(K + P.Keys)
  {
    var fresh' := P.Keys - b.partials.Keys;
    assert K + P.Keys == K + fresh';
    if fresh' == {} {
      assert K + fresh' == K;
    } else if K == {} {
      assert K + fresh' == fresh';
    }
  }

  /** Used on its own, merging partial versions keeps the gap invariant exactly when it skips
      no version above the greatest one and touches no needed version. */
  lemma MergeAloneIff(b: Book, P: map<nat, Partial>, K: set<nat>)
    requires GapInv(b, K) && b.partials.Keys <= K
    ensures GapInv(BookMerge(b, P), K + P.Keys)
       <==> (P.Keys !! b.needed && forall x: nat :: x !in P && Top(b) < x ==> forall v :: v in P ==> v < x)
  {
    var b' := BookMerge(b, P);
    MergeMax(b, P, K);
    var closed := forall x: nat :: x !in P && Top(b) < x ==> forall v :: v in P ==> v < x;
    if P.Keys !! b.needed && closed {
      forall x ensures x in b'.needed <==> x in UpTo(Top(b')) - (K + P.Keys) {
        assert P.Keys != {} ==> Greatest(P.Keys) in P;
      }
    } else if !(P.Keys !! b.needed) {
      var x :| x in P.Keys && x in b.needed;
      assert x in b'.needed && x !in UpTo(Top(b')) - (K + P.Keys);
    } else {
      var x, v :| x !in P && Top(b) < x && v in P && x <= v;
      assert x <= Top(b') && x !in K;
      assert x in UpTo(Top(b')) - (K + P.Keys) && x !in b'.needed;
    }
  }
}
