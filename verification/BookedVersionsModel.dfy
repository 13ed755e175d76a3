/** The book of one actor as the code keeps it: range sets updated in place, and the deltas
    computed along the way. Every method is proved against the set-level step. */
module BookedVersionsModel {
  import opened RangeSets
  import opened Books
  import opened Tables
  import opened BookRuns

  datatype PartialVersion = PartialVersion(seqs: seq<Range>, lastSeq: nat, ts: nat)

  datatype Processed = Processed(versions: Range, partial: Option<PartialVersion>)

  datatype GapsChanges = GapsChanges(max: Option<nat>, insertSet: seq<Range>, removeRanges: set<Range>)

  datatype PartialChanges = PartialChanges(removeSeqs: seq<Range>, insertSeqs: seq<Range>)

  datatype PartialSeqChange = PartialSeqChange(version: nat, changes: PartialChanges, lastSeq: nat, ts: nat)

  datatype ComputedChanges = ComputedChanges(
    actor: nat, gaps: GapsChanges, clearVersions: seq<nat>, partialSeqChanges: seq<PartialSeqChange>)

  // ---------------------------------------------------------------- abstraction

  function AbsPartial(p: PartialVersion): Partial {
    Partial(Elems(p.seqs), p.lastSeq, p.ts)
  }

  ghost predicate IsAbs(m: map<nat, PartialVersion>, P: map<nat, Partial>) {
    P.Keys == m.Keys && forall v :: v in P ==> P[v] == AbsPartial(m[v])
  }

  lemma AbsExists(m: map<nat, PartialVersion>)
    ensures exists P :: IsAbs(m, P)
  {
    var P := BuildMap(m.Keys, (v: nat) requires v in m => AbsPartial(m[v]));
    assert IsAbs(m, P);
  }

  ghost function AbsPartials(m: map<nat, PartialVersion>): (P: map<nat, Partial>)
    ensures IsAbs(m, P)
  {
    AbsExists(m);
    var P :| IsAbs(m, P);
    P
  }

  ghost predicate GoodPartials(m: map<nat, PartialVersion>) {
    forall v :: v in m ==> Canonical(m[v].seqs)
  }

  ghost predicate GoodEntry(e: Processed) {
    e.partial.Some? ==> Canonical(e.partial.value.seqs)
  }

  function AbsEntry(e: Processed): Entry {
    Entry(e.versions, if e.partial.None? then None else Some(AbsPartial(e.partial.value)))
  }

  function AbsEntries(es: seq<Processed>): seq<Entry> {
    seq(|es|, i requires 0 <= i < |es| => AbsEntry(es[i]))
  }

  function AbsSeqChange(c: PartialSeqChange): SeqChange {
    SeqChange(Listed(c.changes.removeSeqs), Elems(c.changes.insertSeqs), c.lastSeq, c.ts)
  }

  function AbsSeqChanges(cs: seq<PartialSeqChange>): map<nat, SeqChange> {
    if cs == [] then map[]
    else AbsSeqChanges(cs[..|cs| - 1])[cs[|cs| - 1].version := AbsSeqChange(cs[|cs| - 1])]
  }

  function ToSet(s: seq<nat>): set<nat> {
    set x | x in s
  }

  function AbsChanges(c: ComputedChanges): Delta {
    Delta(c.actor, c.gaps.removeRanges, Elems(c.gaps.insertSet), ToSet(c.clearVersions),
        AbsSeqChanges(c.partialSeqChanges))
  }

  predicate Ascending(s: seq<nat>) {
    forall i, j :: 0 <= i < j < |s| ==> s[i] < s[j]
  }

  /** Changes as the code produces them: nothing is listed twice. */
  ghost predicate GoodChanges(c: ComputedChanges) {
    && Canonical(c.gaps.insertSet)
    && Ascending(c.clearVersions)
    && GoodSeqChanges(c.partialSeqChanges)
  }

  // ---------------------------------------------------------------- ranges next to a range

  lemma SubRun(S: set<nat>, R: set<Range>, r: Range)
    requires R <= Runs(S) && r in R
    ensures IsRun(Covered(R), r)
  {
    forall x | r.lo <= x <= r.hi ensures x in Covered(R) { assert Within(r, x); }
    forall x | x in Covered(R) ensures x in S {
      var q :| q in R && Within(q, x);
    }
  }

  lemma SubRuns(S: set<nat>, R: set<Range>)
    requires R <= Runs(S)
    ensures Runs(Covered(R)) == R
  {
    forall r | r in R ensures r in Runs(Covered(R)) { SubRun(S, R, r); }
    forall q | q in Runs(Covered(R)) ensures q in R { CoveredRun(S, R, q); }
  }

  lemma CoveredRun(S: set<nat>, R: set<Range>, q: Range)
    requires R <= Runs(S) && IsRun(Covered(R), q)
    ensures q in R
  {
    assert q.lo in Covered(R);
    var r :| r in R && Within(r, q.lo);
    SubRun(S, R, r);
    RunsMeet(Covered(R), q, r);
  }

  lemma CoveredAdd(R: set<Range>, r: Range)
    ensures Covered(R + {r}) == Covered(R) + Values(r)
  {
    forall x: nat ensures x in Covered(R + {r}) <==> x in Covered(R) || Within(r, x) {
      if x in Covered(R + {r}) { var q :| q in R + {r} && Within(q, x); }
    }
  }

  lemma CoveredListed(s: seq<Range>)
    ensures Covered(Listed(s)) == Elems(s)
  {
    forall x ensures x in Covered(Listed(s)) <==> x in Elems(s) { ElemsAt(s, x); }
  }

  /** The stored ranges of `have` that some range of `seqs` touches, twice over. */
  method TouchedSeqs(have: seq<Range>, seqs: seq<Range>) returns (rem: seq<Range>, ins: seq<Range>)
    requires Canonical(have) && Canonical(seqs)
    ensures Canonical(rem) && Canonical(ins)
    ensures Listed(rem) == SeqRemoved(Elems(have), Elems(seqs))
    ensures Elems(ins) == Covered(SeqRemoved(Elems(have), Elems(seqs)))
  {
    rem, ins := [], [];
    ghost var hit: seq<Range> := [];
    for i := 0 to |seqs|
      invariant Canonical(rem) && Canonical(ins) && Elems(rem) == Elems(hit) == Elems(ins)
      invariant forall q: Range :: q in hit <==> q in have && TouchedBy(q, seqs[..i])
    {
      var ranges := ComputeOverlappingRanges(have, seqs[i]);
      ins := Extend(ins, ranges);
      rem := Extend(rem, ranges);
      ElemsConcat(hit, ranges);
      hit := hit + ranges;
      assert seqs[..i + 1][..i] == seqs[..i];
    }
    assert seqs[..|seqs|] == seqs;
    CoveredListed(hit);
    ExactlyListed(have, Listed(hit), rem);
    SeqChangeIs(have, seqs, hit);
  }

  /** The stored ranges that overlap `range` or lie next to it. */
  method ComputeOverlappingRanges(check: seq<Range>, range: Range) returns (o: seq<Range>)
    requires Canonical(check)
    ensures Canonical(o)
    ensures forall q: Range :: q in o <==> q in check && Touching(q, range)
  {
    o := [];
    var hits := Overlapping(check, range);
    ghost var R: set<Range> := {};
    for i := 0 to |hits|
      invariant Canonical(o) && Elems(o) == Covered(R)
      invariant R == Listed(hits[..i])
    {
      o := Insert(o, hits[i]);
      CoveredAdd(R, hits[i]);
      assert hits[..i + 1] == hits[..i] + [hits[i]];
      R := R + {hits[i]};
    }
    assert hits[..|hits|] == hits;
    if range.lo > 0 {
      var before := Get(check, range.lo - 1);
      if before.Some? {
        o := Insert(o, before.value);
        CoveredAdd(R, before.value);
        R := R + {before.value};
      }
    }
    var after := Get(check, range.hi + 1);
    if after.Some? {
      o := Insert(o, after.value);
      CoveredAdd(R, after.value);
      R := R + {after.value};
    }
    TouchingFound(check, range, R);
    ExactlyListed(check, R, o);
  }

  /** A range set built from some of the ranges of another lists just those. */
  lemma ExactlyListed(check: seq<Range>, R: set<Range>, o: seq<Range>)
    requires Canonical(check) && Canonical(o)
    requires (forall q :: q in R ==> q in check) && Elems(o) == Covered(R)
    ensures Listed(o) == R
  {
    CanonicalRuns(check);
    assert R <= Runs(Elems(check));
    SubRuns(Elems(check), R);
    CanonicalRuns(o);
  }

  lemma TouchingFound(check: seq<Range>, range: Range, R: set<Range>)
    requires Canonical(check)
    requires forall q: Range :: q in R <==>
      || (q in check && Overlaps(q, range))
      || (range.lo > 0 && Get(check, range.lo - 1) == Some(q))
      || Get(check, range.hi + 1) == Some(q)
    ensures forall q: Range :: q in R <==> q in check && Touching(q, range)
  {
    forall q: Range | q in check && Touching(q, range) ensures q in R {
      if q.hi + 1 == range.lo {
        HeldIs(check, range.lo - 1, q);
      } else if range.hi + 1 == q.lo {
        HeldIs(check, range.hi + 1, q);
      }
    }
  }

  lemma HeldIs(s: seq<Range>, x: nat, q: Range)
    requires Canonical(s) && q in s && Within(q, x)
    ensures Get(s, x) == Some(q)
  {
    ElemsAt(s, x);
    var g := Get(s, x).value;
    ListedIsRun(s, q);
    ListedIsRun(s, g);
    RunsMeet(Elems(s), q, g);
  }

  // ---------------------------------------------------------------- the book

  function GapBelow(m: nat, v: Range): set<nat> {
    if m + 1 < v.lo then Values(Span(m + 1, v.lo)) else {}
  }

  ghost function TopEnd(s: seq<Range>): Option<nat> {
    if s == [] then None else Some(s[|s| - 1].hi)
  }

  lemma TopEndGreatest(s: seq<Range>)
    requires Canonical(s)
    ensures TopEnd(s) == GreatestOpt(Elems(s))
  {
    if s != [] {
      ElemsAt(s, s[|s| - 1].hi);
      ElemsAt(s, Greatest(Elems(s)));
    }
  }

  class BookedVersions {
    const actor: nat
    var partials: map<nat, PartialVersion>
    var needed: seq<Range>
    var max: Option<nat>

    ghost predicate Valid() reads this {
      Canonical(needed) && GoodPartials(partials)
    }

    ghost function Abs(): Book reads this {
      Book(Elems(needed), max, AbsPartials(partials))
    }

    constructor (actor: nat)
      ensures Valid() && Abs() == EMPTY_BOOK && this.actor == actor
      ensures needed == [] && partials == map[]
    {
      this.actor := actor;
      partials, needed, max := map[], [], None;
    }

    function Last(): nat reads this {
      if max.Some? then max.value else 0
    }

    function ContainsVersion(v: nat): (r: bool) reads this
      ensures r == BookRuns.ContainsVersion(Abs(), v)
    {
      Get(needed, v).None? && Last() >= v
    }

    /** Whether a version, or the given sequence numbers of it, are already here. */
    method Contains(v: nat, seqs: Option<Range>) returns (r: bool)
      requires Valid()
      ensures r == BookRuns.Contains(Abs(), v, seqs)
    {
      if !ContainsVersion(v) { return false; }
      if seqs.None? { return v !in partials; }
      if v !in partials { return true; }
      var check := seqs.value;
      var s := check.lo;
      while s <= check.hi
        invariant check.lo <= s <= check.hi + 1
        invariant forall x :: check.lo <= x < s ==> x in Elems(partials[v].seqs)
      {
        if Get(partials[v].seqs, s).None? {
          assert s in Values(check);
          return false;
        }
        s := s + 1;
      }
      return true;
    }

    /** Whether every version of a range is already here. */
    method ContainsAll(versions: Range, seqs: Option<Range>) returns (r: bool)
      requires Valid()
      ensures r <==> forall v :: v in Values(versions) ==> BookRuns.Contains(Abs(), v, seqs)
    {
      var v := versions.lo;
      while v <= versions.hi
        invariant versions.lo <= v <= versions.hi + 1
        invariant forall x :: versions.lo <= x < v ==> BookRuns.Contains(Abs(), x, seqs)
      {
        var one := Contains(v, seqs);
        if !one {
          assert v in Values(versions);
          return false;
        }
        v := v + 1;
      }
      return true;
    }

    /** One arriving range: the runs it rewrites, and the gap it opens. */
    method NoteArrival(v: Range, ins: seq<Range>) returns (ins': seq<Range>, found: seq<Range>)
      requires Valid() && Canonical(ins)
      ensures forall q: Range :: q in found <==> q in needed && Rewritten(Last(), q, v)
      ensures Canonical(ins') && Elems(ins') == Elems(ins) + Elems(found) + GapBelow(Last(), v)
    {
      found := ComputeOverlappingRanges(needed, v);
      ins' := Extend(ins, found);
      var gapStart := Last() + 1;
      if gapStart < v.lo {
        var gap: Range := Span(gapStart, v.lo);
        ins' := Insert(ins', gap);
        var inGap := Overlapping(needed, gap);
        ins' := Extend(ins', inGap);
        ElemsConcat(found, inGap);
        found := found + inGap;
      }
    }

    /** All arriving ranges in turn. */
    method CollectArrivals(versions: seq<Range>)
      returns (top: Option<nat>, ins: seq<Range>, rem: set<Range>, ghost listed: seq<Range>)
      requires Valid() && Canonical(versions)
      ensures top == OptMax(max, TopEnd(versions))
      ensures rem == Listed(listed)
      ensures forall q: Range :: q in listed <==> q in needed && Arrived(Last(), q, versions)
      ensures Canonical(ins) && Elems(ins) == Elems(listed) + Opened(Last(), versions)
    {
      top, ins, rem, listed := max, [], {}, [];
      for i := 0 to |versions|
        invariant top == OptMax(max, TopEnd(versions[..i]))
        invariant rem == Listed(listed)
        invariant forall q: Range :: q in listed <==> q in needed && Arrived(Last(), q, versions[..i])
        invariant Canonical(ins) && Elems(ins) == Elems(listed) + Opened(Last(), versions[..i])
      {
        var v := versions[i];
        top := OptMax(top, Some(v.hi));
        var found;
        ins, found := NoteArrival(v, ins);
        rem := rem + Listed(found);
        ElemsConcat(listed, found);
        listed := listed + found;
        assert versions[..i + 1][..i] == versions[..i];
      }
      assert versions[..|versions|] == versions;
    }

    method ComputeGapsChange(versions: seq<Range>) returns (c: GapsChanges)
      requires Valid() && Canonical(versions)
      ensures Canonical(c.insertSet)
      ensures c.max == OptMax(max, GreatestOpt(Elems(versions)))
      ensures c.removeRanges == GapRemoved(Abs(), Elems(versions))
      ensures Elems(c.insertSet) == GapInserted(Abs(), Elems(versions))
    {
      var top, ins, rem;
      ghost var listed;
      top, ins, rem, listed := CollectArrivals(versions);
      TopEndGreatest(versions);
      GapChangeIs(needed, Abs(), versions, listed);
      ins := RemoveEach(ins, versions);
      c := GapsChanges(top, ins, rem);
    }

    method ComputeAndApplyGaps(versions: seq<Range>) returns (gaps: GapsChanges)
      requires Valid() && Canonical(versions)
      modifies this`needed, this`max
      ensures Valid() && Abs() == BookGaps(old(Abs()), Elems(versions))
      ensures Canonical(gaps.insertSet)
      ensures gaps.removeRanges == GapRemoved(old(Abs()), Elems(versions))
      ensures Elems(gaps.insertSet) == GapInserted(old(Abs()), Elems(versions))
    {
      gaps := ComputeGapsChange(versions);
      needed := RemoveSet(needed, gaps.removeRanges);
      needed := InsertEach(needed, gaps.insertSet);
      max := gaps.max;
    }

    method ComputeAndApplyClearPartials(versions: seq<Range>) returns (cleared: seq<nat>)
      requires Valid() && Canonical(versions)
      modifies this`partials
      ensures Valid() && Abs() == BookClear(old(Abs()), Elems(versions))
      ensures Ascending(cleared) && ToSet(cleared) == Elems(versions) * old(partials).Keys
    {
      cleared := FilterRanges(partials.Keys, versions);
      for i := 0 to |cleared|
        invariant partials == old(partials) - ToSet(cleared[..i])
      {
        partials := partials - {cleared[i]};
        assert ToSet(cleared[..i + 1]) == ToSet(cleared[..i]) + {cleared[i]};
      }
      assert cleared[..|cleared|] == cleared;
      assert AbsPartials(partials) == AbsPartials(old(partials)) - Elems(versions);
    }

    /** The sequence rows that change when `partial` is merged. */
    method ComputePartialsChange(version: nat, partial: PartialVersion) returns (c: PartialChanges)
      requires Valid() && Canonical(partial.seqs)
      ensures Canonical(c.removeSeqs) && Canonical(c.insertSeqs)
      ensures Listed(c.removeSeqs) == SeqRemoved(SeqsOf(Abs().partials, version), Elems(partial.seqs))
      ensures Elems(c.insertSeqs) == SeqInserted(SeqsOf(Abs().partials, version), Elems(partial.seqs))
    {
      var rem: seq<Range>, ins: seq<Range> := [], [];
      if version in partials {
        rem, ins := TouchedSeqs(partials[version].seqs, partial.seqs);
      } else {
        assert SeqRemoved({}, Elems(partial.seqs)) == {};
      }
      ins := InsertEach(ins, partial.seqs);
      c := PartialChanges(rem, ins);
    }

    method InsertPartial(version: nat, partial: PartialVersion) returns (merged: PartialVersion)
      requires Valid() && Canonical(partial.seqs)
      modifies this`partials, this`max
      ensures Valid() && partials == old(partials)[version := merged]
      ensures AbsPartial(merged) == Merge(Lookup(old(Abs()).partials, version), AbsPartial(partial))
      ensures max == if version in old(partials) then old(max) else OptMax(old(max), Some(version))
    {
      if version !in partials {
        max := OptMax(max, Some(version));
        partials := partials[version := partial];
      } else {
        var got := partials[version];
        partials := partials[version := got.(seqs := Extend(got.seqs, partial.seqs))];
      }
      merged := partials[version];
    }

    method ComputeAndApplyPartials(parts: map<nat, PartialVersion>)
      returns (changes: seq<PartialSeqChange>, completed: seq<nat>)
      requires Valid() && GoodPartials(parts)
      modifies this`partials, this`max
      ensures Valid() && Abs() == BookMerge(old(Abs()), AbsPartials(parts))
      ensures AbsSeqChanges(changes) == SeqChangesOf(old(Abs()).partials, AbsPartials(parts))
      ensures GoodSeqChanges(changes)
      ensures CompletedIs(completed, AbsPartials(parts), Abs().partials)
    {
      var keys := SortedKeys(parts);
      changes := ComputeSeqChanges(parts, keys);
      completed := MergeEach(parts, keys);
    }

    method ComputeSeqChanges(parts: map<nat, PartialVersion>, keys: seq<nat>) returns (changes: seq<PartialSeqChange>)
      requires Valid() && GoodPartials(parts) && Ascending(keys) && ToSet(keys) == parts.Keys
      ensures AbsSeqChanges(changes) == SeqChangesOf(Abs().partials, AbsPartials(parts))
      ensures GoodSeqChanges(changes)
    {
      changes := [];
      ghost var P := Abs().partials;
      for i := 0 to |keys|
        invariant |changes| == i
        invariant forall j :: 0 <= j < i ==> ChangeFor(changes[j], keys[j], P, parts)
      {
        var v := keys[i];
        assert v in ToSet(keys);
        var c := ComputePartialsChange(v, parts[v]);
        var change := PartialSeqChange(v, c, parts[v].lastSeq, parts[v].ts);
        IsChangeFor(change, v, P, parts);
        changes := changes + [change];
      }
      ChangesAre(changes, keys, P, parts);
    }

    method MergeOne(parts: map<nat, PartialVersion>, v: nat, completed: seq<nat>, ghost P: map<nat, Partial>,
                    ghost done: seq<nat>)
      returns (completed': seq<nat>)
      requires Valid() && GoodPartials(parts) && v in parts
      requires MergedSoFar(partials, P, parts, done) && CompletedSoFar(completed, partials, done)
      requires forall x :: x in done ==> x < v
      modifies this`partials, this`max
      ensures Valid() && MergedSoFar(partials, P, parts, done + [v])
      ensures CompletedSoFar(completed', partials, done + [v])
      ensures max == if v in P then old(max) else OptMax(old(max), Some(v))
    {
      ghost var before := partials;
      var merged := InsertPartial(v, parts[v]);
      MergedNext(before, partials, P, parts, done, v);
      CompleteIffNoGaps(merged);
      CompletedNext(completed, before, partials, done, v);
      var gaps := Gaps(merged.seqs, Span(0, merged.lastSeq));
      completed' := if |gaps| == 0 then completed + [v] else completed;
    }

    /** Merge the parts in ascending order of their versions. */
    method MergeEach(parts: map<nat, PartialVersion>, keys: seq<nat>) returns (completed: seq<nat>)
      requires Valid() && GoodPartials(parts) && Ascending(keys) && ToSet(keys) == parts.Keys
      modifies this`partials, this`max
      ensures Valid() && Abs() == BookMerge(old(Abs()), AbsPartials(parts))
      ensures CompletedIs(completed, AbsPartials(parts), Abs().partials)
    {
      completed := [];
      ghost var b := Abs();
      for i := 0 to |keys|
        invariant Valid() && MergedSoFar(partials, b.partials, parts, keys[..i])
        invariant MaxSoFar(max, b, keys[..i])
        invariant CompletedSoFar(completed, partials, keys[..i])
      {
        KeysNext(keys, i);
        MaxNext(max, b, keys, i);
        completed := MergeOne(parts, keys[i], completed, b.partials, keys[..i]);
      }
      assert keys[..|keys|] == keys;
      MergeFinished(b, partials, max, parts, keys, completed);
    }

    /** Book one batch of processed change sets: gaps, then clears, then partial merges. */
    method ComputeAndApply(processed: seq<Processed>) returns (c: ComputedChanges, completed: seq<nat>)
      requires Valid() && forall i :: 0 <= i < |processed| ==> GoodEntry(processed[i])
      modifies this
      ensures Valid() && Abs() == BookBatch(old(Abs()), AbsEntries(processed))
      ensures GoodChanges(c) && AbsChanges(c) == DeltaOf(actor, old(Abs()), BatchStep(AbsEntries(processed)))
      ensures CompletedIs(completed, BatchPartials(AbsEntries(processed)), Abs().partials)
    {
      ghost var b, es := Abs(), AbsEntries(processed);
      var all := BatchRanges(processed);
      var whole := BatchWholes(processed);
      var parts := BatchParts(processed);
      var gaps := ComputeAndApplyGaps(all);
      assert Abs() == BookGaps(b, BatchVersions(es));
      var clear := ComputeAndApplyClearPartials(whole);
      assert Abs() == BookClear(BookGaps(b, BatchVersions(es)), BatchComplete(es));
      var changes;
      changes, completed := ComputeAndApplyPartials(parts);
      c := ComputedChanges(actor, gaps, clear, changes);
      assert old(partials).Keys == b.partials.Keys;
      assert SeqChangesOf(b.partials - BatchComplete(es), BatchPartials(es)) == DeltaOf(actor, b, BatchStep(es)).seqs;
    }
  }

  method BatchRanges(processed: seq<Processed>) returns (all: seq<Range>)
    ensures Canonical(all) && Elems(all) == BatchVersions(AbsEntries(processed))
  {
    all := [];
    ghost var es := AbsEntries(processed);
    for i := 0 to |processed|
      invariant Canonical(all) && Elems(all) == BatchVersions(es[..i])
    {
      all := Insert(all, processed[i].versions);
      assert es[..i + 1][..i] == es[..i];
    }
    assert es[..|processed|] == es;
  }

  method BatchWholes(processed: seq<Processed>) returns (whole: seq<Range>)
    ensures Canonical(whole) && Elems(whole) == BatchComplete(AbsEntries(processed))
  {
    whole := [];
    ghost var es := AbsEntries(processed);
    for i := 0 to |processed|
      invariant Canonical(whole) && Elems(whole) == BatchComplete(es[..i])
    {
      if processed[i].partial.None? {
        whole := Insert(whole, processed[i].versions);
      }
      assert es[..i + 1][..i] == es[..i];
    }
    assert es[..|processed|] == es;
  }

  method BatchParts(processed: seq<Processed>) returns (parts: map<nat, PartialVersion>)
    requires forall i :: 0 <= i < |processed| ==> GoodEntry(processed[i])
    ensures GoodPartials(parts) && AbsPartials(parts) == BatchPartials(AbsEntries(processed))
  {
    parts := map[];
    ghost var es := AbsEntries(processed);
    for i := 0 to |processed|
      invariant GoodPartials(parts) && AbsPartials(parts) == BatchPartials(es[..i])
    {
      var e := processed[i];
      if e.partial.Some? {
        var v, p := e.versions.lo, e.partial.value;
        var now := if v in parts then parts[v].(seqs := Extend(parts[v].seqs, p.seqs)) else p;
        AbsUpdate(parts, v, now);
        parts := parts[v := now];
      }
      assert es[..i + 1][..i] == es[..i];
    }
    assert es[..|processed|] == es;
  }

  lemma AbsUpdate(m: map<nat, PartialVersion>, v: nat, p: PartialVersion)
    ensures AbsPartials(m[v := p]) == AbsPartials(m)[v := AbsPartial(p)]
  {
  }

  method RemoveEach(s: seq<Range>, out: seq<Range>) returns (t: seq<Range>)
    requires Canonical(s)
    ensures Canonical(t) && Elems(t) == Elems(s) - Elems(out)
  {
    t := s;
    for i := 0 to |out|
      invariant Canonical(t) && Elems(t) == Elems(s) - Elems(out[..i])
    {
      t := Remove(t, out[i]);
      assert out[..i + 1] == out[..i] + [out[i]];
      ElemsConcat(out[..i], [out[i]]);
    }
    assert out[..|out|] == out;
  }

  method RemoveSet(s: seq<Range>, R: set<Range>) returns (t: seq<Range>)
    requires Canonical(s)
    ensures Canonical(t) && Elems(t) == Elems(s) - Covered(R)
  {
    t := s;
    var todo := R;
    ghost var gone: seq<Range> := [];
    while todo != {}
      invariant todo <= R && Listed(gone) == R - todo
      invariant Canonical(t) && Elems(t) == Elems(s) - Elems(gone)
      decreases todo
    {
      var range :| range in todo;
      t := Remove(t, range);
      ElemsConcat(gone, [range]);
      gone := gone + [range];
      todo := todo - {range};
    }
    CoveredListed(gone);
  }

  lemma ElemsNext(s: seq<Range>, i: nat)
    requires i < |s|
    ensures Elems(s[..i + 1]) == Elems(s[..i]) + Values(s[i])
  {
    assert s[..i + 1] == s[..i] + [s[i]];
    ElemsConcat(s[..i], [s[i]]);
    assert Elems([s[i]]) == Values(s[i]);
  }

  method InsertEach(s: seq<Range>, more: seq<Range>) returns (t: seq<Range>)
    requires Canonical(s)
    ensures Canonical(t) && Elems(t) == Elems(s) + Elems(more)
  {
    t := s;
    ghost var done: set<nat> := {};
    for i := 0 to |more|
      invariant Canonical(t) && done == Elems(more[..i]) && Elems(t) == Elems(s) + done
    {
      t := Insert(t, more[i]);
      ElemsNext(more, i);
      done := done + Values(more[i]);
    }
    assert more[..|more|] == more;
  }

  method FilterRanges(keys: set<nat>, versions: seq<Range>) returns (out: seq<nat>)
    requires Canonical(versions)
    ensures Ascending(out) && ToSet(out) == Elems(versions) * keys
  {
    out := [];
    for i := 0 to |versions|
      invariant Ascending(out) && ToSet(out) == Elems(versions[..i]) * keys
      invariant forall x, j :: x in out && i <= j < |versions| ==> x < versions[j].lo
    {
      out := FilterRange(keys, versions[i], out);
      assert versions[..i + 1] == versions[..i] + [versions[i]];
      ElemsConcat(versions[..i], [versions[i]]);
    }
    assert versions[..|versions|] == versions;
  }

  /** Append, in order, the members of `keys` that lie in `range`. */
  method FilterRange(keys: set<nat>, range: Range, start: seq<nat>) returns (out: seq<nat>)
    requires Ascending(start) && forall x :: x in start ==> x < range.lo
    ensures Ascending(out) && ToSet(out) == ToSet(start) + Values(range) * keys
    ensures forall x :: x in out ==> x <= range.hi
  {
    out := start;
    var v := range.lo;
    while v <= range.hi
      invariant range.lo <= v <= range.hi + 1
      invariant Ascending(out) && forall x :: x in out ==> x < v
      invariant forall x :: x in out <==> x in start || (range.lo <= x < v && x in keys)
    {
      if v in keys {
        AscendingSnoc(out, v);
        out := out + [v];
      }
      v := v + 1;
    }
  }

  method SortedKeys<V>(m: map<nat, V>) returns (keys: seq<nat>)
    ensures Ascending(keys) && ToSet(keys) == m.Keys
  {
    keys := [];
    var left := m.Keys;
    while left != {}
      invariant left <= m.Keys && Ascending(keys) && ToSet(keys) == m.Keys - left
      invariant forall x, y :: x in keys && y in left ==> x < y
      decreases left
    {
      var k := Least(left);
      AscendingSnoc(keys, k);
      keys := keys + [k];
      left := left - {k};
    }
  }

  method Least(s: set<nat>) returns (k: nat)
    requires s != {}
    ensures k in s && forall x :: x in s ==> k <= x
  {
    k :| k in s;
    var rest := s - {k};
    while rest != {}
      invariant rest <= s && k in s && forall y :: y in s && y !in rest ==> k <= y
      decreases rest
    {
      var x :| x in rest;
      if x < k { k := x; }
      rest := rest - {x};
    }
  }

  lemma AscendingSnoc(s: seq<nat>, x: nat)
    requires Ascending(s) && forall y :: y in s ==> y < x
    ensures Ascending(s + [x]) && ToSet(s + [x]) == ToSet(s) + {x}
  {
    assert forall i :: 0 <= i < |s| ==> s[i] in s;
  }

  ghost predicate GoodSeqChanges(cs: seq<PartialSeqChange>) {
    && (forall i :: 0 <= i < |cs| ==> Canonical(cs[i].changes.removeSeqs) && Canonical(cs[i].changes.insertSeqs))
    && (forall i, j :: 0 <= i < j < |cs| ==> cs[i].version < cs[j].version)
  }

  predicate TouchedBy(q: Range, vs: seq<Range>) {
    vs != [] && (TouchedBy(q, vs[..|vs| - 1]) || Touching(q, vs[|vs| - 1]))
  }

  lemma {:induction false} TouchedAt(q: Range, vs: seq<Range>)
    ensures TouchedBy(q, vs) <==> exists r :: r in vs && Touching(q, r)
  {
    if vs != [] {
      TouchedAt(q, vs[..|vs| - 1]);
      assert vs == vs[..|vs| - 1] + [vs[|vs| - 1]];
    }
  }

  lemma TouchedIs(have: seq<Range>, more: seq<Range>, q: Range)
    requires Canonical(have) && Canonical(more)
    ensures q in have && TouchedBy(q, more) <==> q in SeqRemoved(Elems(have), Elems(more))
  {
    CanonicalRuns(have);
    CanonicalRuns(more);
    TouchedAt(q, more);
  }

  lemma SeqChangeIs(have: seq<Range>, more: seq<Range>, hit: seq<Range>)
    requires Canonical(have) && Canonical(more)
    requires forall q: Range :: q in hit <==> q in have && TouchedBy(q, more)
    ensures Listed(hit) == SeqRemoved(Elems(have), Elems(more))
    ensures Elems(hit) == Covered(SeqRemoved(Elems(have), Elems(more)))
  {
    forall q: Range ensures q in Listed(hit) <==> q in SeqRemoved(Elems(have), Elems(more)) {
      TouchedIs(have, more, q);
    }
    CoveredListed(hit);
  }

  /** The completed list holds, in order, the merged versions that have all their sequences. */
  ghost predicate CompletedIs(completed: seq<nat>, parts: map<nat, Partial>, P: map<nat, Partial>) {
    && Ascending(completed)
    && forall v :: v in completed <==> v in parts && v in P && IsComplete(P[v])
  }

  /** After merging the versions `done`, each holds its merge and the others are unchanged. */
  ghost predicate MergedSoFar(now: map<nat, PartialVersion>, P: map<nat, Partial>, parts: map<nat, PartialVersion>,
                              done: seq<nat>) {
    && (forall v :: v in now <==> v in P || v in done)
    && (forall v :: v in done ==> v in parts)
    && forall v :: v in now ==>
         AbsPartial(now[v]) == if v in done then Merge(Lookup(P, v), AbsPartial(parts[v])) else P[v]
  }

  lemma MergedAll(now: map<nat, PartialVersion>, P: map<nat, Partial>, parts: map<nat, PartialVersion>, keys: seq<nat>)
    requires MergedSoFar(now, P, parts, keys) && ToSet(keys) == parts.Keys
    ensures IsMerge(P, AbsPartials(parts), AbsPartials(now))
    ensures forall v :: v in keys <==> v in parts
  {
    assert forall v :: v in keys <==> v in ToSet(keys);
  }

  lemma MergeFinished(b: Book, now: map<nat, PartialVersion>, top: Option<nat>, parts: map<nat, PartialVersion>,
                      keys: seq<nat>, completed: seq<nat>)
    requires MergedSoFar(now, b.partials, parts, keys) && ToSet(keys) == parts.Keys
    requires MaxSoFar(top, b, keys)
    requires CompletedSoFar(completed, now, keys)
    ensures Book(b.needed, top, AbsPartials(now)) == BookMerge(b, AbsPartials(parts))
    ensures CompletedIs(completed, AbsPartials(parts), AbsPartials(now))
  {
    MergedAll(now, b.partials, parts, keys);
    MergeUnique(b.partials, AbsPartials(parts), AbsPartials(now));
  }

  lemma KeysNext(keys: seq<nat>, i: nat)
    requires Ascending(keys) && i < |keys|
    ensures keys[..i + 1] == keys[..i] + [keys[i]] && ToSet(keys[..i + 1]) == ToSet(keys[..i]) + {keys[i]}
    ensures keys[i] in ToSet(keys) && forall x :: x in keys[..i] ==> x < keys[i]
  {
  }

  lemma MergedNext(before: map<nat, PartialVersion>, now: map<nat, PartialVersion>, P: map<nat, Partial>,
                   parts: map<nat, PartialVersion>, done: seq<nat>, v: nat)
    requires MergedSoFar(before, P, parts, done) && v !in done && v in parts
    requires v in now && now == before[v := now[v]]
    requires AbsPartial(now[v]) == Merge(Lookup(AbsPartials(before), v), AbsPartial(parts[v]))
    ensures MergedSoFar(now, P, parts, done + [v])
    ensures v in before <==> v in P
  {
  }

  ghost predicate CompletedSoFar(completed: seq<nat>, now: map<nat, PartialVersion>, done: seq<nat>) {
    && Ascending(completed)
    && forall v :: v in completed <==> v in done && v in now && IsComplete(AbsPartial(now[v]))
  }

  lemma CompletedNext(completed: seq<nat>, before: map<nat, PartialVersion>, now: map<nat, PartialVersion>,
                      done: seq<nat>, v: nat)
    requires CompletedSoFar(completed, before, done) && forall x :: x in done ==> x < v
    requires v in now && now == before[v := now[v]]
    ensures CompletedSoFar(if IsComplete(AbsPartial(now[v])) then completed + [v] else completed, now, done + [v])
  {
    if IsComplete(AbsPartial(now[v])) { AscendingSnoc(completed, v); }
  }

  ghost predicate MaxSoFar(top: Option<nat>, b: Book, done: seq<nat>) {
    top == OptMax(b.max, GreatestOpt(ToSet(done) - b.partials.Keys))
  }

  lemma MaxNext(top: Option<nat>, b: Book, keys: seq<nat>, i: nat)
    requires Ascending(keys) && i < |keys| && MaxSoFar(top, b, keys[..i])
    ensures MaxSoFar(if keys[i] in b.partials then top else OptMax(top, Some(keys[i])), b, keys[..i + 1])
  {
    KeysNext(keys, i);
    NextGreatest(ToSet(keys[..i]), keys[i], b.partials.Keys);
  }

  lemma NextGreatest(S: set<nat>, v: nat, out: set<nat>)
    requires forall x :: x in S ==> x < v
    ensures GreatestOpt(S + {v} - out) ==
      if v in out then GreatestOpt(S - out) else OptMax(GreatestOpt(S - out), Some(v))
  {
    if v in out {
      assert S + {v} - out == S - out;
    } else {
      assert S + {v} - out == (S - out) + {v};
      GreatestUnion(S - out, {v});
      assert Greatest({v}) == v;
    }
  }

  ghost predicate ChangeFor(c: PartialSeqChange, v: nat, P: map<nat, Partial>, parts: map<nat, PartialVersion>) {
    && c.version == v && v in parts
    && Canonical(c.changes.removeSeqs) && Canonical(c.changes.insertSeqs)
    && AbsSeqChange(c) == SeqChangeOf(P, v, AbsPartial(parts[v]))
  }

  lemma IsChangeFor(c: PartialSeqChange, v: nat, P: map<nat, Partial>, parts: map<nat, PartialVersion>)
    requires v in parts && c.version == v && c.lastSeq == parts[v].lastSeq && c.ts == parts[v].ts
    requires Canonical(c.changes.removeSeqs) && Canonical(c.changes.insertSeqs)
    requires Listed(c.changes.removeSeqs) == SeqRemoved(SeqsOf(P, v), Elems(parts[v].seqs))
    requires Elems(c.changes.insertSeqs) == SeqInserted(SeqsOf(P, v), Elems(parts[v].seqs))
    ensures ChangeFor(c, v, P, parts)
  {
  }

  lemma ChangesGood(changes: seq<PartialSeqChange>, keys: seq<nat>, P: map<nat, Partial>,
                    parts: map<nat, PartialVersion>)
    requires |changes| == |keys| && Ascending(keys)
    requires forall j :: 0 <= j < |keys| ==> ChangeFor(changes[j], keys[j], P, parts)
    ensures GoodSeqChanges(changes) && forall j :: 0 <= j < |keys| ==> changes[j].version == keys[j]
  {
    forall j | 0 <= j < |keys|
      ensures changes[j].version == keys[j] && Canonical(changes[j].changes.removeSeqs)
      ensures Canonical(changes[j].changes.insertSeqs)
    {
      assert ChangeFor(changes[j], keys[j], P, parts);
    }
  }

  lemma ChangesKeyed(m: map<nat, SeqChange>, keys: seq<nat>, parts: map<nat, PartialVersion>)
    requires (forall v :: v in m <==> v in keys) && ToSet(keys) == parts.Keys
    ensures m.Keys == parts.Keys
  {
    forall v ensures v in m <==> v in parts { assert v in keys <==> v in ToSet(keys); }
  }

  lemma ChangesAre(changes: seq<PartialSeqChange>, keys: seq<nat>, P: map<nat, Partial>,
                   parts: map<nat, PartialVersion>)
    requires |changes| == |keys| && Ascending(keys) && ToSet(keys) == parts.Keys
    requires forall j :: 0 <= j < |keys| ==> ChangeFor(changes[j], keys[j], P, parts)
    ensures AbsSeqChanges(changes) == SeqChangesOf(P, AbsPartials(parts))
    ensures GoodSeqChanges(changes)
  {
    var m := AbsSeqChanges(changes);
    ChangesGood(changes, keys, P, parts);
    ChangesAt(changes, keys);
    ChangesKeyed(m, keys, parts);
    AllFound(changes, keys, P, parts, m);
    SeqChangesUnique(P, AbsPartials(parts), m);
  }

  lemma AllFound(changes: seq<PartialSeqChange>, keys: seq<nat>, P: map<nat, Partial>, parts: map<nat, PartialVersion>,
                 m: map<nat, SeqChange>)
    requires |changes| == |keys| && m.Keys == parts.Keys && (forall v :: v in m <==> v in keys)
    requires forall j :: 0 <= j < |keys| ==> ChangeFor(changes[j], keys[j], P, parts)
    requires forall j :: 0 <= j < |keys| ==> MapsTo(m, changes[j])
    ensures AreSeqChanges(P, AbsPartials(parts), m)
  {
    var parts' := AbsPartials(parts);
    forall v | v in m ensures m[v] == SeqChangeOf(P, v, parts'[v]) {
      ChangeFound(changes, keys, P, parts, m, v);
    }
  }

  lemma ChangeFound(changes: seq<PartialSeqChange>, keys: seq<nat>, P: map<nat, Partial>,
                    parts: map<nat, PartialVersion>, m: map<nat, SeqChange>, v: nat)
    requires |changes| == |keys| && v in keys
    requires forall j :: 0 <= j < |keys| ==> ChangeFor(changes[j], keys[j], P, parts)
    requires forall j :: 0 <= j < |keys| ==> MapsTo(m, changes[j])
    ensures v in parts && v in m && m[v] == SeqChangeOf(P, v, AbsPartial(parts[v]))
  {
    var j :| 0 <= j < |keys| && keys[j] == v;
    assert ChangeFor(changes[j], v, P, parts) && MapsTo(m, changes[j]);
  }

  lemma SeqChangesUnique(P: map<nat, Partial>, parts: map<nat, Partial>, m: map<nat, SeqChange>)
    requires AreSeqChanges(P, parts, m)
    ensures m == SeqChangesOf(P, parts)
  {
  }

  ghost predicate MapsTo(m: map<nat, SeqChange>, c: PartialSeqChange) {
    c.version in m && m[c.version] == AbsSeqChange(c)
  }

  /** Changes of distinct versions are all found under their versions. */
  lemma {:induction false} ChangesAt(changes: seq<PartialSeqChange>, keys: seq<nat>)
    requires |changes| == |keys| && Ascending(keys) && forall j :: 0 <= j < |keys| ==> changes[j].version == keys[j]
    ensures forall v :: v in AbsSeqChanges(changes) <==> v in keys
    ensures forall j :: 0 <= j < |keys| ==> MapsTo(AbsSeqChanges(changes), changes[j])
  {
    if changes != [] {
      var n := |keys| - 1;
      var before, c := AbsSeqChanges(changes[..n]), changes[n];
      ChangesAt(changes[..n], keys[..n]);
      var after := before[c.version := AbsSeqChange(c)];
      assert AbsSeqChanges(changes) == after;
      assert keys == keys[..n] + [keys[n]];
      forall j | 0 <= j < |keys| ensures MapsTo(after, changes[j]) {
        if j < n {
          assert changes[..n][j] == changes[j] && keys[j] < keys[n];
          MapsToStill(before, changes[j], c);
        }
      }
    }
  }

  lemma MapsToStill(m: map<nat, SeqChange>, c: PartialSeqChange, d: PartialSeqChange)
    requires MapsTo(m, c) && c.version != d.version
    ensures MapsTo(m[d.version := AbsSeqChange(d)], c)
  {
  }

  lemma GreatestUnion(F: set<nat>, H: set<nat>)
    ensures GreatestOpt(F + H) == OptMax(GreatestOpt(F), GreatestOpt(H))
  {
    if F == {} { assert F + H == H; } else if H == {} { assert F + H == F; }
  }

  lemma NoneStored(gaps: seq<Range>)
    ensures gaps == [] <==> Elems(gaps) == {}
  {
    if gaps != [] {
      assert gaps[0].lo in Values(gaps[0]);
      assert gaps[0].lo in Elems(gaps);
    }
  }

  lemma CompleteIffCovered(p: PartialVersion)
    ensures Values(Span(0, p.lastSeq)) <= Elems(p.seqs) <==> IsComplete(AbsPartial(p))
  {
    var full: Range := Span(0, p.lastSeq);
    if Values(full) <= Elems(p.seqs) {
      forall s: nat | s <= p.lastSeq ensures s in Elems(p.seqs) { assert s in Values(full); }
    }
  }

  lemma CompleteIffNoGaps(p: PartialVersion)
    ensures |Gaps(p.seqs, Span(0, p.lastSeq))| == 0 <==> IsComplete(AbsPartial(p))
  {
    NoneStored(Gaps(p.seqs, Span(0, p.lastSeq)));
    CompleteIffCovered(p);
  }

  /** The accumulated change is the delta of the set-level book. */
  lemma GapChangeIs(needed: seq<Range>, b: Book, versions: seq<Range>, listed: seq<Range>)
    requires Canonical(needed) && Canonical(versions) && b.needed == Elems(needed)
    requires forall q: Range :: q in listed <==> q in needed && Arrived(Top(b), q, versions)
    ensures Listed(listed) == GapRemoved(b, Elems(versions))
    ensures Elems(listed) + Opened(Top(b), versions) - Elems(versions) == GapInserted(b, Elems(versions))
  {
    CanonicalRuns(needed);
    CanonicalRuns(versions);
    forall q: Range ensures Arrived(Top(b), q, versions) <==> RewrittenBy(Top(b), q, Elems(versions)) {
      ArrivedAt(Top(b), q, versions);
    }
    assert Listed(listed) == GapRemoved(b, Elems(versions));
    CoveredListed(listed);
    forall x: nat ensures x in Opened(Top(b), versions) <==> x in GapOpened(Top(b), Elems(versions)) {
      OpenedAt(Top(b), versions, x);
    }
  }

  ghost predicate Arrived(m: nat, q: Range, vs: seq<Range>) {
    vs != [] && (Arrived(m, q, vs[..|vs| - 1]) || Rewritten(m, q, vs[|vs| - 1]))
  }

  ghost function Opened(m: nat, vs: seq<Range>): set<nat> {
    if vs == [] then {} else Opened(m, vs[..|vs| - 1]) + GapBelow(m, vs[|vs| - 1])
  }

  lemma {:induction false} ArrivedAt(m: nat, q: Range, vs: seq<Range>)
    ensures Arrived(m, q, vs) <==> exists r :: r in vs && Rewritten(m, q, r)
  {
    if vs != [] {
      ArrivedAt(m, q, vs[..|vs| - 1]);
      assert vs == vs[..|vs| - 1] + [vs[|vs| - 1]];
    }
  }

  lemma {:induction false} OpenedAt(m: nat, vs: seq<Range>, x: nat)
    ensures x in Opened(m, vs) <==> exists r :: r in vs && InGap(m, r, x)
  {
    if vs != [] {
      OpenedAt(m, vs[..|vs| - 1], x);
      assert vs == vs[..|vs| - 1] + [vs[|vs| - 1]];
      assert InGap(m, vs[|vs| - 1], x) <==> x in GapBelow(m, vs[|vs| - 1]);
    }
  }
}
