/** Writing the changes of books to the tables: the vectors of rows and the statements that take them. */
module BookieDb {
  import opened RangeSets
  import opened Tables
  import opened BookSystem
  import opened BookedVersionsModel

  /** The rows of one write, as the vectors the statements take. */
  datatype DbParams = DbParams(
    gapDeletes: seq<GapRow>, gapInserts: seq<GapRow>,
    versionDeletes: seq<(nat, nat)>, seqDeletes: seq<SeqKey>, seqInserts: seq<SeqRow>)

  function Members<T(!new)>(s: seq<T>): (S: set<T>)
    ensures forall x :: x in S <==> x in s
  {
    set x | x in s
  }

  ghost predicate NoRepeat<T>(s: seq<T>) {
    forall i, j :: 0 <= i < j < |s| ==> s[i] != s[j]
  }

  function SetsOf(p: DbParams): RowSets {
    RowSets(Members(p.gapDeletes), Members(p.gapInserts), Members(p.versionDeletes),
            Members(p.seqDeletes), Members(p.seqInserts))
  }

  ghost predicate NothingTwice(p: DbParams) {
    NoRepeat(p.gapDeletes) && NoRepeat(p.gapInserts) && NoRepeat(p.seqDeletes) && NoRepeat(p.seqInserts)
  }

  lemma NoRepeatConcat<T(!new)>(s: seq<T>, t: seq<T>)
    requires NoRepeat(s) && NoRepeat(t) && Members(s) !! Members(t)
    ensures NoRepeat(s + t) && Members(s + t) == Members(s) + Members(t)
  {
    forall i, j | 0 <= i < j < |s + t| ensures (s + t)[i] != (s + t)[j] {
      if i < |s| <= j { assert s[i] in Members(s) && t[j - |s|] in Members(t); }
    }
  }

  // ---------------------------------------------------------------- building the vectors

  function GapRowSeq(a: nat, rs: seq<Range>): (rows: seq<GapRow>)
    ensures |rows| == |rs| && forall i :: 0 <= i < |rs| ==> rows[i] == GapRow(a, rs[i])
  {
    seq(|rs|, i requires 0 <= i < |rs| => GapRow(a, rs[i]))
  }

  function VersionSeq(a: nat, vs: seq<nat>): (rows: seq<(nat, nat)>)
    ensures |rows| == |vs| && forall i :: 0 <= i < |vs| ==> rows[i] == (a, vs[i])
  {
    seq(|vs|, i requires 0 <= i < |vs| => (a, vs[i]))
  }

  function KeySeq(a: nat, v: nat, rs: seq<Range>): (rows: seq<SeqKey>)
    ensures |rows| == |rs| && forall i :: 0 <= i < |rs| ==> rows[i] == SeqKey(a, v, rs[i])
  {
    seq(|rs|, i requires 0 <= i < |rs| => SeqKey(a, v, rs[i]))
  }

  function SeqRowSeq(a: nat, v: nat, rs: seq<Range>, last: nat, ts: nat): (rows: seq<SeqRow>)
    ensures |rows| == |rs| && forall i :: 0 <= i < |rs| ==> rows[i] == SeqRow(a, v, rs[i], last, ts)
  {
    seq(|rs|, i requires 0 <= i < |rs| => SeqRow(a, v, rs[i], last, ts))
  }

  lemma GapRowSeqMembers(a: nat, rs: seq<Range>)
    requires NoRepeat(rs)
    ensures NoRepeat(GapRowSeq(a, rs)) && Members(GapRowSeq(a, rs)) == GapRows(a, Listed(rs))
  {
    forall g ensures g in GapRowSeq(a, rs) <==> g in GapRows(a, Listed(rs)) {
      if g in GapRows(a, Listed(rs)) {
        var i :| 0 <= i < |rs| && rs[i] == g.range;
        assert GapRowSeq(a, rs)[i] == g;
      }
    }
  }

  method RangesInAnyOrder(R: set<Range>) returns (s: seq<Range>)
    ensures NoRepeat(s) && Listed(s) == R
  {
    s := [];
    var todo := R;
    while todo != {}
      invariant todo <= R && NoRepeat(s) && Listed(s) == R - todo
      decreases todo
    {
      var r :| r in todo;
      assert r !in Listed(s);
      s := s + [r];
      todo := todo - {r};
    }
  }

  /** The sequence rows of one actor's partial versions. */
  method PushSeqChanges(a: nat, cs: seq<PartialSeqChange>) returns (dels: seq<SeqKey>, ins: seq<SeqRow>)
    requires GoodSeqChanges(cs)
    ensures NoRepeat(dels) && NoRepeat(ins)
    ensures Members(dels) == SeqDelOf(a, AbsSeqChanges(cs))
    ensures Members(ins) == SeqInsOf(a, AbsSeqChanges(cs))
  {
    dels, ins := [], [];
    for i := 0 to |cs|
      invariant NoRepeat(dels) && NoRepeat(ins)
      invariant Members(dels) == SeqDelOf(a, AbsSeqChanges(cs[..i]))
      invariant Members(ins) == SeqInsOf(a, AbsSeqChanges(cs[..i]))
    {
      var c := cs[i];
      var d, n := KeySeq(a, c.version, c.changes.removeSeqs),
          SeqRowSeq(a, c.version, c.changes.insertSeqs, c.lastSeq, c.ts);
      assert cs[..i + 1][..i] == cs[..i];
      VersionsBefore(cs, i);
      OneSeqChange(a, c);
      NoRepeatConcat(dels, d);
      NoRepeatConcat(ins, n);
      SeqRowsAdd(a, AbsSeqChanges(cs[..i]), c.version, AbsSeqChange(c));
      dels, ins := dels + d, ins + n;
    }
    assert cs[..|cs|] == cs;
  }

  ghost function SeqDelOf(a: nat, m: map<nat, SeqChange>): (S: set<SeqKey>)
    ensures forall k :: k in S <==> k.actor == a && k.version in m && k.range in m[k.version].removed
  {
    set v, r | v in m && r in m[v].removed :: SeqKey(a, v, r)
  }

  ghost function SeqInsOf(a: nat, m: map<nat, SeqChange>): (S: set<SeqRow>)
    ensures forall s :: s in S <==> s.actor == a && s.version in m && s.range in Runs(m[s.version].inserted)
                                    && s.lastSeq == m[s.version].lastSeq && s.ts == m[s.version].ts
  {
    set v, r | v in m && r in Runs(m[v].inserted) :: SeqRow(a, v, r, m[v].lastSeq, m[v].ts)
  }

  lemma {:induction false} VersionsBefore(cs: seq<PartialSeqChange>, i: nat)
    requires GoodSeqChanges(cs) && i < |cs|
    ensures forall v :: v in AbsSeqChanges(cs[..i]) ==> v < cs[i].version
  {
    VersionsIn(cs[..i]);
  }

  lemma {:induction false} VersionsIn(cs: seq<PartialSeqChange>)
    ensures forall v :: v in AbsSeqChanges(cs) ==> exists j :: 0 <= j < |cs| && cs[j].version == v
  {
    if cs != [] {
      VersionsIn(cs[..|cs| - 1]);
      forall v | v in AbsSeqChanges(cs) ensures exists j :: 0 <= j < |cs| && cs[j].version == v {
        if v in AbsSeqChanges(cs[..|cs| - 1]) {
          var j :| 0 <= j < |cs| - 1 && cs[..|cs| - 1][j].version == v;
          assert cs[j].version == v;
        }
      }
    }
  }

  lemma OneSeqChange(a: nat, c: PartialSeqChange)
    requires Canonical(c.changes.removeSeqs) && Canonical(c.changes.insertSeqs)
    ensures
      var d := KeySeq(a, c.version, c.changes.removeSeqs);
      && NoRepeat(d)
      && forall k :: k in d <==> k.actor == a && k.version == c.version && k.range in AbsSeqChange(c).removed
    ensures
      var n := SeqRowSeq(a, c.version, c.changes.insertSeqs, c.lastSeq, c.ts);
      && NoRepeat(n)
      && forall s :: s in n <==> s.actor == a && s.version == c.version && s.range in Runs(AbsSeqChange(c).inserted)
                                 && s.lastSeq == c.lastSeq && s.ts == c.ts
  {
    CanonicalRuns(c.changes.insertSeqs);
    var d := KeySeq(a, c.version, c.changes.removeSeqs);
    forall k: SeqKey | k.actor == a && k.version == c.version && k.range in c.changes.removeSeqs ensures k in d {
      var i :| 0 <= i < |d| && c.changes.removeSeqs[i] == k.range;
      assert d[i] == k;
    }
    var n := SeqRowSeq(a, c.version, c.changes.insertSeqs, c.lastSeq, c.ts);
    forall s: SeqRow
      | && s.actor == a && s.version == c.version && s.range in c.changes.insertSeqs
        && s.lastSeq == c.lastSeq && s.ts == c.ts
      ensures s in n
    {
      var i :| 0 <= i < |n| && c.changes.insertSeqs[i] == s.range;
      assert n[i] == s;
    }
  }

  ghost predicate IsInsertOf(a: nat, v: nat, c: SeqChange, s: SeqRow) {
    s.actor == a && s.version == v && s.range in Runs(c.inserted) && s.lastSeq == c.lastSeq && s.ts == c.ts
  }

  lemma SeqRowsAdd(a: nat, m: map<nat, SeqChange>, v: nat, c: SeqChange)
    requires v !in m
    ensures forall k ::
      k in SeqDelOf(a, m[v := c]) <==> k in SeqDelOf(a, m) || (k.actor == a && k.version == v && k.range in c.removed)
    ensures forall s ::
      s in SeqInsOf(a, m[v := c]) <==> s in SeqInsOf(a, m) || IsInsertOf(a, v, c, s)
  {
  }

  function AbsAll(all: seq<ComputedChanges>): seq<Delta> {
    seq(|all|, i requires 0 <= i < |all| => AbsChanges(all[i]))
  }

  ghost predicate GoodBatch(all: seq<ComputedChanges>) {
    && (forall i :: 0 <= i < |all| ==> GoodChanges(all[i]))
    && forall i, j :: 0 <= i < j < |all| ==> all[i].actor != all[j].actor
  }

  /** The vectors of one actor's changes. */
  method ParamsOf(c: ComputedChanges) returns (p: DbParams)
    requires GoodChanges(c)
    ensures SetsOf(p) == RowsOf(AbsChanges(c)) && NothingTwice(p)
  {
    var removed := RangesInAnyOrder(c.gaps.removeRanges);
    var dels, ins := PushSeqChanges(c.actor, c.partialSeqChanges);
    GapRowSeqMembers(c.actor, removed);
    GapRowSeqMembers(c.actor, c.gaps.insertSet);
    CanonicalRuns(c.gaps.insertSet);
    p := DbParams(GapRowSeq(c.actor, removed), GapRowSeq(c.actor, c.gaps.insertSet),
                  VersionSeq(c.actor, c.clearVersions), dels, ins);
    assert SetsOf(p).verDel == RowsOf(AbsChanges(c)).verDel by {
      forall k: (nat, nat) | k.0 == c.actor && k.1 in c.clearVersions ensures k in p.versionDeletes {
        var i :| 0 <= i < |c.clearVersions| && c.clearVersions[i] == k.1;
        assert p.versionDeletes[i] == k;
      }
    }
  }

  function Append(p: DbParams, q: DbParams): DbParams {
    DbParams(p.gapDeletes + q.gapDeletes, p.gapInserts + q.gapInserts, p.versionDeletes + q.versionDeletes,
             p.seqDeletes + q.seqDeletes, p.seqInserts + q.seqInserts)
  }

  lemma ApartByActor(p: DbParams, q: DbParams, A: set<nat>, B: set<nat>)
    requires Only(SetsOf(p), A) && Only(SetsOf(q), B) && A !! B
    ensures Members(p.gapDeletes) !! Members(q.gapDeletes) && Members(p.gapInserts) !! Members(q.gapInserts)
    ensures Members(p.seqDeletes) !! Members(q.seqDeletes) && Members(p.seqInserts) !! Members(q.seqInserts)
  {
    forall g | g in Members(p.gapDeletes) ensures g !in Members(q.gapDeletes) {
      assert g in SetsOf(p).gapDel && (g in Members(q.gapDeletes) ==> g in SetsOf(q).gapDel);
    }
    forall g | g in Members(p.gapInserts) ensures g !in Members(q.gapInserts) {
      assert g in SetsOf(p).gapIns && (g in Members(q.gapInserts) ==> g in SetsOf(q).gapIns);
    }
    forall k | k in Members(p.seqDeletes) ensures k !in Members(q.seqDeletes) {
      assert k in SetsOf(p).seqDel && (k in Members(q.seqDeletes) ==> k in SetsOf(q).seqDel);
    }
    forall u | u in Members(p.seqInserts) ensures u !in Members(q.seqInserts) {
      assert u in SetsOf(p).seqIns && (u in Members(q.seqInserts) ==> u in SetsOf(q).seqIns);
    }
  }

  lemma AppendSets(p: DbParams, q: DbParams, A: set<nat>, B: set<nat>)
    requires NothingTwice(p) && NothingTwice(q) && Only(SetsOf(p), A) && Only(SetsOf(q), B) && A !! B
    ensures NothingTwice(Append(p, q)) && SetsOf(Append(p, q)) == Union(SetsOf(p), SetsOf(q))
  {
    ApartByActor(p, q, A, B);
    NoRepeatConcat(p.gapDeletes, q.gapDeletes);
    NoRepeatConcat(p.gapInserts, q.gapInserts);
    NoRepeatConcat(p.seqDeletes, q.seqDeletes);
    NoRepeatConcat(p.seqInserts, q.seqInserts);
    assert Members(p.versionDeletes + q.versionDeletes) == Members(p.versionDeletes) + Members(q.versionDeletes);
  }

  lemma AppendOne(p: DbParams, one: DbParams, ds: seq<Delta>, i: nat)
    requires i < |ds| && DistinctActors(ds)
    requires SetsOf(p) == RowsOfAll(ds[..i]) && NothingTwice(p)
    requires SetsOf(one) == RowsOf(ds[i]) && NothingTwice(one)
    ensures SetsOf(Append(p, one)) == RowsOfAll(ds[..i + 1]) && NothingTwice(Append(p, one))
  {
    assert ds[..i + 1][..i] == ds[..i] && ds[..i + 1][i] == ds[i];
    RowsOfAllOnly(ds[..i]);
    ActorIn(ds[..i], ds[i].actor);
    AppendSets(p, one, Actors(ds[..i]), {ds[i].actor});
  }

  /** Collect the changes of several actors into one write. */
  method FromChanges(all: seq<ComputedChanges>) returns (p: DbParams)
    requires GoodBatch(all)
    ensures SetsOf(p) == RowsOfAll(AbsAll(all)) && NothingTwice(p)
  {
    p := DbParams([], [], [], [], []);
    ghost var ds := AbsAll(all);
    for i := 0 to |all|
      invariant SetsOf(p) == RowsOfAll(ds[..i]) && NothingTwice(p)
    {
      var one := ParamsOf(all[i]);
      AppendOne(p, one, ds, i);
      p := Append(p, one);
    }
    assert ds[..|all|] == ds;
  }

  // ---------------------------------------------------------------- the connection

  /** `effective`: the number of deleted rows equals the number asked for. */
  datatype Status = Ok(effective: bool) | ConstraintError

  class Conn {
    var gaps: set<GapRow>
    var seqs: set<SeqRow>
    /** Buffered changes, by actor and version. */
    var buffered: set<(nat, nat)>

    ghost predicate Valid() reads this {
      KeysUnique(State())
    }

    ghost function State(): Tables reads this {
      Tables(gaps, seqs)
    }

    method DeleteGaps(rows: seq<GapRow>) returns (count: nat)
      modifies this`gaps
      ensures gaps == old(gaps) - Members(rows)
      ensures count == |old(gaps) * Members(rows)|
    {
      count := |gaps * Members(rows)|;
      gaps := gaps - Members(rows);
    }

    method DeleteSeqs(keys: seq<SeqKey>) returns (count: nat)
      modifies this`seqs
      ensures seqs == DropKeys(old(seqs), Members(keys))
      ensures count == |old(seqs) - DropKeys(old(seqs), Members(keys))|
    {
      var kept := DropKeys(seqs, Members(keys));
      count := |seqs - kept|;
      seqs := kept;
    }

    /** Row by row; a clash of primary keys undoes the statement. */
    method InsertGaps(rows: seq<GapRow>) returns (ok: bool)
      requires GapKeysUnique(gaps)
      modifies this`gaps
      ensures ok <==> NoRepeat(rows) && GapInsertFits(old(gaps), Members(rows))
      ensures gaps == if ok then old(gaps) + Members(rows) else old(gaps)
    {
      var before := gaps;
      for i := 0 to |rows|
        invariant gaps == before + Members(rows[..i]) && GapKeysUnique(gaps)
        invariant NoRepeat(rows[..i]) && before !! Members(rows[..i])
      {
        var row := rows[i];
        assert Members(rows[..i + 1]) == Members(rows[..i]) + {row};
        if exists g :: g in gaps && SameGapKey(g, row) {
          GapClash(before, rows, i);
          gaps := before;
          return false;
        }
        assert SameGapKey(row, row);
        assert rows[..i + 1] == rows[..i] + [row];
        gaps := gaps + {row};
      }
      assert rows[..|rows|] == rows;
      return true;
    }

    method InsertSeqs(rows: seq<SeqRow>) returns (ok: bool)
      requires SeqKeysUnique(seqs)
      modifies this`seqs
      ensures ok <==> NoRepeat(rows) && SeqInsertFits(old(seqs), Members(rows))
      ensures seqs == if ok then old(seqs) + Members(rows) else old(seqs)
    {
      var before := seqs;
      for i := 0 to |rows|
        invariant seqs == before + Members(rows[..i]) && SeqKeysUnique(seqs)
        invariant NoRepeat(rows[..i]) && before !! Members(rows[..i])
      {
        var row := rows[i];
        assert Members(rows[..i + 1]) == Members(rows[..i]) + {row};
        if exists s :: s in seqs && SameSeqKey(s, row) {
          SeqClash(before, rows, i);
          seqs := before;
          return false;
        }
        assert SameSeqKey(row, row);
        assert rows[..i + 1] == rows[..i] + [row];
        seqs := seqs + {row};
      }
      assert rows[..|rows|] == rows;
      return true;
    }

    /** The two statements on the gaps table. */
    method ExecuteGaps(p: DbParams) returns (r: Status)
      requires GapKeysUnique(gaps) && NoRepeat(p.gapDeletes) && NoRepeat(p.gapInserts)
      modifies this`gaps
      ensures
        var kept := old(gaps) - Members(p.gapDeletes);
        if GapInsertFits(kept, Members(p.gapInserts))
        then r == Ok(Members(p.gapDeletes) <= old(gaps)) && gaps == kept + Members(p.gapInserts)
        else r == ConstraintError && gaps == kept
    {
      GapCount(gaps, p.gapDeletes);
      var effective := true;
      if |p.gapDeletes| > 0 {
        var count := DeleteGaps(p.gapDeletes);
        effective := count == |p.gapDeletes|;
      }
      assert gaps == old(gaps) - Members(p.gapDeletes);
      if |p.gapInserts| > 0 {
        var ok := InsertGaps(p.gapInserts);
        if !ok { return ConstraintError; }
      }
      return Ok(effective);
    }

    /** The three statements on the sequence table. */
    method ExecuteSeqs(p: DbParams) returns (r: Status)
      requires SeqKeysUnique(seqs) && NoRepeat(p.seqDeletes) && NoRepeat(p.seqInserts)
      modifies this`seqs
      ensures
        var left := DropVersions(old(seqs), Members(p.versionDeletes));
        var kept := DropKeys(left, Members(p.seqDeletes));
        if SeqInsertFits(kept, Members(p.seqInserts))
        then r == Ok(forall k :: k in Members(p.seqDeletes) ==>
          HitsOne(left, k)) && seqs == kept + Members(p.seqInserts)
        else r == ConstraintError && seqs == kept
    {
      if |p.versionDeletes| > 0 {
        seqs := DropVersions(seqs, Members(p.versionDeletes));
      }
      ghost var left := DropVersions(old(seqs), Members(p.versionDeletes));
      assert seqs == left;
      SeqCount(left, p.seqDeletes);
      var effective := true;
      if |p.seqDeletes| > 0 {
        var count := DeleteSeqs(p.seqDeletes);
        effective := count == |p.seqDeletes|;
      }
      assert seqs == DropKeys(left, Members(p.seqDeletes));
      if |p.seqInserts| > 0 {
        var ok := InsertSeqs(p.seqInserts);
        if !ok { return ConstraintError; }
      }
      return Ok(effective);
    }

    /** One write. */
    method Execute(p: DbParams) returns (r: Status)
      requires Valid() && NothingTwice(p)
      modifies this`gaps, this`seqs
      ensures
        match Exec(old(State()), SetsOf(p))
        case Done(t, eff) => r == Ok(eff) && State() == t
        case Violation => r == ConstraintError && State() == AtViolation(old(State()), SetsOf(p))
    {
      var first := ExecuteGaps(p);
      if first.ConstraintError? { return ConstraintError; }
      var second := ExecuteSeqs(p);
      if second.ConstraintError? { return ConstraintError; }
      return Ok(first.effective && second.effective);
    }
  }

  lemma GapClash(before: set<GapRow>, rows: seq<GapRow>, i: nat)
    requires i < |rows| && NoRepeat(rows[..i])
    requires exists g :: g in before + Members(rows[..i]) && SameGapKey(g, rows[i])
    ensures !(NoRepeat(rows) && GapInsertFits(before, Members(rows)))
  {
    var g :| g in before + Members(rows[..i]) && SameGapKey(g, rows[i]);
    assert rows[i] in Members(rows);
    if g in before {
      assert g in before + Members(rows) && (g == rows[i] ==> !(before !! Members(rows)));
    } else {
      var j :| 0 <= j < i && rows[..i][j] == g;
      assert rows[j] == g && g in Members(rows);
    }
  }

  lemma SeqClash(before: set<SeqRow>, rows: seq<SeqRow>, i: nat)
    requires i < |rows| && NoRepeat(rows[..i])
    requires exists s :: s in before + Members(rows[..i]) && SameSeqKey(s, rows[i])
    ensures !(NoRepeat(rows) && SeqInsertFits(before, Members(rows)))
  {
    var s :| s in before + Members(rows[..i]) && SameSeqKey(s, rows[i]);
    assert rows[i] in Members(rows);
    if s in before {
      assert s in before + Members(rows) && (s == rows[i] ==> !(before !! Members(rows)));
    } else {
      var j :| 0 <= j < i && rows[..i][j] == s;
      assert rows[j] == s && s in Members(rows);
    }
  }

  lemma {:induction false} MembersCard<T(!new)>(s: seq<T>)
    requires NoRepeat(s)
    ensures |Members(s)| == |s|
  {
    if s != [] {
      var init, x := s[..|s| - 1], s[|s| - 1];
      MembersCard(init);
      assert s == init + [x];
      assert x !in Members(init);
      assert Members(s) == Members(init) + {x};
    }
  }

  lemma SubsetSameCard<T>(A: set<T>, B: set<T>)
    requires A <= B
    ensures |A| <= |B| && (|A| == |B| <==> A == B)
  {
    assert B == A + (B - A);
  }

  lemma GapCount(rows: set<GapRow>, dels: seq<GapRow>)
    requires NoRepeat(dels)
    ensures |rows * Members(dels)| == |dels| <==> Members(dels) <= rows
  {
    MembersCard(dels);
    SubsetSameCard(rows * Members(dels), Members(dels));
  }

  lemma {:induction false} KeysCard(rows: set<SeqRow>)
    requires SeqKeysUnique(rows)
    ensures |set s | s in rows :: KeyOf(s)| == |rows|
    decreases rows
  {
    if rows != {} {
      var s :| s in rows;
      KeysCard(rows - {s});
      assert (set u | u in rows :: KeyOf(u)) == (set u | u in rows - {s} :: KeyOf(u)) + {KeyOf(s)};
      forall u | u in rows - {s} ensures KeyOf(u) != KeyOf(s) {
        assert !SameSeqKey(u, s);
      }
    } else {
      assert (set u | u in rows :: KeyOf(u)) == {};
    }
  }

  lemma SeqCount(rows: set<SeqRow>, dels: seq<SeqKey>)
    requires SeqKeysUnique(rows) && NoRepeat(dels)
    ensures |rows - DropKeys(rows, Members(dels))| == |dels| <==> forall k :: k in Members(dels) ==> HitsOne(rows, k)
  {
    var hit := rows - DropKeys(rows, Members(dels));
    var keys := set s | s in hit :: KeyOf(s);
    KeysCard(hit);
    MembersCard(dels);
    SubsetSameCard(keys, Members(dels));
    forall k | k in Members(dels) ensures k in keys <==> HitsOne(rows, k) {
      assert forall s, u :: s in rows && u in rows && KeyOf(s) == KeyOf(u) ==> SameSeqKey(s, u);
      if k in keys {
        var s :| s in hit && KeyOf(s) == k;
      }
    }
  }
}
