/** Sets of natural numbers kept as sorted, disjoint, non-adjacent inclusive ranges
    (the `RangeInclusiveSet` of the version bookkeeping), proved against plain sets. */
module RangeSets {

  datatype Option<+T> = None | Some(value: T)

  /** A map with the given keys and values, built one key at a time. */
  lemma {:induction false} BuildMap<V>(keys: set<nat>, f: nat --> V) returns (m: map<nat, V>)
    requires forall k :: k in keys ==> f.requires(k)
    ensures m.Keys == keys && forall k :: k in keys ==> m[k] == f(k)
    decreases keys
  {
    if keys == {} {
      m := map[];
    } else {
      var k :| k in keys;
      var rest := BuildMap(keys - {k}, f);
      m := rest[k := f(k)];
    }
  }

  datatype Span = Span(lo: nat, hi: nat)

  type Range = r: Span | r.lo <= r.hi witness Span(0, 0)

  predicate Within(r: Range, x: nat) {
    r.lo <= x <= r.hi
  }

  function Values(r: Range): set<nat> {
    set x: nat | r.lo <= x <= r.hi && Within(r, x)
  }

  function Min(a: nat, b: nat): nat { if a < b then a else b }

  function Max(a: nat, b: nat): nat { if a < b then b else a }

  function OptMax(a: Option<nat>, b: Option<nat>): Option<nat> {
    if a.None? then b else if b.None? then a else Some(Max(a.value, b.value))
  }

  predicate Overlaps(q: Range, r: Range) {
    q.lo <= r.hi && r.lo <= q.hi
  }

  /** Overlapping or adjacent. */
  predicate Touching(q: Range, r: Range) {
    q.lo <= r.hi + 1 && r.lo <= q.hi + 1
  }

  ghost predicate Canonical(s: seq<Range>) {
    forall i, j :: 0 <= i < j < |s| ==> s[i].hi + 1 < s[j].lo
  }

  function Elems(s: seq<Range>): set<nat> {
    if s == [] then {} else Values(s[0]) + Elems(s[1..])
  }

  lemma {:induction false} ElemsAt(s: seq<Range>, x: nat)
    ensures x in Elems(s) <==> exists r :: r in s && Within(r, x)
  {
    if s != [] {
      ElemsAt(s[1..], x);
      assert forall r :: r in s <==> r == s[0] || r in s[1..];
    }
  }

  lemma {:induction false} ElemsConcat(s: seq<Range>, t: seq<Range>)
    ensures Elems(s + t) == Elems(s) + Elems(t)
  {
    if s == [] {
      assert s + t == t;
    } else {
      ElemsConcat(s[1..], t);
      assert (s + t)[1..] == s[1..] + t;
    }
  }

  // ---------------------------------------------------------------- maximal runs

  /** `r` is a maximal range of consecutive members of `S`. */
  ghost predicate IsRun(S: set<nat>, r: Range) {
    && (forall x :: r.lo <= x <= r.hi ==> x in S)
    && r.hi + 1 !in S
    && (r.lo == 0 || r.lo - 1 !in S)
  }

  ghost function Runs(S: set<nat>): (rs: set<Range>)
    ensures forall r: Range :: r in rs <==> IsRun(S, r)
  {
    set x, y | x in S && y in S && x <= y && IsRun(S, Span(x, y)) :: Span(x, y)
  }

  ghost function Covered(rs: set<Range>): (S: set<nat>)
    ensures forall x: nat :: x in S <==> exists r :: r in rs && Within(r, x)
  {
    set r, x: nat | r in rs && r.lo <= x <= r.hi && Within(r, x) :: x
  }

  /** Two runs of one set that meet are the same run. */
  lemma RunsMeet(S: set<nat>, p: Range, q: Range)
    requires IsRun(S, p) && IsRun(S, q)
    requires Touching(p, q)
    ensures p == q
  {
    assert p.lo in S && q.lo in S;
    assert p.hi < q.hi && q.lo <= p.hi + 1 ==> p.hi + 1 in S;
    assert q.hi < p.hi && p.lo <= q.hi + 1 ==> q.hi + 1 in S;
    assert q.lo < p.lo <= q.hi + 1 ==> p.lo - 1 in S;
    assert p.lo < q.lo <= p.hi + 1 ==> q.lo - 1 in S;
  }

  lemma RunStart(S: set<nat>, x: nat) returns (lo: nat)
    requires x in S
    ensures lo <= x && (lo == 0 || lo - 1 !in S) && forall y: nat :: lo <= y <= x ==> y in S
  {
    lo := x;
    while lo > 0 && lo - 1 in S
      invariant lo <= x && forall y: nat :: lo <= y <= x ==> y in S
    {
      lo := lo - 1;
    }
  }

  lemma RunEnd(S: set<nat>, x: nat) returns (hi: nat)
    requires x in S
    ensures x <= hi && hi + 1 !in S && forall y: nat :: x <= y <= hi ==> y in S
  {
    hi := x;
    ghost var rest := S - {x};
    while hi + 1 in S
      invariant x <= hi && (forall y: nat :: x <= y <= hi ==> y in S)
      invariant rest == set y | y in S && !(x <= y <= hi)
      decreases rest
    {
      assert hi + 1 in rest;
      hi := hi + 1;
      var next := set y | y in S && !(x <= y <= hi);
      assert next == rest - {hi};
      rest := next;
    }
  }

  /** Every member lies in some run. */
  lemma RunOf(S: set<nat>, x: nat) returns (r: Range)
    requires x in S
    ensures r in Runs(S) && Within(r, x)
  {
    var lo := RunStart(S, x);
    var hi := RunEnd(S, x);
    r := Span(lo, hi);
    assert IsRun(S, r);
  }

  lemma CoveredRuns(S: set<nat>)
    ensures Covered(Runs(S)) == S
  {
    forall x | x in S ensures x in Covered(Runs(S)) {
      var r := RunOf(S, x);
    }
  }

  function Listed(s: seq<Range>): (rs: set<Range>)
    ensures forall r: Range :: r in rs <==> r in s
  {
    set r | r in s
  }

  /** A canonical sequence lists exactly the maximal runs of its elements. */
  lemma CanonicalRuns(s: seq<Range>)
    requires Canonical(s)
    ensures Listed(s) == Runs(Elems(s))
  {
    forall r | r in s ensures IsRun(Elems(s), r) {
      ListedIsRun(s, r);
    }
    forall r | r in Runs(Elems(s)) ensures r in s {
      assert r.lo in Elems(s);
      ElemsAt(s, r.lo);
      var q :| q in s && Within(q, r.lo);
      ListedIsRun(s, q);
      RunsMeet(Elems(s), r, q);
    }
  }

  lemma ListedIsRun(s: seq<Range>, r: Range)
    requires Canonical(s) && r in s
    ensures IsRun(Elems(s), r)
  {
    forall x: nat | Within(r, x) ensures x in Elems(s) { ElemsAt(s, x); }
    ElemsAt(s, r.hi + 1);
    if r.lo > 0 { ElemsAt(s, r.lo - 1); }
  }

  /** The representation is determined by the set. */
  lemma {:induction false} CanonicalUnique(s: seq<Range>, t: seq<Range>)
    requires Canonical(s) && Canonical(t)
    requires Elems(s) == Elems(t)
    ensures s == t
  {
    CanonicalRuns(s);
    CanonicalRuns(t);
    assert forall r: Range :: r in Listed(s) <==> r in Listed(t);
    SameMembersSame(s, t);
  }

  lemma {:induction false} SameMembersSame(s: seq<Range>, t: seq<Range>)
    requires Canonical(s) && Canonical(t)
    requires forall r: Range :: r in s <==> r in t
    ensures s == t
  {
    assert s != [] ==> s[0] in s;
    assert t != [] ==> t[0] in t;
    if s != [] {
      assert s[0] == t[0];
      forall r: Range ensures r in s[1..] <==> r in t[1..] {
        assert s == [s[0]] + s[1..] && t == [t[0]] + t[1..];
        if r == s[0] {
          assert r !in s[1..] && r !in t[1..];
        } else {
          assert r in s <==> r in s[1..];
          assert r in t <==> r in t[1..];
        }
      }
      SameMembersSame(s[1..], t[1..]);
      assert s == [s[0]] + s[1..] && t == [t[0]] + t[1..];
    }
  }

  /** Replacing whole runs by new members changes the runs by exactly that delta, if and
      only if no run that stays touches a new member. */
  lemma RunsDelta(S: set<nat>, removed: set<Range>, I: set<nat>)
    requires removed <= Runs(S)
    requires forall q: Range, x :: q in Runs(S) - removed && x in I ==> !Within(q, x)
    ensures Runs(S - Covered(removed) + I) == Runs(S) - removed + Runs(I) <==> Apart(S, removed, I)
  {
    if Apart(S, removed, I) {
      DeltaRuns(S, removed, I);
    } else {
      var q: Range, x :| q in Runs(S) - removed && x in I && Near(q, x);
      AdjacentBreaks(S - Covered(removed) + I, q, x);
    }
  }

  lemma AdjacentBreaks(S: set<nat>, q: Range, x: nat)
    requires x in S && Near(q, x) && !Within(q, x)
    ensures q !in Runs(S)
  {
  }

  lemma DeltaRuns(S: set<nat>, removed: set<Range>, I: set<nat>)
    requires Apart(S, removed, I)
    ensures Runs(S - Covered(removed) + I) == Runs(S) - removed + Runs(I)
  {
    forall q | q in Runs(S) - removed ensures IsRun(S - Covered(removed) + I, q) {
      StayingRun(S, removed, I, q);
    }
    forall q | q in Runs(I) ensures IsRun(S - Covered(removed) + I, q) {
      NewRun(S, removed, I, q);
    }
    forall r | r in Runs(S - Covered(removed) + I) ensures r in Runs(S) - removed + Runs(I) {
      OldOrNew(S, removed, I, r);
    }
  }

  /** Inside `q` or next to it. */
  predicate Near(q: Range, x: nat) {
    q.lo <= x + 1 && x <= q.hi + 1
  }

  ghost predicate Apart(S: set<nat>, removed: set<Range>, I: set<nat>) {
    && removed <= Runs(S)
    && forall q: Range, x :: q in Runs(S) - removed && x in I ==> !Near(q, x)
  }

  lemma StayingRun(S: set<nat>, removed: set<Range>, I: set<nat>, q: Range)
    requires Apart(S, removed, I)
    requires q in Runs(S) - removed
    ensures IsRun(S - Covered(removed) + I, q)
  {
    forall x | q.lo <= x <= q.hi ensures x !in Covered(removed) {
      if x in Covered(removed) {
        var r :| r in removed && Within(r, x);
        RunsMeet(S, q, r);
      }
    }
  }

  lemma NewRun(S: set<nat>, removed: set<Range>, I: set<nat>, q: Range)
    requires Apart(S, removed, I)
    requires q in Runs(I)
    ensures IsRun(S - Covered(removed) + I, q)
  {
    assert q.hi in I && q.lo in I;
    forall y | y in S && y !in Covered(removed) ensures y != q.hi + 1 && y + 1 != q.lo {
      var r := RunOf(S, y);
      assert r in Runs(S) - removed;
    }
  }

  lemma OldOrNew(S: set<nat>, removed: set<Range>, I: set<nat>, r: Range)
    requires Apart(S, removed, I)
    requires r in Runs(S - Covered(removed) + I)
    ensures r in Runs(S) - removed || r in Runs(I)
  {
    var S' := S - Covered(removed) + I;
    assert r.lo in S';
    if r.lo in I {
      var q := RunOf(I, r.lo);
      NewRun(S, removed, I, q);
      RunsMeet(S', q, r);
    } else {
      var q := RunOf(S, r.lo);
      assert q in Runs(S) - removed;
      StayingRun(S, removed, I, q);
      RunsMeet(S', q, r);
    }
  }

  // ---------------------------------------------------------------- operations

  lemma ConsCanonical(q: Range, rest: seq<Range>)
    requires Canonical(rest) && (rest != [] ==> q.hi + 1 < rest[0].lo)
    ensures Canonical([q] + rest) && Elems([q] + rest) == Values(q) + Elems(rest)
  {
    assert ([q] + rest)[1..] == rest;
  }

  lemma Merged(q: Range, r: Range)
    requires Touching(q, r)
    ensures Values(Span(Min(q.lo, r.lo), Max(q.hi, r.hi))) == Values(q) + Values(r)
  {
  }

  function Insert(s: seq<Range>, r: Range): (t: seq<Range>)
    requires Canonical(s)
    ensures Canonical(t) && Elems(t) == Elems(s) + Values(r)
    ensures t != [] && t[0].lo >= (if s == [] then r.lo else Min(s[0].lo, r.lo))
  {
    if s == [] then [r]
    else if s[0].hi + 1 < r.lo then
      var rest := Insert(s[1..], r);
      ConsCanonical(s[0], rest);
      [s[0]] + rest
    else if r.hi + 1 < s[0].lo then
      ConsCanonical(r, s);
      [r] + s
    else
      Merged(s[0], r);
      Insert(s[1..], Span(Min(s[0].lo, r.lo), Max(s[0].hi, r.hi)))
  }

  /** What is left of one range after taking `r` out. */
  function Cut(q: Range, r: Range): (t: seq<Range>)
    ensures Canonical(t) && Elems(t) == Values(q) - Values(r)
    ensures forall i :: 0 <= i < |t| ==> q.lo <= t[i].lo && t[i].hi <= q.hi
  {
    if !Overlaps(q, r) then [q]
    else
      var left: seq<Range> := if q.lo < r.lo then [Span(q.lo, r.lo - 1)] else [];
      var right: seq<Range> := if r.hi < q.hi then [Span(r.hi + 1, q.hi)] else [];
      ElemsConcat(left, right);
      left + right
  }

  lemma CutBefore(cut: seq<Range>, rest: seq<Range>, q: Range)
    requires Canonical(cut) && Canonical(rest)
    requires forall i :: 0 <= i < |cut| ==> q.lo <= cut[i].lo && cut[i].hi <= q.hi
    requires forall i :: 0 <= i < |rest| ==> q.hi + 1 < rest[i].lo
    ensures Canonical(cut + rest) && Elems(cut + rest) == Elems(cut) + Elems(rest)
    ensures forall i :: 0 <= i < |cut + rest| ==> q.lo <= (cut + rest)[i].lo
  {
    ElemsConcat(cut, rest);
  }

  lemma RemoveParts(s: seq<Range>, r: Range)
    requires s != []
    ensures Elems(s) - Values(r) == (Values(s[0]) - Values(r)) + (Elems(s[1..]) - Values(r))
  {
    assert s == [s[0]] + s[1..];
    ElemsConcat([s[0]], s[1..]);
  }

  function Remove(s: seq<Range>, r: Range): (t: seq<Range>)
    requires Canonical(s)
    ensures Canonical(t) && Elems(t) == Elems(s) - Values(r)
    ensures forall i :: 0 <= i < |t| ==> s != [] && s[0].lo <= t[i].lo
  {
    if s == [] then []
    else
      var rest := Remove(s[1..], r);
      CutBefore(Cut(s[0], r), rest, s[0]);
      RemoveParts(s, r);
      Cut(s[0], r) + rest
  }

  /** The stored ranges that overlap `r`, in order. */
  function Overlapping(s: seq<Range>, r: Range): (t: seq<Range>)
    ensures forall q :: q in t <==> q in s && Overlaps(q, r)
  {
    if s == [] then []
    else
      assert forall q :: q in s <==> q == s[0] || q in s[1..];
      (if Overlaps(s[0], r) then [s[0]] else []) + Overlapping(s[1..], r)
  }

  /** The stored range holding `x`. */
  function Get(s: seq<Range>, x: nat): (o: Option<Range>)
    ensures o.Some? ==> o.value in s && Within(o.value, x)
    ensures o.None? <==> x !in Elems(s)
  {
    if s == [] then None
    else if s[0].lo <= x <= s[0].hi then Some(s[0])
    else Get(s[1..], x)
  }

  function Extend(s: seq<Range>, t: seq<Range>): (u: seq<Range>)
    requires Canonical(s)
    ensures Canonical(u) && Elems(u) == Elems(s) + Elems(t)
    decreases |t|
  {
    if t == [] then s else Extend(Insert(s, t[0]), t[1..])
  }

  /** The maximal parts of `r` that `s` does not hold. */
  function Gaps(s: seq<Range>, r: Range): (t: seq<Range>)
    ensures Canonical(t) && Elems(t) == Values(r) - Elems(s)
  {
    assert Elems([r]) == Values(r);
    RemoveAll([r], s)
  }

  function RemoveAll(s: seq<Range>, t: seq<Range>): (u: seq<Range>)
    requires Canonical(s)
    ensures Canonical(u) && Elems(u) == Elems(s) - Elems(t)
    decreases |t|
  {
    if t == [] then s else RemoveAll(Remove(s, t[0]), t[1..])
  }
}
