/** Whole runs of bookkeeping: books and tables of every actor, step after step. */
module BookRuns {
  import opened RangeSets
  import opened Books
  import opened Tables

  /** The ways a book is changed together with its rows. */
  datatype Op =
    | Batch(entries: seq<Entry>)       // compute_and_apply
    | InsertDb(versions: set<nat>)     // insert_db
    | ClearPartials(versions: set<nat>) // clear_partials

  ghost function StepOf(op: Op): Step {
    match op
    case Batch(es) => BatchStep(es)
    case InsertDb(V) => Step(V, {}, map[])
    case ClearPartials(C) => Step({}, C, map[])
  }

  lemma StepPartsBooked(op: Op)
    ensures StepOf(op).parts.Keys <= StepOf(op).versions
  {
    if op.Batch? { BatchPartialsBooked(op.entries); }
  }

  lemma StepGapInv(b: Book, K: set<nat>, op: Op)
    requires GapInv(b, K)
    ensures GapInv(BookStep(b, StepOf(op)), K + StepOf(op).versions)
  {
    var st := StepOf(op);
    StepPartsBooked(op);
    GapStep(b, K, st.versions);
    MergeBelow(BookClear(BookGaps(b, st.versions), st.clear), st.parts, K + st.versions);
  }

  // ---------------------------------------------------------------- one actor

  ghost function RunBook(ops: seq<Op>): Book {
    if ops == [] then EMPTY_BOOK else BookStep(RunBook(ops[..|ops| - 1]), StepOf(ops[|ops| - 1]))
  }

  /** All versions booked by a run. */
  ghost function Booked(ops: seq<Op>): set<nat> {
    if ops == [] then {} else Booked(ops[..|ops| - 1]) + StepOf(ops[|ops| - 1]).versions
  }

  /** After any run, the greatest version is the greatest booked one and the needed versions
      are exactly those from 1 up to it that were never booked. */
  lemma {:induction false} RunGapInv(ops: seq<Op>)
    ensures GapInv(RunBook(ops), Booked(ops))
  {
    if ops != [] {
      RunGapInv(ops[..|ops| - 1]);
      StepGapInv(RunBook(ops[..|ops| - 1]), Booked(ops[..|ops| - 1]), ops[|ops| - 1]);
    }
  }

  /** Order and batching of arrivals do not matter for what is missing. */
  lemma ArrivalOrderIrrelevant(ops: seq<Op>, ops': seq<Op>)
    requires Booked(ops) == Booked(ops')
    ensures RunBook(ops).needed == RunBook(ops').needed && RunBook(ops).max == RunBook(ops').max
  {
    RunGapInv(ops);
    RunGapInv(ops');
  }

  predicate ContainsVersion(b: Book, v: nat) {
    v !in b.needed && Top(b) >= v
  }

  /** A version is known exactly when it was booked (or is 0), hence once known, always known. */
  lemma KnownIffBooked(ops: seq<Op>, v: nat)
    ensures ContainsVersion(RunBook(ops), v) <==> v == 0 || v in Booked(ops)
  {
    RunGapInv(ops);
  }

  lemma {:induction false} KnownStaysKnown(ops: seq<Op>, more: seq<Op>, v: nat)
    requires ContainsVersion(RunBook(ops), v)
    ensures ContainsVersion(RunBook(ops + more), v)
  {
    if more == [] {
      assert ops + more == ops;
    } else {
      var init := more[..|more| - 1];
      KnownStaysKnown(ops, init, v);
      assert (ops + more)[..|ops + more| - 1] == ops + init;
      KnownIffBooked(ops + init, v);
      KnownIffBooked(ops + more, v);
    }
  }

  // ---------------------------------------------------------------- history of a version

  datatype History = Unknown | Received(seqs: set<nat>) | Complete

  /** What one entry does to version `v`. A complete entry completes it; a partial entry adds
      sequence numbers to its first version and merely makes the other versions known. */
  ghost function After(h: History, e: Entry, v: nat): History {
    if !Within(e.versions, v) then h
    else if e.partial.None? then Complete
    else if v == e.versions.lo then
      Received((if h.Received? then h.seqs else {}) + e.partial.value.seqs)
    else if h.Unknown? then Complete
    else h
  }

  function Wholes(es: seq<Entry>): seq<Entry> {
    if es == [] then [] else Wholes(es[..|es| - 1]) + (if es[|es| - 1].partial.None? then [es[|es| - 1]] else [])
  }

  function Parts(es: seq<Entry>): seq<Entry> {
    if es == [] then [] else Parts(es[..|es| - 1]) + (if es[|es| - 1].partial.Some? then [es[|es| - 1]] else [])
  }

  ghost function AfterAll(h: History, es: seq<Entry>, v: nat): History {
    if es == [] then h else After(AfterAll(h, es[..|es| - 1], v), es[|es| - 1], v)
  }

  ghost function AfterOp(h: History, op: Op, v: nat): History {
    match op
    case Batch(es) => AfterAll(AfterAll(h, Wholes(es), v), Parts(es), v)
    case InsertDb(V) => if v in V && h.Unknown? then Complete else h
    case ClearPartials(C) => if v in C && h.Received? then Complete else h
  }

  /** The history of `v` over a run; in a batch, complete entries count before partial ones. */
  ghost function HistoryOf(ops: seq<Op>, v: nat): History {
    if ops == [] then Unknown else AfterOp(HistoryOf(ops[..|ops| - 1], v), ops[|ops| - 1], v)
  }

  /** The history that a book stands for. */
  ghost function Shown(b: Book, v: nat): History {
    if !ContainsVersion(b, v) then Unknown
    else if v in b.partials then Received(b.partials[v].seqs)
    else Complete
  }

  lemma AfterLast(h: History, es: seq<Entry>, e: Entry, v: nat)
    ensures AfterAll(h, es + [e], v) == After(AfterAll(h, es, v), e, v)
  {
    assert (es + [e])[..|es + [e]| - 1] == es;
  }

  lemma {:induction false} WholesAfter(h: History, es: seq<Entry>, v: nat)
    ensures AfterAll(h, Wholes(es), v) == if v in BatchComplete(es) then Complete else h
  {
    if es != [] {
      var init, e := es[..|es| - 1], es[|es| - 1];
      WholesAfter(h, init, v);
      if e.partial.None? {
        AfterLast(h, Wholes(init), e, v);
      } else {
        assert Wholes(es) == Wholes(init);
      }
    }
  }

  /** `v` lies in a partial entry. */
  ghost predicate InPart(es: seq<Entry>, v: nat) {
    es != [] && (InPart(es[..|es| - 1], v) || (es[|es| - 1].partial.Some? && Within(es[|es| - 1].versions, v)))
  }

  ghost function PartsEffect(h: History, es: seq<Entry>, v: nat): History {
    if v in BatchPartials(es) then Received((if h.Received? then h.seqs else {}) + BatchPartials(es)[v].seqs)
    else if InPart(es, v) && h.Unknown? then Complete
    else h
  }

  lemma OnePartEffect(h: History, es: seq<Entry>, v: nat)
    requires es != [] && es[|es| - 1].partial.Some?
    ensures After(PartsEffect(h, es[..|es| - 1], v), es[|es| - 1], v) == PartsEffect(h, es, v)
  {
    var init, e := es[..|es| - 1], es[|es| - 1];
    assert BatchPartials(es) == AddPartial(BatchPartials(init), e);
    if v == e.versions.lo {
      var own := if h.Received? then h.seqs else {};
      var part := e.partial.value.seqs;
      assert Within(e.versions, v);
      if v in BatchPartials(init) {
        assert own + BatchPartials(init)[v].seqs + part == own + (BatchPartials(init)[v].seqs + part);
      }
    }
  }

  lemma {:induction false} PartsAfter(h: History, es: seq<Entry>, v: nat)
    ensures AfterAll(h, Parts(es), v) == PartsEffect(h, es, v)
  {
    if es != [] {
      var init, e := es[..|es| - 1], es[|es| - 1];
      PartsAfter(h, init, v);
      if e.partial.Some? {
        AfterLast(h, Parts(init), e, v);
        OnePartEffect(h, es, v);
      } else {
        assert Parts(es) == Parts(init);
        assert BatchPartials(es) == BatchPartials(init);
      }
    }
  }

  lemma {:induction false} BatchVersionsSplit(es: seq<Entry>, v: nat)
    ensures v in BatchVersions(es) <==> v in BatchComplete(es) || InPart(es, v)
  {
    if es != [] {
      var init, e := es[..|es| - 1], es[|es| - 1];
      BatchVersionsSplit(init, v);
    }
  }

  /** Every partial version is booked. */
  ghost predicate PartialsBooked(b: Book, K: set<nat>) {
    b.partials.Keys <= K
  }

  /** The book's view of `v` after a step, from its view before. */
  lemma StepView(b: Book, K: set<nat>, op: Op, v: nat)
    requires GapInv(b, K) && PartialsBooked(b, K) && v >= 1
    ensures
      var st := StepOf(op);
      var h := if v in st.clear && Shown(b, v).Received? then Complete
               else if v in st.versions && Shown(b, v).Unknown? then Complete
               else Shown(b, v);
      Shown(BookStep(b, st), v)
      == if v in st.parts then Received((if h.Received? then h.seqs else {}) + st.parts[v].seqs) else h
    ensures PartialsBooked(BookStep(b, StepOf(op)), K + StepOf(op).versions)
  {
    var st := StepOf(op);
    var b' := BookStep(b, st);
    StepGapInv(b, K, op);
    StepPartsBooked(op);
    assert ContainsVersion(b, v) <==> v in K;
    assert ContainsVersion(b', v) <==> v in K + st.versions;
    assert v in b'.partials <==> v in st.parts || (v in b.partials && v !in st.clear);
    assert v in st.parts ==> b'.partials[v] == Merge(Lookup(b.partials - st.clear, v), st.parts[v]);
  }

  lemma StepShown(b: Book, K: set<nat>, op: Op, v: nat)
    requires GapInv(b, K) && PartialsBooked(b, K) && v >= 1
    ensures Shown(BookStep(b, StepOf(op)), v) == AfterOp(Shown(b, v), op, v)
    ensures PartialsBooked(BookStep(b, StepOf(op)), K + StepOf(op).versions)
  {
    StepView(b, K, op, v);
    if op.Batch? {
      WholesAfter(Shown(b, v), op.entries, v);
      PartsAfter(AfterAll(Shown(b, v), Wholes(op.entries), v), op.entries, v);
      BatchVersionsSplit(op.entries, v);
      BatchPartialsBooked(op.entries);
    }
  }

  /** The book after any run stands for exactly the history of every version from 1 on, and
      every partial version is at most the greatest version and not needed. */
  lemma {:induction false} BookRefinesHistory(ops: seq<Op>, v: nat)
    requires v >= 1
    ensures Shown(RunBook(ops), v) == HistoryOf(ops, v)
    ensures PartialsBooked(RunBook(ops), Booked(ops))
    ensures v in RunBook(ops).partials ==> v <= Top(RunBook(ops)) && v !in RunBook(ops).needed
  {
    RunGapInv(ops);
    if ops != [] {
      var init := ops[..|ops| - 1];
      BookRefinesHistory(init, v);
      RunGapInv(init);
      StepShown(RunBook(init), Booked(init), ops[|ops| - 1], v);
    }
  }

  /** The partial versions of `P` are those with received parts in `h`. */
  ghost predicate PartShown(P: map<nat, Partial>, h: History, v: nat) {
    (v in P <==> h.Received?) && (v in P ==> P[v].seqs == h.seqs)
  }

  lemma StepPartShown(b: Book, h: History, op: Op, v: nat)
    requires PartShown(b.partials, h, v)
    ensures PartShown(BookStep(b, StepOf(op)).partials, AfterOp(h, op, v), v)
  {
    var st := StepOf(op);
    var P := BookStep(b, st).partials;
    assert v in P <==> v in st.parts || (v in b.partials && v !in st.clear);
    assert v in st.parts ==> P[v] == Merge(Lookup(b.partials - st.clear, v), st.parts[v]);
    if op.Batch? {
      WholesAfter(h, op.entries, v);
      PartsAfter(AfterAll(h, Wholes(op.entries), v), op.entries, v);
    }
  }

  /** After any run the partial versions are exactly those of which parts were received last. */
  lemma {:induction false} PartialIsReceived(ops: seq<Op>, v: nat)
    ensures PartShown(RunBook(ops).partials, HistoryOf(ops, v), v)
  {
    if ops != [] {
      var init := ops[..|ops| - 1];
      PartialIsReceived(init, v);
      StepPartShown(RunBook(init), HistoryOf(init, v), ops[|ops| - 1], v);
    }
  }

  /** The run left `v` partial with nothing received of it. */
  ghost predicate LeftEmpty(ops: seq<Op>, v: nat) {
    HistoryOf(ops, v) == Received({})
  }

  lemma EmptyPartLeft(ops: seq<Op>, v: nat)
    ensures v in RunBook(ops).partials && RunBook(ops).partials[v].seqs == {} <==> LeftEmpty(ops, v)
  {
    PartialIsReceived(ops, v);
    var h := HistoryOf(ops, v);
    assert h.Received? ==> h == Received(h.seqs);
  }

  /** Every part that the operation brings holds a sequence number. */
  predicate FullParts(op: Op) {
    op.Batch? ==> forall i :: 0 <= i < |op.entries| ==> FullEntry(op.entries[i])
  }

  predicate FullEntry(e: Entry) {
    e.partial.Some? ==> e.partial.value.seqs != {}
  }

  lemma {:induction false} BatchPartsFull(es: seq<Entry>, v: nat)
    requires forall i :: 0 <= i < |es| ==> FullEntry(es[i])
    ensures v in BatchPartials(es) ==> BatchPartials(es)[v].seqs != {}
  {
    if es != [] {
      BatchPartsFull(es[..|es| - 1], v);
      assert FullEntry(es[|es| - 1]);
    }
  }

  /** A run that brings no empty part leaves no version with nothing received. */
  lemma {:induction false} FullPartsStayFull(ops: seq<Op>, v: nat)
    requires forall i :: 0 <= i < |ops| ==> FullParts(ops[i])
    ensures !LeftEmpty(ops, v)
  {
    if ops != [] {
      var init, op := ops[..|ops| - 1], ops[|ops| - 1];
      FullPartsStayFull(init, v);
      assert FullParts(op);
      if op.Batch? {
        var h := HistoryOf(init, v);
        WholesAfter(h, op.entries, v);
        PartsAfter(AfterAll(h, Wholes(op.entries), v), op.entries, v);
        BatchPartsFull(op.entries, v);
      }
    }
  }

  /** `contains`, as the code asks it. */
  ghost predicate Contains(b: Book, v: nat, seqs: Option<Range>) {
    && ContainsVersion(b, v)
    && if seqs.None? then v !in b.partials
       else v in b.partials ==> Values(seqs.value) <= b.partials[v].seqs
  }

  lemma ContainsFromHistory(ops: seq<Op>, v: nat, seqs: Option<Range>)
    requires v >= 1
    ensures Contains(RunBook(ops), v, seqs)
       <==> match HistoryOf(ops, v)
            case Unknown => false
            case Complete => true
            case Received(got) => seqs.Some? && Values(seqs.value) <= got
  {
    BookRefinesHistory(ops, v);
  }
}
