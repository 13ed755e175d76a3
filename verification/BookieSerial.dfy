/** Every interleaving of the writers is as good as a serial run of what they committed. */
module BookieSerial {
  import opened RangeSets
  import opened Books
  import opened Tables
  import opened BookRuns
  import opened BookSystem
  import opened GapCollapse
  import opened BookieLock

  // ---------------------------------------------------------------- what a run has committed

  /** A change of one actor, as a writer asked for it. */
  datatype Wish = Wish(actor: nat, change: Change)

  /** The rows and the book of an actor after the wishes, one after another. */
  ghost function SerialRows(ws: seq<Wish>): Tables
    decreases |ws|, 0
  {
    if ws == [] then Tables({}, {})
    else
      var init, w := ws[..|ws| - 1], ws[|ws| - 1];
      var out := SerialWrite(init, w);
      if out.Done? then out.tables else SerialRows(init)
  }

  ghost function SerialBook(ws: seq<Wish>, a: nat): Book
    decreases |ws|, 0
  {
    if ws == [] then EMPTY_BOOK
    else
      var init, w := ws[..|ws| - 1], ws[|ws| - 1];
      if w.actor == a then NextBook(a, SerialBook(init, a), SerialRows(init), w.change) else SerialBook(init, a)
  }

  /** What writing `w` after the wishes `ws` comes to. */
  ghost function SerialWrite(ws: seq<Wish>, w: Wish): Outcome
    decreases |ws|, 1
  {
    NextTables(w.actor, SerialBook(ws, w.actor), SerialRows(ws), w.change)
  }

  /** `done`: the committed wishes, oldest first. `open`: those of the open transaction of `owner`
      that can still be committed. */
  datatype Ledger = Ledger(done: seq<Wish>, owner: Option<nat>, open: seq<Wish>)

  /** The ledger knows the actions only. A write that succeeds joins the open wishes; COMMIT makes
      them committed; a failed write, a failed COMMIT, a rollback and giving back the lock inside the
      transaction forget them. */
  ghost function Record(l: Ledger, act: Action): Ledger {
    match act
    case BeginTx(w) => Ledger(l.done, Some(w), [])
    case Modify(w, a, c) =>
      if SerialWrite(l.done + l.open, Wish(a, c)).Done? then l.(open := l.open + [Wish(a, c)]) else l.(open := [])
    case CommitTx(w) => Ledger(l.done + l.open, None, [])
    case Abandon(w) => l.(open := [])
    case RollbackTx(w) => Ledger(l.done, None, [])
    case Release(w) => if l.owner == Some(w) then l.(open := []) else l
    case _ => l
  }

  ghost function LedgerOf(acts: seq<Action>): Ledger
    decreases |acts|
  {
    if acts == [] then Ledger([], None, []) else Record(LedgerOf(Front(acts)), Last(acts))
  }

  function Wishes(h: seq<Update>): (ws: seq<Wish>)
    ensures |ws| == |h|
  {
    if h == [] then [] else Wishes(h[..|h| - 1]) + [Wish(h[|h| - 1].actor, h[|h| - 1].change)]
  }

  lemma {:induction false} WishesConcat(h: seq<Update>, more: seq<Update>)
    ensures Wishes(h + more) == Wishes(h) + Wishes(more)
    decreases |more|
  {
    if more == [] {
      assert h + more == h;
    } else {
      var n := |more| - 1;
      WishesConcat(h, more[..n]);
      assert (h + more)[..|h + more| - 1] == h + more[..n];
    }
  }

  lemma SerialLast(ws: seq<Wish>, w: Wish, a: nat)
    ensures SerialRows(ws + [w]) == if SerialWrite(ws, w).Done? then SerialWrite(ws, w).tables else SerialRows(ws)
    ensures SerialBook(ws + [w], a) ==
      if w.actor == a then NextBook(a, SerialBook(ws, a), SerialRows(ws), w.change) else SerialBook(ws, a)
  {
    assert (ws + [w])[..|ws + [w]| - 1] == ws;
  }

  /** A chain of genuine updates has the books and rows of its wishes. */
  lemma {:induction false} ChainIsSerial(h: seq<Update>, a: nat)
    requires Chained(h) && AllGenuine(h)
    ensures Latest(h, a) == SerialBook(Wishes(h), a) && LatestRows(h) == SerialRows(Wishes(h))
    decreases |h|
  {
    if h != [] {
      var init, u := h[..|h| - 1], h[|h| - 1];
      ChainIsSerial(init, a);
      ChainIsSerial(init, u.actor);
      assert Genuine(u) && Follows(init, u);
      SerialLast(Wishes(init), Wish(u.actor, u.change), a);
    }
  }

  /** The wishes a writer can still commit. */
  function OpenWishes(x: Writer): seq<Wish> {
    if x.poisoned then [] else Wishes(x.updates)
  }

  /** History and open transaction are those of the ledger. */
  ghost predicate Recorded(s: State, l: Ledger) {
    && Wishes(s.history) == l.done && s.dbOwner == l.owner
    && (l.owner.None? ==> l.open == [])
    && (l.owner.Some? ==> l.open == OpenWishes(WriterOf(s, l.owner.value)))
  }

  lemma ModifyRecorded(s: State, w: nat, a: nat, c: Change, l: Ledger)
    requires Inv(s) && GenuineState(s) && Enabled(s, Modify(w, a, c)) && Recorded(s, l)
    ensures Recorded(Do(s, Modify(w, a, c)), Record(l, Modify(w, a, c)))
  {
    var x := WriterOf(s, w);
    assert WriterInv(s, w) && HolderInv(s, w) && AllGenuine(x.updates);
    var h := s.history + x.updates;
    WishesConcat(s.history, x.updates);
    ChainIsSerial(h, a);
    ModifiedWishes(x, a, c);
  }

  lemma ModifiedWishes(x: Writer, a: nat, c: Change)
    requires x.tx.Open? && a in x.working && !x.poisoned
    ensures
      var x', done := Modified(x, a, c), NextTables(a, x.working[a], x.tx.tables, c).Done?;
      x'.poisoned == !done && (done ==> Wishes(x'.updates) == Wishes(x.updates) + [Wish(a, c)])
  {
    var out := NextTables(a, x.working[a], x.tx.tables, c);
    if out.Done? {
      var u := Modified(x, a, c).updates[|x.updates|];
      assert (x.updates + [u])[..|x.updates + [u]| - 1] == x.updates;
    }
  }

  lemma CommitRecorded(s: State, w: nat, l: Ledger)
    requires Inv(s) && Enabled(s, CommitTx(w)) && Recorded(s, l)
    ensures Recorded(AfterCommit(s, w), Record(l, CommitTx(w)))
  {
    assert WriterInv(s, w);
    WishesConcat(s.history, WriterOf(s, w).updates);
  }

  lemma ReleaseRecorded(s: State, w: nat, l: Ledger)
    requires Inv(s) && Enabled(s, Release(w)) && Recorded(s, l)
    ensures Recorded(Released(s, w), Record(l, Release(w)))
  {
    assert WriterInv(s, w);
    assert l.owner.Some? ==> WriterInv(s, l.owner.value);
  }

  lemma OtherRecorded(s: State, act: Action, l: Ledger)
    requires Inv(s) && Enabled(s, act) && Recorded(s, l) && !act.Modify? && !act.CommitTx? && !act.Release?
    ensures Recorded(Do(s, act), Record(l, act))
  {
    assert WriterInv(s, act.w);
    assert l.owner.Some? ==> WriterInv(s, l.owner.value);
  }

  lemma StepRecorded(s: State, act: Action, l: Ledger)
    requires Inv(s) && GenuineState(s) && Enabled(s, act) && Recorded(s, l)
    ensures Recorded(Do(s, act), Record(l, act))
  {
    match act
    case Modify(w, a, c) => ModifyRecorded(s, w, a, c, l);
    case CommitTx(w) => CommitRecorded(s, w, l);
    case Release(w) => ReleaseRecorded(s, w, l);
    case _ => OtherRecorded(s, act, l);
  }

  lemma {:induction false} ReachableRecorded(acts: seq<Action>, s: State)
    requires Reaches(acts, s)
    ensures Recorded(s, LedgerOf(acts))
    decreases |acts|
  {
    if acts != [] {
      var s0 :| Reaches(Front(acts), s0) && Next(s0, Last(acts), s);
      ReachableRecorded(Front(acts), s0);
      ReachableInv(Front(acts), s0);
      ReachableGenuine(Front(acts), s0);
      StepRecorded(s0, Last(acts), LedgerOf(Front(acts)));
    }
  }

  /** Every interleaving is as good as a serial one: the committed rows are those of the committed
      wishes one after another, nothing else is committed, and whenever the lock is free every
      reader sees the book of all of them. */
  lemma Serializable(acts: seq<Action>, s: State)
    requires Reaches(acts, s)
    ensures Wishes(s.history) == LedgerOf(acts).done && s.committed == SerialRows(LedgerOf(acts).done)
    ensures s.lock.None? ==> forall a :: Read(s, a) == SerialBook(LedgerOf(acts).done, a)
  {
    ReachableRecorded(acts, s);
    NoLostUpdates(acts, s);
    forall a ensures Latest(s.history, a) == SerialBook(LedgerOf(acts).done, a)
      && s.committed == SerialRows(LedgerOf(acts).done)
    {
      ChainIsSerial(s.history, a);
    }
    ChainIsSerial(s.history, 0);
  }

  // ---------------------------------------------------------------- no dead ends

  /** How far the lock holder is from giving the lock back. */
  function ToDo(x: Writer): nat {
    if x.tx.Open? then 1 else if x.tx.Committed? then |x.working| else 0
  }

  /** Whoever has the lock can always go on to give it back without undoing a commit: by rolling
      back what is open, or by publishing what is committed. */
  lemma HolderProceeds(s: State, w: nat) returns (act: Action)
    requires Inv(s) && s.lock == Some(w)
    ensures act.w == w && Enabled(s, act) && Do(s, act).committed == s.committed
    ensures
      var t := Do(s, act);
      t.lock.None? || (t.lock == Some(w) && ToDo(WriterOf(t, w)) < ToDo(WriterOf(s, w)))
    ensures WriterOf(s, w).tx.Committed? ==> act.Publish? || act.Release?
  {
    var x := WriterOf(s, w);
    assert WriterInv(s, w);
    if x.tx.Open? {
      act := RollbackTx(w);
    } else if a :| x.tx.Committed? && a in x.working {
      act := Publish(w, a);
      assert (x.working - {a}).Keys == x.working.Keys - {a};
    } else {
      act := Release(w);
    }
  }

  /** In a quiet state a writer is as good as new. */
  lemma QuietWriter(s: State, w: nat)
    requires Inv(s) && s.lock.None? && s.dbOwner.None?
    ensures WriterOf(s, w) == FRESH
  {
    assert WriterInv(s, w);
  }

  /** From a quiet state: BEGIN, lock and clone. */
  function Prepared(s: State, w: nat, a: nat): State {
    Cloned(Begun(s, w).(lock := Some(w)), w, a)
  }

  /** From a written change: COMMIT, publish and release. */
  function Finished(s: State, w: nat, a: nat): State {
    Released(Published(AfterCommit(s, w), w, a), w)
  }

  lemma PreparedState(s: State, w: nat, a: nat)
    requires s.lock.None? && s.dbOwner.None? && WriterOf(s, w) == FRESH
    ensures Enabled(s, BeginTx(w)) && Enabled(Begun(s, w), TakeLock(w))
    ensures Enabled(Begun(s, w).(lock := Some(w)), Clone(w, a))
    ensures
      var t := Prepared(s, w, a);
      && WriterOf(t, w) == Writer(Open(s.committed), map[a := Read(s, a)], [], false)
      && t.lock == Some(w) && t.dbOwner == Some(w) && t.published == s.published
  {
  }

  lemma FinishedState(s: State, w: nat, a: nat)
    requires s.lock == Some(w) && s.dbOwner == Some(w)
    requires var x := WriterOf(s, w); x.tx.Open? && !x.poisoned && x.working.Keys == {a}
    ensures Enabled(s, CommitTx(w)) && Enabled(AfterCommit(s, w), Publish(w, a))
    ensures Enabled(Published(AfterCommit(s, w), w, a), Release(w))
    ensures
      var t, x := Finished(s, w, a), WriterOf(s, w);
      && t.lock.None? && t.dbOwner.None? && t.committed == x.tx.tables
      && Read(t, a) == x.working[a] && forall v :: v != a ==> Read(t, v) == Read(s, v)
  {
    var x := WriterOf(Published(AfterCommit(s, w), w, a), w);
    assert x.working.Keys == {};
  }

  /** A change whose write fits goes through from every quiet state: afterwards its rows are
      committed and readers see its book. */
  lemma ChangeGoesThrough(s: State, w: nat, a: nat, c: Change)
    requires Inv(s) && s.lock.None? && s.dbOwner.None?
    requires c.Collapsing? ==> forall v :: v in c.lone ==> NoRows(a, v, s.committed.seqs)
    requires NextTables(a, Read(s, a), s.committed, c).Done?
    ensures Enabled(Prepared(s, w, a), Modify(w, a, c))
    ensures
      var t := Finished(Do(Prepared(s, w, a), Modify(w, a, c)), w, a);
      && t.lock.None? && t.dbOwner.None? && t.committed == NextTables(a, Read(s, a), s.committed, c).tables
      && Read(t, a) == NextBook(a, Read(s, a), s.committed, c) && forall v :: v != a ==> Read(t, v) == Read(s, v)
  {
    QuietWriter(s, w);
    PreparedState(s, w, a);
    var t := Prepared(s, w, a);
    ModifiedState(WriterOf(t, w), a, c);
    FinishedState(Do(t, Modify(w, a, c)), w, a);
  }

  lemma ModifiedState(x: Writer, a: nat, c: Change)
    requires x.tx.Open? && x.working.Keys == {a} && !x.poisoned
    requires NextTables(a, x.working[a], x.tx.tables, c).Done?
    ensures
      var x' := Modified(x, a, c);
      && x'.tx == Open(NextTables(a, x.working[a], x.tx.tables, c).tables) && !x'.poisoned
      && x'.working.Keys == {a} && x'.working[a] == NextBook(a, x.working[a], x.tx.tables, c)
  {
  }

  // ---------------------------------------------------------------- runs without collapsing

  predicate OnlyBookings(us: seq<Update>) {
    forall i :: 0 <= i < |us| ==> us[i].change.Booking?
  }

  ghost predicate BookingState(s: State) {
    OnlyBookings(s.history) && forall w :: OnlyBookings(WriterOf(s, w).updates)
  }

  lemma StepKeepsBookings(s: State, act: Action)
    requires BookingState(s) && !(act.Modify? && act.change.Collapsing?)
    ensures BookingState(Do(s, act))
  {
    var s' := Do(s, act);
    assert OnlyBookings(WriterOf(s, act.w).updates);
    forall v ensures OnlyBookings(WriterOf(s', v).updates) { assert OnlyBookings(WriterOf(s, v).updates); }
  }

  lemma {:induction false} ReachableBookings(acts: seq<Action>, s: State)
    requires Reaches(acts, s) && forall i :: 0 <= i < |acts| ==> !(acts[i].Modify? && acts[i].change.Collapsing?)
    ensures BookingState(s)
    decreases |acts|
  {
    if acts != [] {
      var s0 :| Reaches(Front(acts), s0) && Next(s0, Last(acts), s);
      ReachableBookings(Front(acts), s0);
      StepKeepsBookings(s0, Last(acts));
    }
  }

  /** The operations of `a` among the wishes. */
  function OpsIn(ws: seq<Wish>, a: nat): seq<Op> {
    if ws == [] then []
    else
      var w := ws[|ws| - 1];
      OpsIn(ws[..|ws| - 1], a) + if w.actor == a && w.change.Booking? then [w.change.op] else []
  }

  lemma OpsInLast(h: seq<Update>, a: nat)
    requires h != [] && Last(h).change.Booking?
    ensures OpsIn(Wishes(h), a) == OpsIn(Wishes(Front(h)), a) + if Last(h).actor == a then [Last(h).change.op] else []
    ensures Latest(h, a) == if Last(h).actor == a then Last(h).after else Latest(Front(h), a)
  {
    var ws := Wishes(h);
    assert ws[..|ws| - 1] == Wishes(Front(h)) && ws[|ws| - 1] == Wish(Last(h).actor, Last(h).change);
  }

  lemma RunLast(ops: seq<Op>, u: Update)
    requires u.change.Booking? && Genuine(u) && u.before == RunBook(ops)
    ensures u.after == RunBook(ops + [u.change.op])
  {
    RunSnoc(ops, u.change.op);
  }

  lemma {:induction false} LatestIsRun(h: seq<Update>, a: nat)
    requires Chained(h) && AllGenuine(h) && OnlyBookings(h)
    ensures Latest(h, a) == RunBook(OpsIn(Wishes(h), a))
    decreases |h|
  {
    if h != [] {
      ChainedFront(h);
      LatestIsRun(Front(h), a);
      OpsInLast(h, a);
      if Last(h).actor == a {
        RunLast(OpsIn(Wishes(Front(h)), a), Last(h));
      } else {
        assert OpsIn(Wishes(Front(h)), a) + [] == OpsIn(Wishes(Front(h)), a);
      }
    }
  }

  /** In every interleaving of the bookkeeping operations, whenever the lock is free the published
      book of every actor is that of the committed operations in their order, it needs exactly
      what they never booked, and it agrees with the committed rows. */
  lemma BookingsAgree(acts: seq<Action>, s: State, stamps: Stamps, a: nat)
    requires Reaches(acts, s) && s.lock.None?
    requires forall i :: 0 <= i < |acts| ==> ActionStamped(acts[i], stamps)
    requires forall i :: 0 <= i < |acts| ==> !(acts[i].Modify? && acts[i].change.Collapsing?)
    ensures
      var ops := OpsIn(LedgerOf(acts).done, a);
      Read(s, a) == RunBook(ops) && GapInv(Read(s, a), Booked(ops)) && Agree(a, Read(s, a), s.committed)
  {
    NoLostUpdates(acts, s);
    ReachableRecorded(acts, s);
    ReachableBookings(acts, s);
    LatestIsRun(s.history, a);
    RunGapInv(OpsIn(LedgerOf(acts).done, a));
    AgreementIfCareful(acts, s, stamps, a);
  }
}
