/** Writers that clone a published book, change it together with its rows, commit in the
    database and then publish; in every interleaving, with failures at any point. The changes
    are the bookkeeping operations and the collapsing of gaps, exactly as the code makes them. */
module BookieLock {
  import opened RangeSets
  import opened Books
  import opened Tables
  import opened BookRuns
  import opened BookSystem
  import opened GapCollapse

  /** What a writer does to one actor's book and rows. */
  datatype Change =
    | Booking(op: Op)
    | Collapsing(lone: set<nat>)  // `lone`: buffered versions without sequence rows

  /** One change of one actor's book, with the rows it was made on and those it left. */
  datatype Update = Update(
    actor: nat, change: Change, before: Book, after: Book, rowsBefore: Tables, rowsAfter: Tables)

  datatype Tx = NoTx | Open(tables: Tables) | Committed

  /** `poisoned`: the working copies were dropped while their rows are still in the open
      transaction, as after a failed COMMIT, a failed write, or a lock given back early. */
  datatype Writer = Writer(tx: Tx, working: map<nat, Book>, updates: seq<Update>, poisoned: bool)

  const FRESH := Writer(NoTx, map[], [], false)

  /** `history` lists all committed updates, oldest first. */
  datatype State = State(
    committed: Tables, published: map<nat, Book>,
    lock: Option<nat>, dbOwner: Option<nat>,
    writers: map<nat, Writer>, history: seq<Update>)

  const START := State(Tables({}, {}), map[], None, None, map[], [])

  datatype Action =
    | BeginTx(w: nat)                               // BEGIN IMMEDIATE
    | TakeLock(w: nat)                              // write_lock_blocking
    | Clone(w: nat, actor: nat)                     // write_tx
    | Modify(w: nat, actor: nat, change: Change)    // change the copy and write its rows
    | CommitTx(w: nat)                              // COMMIT succeeds
    | Abandon(w: nat)                               // COMMIT fails, the transaction stays open
    | RollbackTx(w: nat)                            // ROLLBACK, automatic rollback, or connection dropped
    | Publish(w: nat, actor: nat)                   // BookedWriteTx::commit
    | Release(w: nat)                               // drop of BookieWriteGuard

  function WriterOf(s: State, w: nat): Writer {
    if w in s.writers then s.writers[w] else FRESH
  }

  /** What a reader of actor `a` sees. */
  function Read(s: State, a: nat): Book {
    BookOf(s.published, a)
  }

  ghost function NextBook(a: nat, b: Book, t: Tables, c: Change): Book {
    match c
    case Booking(op) => BookStep(b, StepOf(op))
    case Collapsing(lone) => CollapseBook(a, b, t, lone)
  }

  ghost function NextTables(a: nat, b: Book, t: Tables, c: Change): Outcome {
    match c
    case Booking(op) => Exec(t, RowsOf(DeltaOf(a, b, StepOf(op))))
    case Collapsing(lone) => Done(CollapseTables(a, CollapseBook(a, b, t, lone), t), true)
  }

  /** The tables a failed write leaves inside its transaction. */
  ghost function FailedTables(a: nat, b: Book, t: Tables, c: Change): Tables {
    if c.Booking? then AtViolation(t, RowsOf(DeltaOf(a, b, StepOf(c.op)))) else t
  }

  function Updated(x: Writer): set<nat> {
    set u | u in x.updates :: u.actor
  }

  ghost predicate Enabled(s: State, act: Action) {
    var x := WriterOf(s, act.w);
    match act
    case BeginTx(w) => s.dbOwner.None? && x.tx.NoTx?
    case TakeLock(w) => s.lock.None? && !x.tx.Committed?
    case Clone(w, a) => s.lock == Some(w) && !x.tx.Committed? && a !in x.working && !x.poisoned
    case Modify(w, a, c) =>
      && s.lock == Some(w) && s.dbOwner == Some(w) && x.tx.Open? && a in x.working && !x.poisoned
      && (c.Collapsing? ==> forall v :: v in c.lone ==> NoRows(a, v, x.tx.tables.seqs))
    case CommitTx(w) => s.dbOwner == Some(w) && x.tx.Open? && !x.poisoned
    case Abandon(w) => s.lock == Some(w) && s.dbOwner == Some(w) && x.tx.Open?
    case RollbackTx(w) => s.dbOwner == Some(w)
    case Publish(w, a) => s.lock == Some(w) && x.tx.Committed? && a in x.working
    case Release(w) => s.lock == Some(w) && (x.tx.Committed? ==> x.working.Keys !! Updated(x))
  }

  /** The copy is changed and its rows are written; if the write fails the copies are dropped. */
  ghost function Modified(x: Writer, a: nat, c: Change): Writer {
    if a in x.working && x.tx.Open? then
      var b, t := x.working[a], x.tx.tables;
      var out := NextTables(a, b, t, c);
      var b' := NextBook(a, b, t, c);
      if out.Done? then
        x.(tx := Open(out.tables), working := x.working[a := b'],
             updates := x.updates + [Update(a, c, b, b', t, out.tables)])
      else x.(tx := Open(FailedTables(a, b, t, c)), working := map[], poisoned := true)
    else x
  }

  /** The writer after it dropped the lock and its copies. A collapse opens its transaction before it
      takes the lock, so when it fails the lock is dropped first and the transaction is still open;
      rows that were changed in it can then only be rolled back. */
  function Unlocked(x: Writer): Writer {
    if x.tx.Open? then Writer(x.tx, map[], [], x.poisoned || x.updates != []) else FRESH
  }

  function Begun(s: State, w: nat): State {
    s.(dbOwner := Some(w), writers := s.writers[w := WriterOf(s, w).(tx := Open(s.committed))])
  }

  function Cloned(s: State, w: nat, a: nat): State {
    var x := WriterOf(s, w);
    s.(writers := s.writers[w := x.(working := x.working[a := Read(s, a)])])
  }

  function AfterCommit(s: State, w: nat): State {
    var x := WriterOf(s, w);
    if x.tx.Open? then
      s.(committed := x.tx.tables, dbOwner := None, history := s.history + x.updates,
         writers := s.writers[w := if s.lock == Some(w) then x.(tx := Committed) else FRESH])
    else s
  }

  function Abandoned(s: State, w: nat): State {
    s.(writers := s.writers[w := WriterOf(s, w).(working := map[], poisoned := true)])
  }

  function RolledBack(s: State, w: nat): State {
    s.(dbOwner := None, writers := s.writers[w := FRESH])
  }

  function Published(s: State, w: nat, a: nat): State {
    var x := WriterOf(s, w);
    if a in x.working then
      s.(published := s.published[a := x.working[a]], writers := s.writers[w := x.(working := x.working - {a})])
    else s
  }

  function Released(s: State, w: nat): State {
    s.(lock := None, writers := s.writers[w := Unlocked(WriterOf(s, w))])
  }

  ghost function Do(s: State, act: Action): State {
    match act
    case BeginTx(w) => Begun(s, w)
    case TakeLock(w) => s.(lock := Some(w))
    case Clone(w, a) => Cloned(s, w, a)
    case Modify(w, a, c) => s.(writers := s.writers[w := Modified(WriterOf(s, w), a, c)])
    case CommitTx(w) => AfterCommit(s, w)
    case Abandon(w) => Abandoned(s, w)
    case RollbackTx(w) => RolledBack(s, w)
    case Publish(w, a) => Published(s, w, a)
    case Release(w) => Released(s, w)
  }

  // ---------------------------------------------------------------- histories

  /** The book of `a` after the updates in `h`. */
  function Latest(h: seq<Update>, a: nat): Book {
    if h == [] then EMPTY_BOOK
    else if h[|h| - 1].actor == a then h[|h| - 1].after
    else Latest(h[..|h| - 1], a)
  }

  /** The rows of all actors after the updates in `h`. */
  function LatestRows(h: seq<Update>): Tables {
    if h == [] then Tables({}, {}) else h[|h| - 1].rowsAfter
  }

  /** The update is one the code makes: its book and its rows are those the change leads to. */
  ghost predicate Genuine(u: Update) {
    var out := NextTables(u.actor, u.before, u.rowsBefore, u.change);
    u.after == NextBook(u.actor, u.before, u.rowsBefore, u.change) && out.Done? && u.rowsAfter == out.tables
  }

  ghost predicate AllGenuine(h: seq<Update>) {
    forall i :: 0 <= i < |h| ==> Genuine(h[i])
  }

  /** The update started from the book and the rows that `h` leads to. */
  predicate Follows(h: seq<Update>, u: Update) {
    u.before == Latest(h, u.actor) && u.rowsBefore == LatestRows(h)
  }

  /** Every update started from the result of those before it: none was lost. */
  predicate Chained(h: seq<Update>) {
    h == [] || (Chained(h[..|h| - 1]) && Follows(h[..|h| - 1], h[|h| - 1]))
  }

  /** No arrival has stranded a range of `a` since its gaps were last collapsed. */
  ghost predicate Settled(h: seq<Update>, a: nat) {
    if h == [] then true
    else
      var u := h[|h| - 1];
      if u.actor != a then Settled(h[..|h| - 1], a)
      else u.change.Collapsing? || (Settled(h[..|h| - 1], a) && !Stranded(u.before, StepOf(u.change.op).versions))
  }

  /** The rows of `a` agree with its newest book exactly if it is settled. */
  ghost predicate TalliedAt(a: nat, h: seq<Update>, t: Tables, stamps: Stamps) {
    && Tracked(a, Latest(h, a), t) && PartialsStamped(Latest(h, a).partials, a, stamps)
    && (GapsAgree(a, Latest(h, a).needed, t.gaps) <==> Settled(h, a))
  }

  ghost predicate Tallied(h: seq<Update>, t: Tables, stamps: Stamps) {
    KeysUnique(t) && forall a :: TalliedAt(a, h, t, stamps)
  }

  // ---------------------------------------------------------------- invariant

  ghost predicate WriterInv(s: State, w: nat) {
    var x := WriterOf(s, w);
    && (x.tx.Open? <==> s.dbOwner == Some(w))
    && (s.lock != Some(w) ==> x.working == map[] && x.updates == [] && !x.tx.Committed?)
    && (x.tx.Open? && !x.poisoned ==>
          Chained(s.history + x.updates) && x.tx.tables == LatestRows(s.history + x.updates))
    && (x.tx.NoTx? ==> x.updates == [] && !x.poisoned)
  }

  /** The lock holder's copies are the newest books of their actors. */
  ghost predicate HolderInv(s: State, w: nat) {
    var x := WriterOf(s, w);
    var h := if x.tx.Committed? then s.history else s.history + x.updates;
    && (forall a :: a in x.working ==> x.working[a] == Latest(h, a))
    && (!x.tx.Committed? && !x.poisoned ==> Updated(x) <= x.working.Keys)
    && (forall a :: Read(s, a) == Latest(s.history, a) || (x.tx.Committed? && a in x.working && a in Updated(x)))
  }

  ghost predicate Inv(s: State) {
    && Chained(s.history) && s.committed == LatestRows(s.history)
    && (forall w :: WriterInv(s, w))
    && (s.lock.Some? ==> HolderInv(s, s.lock.value))
    && (s.lock.None? ==> forall a :: Read(s, a) == Latest(s.history, a))
  }

  lemma LatestSnoc(h: seq<Update>, u: Update, a: nat)
    ensures Latest(h + [u], a) == if u.actor == a then u.after else Latest(h, a)
  {
    assert (h + [u])[..|h + [u]| - 1] == h;
  }

  lemma ChainedSnoc(h: seq<Update>, u: Update)
    requires Chained(h) && Follows(h, u)
    ensures Chained(h + [u])
  {
    assert (h + [u])[..|h + [u]| - 1] == h;
  }

  lemma {:induction false} LatestUntouched(h: seq<Update>, more: seq<Update>, a: nat)
    requires forall i :: 0 <= i < |more| ==> more[i].actor != a
    ensures Latest(h + more, a) == Latest(h, a)
  {
    if more == [] {
      assert h + more == h;
    } else {
      var n := |more| - 1;
      LatestUntouched(h, more[..n], a);
      assert h + more == (h + more[..n]) + [more[n]];
      LatestSnoc(h + more[..n], more[n], a);
    }
  }

  lemma NotUpdated(x: Writer, a: nat)
    requires a !in Updated(x)
    ensures forall i :: 0 <= i < |x.updates| ==> x.updates[i].actor != a
  {
    assert forall i :: 0 <= i < |x.updates| ==> x.updates[i] in x.updates;
  }

  lemma CommitKeepsInv(s: State, w: nat)
    requires Inv(s) && Enabled(s, CommitTx(w))
    ensures Inv(AfterCommit(s, w))
  {
    var x, s' := WriterOf(s, w), AfterCommit(s, w);
    assert WriterInv(s, w);
    forall v ensures WriterInv(s', v) { assert WriterInv(s, v); }
    if s.lock == Some(w) {
      forall a ensures Read(s', a) == Latest(s'.history, a) || (a in x.working && a in Updated(x)) {
        if a !in Updated(x) {
          NotUpdated(x, a);
          LatestUntouched(s.history, x.updates, a);
        }
      }
    } else {
      assert s.history + x.updates == s.history;
    }
  }

  /** What the changing writer has done so far still follows from the history. */
  lemma ModifiedChained(h: seq<Update>, x: Writer, a: nat, c: Change)
    requires x.tx.Open? && a in x.working && x.working[a] == Latest(h + x.updates, a)
    requires Chained(h + x.updates) && x.tx.tables == LatestRows(h + x.updates)
    ensures
      var x' := Modified(x, a, c);
      x'.tx.Open? && (x'.poisoned || (Chained(h + x'.updates) && x'.tx.tables == LatestRows(h + x'.updates)))
  {
    var b, t := x.working[a], x.tx.tables;
    var out := NextTables(a, b, t, c);
    if out.Done? {
      var u := Update(a, c, b, NextBook(a, b, t, c), t, out.tables);
      assert h + (x.updates + [u]) == h + x.updates + [u];
      ChainedSnoc(h + x.updates, u);
    }
  }

  lemma ModifiedHeld(h: seq<Update>, x: Writer, a: nat, c: Change)
    requires x.tx.Open? && a in x.working && Updated(x) <= x.working.Keys
    requires forall v :: v in x.working ==> x.working[v] == Latest(h + x.updates, v)
    ensures
      var x' := Modified(x, a, c);
      && (forall v :: v in x'.working ==> x'.working[v] == Latest(h + x'.updates, v))
      && (!x'.poisoned ==> Updated(x') <= x'.working.Keys)
  {
    var b, t := x.working[a], x.tx.tables;
    var out := NextTables(a, b, t, c);
    if out.Done? {
      var u := Update(a, c, b, NextBook(a, b, t, c), t, out.tables);
      HeldSnoc(h + x.updates, x, u);
      assert h + (x.updates + [u]) == h + x.updates + [u];
    }
  }

  lemma HeldSnoc(h: seq<Update>, x: Writer, u: Update)
    requires u.actor in x.working && Updated(x) <= x.working.Keys
    requires forall v :: v in x.working ==> x.working[v] == Latest(h, v)
    ensures
      var x' := x.(working := x.working[u.actor := u.after], updates := x.updates + [u]);
      && (forall v :: v in x'.working ==> x'.working[v] == Latest(h + [u], v))
      && Updated(x') <= x'.working.Keys
  {
    forall v ensures Latest(h + [u], v) == if u.actor == v then u.after else Latest(h, v) { LatestSnoc(h, u, v); }
    assert forall y :: y in x.updates + [u] <==> y in x.updates || y == u;
  }

  /** The lock holder's record may be replaced by one that fits the history. */
  lemma ReplaceKeepsInv(s: State, w: nat, x': Writer)
    requires Inv(s) && s.lock == Some(w) && WriterOf(s, w).tx.Open? && x'.tx.Open?
    requires x'.poisoned || (Chained(s.history + x'.updates) && x'.tx.tables == LatestRows(s.history + x'.updates))
    requires forall v :: v in x'.working ==> x'.working[v] == Latest(s.history + x'.updates, v)
    requires !x'.poisoned ==> Updated(x') <= x'.working.Keys
    ensures Inv(s.(writers := s.writers[w := x']))
  {
    var s' := s.(writers := s.writers[w := x']);
    assert WriterInv(s, w) && HolderInv(s, w);
    assert WriterOf(s', w) == x';
    forall v ensures WriterInv(s', v) { assert WriterInv(s, v); }
  }

  lemma ModifyKeepsInv(s: State, w: nat, a: nat, c: Change)
    requires Inv(s) && Enabled(s, Modify(w, a, c))
    ensures Inv(Do(s, Modify(w, a, c)))
  {
    var x := WriterOf(s, w);
    assert WriterInv(s, w) && HolderInv(s, w);
    ModifiedChained(s.history, x, a, c);
    ModifiedHeld(s.history, x, a, c);
    ReplaceKeepsInv(s, w, Modified(x, a, c));
  }

  lemma CloneKeepsInv(s: State, w: nat, a: nat)
    requires Inv(s) && Enabled(s, Clone(w, a))
    ensures Inv(Cloned(s, w, a))
  {
    var x, s' := WriterOf(s, w), Cloned(s, w, a);
    assert WriterInv(s, w) && HolderInv(s, w);
    forall v ensures WriterInv(s', v) { assert WriterInv(s, v); }
    NotUpdated(x, a);
    LatestUntouched(s.history, x.updates, a);
    assert Updated(WriterOf(s', w)) == Updated(x);
  }

  lemma BeginKeepsInv(s: State, w: nat)
    requires Inv(s) && Enabled(s, BeginTx(w))
    ensures Inv(Begun(s, w))
  {
    var s' := Begun(s, w);
    assert WriterInv(s, w);
    assert s.history + [] == s.history;
    forall v ensures WriterInv(s', v) { assert WriterInv(s, v); }
  }

  lemma TakeLockKeepsInv(s: State, w: nat)
    requires Inv(s) && Enabled(s, TakeLock(w))
    ensures Inv(s.(lock := Some(w)))
  {
    var x, s' := WriterOf(s, w), s.(lock := Some(w));
    assert WriterInv(s, w);
    assert s.history + [] == s.history;
    assert Updated(x) == {};
    forall v ensures WriterInv(s', v) { assert WriterInv(s, v); }
  }

  lemma AbandonKeepsInv(s: State, w: nat)
    requires Inv(s) && Enabled(s, Abandon(w))
    ensures Inv(Abandoned(s, w))
  {
    var x, s' := WriterOf(s, w), Abandoned(s, w);
    assert WriterInv(s, w) && HolderInv(s, w);
    forall v ensures WriterInv(s', v) { assert WriterInv(s, v); }
  }

  lemma RollbackKeepsInv(s: State, w: nat)
    requires Inv(s) && Enabled(s, RollbackTx(w))
    ensures Inv(RolledBack(s, w))
  {
    var s' := RolledBack(s, w);
    assert WriterInv(s, w);
    assert s.history + [] == s.history;
    assert Updated(FRESH) == {};
    forall v ensures WriterInv(s', v) { assert WriterInv(s, v); }
  }

  lemma PublishKeepsInv(s: State, w: nat, a: nat)
    requires Inv(s) && Enabled(s, Publish(w, a))
    ensures Inv(Published(s, w, a))
  {
    var x, s' := WriterOf(s, w), Published(s, w, a);
    assert WriterInv(s, w) && HolderInv(s, w);
    assert Updated(WriterOf(s', w)) == Updated(x);
    forall v ensures WriterInv(s', v) { assert WriterInv(s, v); }
  }

  lemma ReleaseKeepsInv(s: State, w: nat)
    requires Inv(s) && Enabled(s, Release(w))
    ensures Inv(Released(s, w))
  {
    var s' := Released(s, w);
    assert WriterInv(s, w) && HolderInv(s, w);
    forall v ensures WriterInv(s', v) { assert WriterInv(s, v); }
    forall a ensures Read(s', a) == Latest(s'.history, a) { assert Read(s', a) == Read(s, a); }
  }

  lemma StepKeepsInv(s: State, act: Action)
    requires Inv(s) && Enabled(s, act)
    ensures Inv(Do(s, act))
  {
    match act
    case BeginTx(w) => BeginKeepsInv(s, w);
    case Clone(w, a) => CloneKeepsInv(s, w, a);
    case Modify(w, a, c) => ModifyKeepsInv(s, w, a, c);
    case CommitTx(w) => CommitKeepsInv(s, w);
    case TakeLock(w) => TakeLockKeepsInv(s, w);
    case Abandon(w) => AbandonKeepsInv(s, w);
    case RollbackTx(w) => RollbackKeepsInv(s, w);
    case Publish(w, a) => PublishKeepsInv(s, w, a);
    case Release(w) => ReleaseKeepsInv(s, w);
  }

  // ---------------------------------------------------------------- every run

  function Front<T>(s: seq<T>): seq<T>
    requires s != []
  {
    s[..|s| - 1]
  }

  function Last<T>(s: seq<T>): T
    requires s != []
  {
    s[|s| - 1]
  }

  ghost predicate Next(s: State, act: Action, s': State) {
    Enabled(s, act) && s' == Do(s, act)
  }

  /** `s` is reached by the actions `acts` from the empty node. */
  ghost predicate Reaches(acts: seq<Action>, s: State)
    decreases |acts|
  {
    if acts == [] then s == START
    else exists s0 :: Reaches(Front(acts), s0) && Next(s0, Last(acts), s)
  }

  lemma {:induction false} ReachableInv(acts: seq<Action>, s: State)
    requires Reaches(acts, s)
    ensures Inv(s)
    decreases |acts|
  {
    if acts != [] {
      var s0 :| Reaches(Front(acts), s0) && Next(s0, Last(acts), s);
      ReachableInv(Front(acts), s0);
      StepKeepsInv(s0, Last(acts));
    }
  }

  ghost predicate GenuineState(s: State) {
    AllGenuine(s.history) && forall w :: AllGenuine(WriterOf(s, w).updates)
  }

  lemma StepKeepsGenuine(s: State, act: Action)
    requires GenuineState(s)
    ensures GenuineState(Do(s, act))
  {
    var s' := Do(s, act);
    assert AllGenuine(WriterOf(s, act.w).updates);
    forall v ensures AllGenuine(WriterOf(s', v).updates) { assert AllGenuine(WriterOf(s, v).updates); }
  }

  lemma {:induction false} ReachableGenuine(acts: seq<Action>, s: State)
    requires Reaches(acts, s)
    ensures GenuineState(s)
    decreases |acts|
  {
    if acts != [] {
      var s0 :| Reaches(Front(acts), s0) && Next(s0, Last(acts), s);
      ReachableGenuine(Front(acts), s0);
      StepKeepsGenuine(s0, Last(acts));
    }
  }

  /** In every interleaving no committed update is lost, the committed rows are those the updates
      left one after another, and whenever the lock is free every published book is the newest one. */
  lemma NoLostUpdates(acts: seq<Action>, s: State)
    requires Reaches(acts, s)
    ensures Chained(s.history) && AllGenuine(s.history) && s.committed == LatestRows(s.history)
    ensures s.lock.None? ==> forall a :: Read(s, a) == Latest(s.history, a)
  {
    ReachableInv(acts, s);
    ReachableGenuine(acts, s);
  }

  // ---------------------------------------------------------------- readers

  ghost predicate SeenAt(s: State, a: nat, k: nat) {
    k <= |s.history| && Read(s, a) == Latest(s.history[..k], a)
  }

  /** One step: what is read stays as old as it was, or becomes the newest. */
  lemma SeenStep(s: State, act: Action, a: nat, k: nat)
    requires Inv(s) && Enabled(s, act) && SeenAt(s, a, k)
    ensures SeenAt(Do(s, act), a, if act.Publish? && act.actor == a then |s.history| else k)
  {
    var s' := Do(s, act);
    if act.Publish? && act.actor == a {
      assert HolderInv(s, act.w);
      assert s.history[..|s.history|] == s.history;
    } else {
      assert s'.history[..k] == s.history[..k];
    }
  }

  /** A reader never sees a book that was not committed: what it sees is the newest book of a
      prefix of the committed history. */
  lemma {:induction false} ReadersSeeCommitted(acts: seq<Action>, s: State, a: nat)
    requires Reaches(acts, s)
    ensures exists k :: SeenAt(s, a, k)
    decreases |acts|
  {
    if acts == [] {
      assert SeenAt(s, a, 0);
    } else {
      var act := Last(acts);
      var s0 :| Reaches(Front(acts), s0) && Next(s0, act, s);
      ReadersSeeCommitted(Front(acts), s0, a);
      var k :| SeenAt(s0, a, k);
      ReachableInv(Front(acts), s0);
      SeenStep(s0, act, a, k);
    }
  }

  // ---------------------------------------------------------------- rows

  /** Committed rows, and those of an open transaction, are tallied with the books they belong to. */
  ghost predicate TallyInv(s: State, stamps: Stamps) {
    && Tallied(s.history, s.committed, stamps)
    && forall w :: OpenTallied(s, w, stamps)
  }

  ghost predicate OpenTallied(s: State, w: nat, stamps: Stamps) {
    var x := WriterOf(s, w);
    x.tx.Open? && !x.poisoned ==> Tallied(s.history + x.updates, x.tx.tables, stamps)
  }

  /** Parts of versions carry the stamps their actor gave them. */
  predicate ActionStamped(act: Action, stamps: Stamps) {
    act.Modify? && act.change.Booking? ==> Stamped(Event(act.actor, act.change.op), stamps)
  }

  lemma SettledSnoc(h: seq<Update>, u: Update, a: nat)
    ensures Settled(h + [u], a) <==>
      if u.actor != a then Settled(h, a)
      else u.change.Collapsing? || (Settled(h, a) && !Stranded(u.before, StepOf(u.change.op).versions))
  {
    assert (h + [u])[..|h + [u]| - 1] == h;
  }

  lemma OthersTracked(a: nat, c: nat, b: Book, t: Tables, t': Tables)
    requires a != c && OthersSame(a, t, t') && Tracked(c, b, t)
    ensures Tracked(c, b, t') && (GapsAgree(c, b.needed, t.gaps) <==> GapsAgree(c, b.needed, t'.gaps))
  {
    forall r: Range ensures GapRow(c, r) in t'.gaps <==> GapRow(c, r) in t.gaps {
    }
    if Spoiled(c, b, t.gaps) { OthersSpoiled(c, b, t.gaps, t'.gaps); }
    forall v ensures SeqsAgree(c, b.partials, t'.seqs, v) {
      assert SeqsAgree(c, b.partials, t.seqs, v);
      assert forall r: Range, l, ts :: SeqRow(c, v, r, l, ts) in t'.seqs <==> SeqRow(c, v, r, l, ts) in t.seqs;
    }
  }

  lemma OthersSpoiled(c: nat, b: Book, rows: set<GapRow>, rows': set<GapRow>)
    requires Spoiled(c, b, rows) && forall r: Range :: GapRow(c, r) in rows <==> GapRow(c, r) in rows'
    ensures Spoiled(c, b, rows')
  {
    if g, h :| Adjacent(c, rows, g, h) && h.lo <= Top(b) {
      assert Adjacent(c, rows', g, h);
    } else {
      var g, x :| Stale(c, b, rows, g, x);
      assert Stale(c, b, rows', g, x);
    }
  }

  /** A written booking: rows agree afterwards exactly if they agreed and nothing is stranded. */
  lemma BookingTallied(a: nat, b: Book, t: Tables, op: Op, stamps: Stamps)
    requires KeysUnique(t) && Tracked(a, b, t) && PartialsStamped(b.partials, a, stamps)
    requires Stamped(Event(a, op), stamps)
    requires NextTables(a, b, t, Booking(op)).Done?
    ensures
      var b', t' := BookStep(b, StepOf(op)), NextTables(a, b, t, Booking(op)).tables;
      && KeysUnique(t') && OthersSame(a, t, t') && Tracked(a, b', t') && PartialsStamped(b'.partials, a, stamps)
      && (GapsAgree(a, b'.needed, t'.gaps) <==> GapsAgree(a, b.needed, t.gaps) && !Stranded(b, StepOf(op).versions))
  {
    var st := StepOf(op);
    OpStamped(b, Event(a, op), stamps);
    DoneKeepsKeys(a, b, t, st);
    StepTracked(a, b, t, st);
  }

  lemma CollapsingTallied(a: nat, b: Book, t: Tables, lone: set<nat>)
    requires KeysUnique(t) && Tracked(a, b, t)
    ensures
      var b', t' := CollapseBook(a, b, t, lone), NextTables(a, b, t, Collapsing(lone)).tables;
      && KeysUnique(t') && OthersSame(a, t, t') && Tracked(a, b', t') && GapsAgree(a, b'.needed, t'.gaps)
  {
    CollapseRepairs(a, CollapseBook(a, b, t, lone), t);
  }

  lemma ChangeTallied(h: seq<Update>, a: nat, c: Change, t: Tables, stamps: Stamps)
    requires Tallied(h, t, stamps) && NextTables(a, Latest(h, a), t, c).Done?
    requires c.Booking? ==> Stamped(Event(a, c.op), stamps)
    ensures
      var b := Latest(h, a);
      var t' := NextTables(a, b, t, c).tables;
      Tallied(h + [Update(a, c, b, NextBook(a, b, t, c), t, t')], t', stamps)
  {
    var b, t' := Latest(h, a), NextTables(a, Latest(h, a), t, c).tables;
    var u := Update(a, c, b, NextBook(a, b, t, c), t, t');
    assert TalliedAt(a, h, t, stamps);
    match c {
      case Booking(op) => BookingTallied(a, b, t, op, stamps);
      case Collapsing(lone) => CollapsingTallied(a, b, t, lone);
    }
    forall v ensures TalliedAt(v, h + [u], t', stamps) {
      LatestSnoc(h, u, v);
      SettledSnoc(h, u, v);
      assert TalliedAt(v, h, t, stamps);
      if v != a { OthersTracked(a, v, Latest(h, v), t, t'); }
    }
  }

  /** What the changing writer has open afterwards. */
  lemma ModifiedTallied(h: seq<Update>, x: Writer, a: nat, c: Change, stamps: Stamps)
    requires x.tx.Open? && a in x.working && x.working[a] == Latest(h + x.updates, a)
    requires Tallied(h + x.updates, x.tx.tables, stamps) && (c.Booking? ==> Stamped(Event(a, c.op), stamps))
    ensures var x' := Modified(x, a, c); x'.poisoned || Tallied(h + x'.updates, x'.tx.tables, stamps)
  {
    var b, t := x.working[a], x.tx.tables;
    if NextTables(a, b, t, c).Done? {
      ChangeTallied(h + x.updates, a, c, t, stamps);
      var u := Update(a, c, b, NextBook(a, b, t, c), t, NextTables(a, b, t, c).tables);
      assert h + (x.updates + [u]) == h + x.updates + [u];
    }
  }

  lemma ModifyKeepsTally(s: State, w: nat, a: nat, c: Change, stamps: Stamps)
    requires Inv(s) && TallyInv(s, stamps) && Enabled(s, Modify(w, a, c)) && ActionStamped(Modify(w, a, c), stamps)
    ensures TallyInv(Do(s, Modify(w, a, c)), stamps)
  {
    var x, s' := WriterOf(s, w), Do(s, Modify(w, a, c));
    assert HolderInv(s, w) && OpenTallied(s, w, stamps);
    ModifiedTallied(s.history, x, a, c, stamps);
    assert WriterOf(s', w) == Modified(x, a, c);
    forall v ensures OpenTallied(s', v, stamps) {
      assert OpenTallied(s, v, stamps);
      assert v != w ==> WriterOf(s', v) == WriterOf(s, v);
    }
  }

  lemma StepKeepsTally(s: State, act: Action, stamps: Stamps)
    requires Inv(s) && TallyInv(s, stamps) && Enabled(s, act) && ActionStamped(act, stamps)
    ensures TallyInv(Do(s, act), stamps)
  {
    var s' := Do(s, act);
    assert WriterInv(s, act.w) && OpenTallied(s, act.w, stamps);
    if act.Modify? {
      ModifyKeepsTally(s, act.w, act.actor, act.change, stamps);
    } else {
      assert s.history + [] == s.history;
      forall v ensures OpenTallied(s', v, stamps) { assert WriterInv(s, v) && OpenTallied(s, v, stamps); }
    }
  }

  lemma {:induction false} ReachableTally(acts: seq<Action>, s: State, stamps: Stamps)
    requires Reaches(acts, s) && forall i :: 0 <= i < |acts| ==> ActionStamped(acts[i], stamps)
    ensures TallyInv(s, stamps)
    decreases |acts|
  {
    if acts == [] {
      assert forall a :: Runs(Latest([], a).needed) == {};
      forall a ensures TalliedAt(a, [], Tables({}, {}), stamps) {}
    } else {
      var s0 :| Reaches(Front(acts), s0) && Next(s0, Last(acts), s);
      ReachableInv(Front(acts), s0);
      ReachableTally(Front(acts), s0, stamps);
      StepKeepsTally(s0, Last(acts), stamps);
    }
  }

  /** In every interleaving of bookings and collapses, whenever the lock is free a published book
      agrees with the committed rows exactly if no arrival has stranded one of its ranges since
      its gaps were last collapsed. */
  lemma AgreementExactly(acts: seq<Action>, s: State, stamps: Stamps, a: nat)
    requires Reaches(acts, s) && s.lock.None?
    requires forall i :: 0 <= i < |acts| ==> ActionStamped(acts[i], stamps)
    ensures Agree(a, Read(s, a), s.committed) <==> Settled(s.history, a)
  {
    NoLostUpdates(acts, s);
    ReachableTally(acts, s, stamps);
    assert TalliedAt(a, s.history, s.committed, stamps);
  }

  /** Where rows and book agree, no write fails and no delete misses. */
  lemma SettledWritesSucceed(acts: seq<Action>, s: State, stamps: Stamps, w: nat, a: nat, c: Change)
    requires Reaches(acts, s) && forall i :: 0 <= i < |acts| ==> ActionStamped(acts[i], stamps)
    requires Enabled(s, Modify(w, a, c)) && Settled(s.history + WriterOf(s, w).updates, a)
    ensures
      var x := WriterOf(s, w);
      var out := NextTables(a, x.working[a], x.tx.tables, c);
      out.Done? && out.effective
  {
    var x := WriterOf(s, w);
    ReachableInv(acts, s);
    ReachableTally(acts, s, stamps);
    assert HolderInv(s, w) && OpenTallied(s, w, stamps);
    assert TalliedAt(a, s.history + x.updates, x.tx.tables, stamps);
    if c.Booking? { StepWritten(a, x.working[a], x.tx.tables, StepOf(c.op)); }
  }

  // ---------------------------------------------------------------- runs that stay settled

  /** Every collapse of `a` left its greatest version known. */
  predicate Careful(h: seq<Update>, a: nat) {
    forall i :: 0 <= i < |h| && h[i].actor == a && h[i].change.Collapsing? ==> TopKnown(h[i].after)
  }

  lemma ChainedFront(h: seq<Update>)
    requires h != [] && Chained(h)
    ensures Chained(Front(h)) && Follows(Front(h), Last(h))
  {
  }

  lemma {:induction false} CarefulSettles(h: seq<Update>, a: nat)
    requires Chained(h) && AllGenuine(h) && Careful(h, a)
    ensures TopKnown(Latest(h, a)) && Settled(h, a)
    decreases |h|
  {
    if h != [] {
      var u := Last(h);
      ChainedFront(h);
      CarefulSettles(Front(h), a);
      assert h[|h| - 1] == u && h[..|h| - 1] == Front(h);
      if u.actor == a && u.change.Booking? {
        TopKnownNotStranded(u.before, StepOf(u.change.op).versions);
        StepKeepsTopKnown(u.before, u.change.op);
      }
    }
  }

  /** If every collapse left the greatest version known, published books and committed rows agree. */
  lemma AgreementIfCareful(acts: seq<Action>, s: State, stamps: Stamps, a: nat)
    requires Reaches(acts, s) && s.lock.None? && Careful(s.history, a)
    requires forall i :: 0 <= i < |acts| ==> ActionStamped(acts[i], stamps)
    ensures Agree(a, Read(s, a), s.committed)
  {
    NoLostUpdates(acts, s);
    CarefulSettles(s.history, a);
    AgreementExactly(acts, s, stamps, a);
  }
}
