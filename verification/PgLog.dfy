/** The log of what a PostgreSQL session does to the database, to the write permit and to the
    wire, and a monitor that says which logs are acceptable. The monitor knows nothing of the
    session's own transaction state. */
module PgLog {

  datatype Status = Idle | InTransaction | InError

  datatype Verb = Begin | Commit | Rollback | Show | Set | Other

  /** A command. `pg`: not parsable as SQLite SQL. `readonly`: what SQLite says of the prepared
      statement. */
  datatype Cmd = Cmd(verb: Verb, pg: bool, readonly: bool)

  datatype Event =
    | SqlBegin(explicit: bool)                // BEGIN IMMEDIATE succeeded
    | BeginFailed                             // BEGIN IMMEDIATE failed
    | Hindered                                // a statement could not be prepared, described or given the permit
    | SqlRun(readonly: bool, rolledBack: bool) // a statement ran; it may have rolled back on failure
    | SqlCommit(ok: bool, rolledBack: bool)   // COMMIT handled; a failure may have rolled back
    | SqlRollback(out: bool)                  // ROLLBACK; `out`: no transaction is open afterwards
    | RollbackNoop                            // ROLLBACK handled with no SQLite transaction open
    | Acquire                                 // write permit and bookie guard taken
    | Release                                 // both given back
    | Error                                   // an error reported to the client
    | Complaint                               // an error response that fails no transaction
    | Completed(cmd: Cmd)                     // the command reported as complete
    | Suspended                               // a portal reported as suspended
    | Unsent                                  // a response that could not be sent
    | RollbackAsked                           // the client's command is ROLLBACK
    | Closing                                 // the session is given up
    | Ready(status: Status)                   // ReadyForQuery
    | ConnectionDropped

  datatype Block = NoBlock | Implicit | Explicit

  /** `inTx`: SQLite has a transaction open. `block`: the transaction as the client sees it.
      `tainted`: an error was reported, or a COMMIT failed, inside the block. `excused`: the client
      asked to roll it back, or the session is given up. */
  datatype Monitor = Monitor(inTx: bool, block: Block, held: bool, tainted: bool, excused: bool, gone: bool)

  const QUIET := Monitor(false, NoBlock, false, false, false, false)

  function StatusOf(m: Monitor): Status {
    if m.block.Explicit? then (if m.tainted then InError else InTransaction) else Idle
  }

  /** The rules. */
  predicate Allowed(m: Monitor, e: Event) {
    match e
    case SqlBegin(_) => !m.inTx && m.block.NoBlock?
    case SqlRun(readonly, _) => !m.tainted && (readonly || (m.held && m.inTx))
    case SqlCommit(ok, _) => !m.tainted && (ok ==> m.inTx)
    case SqlRollback(_) => m.tainted || m.excused
    case RollbackNoop => !m.inTx && (m.tainted || m.excused)
    case Acquire => !m.held
    case Release => m.held && (!m.inTx || m.gone)
    case Ready(status) => !m.block.Implicit? && status == StatusOf(m)
    case _ => true
  }

  predicate Closes(m: Monitor, e: Event) {
    || (e.SqlCommit? && (e.ok || e.rolledBack || !m.inTx))
    || (e.SqlRollback? && e.out)
    || e.ConnectionDropped?
  }

  /** Events that end the block the client is in. */
  predicate EndsBlock(m: Monitor, e: Event) {
    Closes(m, e) || e.RollbackNoop?
  }

  /** Events that spoil the block they happen in. */
  predicate Fails(e: Event) {
    e.Error? || (e.SqlCommit? && !e.ok)
  }

  function Observe(m: Monitor, e: Event): Monitor {
    Monitor(
      e.SqlBegin? || (m.inTx && !Closes(m, e) && !(e.SqlRun? && e.rolledBack)),
      if e.SqlBegin? then (if e.explicit then Explicit else Implicit) else if EndsBlock(m, e) then NoBlock else m.block,
      e.Acquire? || (m.held && !e.Release?),
      !e.SqlBegin? && !EndsBlock(m, e) && (m.tainted || (Fails(e) && !m.block.NoBlock?)),
      !e.SqlBegin? && !EndsBlock(m, e) && (m.excused || e.RollbackAsked? || e.Closing?),
      m.gone || e.ConnectionDropped?)
  }

  /** The monitor after the first `n` events. */
  function Watch(log: seq<Event>, n: nat): Monitor
    requires n <= |log|
  {
    if n == 0 then QUIET else Observe(Watch(log, n - 1), log[n - 1])
  }

  predicate AllowedAt(log: seq<Event>, k: nat)
    requires k < |log|
  {
    Allowed(Watch(log, k), log[k])
  }

  /** Every event of the log was allowed when it happened. */
  ghost predicate Safe(log: seq<Event>) {
    forall k: nat {:trigger AllowedAt(log, k)} :: k < |log| ==> AllowedAt(log, k)
  }

  lemma {:induction false} WatchPrefix(log: seq<Event>, more: seq<Event>, n: nat)
    requires n <= |log|
    ensures Watch(log + more, n) == Watch(log, n)
  {
    if n > 0 { WatchPrefix(log, more, n - 1); }
  }

  lemma WatchSnoc(log: seq<Event>, e: Event)
    ensures Watch(log + [e], |log| + 1) == Observe(Watch(log, |log|), e)
    ensures Safe(log) && Allowed(Watch(log, |log|), e) ==> Safe(log + [e])
  {
    WatchPrefix(log, [e], |log|);
    if Safe(log) && Allowed(Watch(log, |log|), e) {
      forall k: nat | k < |log| + 1 ensures AllowedAt(log + [e], k) {
        WatchPrefix(log, [e], k);
        if k < |log| { assert AllowedAt(log, k); }
      }
    }
  }

  // ---------------------------------------------------------------- what safe logs promise

  /** The writes done since the last BEGIN, and those made durable, by position in the log. */
  datatype Effects = Effects(pending: set<nat>, durable: set<nat>)

  function Effect(f: Effects, e: Event, k: nat): Effects {
    match e
    case SqlBegin(_) => f.(pending := {})
    case SqlRun(readonly, rolledBack) =>
      if rolledBack then f.(pending := {})
      else if readonly then f
      else f.(pending := f.pending + {k})
    case SqlCommit(ok, rolledBack) =>
      if ok then Effects({}, f.durable + f.pending) else if rolledBack then f.(pending := {}) else f
    case SqlRollback(out) => if out then f.(pending := {}) else f
    case ConnectionDropped => f.(pending := {})
    case _ => f
  }

  function EffectsOf(log: seq<Event>, n: nat): Effects
    requires n <= |log|
  {
    if n == 0 then Effects({}, {}) else Effect(EffectsOf(log, n - 1), log[n - 1], n - 1)
  }

  predicate EndsAt(log: seq<Event>, k: nat)
    requires k < |log|
  {
    EndsBlock(Watch(log, k), log[k])
  }

  /** The block open at `i` is still the one open at `j`. */
  ghost predicate SameBlock(log: seq<Event>, i: nat, j: nat)
    requires i <= j <= |log|
  {
    forall k: nat {:trigger EndsAt(log, k)} :: i <= k < j ==> !EndsAt(log, k)
  }

  lemma BlockGoesOn(m: Monitor, e: Event)
    requires Allowed(m, e) && !m.block.NoBlock? && !EndsBlock(m, e)
    ensures !Observe(m, e).block.NoBlock? && (m.tainted ==> Observe(m, e).tainted)
  {
  }

  lemma ErrorTaints(log: seq<Event>, i: nat)
    requires i < |log| && Fails(log[i]) && !EndsAt(log, i) && !Watch(log, i).block.NoBlock?
    ensures !Watch(log, i + 1).block.NoBlock? && Watch(log, i + 1).tainted
  {
  }

  /** In a safe log, a block in which an error was reported stays tainted until it ends. */
  lemma {:induction false} TaintStays(log: seq<Event>, i: nat, j: nat)
    requires i < j <= |log| && Safe(log) && SameBlock(log, i, j)
    requires !Watch(log, i).block.NoBlock? && Fails(log[i])
    ensures !Watch(log, j).block.NoBlock? && Watch(log, j).tainted
  {
    if j == i + 1 {
      ErrorTaints(log, i);
    } else {
      TaintStays(log, i, j - 1);
      assert AllowedAt(log, j - 1) && !EndsAt(log, j - 1);
      BlockGoesOn(Watch(log, j - 1), log[j - 1]);
    }
  }

  /** Inside a block in which an error was reported no statement and no COMMIT runs, and only
      a ROLLBACK or the end of the connection ends it. */
  lemma TaintedNeverCommits(log: seq<Event>, i: nat, j: nat)
    requires i < j < |log| && Safe(log) && SameBlock(log, i, j)
    requires !Watch(log, i).block.NoBlock? && Fails(log[i])
    ensures !log[j].SqlCommit? && !log[j].SqlRun?
    ensures EndsAt(log, j) ==> log[j].SqlRollback? || log[j].RollbackNoop? || log[j].ConnectionDropped?
  {
    TaintStays(log, i, j);
    assert AllowedAt(log, j);
  }

  lemma {:induction false} EffectsBound(log: seq<Event>, n: nat, k: nat)
    requires n <= |log| && n <= k
    ensures k !in EffectsOf(log, n).pending && k !in EffectsOf(log, n).durable
  {
    if n > 0 { EffectsBound(log, n - 1, k); }
  }

  /** Undecided writes exist only inside a SQLite transaction. */
  lemma {:induction false} PendingInTx(log: seq<Event>, n: nat)
    requires Safe(log) && n <= |log|
    ensures EffectsOf(log, n).pending != {} ==> Watch(log, n).inTx
  {
    if n > 0 {
      PendingInTx(log, n - 1);
      assert AllowedAt(log, n - 1);
    }
  }

  /** `k` is a write of the block begun at `b`, inside which `i` reports an error. */
  ghost predicate FailedWrite(log: seq<Event>, b: nat, i: nat, k: nat) {
    && b < i < |log| && log[b].SqlBegin? && Fails(log[i]) && SameBlock(log, b + 1, i)
    && b < k < |log| && log[k].SqlRun? && SameBlock(log, b + 1, k)
  }

  lemma PendingDecided(m: Monitor, f: Effects, e: Event, at: nat, k: nat)
    requires Allowed(m, e) && m.inTx && k in f.pending && k != at && !(e.SqlCommit? && e.ok)
    ensures k in Effect(f, e, at).pending ==> !EndsBlock(m, e)
    ensures Effect(f, e, at).durable == f.durable
  {
  }

  lemma {:induction false} StillOpen(log: seq<Event>, b: nat, j: nat)
    requires Safe(log) && b < j <= |log| && log[b].SqlBegin? && SameBlock(log, b + 1, j)
    ensures !Watch(log, j).block.NoBlock?
  {
    if j > b + 1 {
      StillOpen(log, b, j - 1);
      assert AllowedAt(log, j - 1) && !EndsAt(log, j - 1);
      BlockGoesOn(Watch(log, j - 1), log[j - 1]);
    }
  }

  lemma NoCommitHere(log: seq<Event>, b: nat, i: nat, m: nat)
    requires Safe(log) && b < i < |log| && log[b].SqlBegin? && Fails(log[i]) && SameBlock(log, b + 1, i)
    requires b < m < |log| && SameBlock(log, b + 1, m)
    ensures !(log[m].SqlCommit? && log[m].ok)
  {
    if m < i {
      assert !EndsAt(log, m);
    } else {
      StillOpen(log, b, i);
      if i < m { TaintedNeverCommits(log, i, m); }
    }
  }

  lemma {:induction false} FailedWriteUndecided(log: seq<Event>, b: nat, i: nat, k: nat, n: nat)
    requires Safe(log) && FailedWrite(log, b, i, k) && b < n <= |log|
    ensures k !in EffectsOf(log, n).durable
    ensures k in EffectsOf(log, n).pending ==> SameBlock(log, b + 1, n)
  {
    if n == b + 1 {
      EffectsBound(log, n, k);
    } else {
      var m := n - 1;
      FailedWriteUndecided(log, b, i, k, m);
      if k in EffectsOf(log, m).pending {
        EffectsBound(log, m, m);
        NoCommitHere(log, b, i, m);
        PendingInTx(log, m);
        assert AllowedAt(log, m);
        PendingDecided(Watch(log, m), EffectsOf(log, m), log[m], m, k);
      }
    }
  }

  /** Atomicity: once an error is reported inside a transaction block, explicit or implicit, no
      write of that block ever becomes durable. */
  lemma ErrorUndoesBlock(log: seq<Event>, b: nat, i: nat, k: nat)
    requires Safe(log) && FailedWrite(log, b, i, k)
    ensures k !in EffectsOf(log, |log|).durable
  {
    FailedWriteUndecided(log, b, i, k, |log|);
  }

  // ---------------------------------------------------------------- what is not undone

  /** The only reasons for which a block may end without a COMMIT. */
  predicate Troubles(e: Event) {
    Fails(e) || e.RollbackAsked? || e.Closing? || e.ConnectionDropped?
  }

  /** `k` lies in the block begun at `b`. */
  ghost predicate InBlock(log: seq<Event>, b: nat, k: nat) {
    b < k <= |log| && log[b].SqlBegin? && SameBlock(log, b + 1, k)
  }

  predicate TroubleAt(log: seq<Event>, i: nat) {
    i < |log| && Troubles(log[i])
  }

  /** Before `n`, the block begun at `b` met an error, was rolled back by the client or lost it. */
  ghost predicate Excused(log: seq<Event>, b: nat, n: nat) {
    exists i: nat {:trigger TroubleAt(log, i)} :: b < i < n && InBlock(log, b, i) && TroubleAt(log, i)
  }

  lemma ExcuseGrows(log: seq<Event>, b: nat, n: nat)
    requires n < |log| && b < n
    ensures Excused(log, b, n) ==> Excused(log, b, n + 1)
    ensures InBlock(log, b, n) && TroubleAt(log, n) ==> Excused(log, b, n + 1)
  {
  }

  lemma {:induction false} QuietBlock(log: seq<Event>, b: nat, n: nat)
    requires InBlock(log, b, n) && !Excused(log, b, n)
    ensures !Watch(log, n).tainted && !Watch(log, n).excused
    decreases n
  {
    if n > b + 1 {
      assert InBlock(log, b, n - 1);
      ExcuseGrows(log, b, n - 1);
      QuietBlock(log, b, n - 1);
      assert !TroubleAt(log, n - 1);
    }
  }

  /** The fate of a write at `k` of the block begun at `b`: durable, excused, or undecided as yet. */
  ghost predicate Fate(log: seq<Event>, b: nat, k: nat, n: nat)
    requires n <= |log|
  {
    || k in EffectsOf(log, n).durable || Excused(log, b, n)
    || (InBlock(log, b, n) && (k in EffectsOf(log, n).pending || !Watch(log, n).inTx))
  }

  /** One event decides rightly. */
  lemma FateStep(m: Monitor, f: Effects, e: Event, at: nat, k: nat)
    requires Allowed(m, e) && !m.block.NoBlock? && !m.tainted && !m.excused && !Troubles(e)
    requires k in f.pending || !m.inTx
    ensures k in Effect(f, e, at).durable
      || (!EndsBlock(m, e) && (k in Effect(f, e, at).pending || !Observe(m, e).inTx))
  {
  }

  lemma {:induction false} FateHolds(log: seq<Event>, b: nat, k: nat, n: nat)
    requires Safe(log) && k < n <= |log| && InBlock(log, b, k) && log[k] == SqlRun(false, false)
    ensures Fate(log, b, k, n)
    decreases n
  {
    var m := n - 1;
    assert AllowedAt(log, m);
    if m == k {
      assert !EndsAt(log, k);
      assert InBlock(log, b, n);
    } else {
      FateHolds(log, b, k, m);
      ExcuseGrows(log, b, m);
      if k !in EffectsOf(log, m).durable && !Excused(log, b, m) && !TroubleAt(log, m) {
        QuietBlock(log, b, m);
        StillOpen(log, b, m);
        FateStep(Watch(log, m), EffectsOf(log, m), log[m], m, k);
        if !EndsAt(log, m) { assert InBlock(log, b, n); }
      }
    }
  }

  lemma {:induction false} OpenSince(log: seq<Event>, n: nat) returns (b: nat)
    requires Safe(log) && n <= |log| && !Watch(log, n).block.NoBlock?
    ensures InBlock(log, b, n)
    decreases n
  {
    assert AllowedAt(log, n - 1);
    if log[n - 1].SqlBegin? {
      b := n - 1;
    } else {
      b := OpenSince(log, n - 1);
      assert !EndsAt(log, n - 1);
    }
  }

  lemma {:induction false} InTxInBlock(log: seq<Event>, n: nat)
    requires Safe(log) && n <= |log|
    ensures Watch(log, n).inTx ==> !Watch(log, n).block.NoBlock?
  {
    if n > 0 {
      InTxInBlock(log, n - 1);
      assert AllowedAt(log, n - 1);
    }
  }

  /** The write at `k` is durable after `n` events, or its block has an excuse. */
  ghost predicate KeptOrExcused(log: seq<Event>, k: nat, n: nat)
    requires n <= |log|
  {
    k in EffectsOf(log, n).durable || exists b :: InBlock(log, b, k) && Excused(log, b, n)
  }

  /** Whenever the client is told that no transaction is open, every write done before is durable,
      except those of blocks that met an error, that the client rolled back, or that it left. */
  lemma ClosedMeansDurable(log: seq<Event>, k: nat, n: nat)
    requires Safe(log) && k < n <= |log| && log[k] == SqlRun(false, false) && Watch(log, n).block.NoBlock?
    ensures KeptOrExcused(log, k, n)
  {
    assert AllowedAt(log, k);
    InTxInBlock(log, k);
    var b := OpenSince(log, k);
    FateHolds(log, b, k, n);
    if InBlock(log, b, n) { StillOpen(log, b, n); }
  }

  // ---------------------------------------------------------------- losing nothing

  /** Events that undo the undecided writes. */
  predicate Loses(e: Event) {
    || (e.SqlRun? && e.rolledBack) || (e.SqlCommit? && !e.ok && e.rolledBack)
    || (e.SqlRollback? && e.out) || e.ConnectionDropped?
  }

  /** How often writes were undone, errors reported, rollbacks asked for and COMMITs handled, and the
      commands reported as complete. */
  datatype Tally = Tally(lost: nat, errors: nat, asked: nat, tried: nat, done: seq<Cmd>)

  const NOTHING := Tally(0, 0, 0, 0, [])

  function Count(t: Tally, e: Event): Tally {
    Tally(if Loses(e) then t.lost + 1 else t.lost, if e.Error? then t.errors + 1 else t.errors,
          if e.RollbackAsked? then t.asked + 1 else t.asked, if e.SqlCommit? then t.tried + 1 else t.tried,
          if e.Completed? then t.done + [e.cmd] else t.done)
  }

  function TallyOf(log: seq<Event>, n: nat): Tally
    requires n <= |log|
  {
    if n == 0 then NOTHING else Count(TallyOf(log, n - 1), log[n - 1])
  }

  lemma {:induction false} TallyPrefix(log: seq<Event>, more: seq<Event>, n: nat)
    requires n <= |log|
    ensures TallyOf(log + more, n) == TallyOf(log, n)
  {
    if n > 0 { TallyPrefix(log, more, n - 1); }
  }

  lemma TallySnoc(log: seq<Event>, e: Event)
    ensures TallyOf(log + [e], |log| + 1) == Count(TallyOf(log, |log|), e)
  {
    TallyPrefix(log, [e], |log|);
  }

  lemma {:induction false} TallyGrows(log: seq<Event>, lo: nat, hi: nat)
    requires lo <= hi <= |log|
    ensures
      var t, u := TallyOf(log, lo), TallyOf(log, hi);
      t.lost <= u.lost && t.errors <= u.errors && t.asked <= u.asked
    decreases hi
  {
    if lo < hi { TallyGrows(log, lo, hi - 1); }
  }

  /** What the tally does not count did not happen, and conversely. */
  lemma TallyTells(log: seq<Event>, lo: nat, hi: nat, k: nat)
    requires lo <= k < hi <= |log|
    ensures
      var t, u := TallyOf(log, lo), TallyOf(log, hi);
      && (t.lost == u.lost ==> !Loses(log[k])) && (t.errors == u.errors ==> !log[k].Error?)
      && (t.asked == u.asked ==> !log[k].RollbackAsked?)
  {
    TallyGrows(log, lo, k);
    TallyGrows(log, k + 1, hi);
  }

  lemma {:induction false} TallyFinds(log: seq<Event>, lo: nat, hi: nat) returns (k: nat)
    requires lo <= hi <= |log| && TallyOf(log, lo).errors < TallyOf(log, hi).errors
    ensures lo <= k < hi && log[k].Error?
    decreases hi
  {
    k := hi - 1;
    if !log[k].Error? { k := TallyFinds(log, lo, hi - 1); }
  }

  /** The writes that are durable or can still become so. */
  function Alive(log: seq<Event>, n: nat): set<nat>
    requires n <= |log|
  {
    EffectsOf(log, n).pending + EffectsOf(log, n).durable
  }

  lemma AliveStep(log: seq<Event>, n: nat)
    requires Safe(log) && n < |log| && !Loses(log[n])
    ensures Alive(log, n) <= Alive(log, n + 1)
    ensures log[n] == SqlRun(false, false) ==> n in Alive(log, n + 1)
  {
    PendingInTx(log, n);
    assert AllowedAt(log, n);
  }

  /** Where the tally counts no loss, every write stays alive. */
  lemma {:induction false} NothingLost(log: seq<Event>, lo: nat, hi: nat)
    requires Safe(log) && lo <= hi <= |log| && TallyOf(log, lo).lost == TallyOf(log, hi).lost
    ensures Alive(log, lo) <= Alive(log, hi)
    ensures forall k :: lo <= k < hi && log[k] == SqlRun(false, false) ==> k in Alive(log, hi)
    decreases hi
  {
    if lo < hi {
      TallyGrows(log, lo, hi - 1);
      TallyTells(log, lo, hi, hi - 1);
      NothingLost(log, lo, hi - 1);
      AliveStep(log, hi - 1);
    }
  }

  /** The writes of a stretch of the log that are durable at its end. */
  ghost predicate AllDurable(log: seq<Event>, lo: nat, hi: nat)
    requires hi <= |log|
  {
    forall k :: lo <= k < hi && log[k] == SqlRun(false, false) ==> k in EffectsOf(log, hi).durable
  }

  /** From `before` to `log`: if nothing was lost and no transaction is open the writes are durable,
      and an error that was counted can be found. */
  lemma Settled(before: seq<Event>, log: seq<Event>)
    requires before <= log && Safe(log)
    ensures
      var t, u := TallyOf(before, |before|), TallyOf(log, |log|);
      && (t.lost == u.lost && !Watch(log, |log|).inTx ==> AllDurable(log, |before|, |log|))
      && (t.errors != u.errors ==> exists k | |before| <= k < |log| :: log[k].Error?)
  {
    var lo := |before|;
    assert log == before + log[lo..];
    TallyPrefix(before, log[lo..], lo);
    TallyGrows(log, lo, |log|);
    if TallyOf(log, lo).errors < TallyOf(log, |log|).errors { var k := TallyFinds(log, lo, |log|); }
    if TallyOf(log, lo).lost == TallyOf(log, |log|).lost && !Watch(log, |log|).inTx {
      NothingLost(log, lo, |log|);
      PendingInTx(log, |log|);
    }
  }

  /** At every ReadyForQuery with status idle, the writes before it are durable or excused. */
  lemma IdleMeansDurable(log: seq<Event>, k: nat, n: nat)
    requires Safe(log) && k < n < |log| && log[k] == SqlRun(false, false) && log[n] == Ready(Idle)
    ensures KeptOrExcused(log, k, n)
  {
    assert AllowedAt(log, n);
    ClosedMeansDurable(log, k, n);
  }
}
