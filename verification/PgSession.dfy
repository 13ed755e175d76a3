/** One PostgreSQL client session over a SQLite connection. SQLite and the network are oracles:
    a statement may succeed, fail, or fail with an automatic rollback, and any send may fail. */
module PgSession {
  import opened PgLog

  datatype Kind = ImplicitTx | ExplicitTx

  datatype TxState =
    | Started(kind: Kind, writing: bool, failed: bool)
    | Ended
  {
    predicate IsImplicit() { Started? && kind.ImplicitTx? }
    predicate IsExplicit() { Started? && kind.ExplicitTx? }
    predicate IsWriting() { Started? && writing }
    predicate IsFailed() { IsExplicit() && failed }
    function FailExplicit(): TxState { if IsExplicit() then this.(failed := true) else this }
    function WithContext(held: bool): TxState { if Started? then this.(writing := held) else this }
  }

  datatype Message =
    | Parse | Describe(ofPortal: bool) | Bind | Close
    | Execute(portal: Portal)
    | Query(cmds: seq<Cmd>, parses: bool)
    | Sync | Flush | Terminate
    | Unserved
    | Stray  // a message only servers send; ignored

  datatype Portal = EmptyPortal | Parsed(cmd: Cmd) | NoPortal

  /** The transaction is the same one, or none. */
  predicate SameOrNone(was: TxState, now: TxState) {
    now.Ended? || (was.Started? && now.kind == was.kind)
  }

  /** The status the protocol asks for in each transaction state. */
  function TxStatus(tx: TxState): Status {
    if !tx.IsExplicit() then Idle else if tx.failed then InError else InTransaction
  }

  /** The monitor after a COMMIT that leaves SQLite inside (`inTx`) or outside the transaction. */
  function AfterCommit(m: Monitor, inTx: bool): Monitor {
    if inTx then m.(tainted := !m.block.NoBlock?) else m.(inTx := false, block := NoBlock, excused := false)
  }

  /** Between the two logs a COMMIT succeeded. */
  predicate Committed(before: seq<Event>, after: seq<Event>) {
    before <= after && exists k | |before| <= k < |after| :: after[k].SqlCommit? && after[k].ok
  }

  /** Between the two logs a statement of this kind ran to its end. */
  predicate RanIn(before: seq<Event>, after: seq<Event>, readonly: bool) {
    before <= after && exists k | |before| <= k < |after| :: after[k] == PgLog.SqlRun(readonly, false)
  }

  lemma CommittedWider(first: seq<Event>, before: seq<Event>, after: seq<Event>, last: seq<Event>)
    requires first <= before && after <= last
    ensures Committed(before, after) ==> Committed(first, last)
  {
    if Committed(before, after) {
      var k :| |before| <= k < |after| && after[k].SqlCommit? && after[k].ok;
      assert last[k] == after[k];
    }
  }

  lemma RanWider(first: seq<Event>, before: seq<Event>, after: seq<Event>, last: seq<Event>, readonly: bool)
    requires first <= before && after <= last
    ensures RanIn(before, after, readonly) ==> RanIn(first, last, readonly)
  {
    if RanIn(before, after, readonly) {
      var k :| |before| <= k < |after| && after[k] == PgLog.SqlRun(readonly, false);
      assert last[k] == after[k];
    }
  }

  /** The log of recording local changes: looking for them, and writing them if there are any. */
  function Recording(changed: bool): seq<Event> {
    if changed then [PgLog.SqlRun(false, false), PgLog.SqlRun(false, false)] else [PgLog.SqlRun(false, false)]
  }

  /** The log of a statement; the first that writes takes the write context and sets the clock. */
  function Running(readonly: bool, writing: bool): seq<Event> {
    if readonly || writing then [PgLog.SqlRun(readonly, false)]
    else [Acquire, PgLog.SqlRun(true, false), PgLog.SqlRun(false, false)]
  }

  /** The client was told nothing, and did not ask for a rollback. */
  predicate Untold(was: Tally, now: Tally) {
    now.errors == was.errors && now.asked == was.asked && now.done == was.done
  }

  /** Between the two logs an error was reported. */
  predicate ErrorIn(before: seq<Event>, after: seq<Event>) {
    before <= after && exists k | |before| <= k < |after| :: after[k].Error?
  }

  /** COMMIT was tried, or the rollback that was asked for. */
  predicate Attempted(cmd: Cmd, was: Tally, now: Tally) {
    && (cmd.verb.Commit? ==> now.tried == was.tried + 1)
    && (cmd.verb.Rollback? ==> now.asked == was.asked + 1)
  }

  predicate AsksBegin(msg: Message) {
    || (msg.Execute? && msg.portal.Parsed? && msg.portal.cmd.verb.Begin?)
    || (msg.Query? && exists i :: 0 <= i < |msg.cmds| && msg.cmds[i].verb.Begin?)
  }

  predicate AsksRollback(msg: Message) {
    || (msg.Execute? && msg.portal.Parsed? && msg.portal.cmd.verb.Rollback?)
    || (msg.Query? && exists i :: 0 <= i < |msg.cmds| && msg.cmds[i].verb.Rollback?)
  }

  class Session {
    var tx: TxState
    var inTx: bool    // SQLite is not in autocommit mode
    var parked: bool  // the write context waits for the connection to be dropped
    ghost var log: seq<Event>
    ghost var mon: Monitor
    ghost var tally: Tally

    constructor ()
      ensures Coherent(false) && tx == Ended && !parked && log == []
    {
      tx, inTx, parked := Ended, false, false;
      log, mon, tally := [], QUIET, NOTHING;
    }

    ghost predicate Traced()
      reads `log, `mon, `tally
    {
      Safe(log) && mon == Watch(log, |log|) && tally == TallyOf(log, |log|)
    }

    /** What the session believes is what happened. */
    ghost predicate Linked()
      reads this
    {
      && Traced()
      && mon.inTx == inTx && mon.held == (tx.IsWriting() || parked) && !mon.gone
      && (mon.block.NoBlock? <==> tx.Ended?)
      && (mon.block.Implicit? <==> tx.IsImplicit())
      && (tx.Ended? ==> !inTx)
      && (tx.Ended? ==> !mon.tainted)
      && !parked
    }

    /** `erred`: an error was reported and the client has not seen ReadyForQuery since. */
    ghost predicate Coherent(erred: bool)
      reads this
    {
      && Linked()
      && (tx.IsExplicit() ==> (mon.tainted <==> tx.failed || erred))
      && (tx.IsImplicit() ==> (mon.tainted <==> erred))
      && (tx.Started? && !tx.IsFailed() && !erred ==> inTx)
    }

    ghost method Emit(e: Event)
      requires Traced() && Allowed(mon, e)
      modifies `log, `mon, `tally
      ensures Traced() && log == old(log) + [e] && mon == Observe(old(mon), e)
      ensures tally == Count(old(tally), e)
    {
      WatchSnoc(log, e);
      TallySnoc(log, e);
      log, mon, tally := log + [e], Observe(mon, e), Count(tally, e);
    }

    /** Send a response that does not concern the transaction. */
    method Send(ghost e: Event) returns (sent: bool)
      requires Traced() && (e.Completed? || e.Suspended? || e.Complaint? || (e.Ready? && Allowed(mon, e)))
      modifies `log, `mon, `tally
      ensures Traced() && mon == old(mon) && log == old(log) + [if sent then e else Unsent]
      ensures tally == if sent && e.Completed? then old(tally).(done := old(tally.done) + [e.cmd]) else old(tally)
    {
      sent := *;
      if sent { Emit(e); } else { Emit(Unsent); }
    }

    // -------------------------------------------------------------- SQLite and the client

    method SqlBegin(ghost explicit: bool) returns (ok: bool)
      requires Traced() && Allowed(mon, PgLog.SqlBegin(explicit)) && mon.inTx == inTx
      modifies `log, `mon, `tally, `inTx
      ensures Traced() && mon.inTx == inTx && inTx == ok
      ensures log == old(log) + [if ok then PgLog.SqlBegin(explicit) else BeginFailed]
      ensures mon == if ok then Observe(old(mon), PgLog.SqlBegin(explicit)) else old(mon)
      ensures tally == old(tally)
    {
      ok := *;
      if ok {
        inTx := true;
        Emit(PgLog.SqlBegin(explicit));
      } else {
        Emit(BeginFailed);
      }
    }

    method SqlRun(readonly: bool) returns (ok: bool)
      requires Traced() && mon.inTx == inTx && Allowed(mon, PgLog.SqlRun(readonly, false))
      modifies `log, `mon, `tally, `inTx
      ensures Traced() && mon.inTx == inTx && (ok ==> inTx == old(inTx)) && (inTx ==> old(inTx))
      ensures old(log) < log && (ok ==> log == old(log) + [PgLog.SqlRun(readonly, false)])
      ensures mon == old(mon).(inTx := inTx)
      ensures tally == old(tally).(lost := tally.lost) && (ok ==> tally.lost == old(tally.lost))
    {
      ok := *;
      var rolledBack: bool := *;
      rolledBack := rolledBack && !ok;
      inTx := inTx && !rolledBack;
      Emit(PgLog.SqlRun(readonly, rolledBack));
    }

    method SqlCommit() returns (ok: bool)
      requires Traced() && mon.inTx == inTx && !mon.tainted
      modifies `log, `mon, `tally, `inTx
      ensures Traced() && mon.inTx == inTx && (ok ==> old(inTx) && !inTx) && (inTx ==> old(inTx))
      ensures exists rolledBack :: log == old(log) + [PgLog.SqlCommit(ok, rolledBack)]
      ensures ok ==> Committed(old(log), log)
      ensures mon == AfterCommit(old(mon), inTx)
      ensures tally == old(tally).(lost := tally.lost, tried := old(tally.tried) + 1)
      ensures ok ==> tally.lost == old(tally.lost)
    {
      ok := *;
      ok := ok && inTx;
      var rolledBack: bool := *;
      rolledBack := rolledBack && !ok;
      inTx := inTx && !ok && !rolledBack;
      Emit(PgLog.SqlCommit(ok, rolledBack));
      assert log[|log| - 1] == PgLog.SqlCommit(ok, rolledBack);
    }

    method SqlRollback() returns (ok: bool)
      requires Traced() && mon.inTx == inTx && (mon.tainted || mon.excused)
      modifies `log, `mon, `tally, `inTx
      ensures Traced() && mon.inTx == inTx && (ok ==> !inTx)
      ensures inTx ==> old(inTx)
      ensures log == old(log) + [PgLog.SqlRollback(!inTx)]
      ensures mon ==
        if inTx then old(mon) else old(mon).(inTx := false, block := NoBlock, tainted := false, excused := false)
      ensures tally == old(tally).(lost := tally.lost)
    {
      ok := *;
      var out: bool := *;
      out := out || ok || !inTx;
      inTx := inTx && !out;
      Emit(PgLog.SqlRollback(out));
    }

    // -------------------------------------------------------------- ending a transaction

    /** Find the local changes and, if there are any, write them to the books. */
    method RecordLocalChanges() returns (ok: bool, changed: bool)
      requires Traced() && mon.inTx == inTx && inTx && mon.held && !mon.tainted
      modifies `log, `mon, `tally, `inTx
      ensures Traced() && mon.inTx == inTx && mon == old(mon).(inTx := inTx) && old(log) <= log
      ensures ok ==> inTx && log == old(log) + Recording(changed)
      ensures tally == old(tally).(lost := tally.lost) && (ok ==> tally.lost == old(tally.lost))
    {
      ok := SqlRun(false);
      changed := *;
      if ok && changed { ok := SqlRun(false); }
    }

    /** Record the local changes, then COMMIT; run with the write context held. */
    method HandleCommit() returns (ok: bool)
      requires Traced() && mon.inTx == inTx && inTx && mon.held && !mon.tainted
      modifies `log, `mon, `tally, `inTx
      ensures Traced() && mon.inTx == inTx && (ok ==> !inTx) && old(log) < log
      ensures mon == AfterCommit(old(mon), inTx)
      ensures tally == old(tally).(lost := tally.lost, tried := old(tally.tried) + 1)
      ensures ok ==> tally.lost == old(tally.lost)
      ensures ok ==> |log| > |old(log)| + 1 && log[|old(log)|] == PgLog.SqlRun(false, false)
      ensures ok ==> Committed(old(log), log)
    {
      var changed;
      ok, changed := RecordLocalChanges();
      if ok {
        ghost var here := log;
        ok := SqlCommit();
        CommittedWider(old(log), here, log, log);
      } else {
        Emit(PgLog.SqlCommit(false, false));
      }
    }

    method CommitTx() returns (ok: bool)
      requires Linked() && !mon.tainted && (tx.Started? ==> inTx)
      modifies this
      ensures Linked() && old(log) < log
      ensures ok ==> tx.Ended? && Committed(old(log), log)
      ensures !ok ==> tx == (if inTx then old(tx).FailExplicit() else Ended)
      ensures tx.Started? ==> mon.tainted
      ensures tally == old(tally).(lost := tally.lost, tried := old(tally.tried) + 1)
      ensures ok ==> tally.lost == old(tally.lost)
      ensures ok && old(tx.IsWriting()) ==> |log| > |old(log)| && log[|old(log)|] == PgLog.SqlRun(false, false)
    {
      var context := tx.IsWriting();
      tx := tx.WithContext(false);
      if context { ok := HandleCommit(); } else { ok := SqlCommit(); }
      ghost var here := log;
      if ok || !inTx {
        tx := Ended;
        if context { Emit(Release); }
        CommittedWider(old(log), old(log), here, log);
      } else {
        tx := tx.WithContext(context).FailExplicit();
      }
    }

    method RollbackTx() returns (ok: bool)
      requires Linked() && (mon.tainted || mon.excused)
      modifies this
      ensures Linked() && old(log) <= log
      ensures tx == (if inTx then old(tx) else Ended) && (ok ==> !inTx)
      ensures inTx ==> mon == old(mon)
      ensures |log| > |old(log)| && log[|old(log)|] == if old(inTx) then PgLog.SqlRollback(!inTx) else RollbackNoop
      ensures tally == old(tally).(lost := tally.lost)
    {
      if inTx { ok := SqlRollback(); } else { ok := true; Emit(RollbackNoop); }
      if !inTx {
        var context := tx.IsWriting();
        tx := Ended;
        if context { Emit(Release); }
      }
    }

    /** Give up on the session: roll back, or keep the write context until the connection is gone. */
    method Drop()
      requires Linked()
      modifies this
      ensures Traced() && old(log) <= log && tx.Ended?
      ensures mon.inTx == inTx && mon.held == parked && !mon.gone
      ensures old(tx.Started?) ==>
        |log| > |old(log)| + 1 && (log[|old(log)| + 1].SqlRollback? || log[|old(log)| + 1].RollbackNoop?)
      ensures old(tx.Ended?) ==> log == old(log)
      ensures parked ==> inTx
      ensures tally == old(tally).(lost := tally.lost)
    {
      if tx.Started? {
        Emit(Closing);
        var ok := RollbackTx();
        if !ok {
          parked := tx.IsWriting();
          tx := Ended;
        }
      }
    }

    // -------------------------------------------------------------- commands

    /** The only commands that are refused: in a failed block all but ROLLBACK, and BEGIN in a block. */
    ghost predicate Refused(cmd: Cmd)
      reads `mon
    {
      mon.block.Explicit? && ((mon.tainted && !cmd.verb.Rollback?) || cmd.verb.Begin?)
    }

    /** COMMIT of a transaction that is not failed, and every ROLLBACK, must be obeyed. */
    ghost predicate Obeyed(cmd: Cmd)
      reads `mon
    {
      (cmd.verb.Commit? && !mon.tainted) || cmd.verb.Rollback?
    }

    /** What `validate_transaction_command` lets through. */
    predicate Accepts(cmd: Cmd)
      reads `tx
    {
      !(tx.IsFailed() && !cmd.verb.Rollback?) && !(tx.IsExplicit() && cmd.verb.Begin?)
    }

    /** Take the write permit and the bookie guard, and set the clock. */
    method TakeContext() returns (ok: bool)
      requires Linked() && !mon.tainted && inTx && !tx.IsWriting()
      modifies this
      ensures Linked() && old(log) < log && !mon.tainted && mon.block == old(mon.block)
      ensures ok ==> inTx && log == old(log) + [Acquire, PgLog.SqlRun(true, false)]
      ensures tx == old(tx).WithContext(true) || (!ok && tx == old(tx))
      ensures tally == old(tally).(lost := tally.lost) && (ok ==> tally.lost == old(tally.lost))
    {
      ok := *;
      if !ok {
        Emit(Hindered);
        return;
      }
      tx := tx.WithContext(true);
      Emit(Acquire);
      ok := SqlRun(true);
    }

    /** Take the write context if the statement writes, then run it. */
    method RunStatement(readonly: bool) returns (ok: bool)
      requires Linked() && !mon.tainted && (!readonly ==> inTx)
      modifies this
      ensures Linked() && old(log) < log && !mon.tainted && mon.block == old(mon.block)
      ensures ok ==> inTx == old(inTx) && log == old(log) + Running(readonly, old(tx.IsWriting()))
      ensures tx == old(tx) || tx == old(tx).WithContext(true)
      ensures ok && !readonly ==> tx.IsWriting()
      ensures ok ==> RanIn(old(log), log, readonly) && tally.lost == old(tally.lost)
      ensures tally == old(tally).(lost := tally.lost)
    {
      if !tx.IsWriting() && !readonly {
        ok := TakeContext();
        if !ok { return; }
      }
      ok := SqlRun(readonly);
      assert ok ==> log[|log| - 1] == PgLog.SqlRun(readonly, false);
    }

    method StartTx(kind: Kind) returns (ok: bool)
      requires Linked() && tx.Ended?
      modifies this
      ensures Linked() && old(log) < log && !mon.tainted
      ensures tx == (if ok then Started(kind, false, false) else Ended) && (ok ==> inTx)
      ensures tally == old(tally)
    {
      ok := SqlBegin(kind.ExplicitTx?);
      if ok { tx := Started(kind, false, false); }
    }

    /** COMMIT or ROLLBACK. */
    method CloseTx(cmd: Cmd) returns (ok: bool)
      requires Coherent(false) && Accepts(cmd) && (cmd.verb.Commit? || cmd.verb.Rollback?)
      modifies this
      ensures Linked() && old(log) < log
      ensures ok ==> Coherent(false) && tx == Ended
      ensures ok && cmd.verb.Commit? ==> Committed(old(log), log)
      ensures ok && !cmd.verb.Rollback? ==> tally.lost == old(tally.lost)
      ensures tally.errors == old(tally.errors) && tally.done == old(tally.done)
      ensures !cmd.verb.Rollback? ==> tally.asked == old(tally.asked)
      ensures Attempted(cmd, old(tally), tally)
      ensures SameOrNone(old(tx), tx)
    {
      if cmd.verb.Commit? {
        ok := CommitTx();
      } else {
        Emit(RollbackAsked);
        ok := RollbackTx();
      }
    }

    /** What a command of a simple Query does before its completion is reported. */
    method RunCommand(cmd: Cmd) returns (ok: bool)
      requires Coherent(false) && Accepts(cmd) && !cmd.verb.Show? && !cmd.verb.Set?
      modifies this
      ensures Linked() && old(log) <= log
      ensures ok ==> Coherent(false)
      ensures ok && cmd.verb.Begin? ==> tx == Started(ExplicitTx, false, false)
      ensures ok && cmd.verb.Commit? ==> tx == Ended && Committed(old(log), log)
      ensures ok && cmd.verb.Rollback? ==> tx == Ended
      ensures ok && cmd.verb.Other? ==> tx.Started? && !cmd.pg && RanIn(old(log), log, cmd.readonly)
      ensures ok && cmd.verb.Begin? && old(tx.IsImplicit()) ==> Committed(old(log), log)
      ensures old(tx.Started?) && old(Obeyed(cmd)) ==> Attempted(cmd, old(tally), tally)
      ensures ok && !cmd.verb.Rollback? ==> tally.lost == old(tally.lost)
      ensures tally.errors == old(tally.errors) && (!cmd.verb.Rollback? ==> tally.asked == old(tally.asked))
      ensures tally.done == old(tally.done)
      ensures tx.IsExplicit() ==> cmd.verb.Begin? || old(tx.IsExplicit())
      ensures !ok ==> old(log) != log
    {
      if tx.Ended? && !cmd.verb.Begin? {
        ok := StartTx(ImplicitTx);
        if !ok { return; }
      } else if tx.IsImplicit() && cmd.verb.Begin? {
        ok := CommitTx();
        if !ok { return; }
      }
      ghost var here := log;
      if cmd.verb.Begin? {
        ok := StartTx(ExplicitTx);
        CommittedWider(old(log), old(log), here, log);
      } else if cmd.verb.Commit? || cmd.verb.Rollback? {
        ok := CloseTx(cmd);
        CommittedWider(old(log), here, log, log);
      } else {
        ok := *;  // whether it can be prepared and described
        if cmd.pg || !ok {
          Emit(Hindered);
          return false;
        }
        ok := RunStatement(cmd.readonly);
        RanWider(old(log), here, log, log, cmd.readonly);
      }
    }

    /** One command of a simple Query. */
    method HandleQuery(cmd: Cmd) returns (ok: bool)
      requires Coherent(false)
      modifies this
      ensures Linked() && old(log) <= log
      ensures ok ==> Coherent(false)
      ensures old(Refused(cmd)) ==> !ok && log == old(log) && tx == old(tx)
      ensures !old(Refused(cmd)) ==> old(log) < log
      ensures ok && cmd.verb.Begin? ==> tx == Started(ExplicitTx, false, false)
      ensures ok && cmd.verb.Commit? ==> tx == Ended && Committed(old(log), log)
      ensures ok && cmd.verb.Rollback? ==> tx == Ended
      ensures ok && cmd.verb.Other? ==> tx.Started? && !cmd.pg && RanIn(old(log), log, cmd.readonly)
      ensures ok && cmd.verb.Begin? && old(tx.IsImplicit()) ==> Committed(old(log), log)
      ensures old(tx.Started?) && old(Obeyed(cmd)) ==> Attempted(cmd, old(tally), tally)
      ensures ok && !cmd.verb.Rollback? ==> tally.lost == old(tally.lost)
      ensures tally.errors == old(tally.errors) && (!cmd.verb.Rollback? ==> tally.asked == old(tally.asked))
      ensures tally.done == old(tally.done) + if ok then [cmd] else []
      ensures tx.IsExplicit() ==> cmd.verb.Begin? || old(tx.IsExplicit())
    {
      if !Accepts(cmd) { return false; }
      ok := true;
      if !cmd.verb.Show? && !cmd.verb.Set? { ok := RunCommand(cmd); }
      if !ok { return; }
      ghost var here := log;
      ok := Send(Completed(cmd));
      CommittedWider(old(log), old(log), here, log);
      RanWider(old(log), old(log), here, log, cmd.readonly);
      if ok && cmd.verb.Begin? { tx := Started(ExplicitTx, false, false); }
    }

    /** Run the statement; unless its portal is suspended, commit the transaction it opened. */
    method ExecuteStatement(readonly: bool, openedTx: bool) returns (ok: bool, suspended: bool)
      requires Coherent(false) && !mon.tainted && (!readonly ==> inTx)
      requires openedTx ==> tx.IsImplicit() && inTx && !readonly
      modifies this
      ensures Linked() && old(log) < log && (ok ==> Coherent(false))
      ensures ok ==> RanIn(old(log), log, readonly) && tally.lost == old(tally.lost)
      ensures Untold(old(tally), tally)
      ensures ok && openedTx && !suspended ==> tx == Ended && Committed(old(log), log)
      ensures ok && openedTx && suspended ==> tx == old(tx).WithContext(true)
      ensures ok && !openedTx ==> tx == old(tx) || tx == old(tx).WithContext(true)
      ensures ok && suspended ==> log != [] && log[|log| - 1] == Suspended
      ensures SameOrNone(old(tx), tx)
    {
      suspended := false;
      ok := RunStatement(readonly);
      if !ok { return; }
      suspended := *;
      ghost var here := log;
      if suspended {
        ok := Send(Suspended);
      } else if openedTx {
        ok := CommitTx();
        CommittedWider(old(log), here, log, log);
      }
      RanWider(old(log), old(log), here, log, readonly);
    }

    /** What Execute does before its completion is reported. */
    method ExecuteCommand(cmd: Cmd) returns (ok: bool, suspended: bool)
      requires Coherent(false) && Accepts(cmd)
      modifies this
      ensures Linked() && old(log) <= log
      ensures ok ==> Coherent(false)
      ensures ok && cmd.verb.Begin? ==> tx == (if old(tx.Ended?) then Started(ExplicitTx, false, false) else old(tx))
      ensures ok && cmd.verb.Commit? ==> tx == Ended && Committed(old(log), log)
      ensures ok && cmd.verb.Rollback? ==> tx == Ended
      ensures ok && old(tx.Ended?) && !cmd.readonly && !cmd.verb.Begin? && !cmd.verb.Rollback? ==>
        if suspended then tx == Started(ImplicitTx, true, false) else tx == Ended && Committed(old(log), log)
      ensures ok && !cmd.verb.Begin? && !cmd.verb.Commit? && !cmd.verb.Rollback? ==>
        RanIn(old(log), log, cmd.readonly)
      ensures ok && suspended ==> log != [] && log[|log| - 1] == Suspended
      ensures suspended ==> !cmd.verb.Begin? && !cmd.verb.Commit? && !cmd.verb.Rollback?
      ensures old(tx.Started?) && old(Obeyed(cmd)) ==> Attempted(cmd, old(tally), tally)
      ensures ok && !cmd.verb.Rollback? ==> tally.lost == old(tally.lost)
      ensures tally.errors == old(tally.errors) && (!cmd.verb.Rollback? ==> tally.asked == old(tally.asked))
      ensures tally.done == old(tally.done)
      ensures tx.IsExplicit() ==> cmd.verb.Begin? || old(tx.IsExplicit())
      ensures !ok ==> old(log) != log
    {
      ok, suspended := true, false;
      var openedTx := false;
      if tx.Ended? {
        if !cmd.verb.Begin? && !cmd.readonly {
          ok := StartTx(ImplicitTx);
          if !ok { return; }
          openedTx := true;
        } else if cmd.verb.Begin? {
          ok := StartTx(ExplicitTx);
          if !ok { return; }
        }
      }
      ghost var here := log;
      if cmd.verb.Commit? || cmd.verb.Rollback? {
        ok := CloseTx(cmd);
      } else if !cmd.verb.Begin? {
        ok, suspended := ExecuteStatement(cmd.readonly, openedTx);
        RanWider(old(log), here, log, log, cmd.readonly);
      }
      CommittedWider(old(log), here, log, log);
    }

    /** The Execute message of the extended protocol. `suspended`: the row limit was reached, and the
        client told so. */
    method HandleExecute(cmd: Cmd) returns (ok: bool, suspended: bool)
      requires Coherent(false)
      modifies this
      ensures Linked() && old(log) <= log
      ensures ok ==> Coherent(false)
      ensures old(Refused(cmd)) ==> !ok && log == old(log) && tx == old(tx)
      ensures !old(Refused(cmd)) ==> old(log) < log
      ensures ok && cmd.verb.Begin? ==> tx == (if old(tx.Ended?) then Started(ExplicitTx, false, false) else old(tx))
      ensures ok && cmd.verb.Commit? ==> tx == Ended && Committed(old(log), log)
      ensures ok && cmd.verb.Rollback? ==> tx == Ended
      ensures ok && old(tx.Ended?) && !cmd.readonly && !cmd.verb.Begin? && !cmd.verb.Rollback? ==>
        if suspended then tx == Started(ImplicitTx, true, false) else tx == Ended && Committed(old(log), log)
      ensures ok && !cmd.verb.Begin? && !cmd.verb.Commit? && !cmd.verb.Rollback? ==>
        RanIn(old(log), log, cmd.readonly)
      ensures ok && suspended ==> log != [] && log[|log| - 1] == Suspended
      ensures suspended ==> !cmd.verb.Begin? && !cmd.verb.Commit? && !cmd.verb.Rollback?
      ensures old(tx.Started?) && old(Obeyed(cmd)) && (ok || tx != old(tx)) ==> Attempted(cmd, old(tally), tally)
      ensures ok && !cmd.verb.Rollback? ==> tally.lost == old(tally.lost)
      ensures tally.errors == old(tally.errors) && (!cmd.verb.Rollback? ==> tally.asked == old(tally.asked))
      ensures tally.done == old(tally.done) + if ok && !suspended then [cmd] else []
      ensures tx.IsExplicit() ==> cmd.verb.Begin? || old(tx.IsExplicit())
    {
      if !Accepts(cmd) { return false, false; }
      ok, suspended := *, false;  // whether the result columns can be typed
      if !ok {
        Emit(Hindered);
        return;
      }
      ok, suspended := ExecuteCommand(cmd);
      if !ok || suspended { return; }
      ghost var here := log;
      ok := Send(Completed(cmd));
      CommittedWider(old(log), old(log), here, log);
      RanWider(old(log), old(log), here, log, cmd.readonly);
    }

    // -------------------------------------------------------------- the message loop

    ghost predicate UnsentLast()
      reads `log
    {
      log != [] && log[|log| - 1] == Unsent
    }

    /** Report an error; `sent` is false when the client is gone. */
    method SendError() returns (sent: bool)
      requires Linked()
      modifies `log, `mon, `tally
      ensures Linked() && old(log) <= log
      ensures sent ==> Coherent(true) && log == old(log) + [Error] && tally == Count(old(tally), Error)
      ensures !sent ==> tally == old(tally) && log == old(log) + [Unsent]
    {
      sent := *;
      if sent { Emit(Error); } else { Emit(Unsent); }
    }

    /** Roll an implicit transaction back after an error, commit it otherwise. */
    method SettleImplicit(erred: bool) returns (ok: bool)
      requires Coherent(erred) && tx.IsImplicit()
      modifies this
      ensures Linked() && old(log) <= log && SameOrNone(old(tx), tx)
      ensures ok ==> tx == Ended
      ensures ok && !erred ==> Committed(old(log), log) && tally.lost == old(tally.lost)
      ensures Untold(old(tally), tally)
    {
      if erred { ok := RollbackTx(); } else { ok := CommitTx(); }
    }

    /** Settle an implicit transaction and send ReadyForQuery; `sent` is false when the session
        has to end instead. */
    method SendReady(erred: bool) returns (sent: bool)
      requires Coherent(erred)
      modifies this
      ensures Linked() && old(log) <= log
      ensures sent ==> Coherent(false) && !tx.IsImplicit() && log != []
      ensures sent ==> log[|log| - 1] == Ready(TxStatus(tx))
      ensures sent && !old(tx).IsImplicit() ==> tx == if erred then old(tx).FailExplicit() else old(tx)
      ensures sent && old(tx).IsImplicit() ==> tx == Ended
      ensures sent && old(tx).IsImplicit() && !erred ==> Committed(old(log), log[..|log| - 1])
      ensures sent && !erred ==> tally.lost == old(tally.lost)
      ensures !sent && !old(tx).IsImplicit() ==> UnsentLast()
      ensures Untold(old(tally), tally)
      ensures SameOrNone(old(tx), tx)
    {
      if erred { tx := tx.FailExplicit(); }
      if tx.IsImplicit() {
        sent := SettleImplicit(erred);
        if !sent { return; }
      }
      ghost var here := log;
      sent := Send(Ready(TxStatus(tx)));
      assert log[..|log| - 1] == here;
    }

    /** Parse, Describe, Bind and Close: no effect but possibly an error. Returns whether messages
        are now discarded, and whether the session ends. A described portal whose columns cannot be
        typed is answered with an error response after which messages are still served. */
    method HandleUnexecuted(describesPortal: bool) returns (discard: bool, exit: bool)
      requires Coherent(false)
      modifies `log, `mon, `tally
      ensures Linked() && old(log) <= log
      ensures !exit ==> Coherent(discard)
      ensures !exit && discard ==> log == old(log) + [Error]
      ensures !exit && !discard ==> log == old(log) || (describesPortal && log == old(log) + [Complaint])
      ensures tally.lost == old(tally.lost) && tally.asked == old(tally.asked)
    {
      discard, exit := *, *;
      var untyped: bool := *;
      if exit { return; }
      if discard {
        var sent := SendError();
        exit := !sent;
      } else if describesPortal && untyped {
        var sent := Send(Complaint);
        exit := !sent;
      }
    }

    method HandlePortal(portal: Portal) returns (discard: bool, exit: bool)
      requires Coherent(false)
      modifies this
      ensures Linked() && old(log) <= log
      ensures !exit ==> Coherent(discard)
      ensures portal.EmptyPortal? ==> !discard && log == old(log) && tx == old(tx)
      ensures !exit && portal.NoPortal? ==> discard && log == old(log) + [Error] && tx == old(tx)
      ensures !exit && discard ==> log != [] && log[|log| - 1] == Error
      ensures !exit ==> tally.errors == old(tally.errors) + if discard then 1 else 0
      ensures !exit && !discard && !AsksRollback(Execute(portal)) ==> tally.lost == old(tally.lost)
      ensures !AsksRollback(Execute(portal)) ==> tally.asked == old(tally.asked)
      ensures !exit && !discard && portal.Parsed? ==>
        tally.done == old(tally.done) + [portal.cmd] || (log != [] && log[|log| - 1] == Suspended)
      ensures tx.IsExplicit() ==> AsksBegin(Execute(portal)) || old(tx.IsExplicit())
    {
      if portal.EmptyPortal? { return false, *; }
      var ok := false;
      var suspended := false;
      if portal.Parsed? { ok, suspended := HandleExecute(portal.cmd); }
      if ok { return false, false; }
      var sent := SendError();
      return true, !sent;
    }

    /** Report an error of a simple Query and become ready again. */
    method FailQuery() returns (exit: bool)
      requires Linked()
      modifies this
      ensures Linked() && old(log) <= log
      ensures !exit ==> Coherent(false) && ReadyLast() && tally.errors == old(tally.errors) + 1
      ensures exit && !UnsentLast() ==> tally.errors == old(tally.errors) + 1
      ensures SameOrNone(old(tx), tx) && tally.asked == old(tally.asked)
    {
      var sent := SendError();
      if !sent { return true; }
      sent := SendReady(true);
      exit := !sent;
    }

    /** The last thing the client saw is ReadyForQuery with the status of the transaction state. */
    ghost predicate ReadyLast()
      reads `log, `tx
    {
      log != [] && log[|log| - 1] == Ready(TxStatus(tx)) && !tx.IsImplicit()
    }

    /** The commands of a simple Query in turn, up to the first that fails. */
    method RunAll(cmds: seq<Cmd>) returns (ok: bool)
      requires Coherent(false)
      modifies this
      ensures Linked() && old(log) <= log
      ensures ok ==> Coherent(false) && tally.done == old(tally.done) + cmds
      ensures tally.errors == old(tally.errors)
      ensures ok && !AsksRollback(Query(cmds, true)) ==> tally.lost == old(tally.lost)
      ensures !AsksRollback(Query(cmds, true)) ==> tally.asked == old(tally.asked)
      ensures tx.IsExplicit() ==> AsksBegin(Query(cmds, true)) || old(tx.IsExplicit())
      ensures cmds == [] ==> ok && tx == old(tx)
    {
      for i := 0 to |cmds|
        invariant Coherent(false) && old(log) <= log && tally.errors == old(tally.errors)
        invariant tally.done == old(tally.done) + cmds[..i] && (i == 0 ==> tx == old(tx))
        invariant tx.IsExplicit() ==> AsksBegin(Query(cmds, true)) || old(tx.IsExplicit())
        invariant !AsksRollback(Query(cmds, true)) ==> tally.lost == old(tally.lost) && tally.asked == old(tally.asked)
      {
        ok := HandleQuery(cmds[i]);
        if !ok { return; }
      }
      assert cmds[..|cmds|] == cmds;
      ok := true;
    }

    method HandleSimpleQuery(cmds: seq<Cmd>, parses: bool) returns (exit: bool)
      requires Coherent(false)
      modifies this
      ensures Linked() && old(log) <= log
      ensures !exit ==> Coherent(false) && ReadyLast()
      ensures !exit && !ErrorIn(old(log), log) ==> tally.done == old(tally.done) + cmds
      ensures !exit && !ErrorIn(old(log), log) && !AsksRollback(Query(cmds, parses)) ==>
        tally.lost == old(tally.lost) && (tx.Ended? ==> AllDurable(log, |old(log)|, |log|))
      ensures !AsksRollback(Query(cmds, parses)) ==> tally.asked == old(tally.asked)
      ensures tx.IsExplicit() ==> AsksBegin(Query(cmds, parses)) || old(tx.IsExplicit())
      ensures exit ==> UnsentLast() || ErrorIn(old(log), log) || (cmds == [] && old(tx.IsImplicit()))
    {
      var ok := parses;
      if ok { ok := RunAll(cmds); }
      if ok && cmds != [] && tx.IsImplicit() { ok := CommitTx(); }
      if !ok {
        exit := FailQuery();
      } else {
        var sent := SendReady(false);
        exit := !sent;
      }
      Settled(old(log), log);
    }

    /** One message of the loop. */
    method HandleMessage(msg: Message, discarding: bool) returns (discard: bool, exit: bool)
      requires Coherent(discarding)
      modifies this
      ensures Linked() && old(log) <= log
      ensures !exit ==> Coherent(discard)
      ensures discarding && !msg.Sync? && !msg.Flush? ==> !exit && discard && log == old(log) && tx == old(tx)
      ensures !exit && (msg.Sync? || (msg.Query? && !discarding)) ==> !discard && ReadyLast()
      ensures !exit && discarding && msg.Sync? ==> tx == old(tx).FailExplicit() || (old(tx).IsImplicit() && tx == Ended)
      ensures !exit && (msg.Flush? || msg.Unserved? || msg.Stray?) ==> discard == discarding && tx == old(tx)
      ensures !exit && !discarding && msg.Unserved? ==> log == old(log) + [Complaint]
      ensures msg.Terminate? && !discarding ==> exit
      ensures !exit && !discarding && !ErrorIn(old(log), log) && !AsksRollback(msg) ==>
        tally.lost == old(tally.lost) && (tx.Ended? ==> AllDurable(log, |old(log)|, |log|))
      ensures !AsksRollback(msg) ==> tally.asked == old(tally.asked)
      ensures !exit && !discarding && msg.Query? && !ErrorIn(old(log), log) ==>
        tally.done == old(tally.done) + msg.cmds
      ensures tx.IsExplicit() ==> AsksBegin(msg) || old(tx.IsExplicit())
    {
      discard, exit := discarding, false;
      if discarding && !msg.Sync? && !msg.Flush? { return; }
      match msg {
        case Parse => discard, exit := HandleUnexecuted(false);
        case Describe(ofPortal) => discard, exit := HandleUnexecuted(ofPortal);
        case Bind => discard, exit := HandleUnexecuted(false);
        case Close => discard, exit := HandleUnexecuted(false);
        case Execute(portal) => discard, exit := HandlePortal(portal);
        case Query(cmds, parses) => exit := HandleSimpleQuery(cmds, parses);
        case Sync =>
          var sent := SendReady(discarding);
          discard, exit := false, !sent;
        case Flush => exit := *;
        case Terminate => exit := true;
        case Unserved =>
          var sent := Send(Complaint);
          exit := !sent;
        case Stray =>
      }
      Settled(old(log), log);
    }
  }

  /** A whole connection: serve messages until the client stops or the session fails, drop the
      session, then drop the connection and what was parked with it. */
  method Serve(msgs: seq<Message>) returns (ghost log: seq<Event>)
    ensures Safe(log) && log != [] && ConnectionDropped in log
    ensures !Watch(log, |log|).held && !Watch(log, |log|).inTx && Watch(log, |log|).block.NoBlock?
    ensures forall b, i, k :: FailedWrite(log, b, i, k) ==> k !in EffectsOf(log, |log|).durable
    ensures forall k, n :: 0 <= k < n < |log| && log[k] == SqlRun(false, false) && log[n] == Ready(Idle) ==>
      KeptOrExcused(log, k, n)
    ensures (forall i :: 0 <= i < |msgs| ==> !AsksRollback(msgs[i])) ==> RollbackAsked !in log
  {
    var session := new Session();
    var discard, exit, i := false, false, 0;
    while i < |msgs| && !exit
      invariant session.Linked() && (!exit ==> session.Coherent(discard))
      invariant (forall j :: 0 <= j < |msgs| ==> !AsksRollback(msgs[j])) ==> session.tally.asked == 0
    {
      discard, exit := session.HandleMessage(msgs[i], discard);
      i := i + 1;
    }
    session.Drop();
    session.Emit(ConnectionDropped);
    ghost var dropped := |session.log| - 1;
    if session.parked { session.Emit(Release); }
    log := session.log;
    assert log[dropped] == ConnectionDropped;
    forall b, i, k | FailedWrite(log, b, i, k) ensures k !in EffectsOf(log, |log|).durable {
      ErrorUndoesBlock(log, b, i, k);
    }
    forall k, n | 0 <= k < n < |log| && log[k] == SqlRun(false, false) && log[n] == Ready(Idle)
      ensures KeptOrExcused(log, k, n)
    {
      IdleMeansDurable(log, k, n);
    }
    if forall j :: 0 <= j < |msgs| ==> !AsksRollback(msgs[j]) {
      forall k | 0 <= k < |log| ensures log[k] != RollbackAsked { TallyTells(log, 0, |log|, k); }
    }
  }
}
