# Galvanize: bookkeeping, sessions and scheduling, modelled and proved in Dafny

Galvanize replicates SQLite databases between nodes. This project models the parts of it where
state is easiest to get wrong and proves, for every input and every run, what those parts are for.
It needs Dafny 4.11; `dafny verify dfyconfig.toml` checks everything. Every function, method and lemma has
a body.

## What is modelled

**Version bookkeeping** (`RangeSets`, `Books`, `Tables`, `BookRuns`, `BookSystem`, `GapCollapse`,
`BookedVersionsModel`, `BookieDb`, `BookieOps`). For each remote actor a node keeps the versions it still needs, the greatest
version it has heard of and the sequence numbers received of incomplete versions, in memory and as rows
of two SQLite tables that are updated by small deltas. A book is a value with plain sets; the class
`BookedVersions` holds the sorted range sequences that the code works on, and each of its methods is
proved to compute the set-level step. The tables are sets of rows with their primary keys. The main
results: memory and rows agree over every run, no statement fails and every delete hits one row; the
needed versions are exactly those never booked; a book answers exactly from the per-version history.

**Publishing books** (`BookieLock`, `BookieSerial`). Writers take the bookie lock, clone, change, COMMIT and publish, in any
interleaving and failing at any point, also where a failing collapse gives the lock back before its
transaction is rolled back; a change is one of the bookkeeping operations or a collapse of gaps, with the
book and the rows the code computes. Every interleaving is as good as a serial run: a ledger that sees only
the actions says which changes were committed, and books and rows are those of these changes one after
another, so no update is lost and nothing else is committed; readers see only committed books. While no gaps are collapsed,
whenever the lock is free the published books agree with the committed rows; with collapses they agree
exactly under a condition on the history (below).

**PostgreSQL sessions** (`PgLog`, `PgSession`). The session is a class whose SQLite connection, network and
client are oracles: a statement may succeed, fail, or fail with an automatic rollback, and any send may
fail. A ghost log records what happened to the database, the write permit and the wire. A monitor that
knows nothing of the session's own state says which logs are acceptable, and every connection's log is: in
particular no write of a transaction block, explicit or implicit, in which an error was reported is durable,
and whenever the client is told that it is idle every other write it did not itself roll back is.
The message flow is that of section 53.2.3 of the PostgreSQL 14 documentation.

**Write scheduler** (`WriteScheduler`). Three bounded queues, a worker with biased selection and one guard,
a pool of one connection and a one-permit semaphore shared with sessions, as a state machine over every
interleaving of requests, timeouts, cancellations and drops. Besides safety: permit and connection are never
lost, and from every reachable state a waiting request can still get to write.

**Smaller pieces.** The line decoder of the subscription client (`LinesCodec`), identifiers (`PgIdent`) and
array text (`PgArrayText`) printed and parsed, the expression rewrite from PostgreSQL to SQLite (`PgExpr`)
with the meaning of types, casts and operators in both dialects (`PgTypes`, `PgCasts`, `PgExprValues`,
`Decimals`), the sticky pooled client and its address picker (`PooledClient`, `AddrPicking`), and the version
range iterators (`VersionIterators`).

## Where a promise does not hold, and exactly when it does

- `collapse_gaps` makes a version needed again when it is booked but its buffered rows are not yet deleted,
  as between crates/corro-agent/src/agent/util.rs:1004 and the later clearing of the buffer. If that version
  is the greatest, a later arrival splits one maximal range over two adjacent rows, and an arrival inside
  that range can then make the write fail on the primary key: `GapCollapse.CollapseThenViolation` gives such a run
  (collapse, arrival of 8, arrival of 6). Booking never mends split rows, only another collapse does: a
  published book agrees with the committed rows exactly if no arrival has stranded one of its ranges since
  its last collapse (`BookieLock.AgreementExactly`), which is so when every collapse left the greatest version
  known (`BookieLock.AgreementIfCareful`). `GapCollapse.StepFailsExactly` says which writes fail, from any rows
  with unique keys, and `GapCollapse.SplitRangeFails` that rewriting a split range fails unless its first version is booked.
- Rows and memory agree after a step exactly when no range is stranded this way and merged parts carry the
  stamps already recorded (`Tables.StepAgrees`); on runs without collapsing nothing is ever stranded.
- Loading a book gives back its partial versions exactly when none of them is empty of sequence numbers
  (`BookSystem.ReloadGivesBook`), which over runs is when no version was left with an empty part
  (`BookSystem.ReloadAfterRun`).
- `insert_partial` used alone keeps the gap invariant exactly when it skips no version above the greatest
  one and touches no needed version (`Books.MergeAloneIff`).
- The chunked iterator ends exactly when the range is empty, or its end is below the greatest u64 and the
  chunk size is not 0 (`VersionIterators.EndsExactly`).
- Array text comes back exactly for lists none of whose elements trims to NULL in any letter case
  (`PgArrayText.ArrayRoundTrip`, `PgArrayText.NullTextIsLost`).
- A rewritten subscript agrees exactly for NULL operands and indexes of at least 1: `arr[0]` is NULL in
  PostgreSQL and a path error after the rewrite (`PgExprValues.SubscriptExact`).
- A rewritten cast is decided by the affinity of the type's name, and keeps the value exactly on the operands
  listed in `PgCasts.CastOk`: `'true'::bool` becomes 0 (`PgCasts.TrueBecomesZero`), a text cast to an integer
  must be a numeral in range, a text cast to char(n) must have n characters, and nothing but NULL survives as
  a timestamp, an interval, a JSON value or a UUID (`PgCasts.CastExact`).
- The names that float4, interval and uuid pass through with are refused by the server
  (`PgTypes.MappedTypesRecognised`).
- `||`, `POSITION` and `LIKE` agree exactly under `PgExprValues.ConcatExact`, `PositionExact` and `LikeExact`;
  SQLite's LIKE ignores the case of ASCII letters (`PgExprValues.LikeCaseDiffers`).

## What the model takes as given

- Versions and sequence numbers are unbounded in the books; the iterators use u64 with saturation.
- Each version has one `last_seq` and one `ts` (`Stamped`), as its source produced it.
- SQLite executes one write transaction at a time, a failed statement may roll back on its own, and dropping
  a connection rolls back what it left open.
- `insert_local_changes` is a set of writes inside the transaction that leaves the book unchanged when it
  reports no change.
- Clocks, DNS answers, keyword lists and the parsing of dates, JSON and UUIDs are parameters. Functions, the
  operators both dialects have, and casts of other operands or to other type names are parameters of each
  dialect; `Sound` asks node by node that they agree.
- Type names are those the SQL printer writes, with a precision before the time zone.

## Model

| member | source | states |
|---|---|---|
| RangeSets.Insert | crates/corro-types/src/bookie.rs:326-337 | inserting into sorted, disjoint, non-adjacent ranges is set union and keeps that form |
| RangeSets.Remove | crates/corro-types/src/bookie.rs:389-403 | removing a range is set difference and keeps that form |
| RangeSets.Overlapping | crates/corro-types/src/bookie.rs:496-499 | exactly the stored ranges that share a value with the given one |
| RangeSets.Get | crates/corro-types/src/bookie.rs:501-514 | the stored range holding a value, none exactly when no range holds it |
| RangeSets.Gaps | crates/corro-types/src/agent.rs:1048-1055 | the maximal parts of a range that are not stored |
| RangeSets.CanonicalUnique | crates/corro-types/src/bookie.rs:27-33 | two range sequences with the same elements are the same sequence |
| RangeSets.CanonicalRuns | crates/corro-types/src/bookie.rs:27-33 | the stored ranges are exactly the maximal runs of the set |
| RangeSets.RunsDelta | crates/corro-types/src/bookie.rs:304-346 | replacing whole runs by new members changes the maximal runs by exactly that delta if and only if no staying run touches a new member |
| Books.GapsNeeded | crates/corro-types/src/bookie.rs:304-346 | after booking V the needed set is the old one plus the newly opened gap minus V |
| Books.GapStep | crates/corro-types/src/bookie.rs:389-403 | booking V keeps: the maximum is the greatest booked version and needed is 1 up to it without the booked ones |
| Books.GapDelta | crates/corro-types/src/bookie.rs:304-346 | the computed delta rewrites the maximal ranges exactly if and only if no range is stranded |
| Books.BelowMaxNotStranded | crates/corro-types/src/bookie.rs:304-346 | under the gap invariant nothing is stranded |
| Books.SeqDelta | crates/corro-types/src/bookie.rs:350-375 | merging sequence ranges removes and inserts exactly the maximal ranges that change |
| Books.BatchPartialsBooked | crates/corro-types/src/bookie.rs:450-487 | complete and partial versions of a batch are all booked as versions |
| Books.BatchGapStep | crates/corro-types/src/bookie.rs:450-487 | a whole batch keeps the gap invariant with its versions added |
| Books.MergeAloneIff | crates/corro-types/src/bookie.rs:254-278 | insert_partial alone keeps the gap invariant if and only if it skips no version and touches no needed one |
| Books.MergeUnique | crates/corro-types/src/bookie.rs:423-448 | the merged partial versions are determined version by version |
| Tables.StepAgrees | crates/corro-types/src/bookie.rs:744-929 | from agreeing rows the delta violates no key, every delete hits one row, other actors are untouched, and the rows agree with the new book if and only if nothing is stranded and stamps match |
| BookRuns.RunGapInv | crates/corro-types/src/bookie.rs:304-346 | after every run from empty the maximum and the needed versions are exactly those of the set of booked versions |
| BookRuns.ArrivalOrderIrrelevant | crates/corro-types/src/bookie.rs:304-346 | two runs that book the same versions in any order and batching need the same versions |
| BookRuns.KnownIffBooked | crates/corro-types/src/bookie.rs:211-220 | contains_version holds exactly of 0 and the versions ever booked |
| BookRuns.KnownStaysKnown | crates/corro-types/src/bookie.rs:211-220 | a version once known stays known in every longer run |
| BookRuns.StepShown | crates/corro-types/src/bookie.rs:406-487 | one operation moves the history a book stands for exactly as it moves the history of that version |
| BookRuns.BookRefinesHistory | crates/corro-types/src/bookie.rs:406-487 | after every run the book stands for the Unknown / Received / Complete history of every version, and partial versions are at most the maximum and not needed |
| BookRuns.PartialIsReceived | crates/corro-types/src/bookie.rs:406-487 | after every run a version is partial exactly if its history is Received, with the sequence numbers received |
| BookRuns.ContainsFromHistory | crates/corro-types/src/bookie.rs:226-247 | contains answers exactly from that history |
| BookSystem.MemoryAndTablesAgree | crates/corro-types/src/bookie.rs:450-487 | over every run of any mix of actors no statement fails, every delete hits one row and each actor's rows are the maximal ranges of its book |
| BookSystem.ReloadGivesBook | crates/corro-types/src/bookie.rs:56-121 | loading gives back needed always, and the partial versions if and only if none is empty |
| BookSystem.ReloadAfterRun | crates/corro-types/src/bookie.rs:56-121 | after every run of any mix of actors, loading an actor gives back needed always, and its partial versions if and only if no version was left with an empty part |
| BookSystem.ReloadIsLossless | crates/corro-types/src/bookie.rs:56-121 | after every run whose parts are all non-empty, loading gives back needed and partial versions of every actor |
| BookSystem.BatchedWriteIsSound | crates/corro-types/src/bookie.rs:744-929 | one write for distinct actors has the same outcome as their writes one after another, failures included |
| BookSystem.ExecUnion | crates/corro-types/src/bookie.rs:813-929 | the rows of disjoint actors can be executed together or in sequence |
| GapCollapse.CollapseRepairs | crates/corro-admin/src/lib.rs:982-1041 | whatever the rows were, collapsing leaves exactly the maximal ranges of the book, unique keys and other actors untouched |
| GapCollapse.CollapseNeeds | crates/corro-admin/src/lib.rs:992-1023 | a version is needed after collapsing exactly if it was, an old row of the actor covers it, or it is one of the lone buffered versions; nothing else of the book changes |
| GapCollapse.GapsKeptExactly | crates/corro-types/src/bookie.rs:304-346 | from agreeing or spoiled rows, rows agree after booking if and only if they agreed before and nothing is stranded |
| GapCollapse.SpoiledStays | crates/corro-types/src/bookie.rs:304-346 | booking never mends spoiled rows |
| GapCollapse.StepTracked | crates/corro-types/src/bookie.rs:813-929 | a successful write of a step from agreeing or spoiled rows: agreement if and only if the rows agreed and nothing is stranded |
| GapCollapse.StepFailsExactly | crates/corro-types/src/bookie.rs:838-925 | from any rows with unique keys a write fails if and only if a gap or sequence row that stays starts where a range to be inserted starts; no sequence row does while sequence rows agree |
| GapCollapse.StrandedTiles | crates/corro-types/src/bookie.rs:304-346 | after any booking from agreeing rows the rows still cover exactly the needed versions |
| GapCollapse.SplitRangeFails | crates/corro-types/src/bookie.rs:813-859 | rewriting a range that is split over rows never deletes it, and fails unless its first version is booked |
| GapCollapse.CollapseThenViolation | crates/corro-admin/src/lib.rs:1020-1033 | a run of booking, collapse and two arrivals whose last write violates the primary key |
| GapCollapse.StepKeepsTopKnown | crates/corro-types/src/bookie.rs:304-346 | booking keeps the greatest version known |
| GapCollapse.TopKnownNotStranded | crates/corro-types/src/bookie.rs:304-346 | while the greatest version is known no arrival strands a range |
| BookedVersionsModel.ComputeOverlappingRanges | crates/corro-types/src/bookie.rs:490-517 | exactly the stored ranges that overlap the given one or are adjacent to it |
| BookedVersionsModel.BookedVersions.constructor | crates/corro-types/src/bookie.rs:35-42 | a new book stands for the empty book |
| BookedVersionsModel.BookedVersions.Contains | crates/corro-types/src/bookie.rs:226-239 | the loop over sequence numbers decides containment in the abstract book |
| BookedVersionsModel.BookedVersions.ContainsAll | crates/corro-types/src/bookie.rs:241-247 | true exactly when every version of the range is contained |
| BookedVersionsModel.BookedVersions.NoteArrival | crates/corro-types/src/bookie.rs:312-338 | one arriving range collects exactly the ranges it rewrites and the gap it opens below itself |
| BookedVersionsModel.BookedVersions.CollectArrivals | crates/corro-types/src/bookie.rs:304-340 | the loop over all arriving ranges collects them all |
| BookedVersionsModel.BookedVersions.ComputeGapsChange | crates/corro-types/src/bookie.rs:304-346 | removed ranges, inserted versions and maximum are those of the set-level gap step |
| BookedVersionsModel.BookedVersions.ComputeAndApplyGaps | crates/corro-types/src/bookie.rs:389-403 | the book becomes the gap step of the old book, and the returned change is its delta |
| BookedVersionsModel.BookedVersions.ComputeAndApplyClearPartials | crates/corro-types/src/bookie.rs:406-421 | exactly the given versions that were partial are dropped and listed, ascending |
| BookedVersionsModel.BookedVersions.ComputePartialsChange | crates/corro-types/src/bookie.rs:350-375 | removed and inserted sequence ranges are those of the set-level merge |
| BookedVersionsModel.BookedVersions.InsertPartial | crates/corro-types/src/bookie.rs:254-278 | the version's parts are united, stamps of the first part kept, and the maximum is raised only for a new entry |
| BookedVersionsModel.BookedVersions.ComputeAndApplyPartials | crates/corro-types/src/bookie.rs:423-448 | the book becomes the merge of the old book; row changes and completed versions are exactly those of it |
| BookedVersionsModel.BookedVersions.ComputeAndApply | crates/corro-types/src/bookie.rs:450-487 | the book becomes the batch step; the returned changes are its delta; completed lists exactly the batch's partial versions whose merged parts cover 0..=last_seq |
| BookieDb.FromChanges | crates/corro-types/src/bookie.rs:744-811 | the collected vectors hold exactly the rows of all actors' deltas, none twice |
| BookieDb.ParamsOf | crates/corro-types/src/bookie.rs:757-808 | the vectors of one actor hold exactly the rows of its delta |
| BookieDb.Conn.InsertGaps | crates/corro-types/src/bookie.rs:838-859 | succeeds exactly when no primary key clashes, and changes nothing otherwise |
| BookieDb.Conn.InsertSeqs | crates/corro-types/src/bookie.rs:896-925 | succeeds exactly when no primary key clashes, and changes nothing otherwise |
| BookieDb.Conn.ExecuteGaps | crates/corro-types/src/bookie.rs:814-859 | the row counts tell exactly whether every delete hit a row |
| BookieDb.Conn.ExecuteSeqs | crates/corro-types/src/bookie.rs:861-925 | version deletes, then row deletes, then inserts; the counts tell whether every delete hit one row |
| BookieDb.Conn.Execute | crates/corro-types/src/bookie.rs:813-929 | the statements together have the outcome of the set-level write, also where a key clashes |
| BookieOps.Write | crates/corro-types/src/bookie.rs:281-302 | one actor's changes written to agreeing rows: no failure, every delete effective, agreement if and only if nothing stranded and stamps match |
| BookieOps.InsertDb | crates/corro-types/src/bookie.rs:294-302 | book and rows make the same gap step |
| BookieOps.ClearPartials | crates/corro-types/src/bookie.rs:283-292 | book and rows drop the same partial versions |
| BookieOps.InsertPartialsDb | crates/corro-types/src/bookie.rs:377-386 | book and rows merge the same parts; completed lists exactly the versions they complete |
| BookieOps.BookBatchDb | crates/corro-types/src/bookie.rs:450-487 | book and rows make the same batch step |
| BookieOps.FromConn | crates/corro-types/src/bookie.rs:56-121 | the loaded book holds exactly what the actor's rows cover, and its maximum is the greater of the database's and the greatest partial version |
| BookieOps.LoadPartials | crates/corro-types/src/bookie.rs:67-92 | the loop over sequence rows rebuilds each partial version from all its rows |
| BookieOps.LoadNeeded | crates/corro-types/src/bookie.rs:94-118 | the loop over gap rows rebuilds the needed versions |
| BookieOps.CollapseGaps | crates/corro-admin/src/lib.rs:982-1041 | from any rows: a version is needed afterwards exactly if it was, an old gap row of the actor covers it, or it is buffered without a sequence row; the rows are the maximal ranges of that, and the counts of deleted and inserted rows are returned |
| BookieLock.StepKeepsInv | crates/corro-types/src/bookie.rs:603-680 | every enabled step of any writer, with the changes the code makes and the lock given back before or after the transaction ends, keeps the protocol invariant |
| BookieLock.ReachableInv | crates/corro-types/src/bookie.rs:603-680 | the invariant holds in every reachable state |
| BookieLock.NoLostUpdates | crates/corro-admin/src/lib.rs:988-1038 | in every interleaving every committed update has the book and rows the code computes and started from those the updates before it left, the committed rows are those of the last, and with the lock free each published book is the newest |
| BookieLock.ReadersSeeCommitted | crates/corro-types/src/bookie.rs:646-668 | a reader sees the newest book of a prefix of the committed history |
| BookieLock.StepKeepsTally | crates/corro-pg/src/lib.rs:4587-4622 | every step keeps: rows of committed and open tables agree with their newest books if and only if those are settled |
| BookieLock.AgreementExactly | crates/corro-admin/src/lib.rs:988-1038 | in every interleaving of bookings and collapses, with the lock free a published book agrees with the committed rows if and only if nothing was stranded since its last collapse |
| BookieLock.AgreementIfCareful | crates/corro-admin/src/lib.rs:1020-1038 | if every collapse left the greatest version known, they agree |
| BookieLock.SettledWritesSucceed | crates/corro-types/src/bookie.rs:813-929 | while rows and book agree no write fails and every delete hits |
| BookieSerial.ChainIsSerial | crates/corro-types/src/bookie.rs:603-680 | a chain of genuine updates has the books and the rows of its changes one after another |
| BookieSerial.StepRecorded | crates/corro-admin/src/lib.rs:988-1038 | every step keeps: history and open transaction are those of the ledger of actions |
| BookieSerial.Serializable | crates/corro-pg/src/lib.rs:4587-4622 | in every interleaving the committed changes are those the ledger of actions lists, the committed rows are those of a serial run of them, and with the lock free every reader sees the serial book |
| BookieSerial.HolderProceeds | crates/corro-types/src/bookie.rs:603-680 | from every state within the invariant the holder of the lock can go on to give it back, by rolling back or by publishing what is committed |
| BookieSerial.ChangeGoesThrough | crates/corro-admin/src/lib.rs:988-1038 | from every quiet state a change whose write fits can be made, after which its rows are committed and readers see its book |
| BookieSerial.BookingsAgree | crates/corro-types/src/bookie.rs:603-680 | in every interleaving of the bookkeeping operations, with the lock free a published book is that of the operations the ledger lists, needs exactly what they never booked, and agrees with the committed rows |
| PgLog.TaintStays | crates/corro-pg/src/lib.rs:4563-4573 | in a safe log a failed block, explicit or implicit, stays failed until it ends |
| PgLog.TaintedNeverCommits | crates/corro-pg/src/lib.rs:4563-4573 | in a failed block no statement and no COMMIT runs, and only ROLLBACK or the end of the connection ends it |
| PgLog.PendingInTx | crates/corro-pg/src/lib.rs:4066-4074 | undecided writes exist only inside a SQLite transaction |
| PgLog.ErrorUndoesBlock | crates/corro-pg/src/lib.rs:4532-4573 | no write of a block, explicit or implicit, in which an error was reported or a COMMIT failed ever becomes durable |
| PgLog.FateHolds | crates/corro-pg/src/lib.rs:4532-4573 | a write of a block is durable, undecided, or its block met an error, was rolled back by the client or left |
| PgLog.IdleMeansDurable | crates/corro-pg/src/lib.rs:4649-4689 | at every ReadyForQuery with status idle each write before it is durable, except in blocks that met an error, that the client rolled back or that it left |
| PgLog.NothingLost | crates/corro-pg/src/lib.rs:4549-4561 | where nothing was undone every write is durable or can still become so |
| PgSession.Session.constructor | crates/corro-pg/src/lib.rs:2780-2785 | a new session is coherent with an empty log |
| PgSession.Session.SqlRun | crates/corro-pg/src/lib.rs:4076-4080 | one statement: success leaves the transaction as it is, failure may end it |
| PgSession.Session.SqlCommit | crates/corro-pg/src/lib.rs:4575-4585 | COMMIT succeeds only inside a transaction and then ends it; failure may end it too |
| PgSession.Session.SqlRollback | crates/corro-pg/src/lib.rs:4549-4555 | ROLLBACK ends the transaction when it succeeds and may when it fails |
| PgSession.Session.HandleCommit | crates/corro-pg/src/lib.rs:4587-4622 | with the write context held, records local changes and commits; success only through a successful COMMIT after the changes were recorded, and nothing is lost then |
| PgSession.Session.CommitTx | crates/corro-pg/src/lib.rs:4532-4547 | success or an automatic rollback ends the transaction and releases the context; any other failure keeps both and fails an explicit transaction |
| PgSession.Session.RollbackTx | crates/corro-pg/src/lib.rs:4549-4561 | the transaction state ends and the context is released exactly when SQLite is out of the transaction |
| PgSession.Session.Drop | crates/corro-pg/src/lib.rs:4636-4647 | rolls back; only if SQLite stays inside the transaction is a write context parked until the connection is gone |
| PgSession.Session.RunStatement | crates/corro-pg/src/lib.rs:4187-4197 | a statement that writes takes the write context once a transaction and sets the clock; the log of a success is exactly that |
| PgSession.Session.StartTx | crates/corro-pg/src/lib.rs:4016-4020 | the state starts exactly when BEGIN IMMEDIATE succeeds |
| PgSession.Session.HandleQuery | crates/corro-pg/src/lib.rs:3982-4135 | refused exactly: in a failed block all but ROLLBACK, and BEGIN in a block; COMMIT and ROLLBACK are obeyed; BEGIN commits an implicit block first; a success is reported as complete and loses no write |
| PgSession.Session.HandleExecute | crates/corro-pg/src/lib.rs:4138-4530 | the same for Execute, where a lone writing statement is committed at once, or left implicit exactly if the client was told that the portal is suspended |
| PgSession.Session.SendError | crates/corro-pg/src/lib.rs:3613-3622 | exactly one error is reported, after which the transaction counts as failed |
| PgSession.Session.SendReady | crates/corro-pg/src/lib.rs:4649-4689 | no implicit transaction is left, committed or rolled back as the error flag says, and the status sent is that of the transaction state; it fails only if a send or the settling fails |
| PgSession.Session.HandleUnexecuted | crates/corro-pg/src/lib.rs:2825-3549 | Parse, Describe, Bind and Close change nothing but may report an error and start discarding; only an untyped portal is answered with an error response that fails nothing |
| PgSession.Session.HandlePortal | crates/corro-pg/src/lib.rs:3556-3624 | a missing portal is answered with an error and nothing else; a failing Execute reports an error and starts discarding |
| PgSession.Session.FailQuery | crates/corro-pg/src/lib.rs:3670-3687 | an error in a simple Query is followed by ReadyForQuery with the right status |
| PgSession.Session.HandleSimpleQuery | crates/corro-pg/src/lib.rs:3625-3715 | ends with ReadyForQuery and no implicit transaction, or with the session; without an error all commands completed in order, and unless one was ROLLBACK every write is durable once no transaction is open; only BEGIN leaves an explicit one |
| PgSession.Session.HandleMessage | crates/corro-pg/src/lib.rs:2793-3887 | while discarding nothing but Sync and Flush has any effect; Sync and Query end ready; without an error or a ROLLBACK every write of the message is durable once no transaction is open; every message keeps the session coherent |
| PgSession.Serve | crates/corro-pg/src/lib.rs:2793-3887 | for every message sequence and every oracle the connection's log is safe, the permit is given back, no write of a failed block is durable, and at every idle ReadyForQuery every other write is, unless the client rolled it back; without a ROLLBACK command none is asked for |
| WriteScheduler.StepKeepsInv | crates/corro-types/src/agent.rs:780-796 | every step keeps one guard, one connection, the permit free or with exactly one holder, and the queues in order |
| WriteScheduler.RunKeepsInv | crates/corro-types/src/agent.rs:780-796 | so does every run |
| WriteScheduler.SchedulerSafe | crates/corro-types/src/agent.rs:925-963 | in every run at most one guard is out, a write connection excludes every other permit or connection holder including sessions, queues are FIFO and bounded |
| WriteScheduler.FifoStep | crates/corro-types/src/agent.rs:780-796 | what was served followed by what waits is what arrived |
| WriteScheduler.ConnFreeForGuarded | crates/corro-types/src/agent.rs:945-945 | the holder of the guard never waits for the pooled connection |
| WriteScheduler.NeverStuck | crates/corro-types/src/agent.rs:972-1006 | while requests wait the worker can select or wake, or the guard can be dropped |
| WriteScheduler.PermitConserved | crates/corro-types/src/agent.rs:945-1020 | in every run permits, requests with the permit and sessions with it add up to one |
| WriteScheduler.ConnConserved | crates/corro-types/src/agent.rs:945-1020 | in every run connections in the pool and with requests add up to one |
| WriteScheduler.PermitFreeUnlessHeld | crates/corro-types/src/agent.rs:948-955 | a request with the connection can take the permit exactly if nobody holds it |
| WriteScheduler.SessionWaitsOnlyForHolder | crates/corro-pg/src/lib.rs:4066-4069 | a session can take the permit exactly if nobody holds it |
| WriteScheduler.CanAlwaysLeave | crates/corro-types/src/agent.rs:1017-1021 | a request can be cancelled or dropped at every stage and is gone after at most three steps of its own |
| WriteScheduler.NoDeadEnd | crates/corro-types/src/agent.rs:780-796 | from every reachable state a request that waits for room or in a queue can still get guard, connection and permit |
| WriteScheduler.SelectTakesFirst | crates/corro-types/src/agent.rs:782-788 | the biased selection takes the first of all waiting requests in priority order |
| WriteScheduler.AbandonedDoNotBlock | crates/corro-types/src/agent.rs:972-978 | each abandoned request costs one selection and the first live one gets the guard |
| WriteScheduler.NotOvertaken | crates/corro-types/src/agent.rs:782-788 | while a request waits nothing of lower priority is served |
| LinesCodec.SplitOfLines | crates/corro-client/src/sub.rs:489-507 | the one-pass splitter gives one item a line, one error for each line over the limit, and one for an unterminated tail over it |
| LinesCodec.LinesComeOut | crates/corro-client/src/sub.rs:531-609 | every line comes out once and in order, as its bytes without one carriage return at the end or as an error over the limit |
| LinesCodec.CrLfLine | crates/corro-client/src/sub.rs:605-609 | a line ended by CR LF within the limit comes out without both |
| LinesCodec.PlainLine | crates/corro-client/src/sub.rs:566-570 | a line within the limit that does not end in CR comes out unchanged |
| LinesCodec.LinesBytesCodec.constructor | crates/corro-client/src/sub.rs:518-524 | a new decoder has searched nothing and discards nothing |
| LinesCodec.LinesBytesCodec.Round | crates/corro-client/src/sub.rs:532-582 | one round of the loop answers, or discards at least one byte |
| LinesCodec.LinesBytesCodec.Decode | crates/corro-client/src/sub.rs:531-584 | whatever follows in the stream, the answer and what the new state owes are what the old state owed; the loop ends |
| LinesCodec.DecodeChunks | crates/corro-client/src/sub.rs:531-609 | for every cutting of every stream into chunks and every limit the items are those of the one-pass splitter |
| PgIdent.IdentRoundTrip | crates/corro-pg/src/lib.rs:2643-2658 | parsing the dot-joined quoted forms gives back every list of strings, whatever counts as a keyword |
| PgIdent.BareExactly | crates/corro-pg/src/lib.rs:2643-2658 | exactly the ASCII words that start with no digit and are no keyword are printed bare; anything else is put between quotes |
| PgIdent.SpacedRoundTrip | crates/corro-pg/src/lib.rs:767-819 | white space before and after the parts does not matter |
| PgIdent.ReadsPart | crates/corro-pg/src/lib.rs:2647-2657 | a quoted or plain part is read back up to the next separator |
| PgIdent.PartAdvances | crates/corro-pg/src/lib.rs:767-818 | every part consumes at least one character |
| PgIdent.Parse | crates/corro-pg/src/lib.rs:767-819 | the parser ends on every input with at most one part a character, and computes the recursive reading |
| PgArrayText.ExtractArrayElements | crates/corro-pg/src/codec.rs:94-151 | the loop over characters computes the scan, refusing unquoted braces |
| PgArrayText.ArrayRoundTrip | crates/corro-pg/src/codec.rs:56-151 | quoted, escaped and joined elements come back if and only if none of them trims to NULL |
| PgArrayText.PlainRoundTrip | crates/corro-pg/src/codec.rs:94-151 | elements without special characters that do not read as NULL come back without quotes too |
| PgArrayText.ReadsAsNullExactly | crates/corro-pg/src/codec.rs:126-128 | exactly the word NULL in any letter case with white space around it reads as NULL |
| PgArrayText.RefusedExactly | crates/corro-pg/src/codec.rs:119-124 | exactly the texts with a brace that is neither quoted nor escaped are refused |
| PgArrayText.ArrayRefusedExactly | crates/corro-pg/src/codec.rs:62-79 | the whole text is refused exactly if it is not empty and not enclosed in braces, or holds such a brace inside |
| PgArrayText.NullTextIsLost | crates/corro-pg/src/codec.rs:126-131 | a list with the text null does not come back |
| PgArrayText.AtMostOneEach | crates/corro-pg/src/codec.rs:126-143 | quoted elements are never refused and give at most one element each, fewer after a NULL |
| PgExpr.StripIdempotent | crates/corro-pg/src/lib.rs:1089-1328 | rewriting a rewritten expression changes nothing, for every expression |
| PgExpr.StripCleans | crates/corro-pg/src/lib.rs:1089-1328 | at no depth the rewrite reaches is anything left that is PostgreSQL's alone: no double colon, mapped type name, qualified function, user, POSITION or single subscript |
| PgExpr.UserBecomesLiteral | crates/corro-pg/src/lib.rs:1106-1127 | a call becomes the literal user name exactly if it is the unquoted word user without arguments |
| PgExprValues.StripPreservesValue | crates/corro-pg/src/lib.rs:1089-1328 | the rewritten expression has in SQLite the value of the original in PostgreSQL, when every cast, operator, function, search and subscript on the way has operands on which the dialects agree |
| PgExprValues.CastPreserved | crates/corro-pg/src/lib.rs:1096-1105 | over an operand that keeps its value a cast keeps it if and only if the operand is listed for the type, or for a cast not spelled out the dialects agree on it |
| PgExprValues.ConcatExact | crates/corro-pg/src/lib.rs:1286-1305 | on scalars, concatenation agrees if and only if an operand is NULL, or there is text and no truth value |
| PgExprValues.LikeExact | crates/corro-pg/src/lib.rs:1153-1156 | without escapes LIKE agrees if and only if folding case makes no new match |
| PgExprValues.LikeCaseDiffers | crates/corro-pg/src/lib.rs:1153-1156 | a match in SQLite that is none in PostgreSQL |
| PgExprValues.PositionExact | crates/corro-pg/src/lib.rs:1223-1234 | on scalars, POSITION and INSTR with swapped operands agree if and only if an operand is NULL or both are text |
| PgExprValues.OperatorKept | crates/corro-pg/src/lib.rs:1128-1222 | on operands where the dialects agree an operator gives the same; operators SQLite lacks give errors |
| PgExprValues.SubscriptExact | crates/corro-pg/src/lib.rs:1275-1311 | 1-based subscript and 0-based path agree if and only if an operand is NULL or the index is at least 1 |
| PgExprValues.SubscriptZeroDiffers | crates/corro-pg/src/lib.rs:1275-1311 | index 0 gives NULL before and an error after the rewrite |
| PgExprValues.PathIndexOf | crates/corro-pg/src/lib.rs:1286-1305 | the path text printed for a number is read back as that index, and refused for a negative one |
| PgExprValues.EvalExtract | crates/corro-pg/src/lib.rs:1237-1268 | the generated json_extract call evaluates to the element at the printed path |
| PgCasts.CastExact | crates/corro-pg/src/lib.rs:1035-1059 | for every listed type, those that pass through included, and every NULL, integer, text and truth operand, the cast by affinity of the mapped name equals PostgreSQL's if and only if `CastOk` |
| PgCasts.WholeExact | crates/corro-pg/src/lib.rs:1038-1041 | integers: in range; text: a signed numeral in range; truth values: only to the 32-bit type |
| PgCasts.IntegerThroughText | crates/corro-pg/src/lib.rs:1038-1053 | an integer in range cast to text and back is itself in both dialects |
| PgCasts.FloatExact | crates/corro-pg/src/lib.rs:1042-1045 | integers, and text that is a decimal numeral |
| PgCasts.TruthExact | crates/corro-pg/src/lib.rs:1046-1047 | 0 and 1, spellings of false, and the text 1 |
| PgCasts.BytesExact | crates/corro-pg/src/lib.rs:1048-1049 | text without backslashes |
| PgCasts.VarcharExact | crates/corro-pg/src/lib.rs:1050-1053 | integers and text no longer than declared |
| PgCasts.CharExact | crates/corro-pg/src/lib.rs:1056-1058 | integers and text of exactly the declared length |
| PgCasts.ParsedExact | crates/corro-pg/src/lib.rs:1054-1058 | timestamps, dates, times, intervals, JSON and UUIDs: nothing but NULL |
| PgCasts.TrueBecomesZero | crates/corro-pg/src/lib.rs:1046-1047 | the text true is true before and 0 after the rewrite |
| PgTypes.MappedTypesRecognised | crates/corro-pg/src/lib.rs:1035-1059 | every listed type but float4, interval and uuid is mapped to a name the server reads as its wire type; which ones would be refused without the mapping |
| PgTypes.NumericReadAsBool | crates/corro-pg/src/lib.rs:4855-4876 | a name that passes through: NUMERIC is read as a truth value |
| Decimals.NumberOfDecimal | crates/corro-pg/src/lib.rs:1286-1305 | a printed number is read back |
| Decimals.WholeOfSigned | crates/corro-pg/src/lib.rs:1038-1041 | a printed integer is a whole number and nothing else, with its value |
| Decimals.NumeralOfParts | crates/corro-pg/src/lib.rs:1042-1045 | digits, a point, digits and an exponent are read as what they are |
| Text.TrimExactly | crates/corro-pg/src/lib.rs:1038-1047 | what both dialects trim from text before they read a number or a truth value is exactly the spaces at both ends |
| AddrPicking.Sort | crates/corro-client/src/lib.rs:649-650 | the same addresses in ascending order |
| AddrPicking.AddrPicker.constructor | crates/corro-client/src/lib.rs:607-616 | a new picker starts at the first host |
| AddrPicking.AddrPicker.Next | crates/corro-client/src/lib.rs:618-669 | the fields move as the value-level pick says, on every error path too |
| AddrPicking.AddrPicker.Restart | crates/corro-client/src/lib.rs:671-675 | back to the first host |
| AddrPicking.PickMoves | crates/corro-client/src/lib.rs:618-669 | with steady lookups each pick moves one place on and gives the address there |
| AddrPicking.NextRound | crates/corro-client/src/lib.rs:618-669 | one place on is one step round the cycle of all addresses |
| AddrPicking.PassesDeadHosts | crates/corro-client/src/lib.rs:618-669 | hosts that give no address are passed over, each with one failed pick, up to the first that answers |
| AddrPicking.FindsAnAddress | crates/corro-client/src/lib.rs:618-669 | if any host answers, one of as many picks as there are hosts gives an address |
| PooledClient.PooledClientInner.constructor | crates/corro-client/src/lib.rs:432-445 | a new client has no server, no success and generation 0 |
| PooledClient.PooledClientInner.Get | crates/corro-client/src/lib.rs:523-540 | the fields move as the value-level operation says, also when no client can be built for the picked address |
| PooledClient.PooledClientInner.OnSuccess | crates/corro-client/src/lib.rs:542-555 | the fields move as the value-level operation says |
| PooledClient.PooledClientInner.OnError | crates/corro-client/src/lib.rs:557-589 | the fields move as the value-level operation says |
| PooledClient.RunRemembers | crates/corro-client/src/lib.rs:542-589 | in every run the fields say exactly whether the current server has succeeded and when it first failed since |
| PooledClient.Sticky | crates/corro-client/src/lib.rs:557-589 | in every run a server is given up exactly when a request of its generation fails and it never worked or has failed for the timeout; only then does the picker move, restarting exactly after a success; other generations change nothing |
| PooledClient.RestartsAtFirst | crates/corro-client/src/lib.rs:573-589 | in every run, when a server that once worked is given up the next one asked for is the first address of the first host, under the next generation |
| PooledClient.RunOneEach | crates/corro-client/src/lib.rs:523-540 | in every run all answers of one generation name the same server |
| PooledClient.AttemptsCycle | crates/corro-client/src/lib.rs:618-675 | without success and with steady lookups, in every interleaving generation g is sent to address g of the cycle through all addresses, one further for each address for which no client could be built |
| PooledClient.AtCycleIs | crates/corro-client/src/lib.rs:618-675 | entry k of the repeated cycle is entry k modulo its length |
| VersionIterators.ChunkedIterator.constructor | crates/corro-base-types/src/lib.rs:50-60 | a new iterator stands at the start |
| VersionIterators.ChunkedIterator.Next | crates/corro-base-types/src/lib.rs:71-90 | call k gives chunk k and moves to the start of chunk k + 1, saturating at the greatest u64 |
| VersionIterators.EndsExactly | crates/corro-base-types/src/lib.rs:71-90 | some call gives nothing if and only if the range is empty, or end < u64::MAX and chunk_size > 0 |
| VersionIterators.ChunkStartIs | crates/corro-base-types/src/lib.rs:71-90 | chunk k starts at start + k * chunk_size |
| VersionIterators.StartsInRange | crates/corro-base-types/src/lib.rs:71-90 | exactly the first (end - start) / chunk_size + 1 starts lie in the range |
| VersionIterators.ChunkAt | crates/corro-base-types/src/lib.rs:71-90 | chunk k ends where chunk k + 1 starts or at the end, and the iterator stops after the last |
| VersionIterators.ChunksCover | crates/corro-base-types/src/lib.rs:71-90 | a version is in some chunk if and only if it is in the range |
| VersionIterators.Collect | crates/corro-base-types/src/lib.rs:50-90 | iterating collects exactly those chunks |
| VersionIterators.RangeIterator.constructor | crates/corro-base-types/src/lib.rs:250-258 | a new range has all its versions left |
| VersionIterators.RangeIterator.Next | crates/corro-base-types/src/lib.rs:358-374 | gives the versions left in order, each once, also at the end of the u64 range |
| VersionIterators.RangeIterator.Len | crates/corro-base-types/src/lib.rs:294-304 | the number of versions left; overflows exactly for the range of all u64 values |

## Left out

- SQLite, cr-sqlite merging, `insert_local_changes`, broadcast, sync and schema code: oracles, behaving as described above.
- Overflow of `add_one` at the greatest u64 in the books: versions are unbounded there.
- The reloaded maximum of a book: it comes from a table the bookkeeping does not write.
- `load_all_from_conn` and `check_bookie_consistency`: the first repeats `from_conn` over all actors, the second compares maps.
- SAVEPOINT, RELEASE and ROLLBACK TO: the session treats every rollback form as a full one.
- The text of error responses that fail no transaction, as for messages the server does not serve: they are `Complaint` events.
- Fairness, and the order of the SQLite lock, the write permit and the bookie mutex against each other: of waiting it is only proved that no reachable state is a dead end.
- Prepared statements and portals as maps: what a parse or a lookup gives is part of the message, so every outcome is covered.
- The concurrent parts (`BookieLock`, `WriteScheduler`) are state machines over values: one step is one lock, queue, permit or database operation, and memory layout and wake-up order are not modelled.
- Rows, formats and the text of responses: one `SqlRun` event stands for all steps of a statement between two returns to the client.
- `decode_eof`: it drops the last byte of an unterminated tail.
- PgCasts.CastExact: integer operands carry no width of their own, so one of type bigint is cast to boolean as an int4 is; NUMERIC, arrays and user-defined names are not claimed.
- PgExprValues.StripPreservesValue: casts of other operands and to NUMERIC, array and user-defined types are oracles that must agree; rounding, range and hexadecimal text of floats, and LIKE patterns with a backslash are not claimed; subqueries are left out, and table-factor rewriting and SQL printing depend on third-party parsers.
- Rewriting a tree in place is modelled on tree values; the source owns each tree exclusively, so nothing can alias it.
- LinesCodec.DecodeChunks: with the greatest usize as limit the stream is at most that long, since no buffer can be longer.
- Wrap-around of the client's u64 generation counter.
- QUIC, TLS, HTTP, metrics, templates, Consul, the Go client and backoff: plumbing and lookup tables.
