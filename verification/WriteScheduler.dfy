/** The scheduler in front of the single write connection: three bounded queues, a worker with
    biased selection that hands out one guard at a time, a connection pool of size one and a
    one-permit semaphore shared with PostgreSQL sessions. Every interleaving of requests,
    timeouts, cancellations and drops is a run of the steps below. */
module WriteScheduler {

  datatype Priority = High | Normal | Low

  function Capacity(q: Priority): nat {
    match q case High => 256 case Normal => 512 case Low => 1024
  }

  function Rank(q: Priority): nat {
    match q case High => 0 case Normal => 1 case Low => 2
  }

  /** How far a request for the write connection has come. A write connection exists in stage
      `Writing`; its parts are dropped in the order connection, guard, permit. */
  datatype Stage =
    | Sending                  // waiting for room in its queue
    | Queued
    | Abandoned                // still in its queue, but nobody waits for the answer
    | Guarded                  // holds the guard
    | Connected                // holds the guard and the connection
    | Writing                  // holds the guard, the connection and the permit
    | Returned(permit: bool)   // gave the connection back
    | Unguarded                // only the permit left
    | Gone

  predicate HoldsGuard(g: Stage) { g.Guarded? || g.Connected? || g.Writing? || g.Returned? }
  predicate HoldsConn(g: Stage) { g.Connected? || g.Writing? }
  predicate HoldsPermit(g: Stage) { g.Writing? || g.Unguarded? || (g.Returned? && g.permit) }

  datatype Client = Client(queue: Priority, stage: Stage)

  datatype Worker = Idle | Waiting(id: nat)

  datatype Queues = Queues(high: seq<nat>, normal: seq<nat>, low: seq<nat>)

  function Get(qs: Queues, q: Priority): seq<nat> {
    match q case High => qs.high case Normal => qs.normal case Low => qs.low
  }

  function Put(qs: Queues, q: Priority, ids: seq<nat>): Queues {
    match q case High => qs.(high := ids) case Normal => qs.(normal := ids) case Low => qs.(low := ids)
  }

  /** What happened to the queues, for stating the order of service. */
  datatype Note = Arrived(q: Priority, id: nat) | Selected(q: Priority, id: nat, granted: bool)

  datatype State = State(
    clients: map<nat, Client>, queues: Queues, worker: Worker,
    conns: nat, permits: nat, sessions: set<nat>, log: seq<Note>)

  const START := State(map[], Queues([], [], []), Idle, 1, 1, {}, [])

  datatype Step =
    | Request(id: nat, q: Priority)
    | Enqueue(id: nat)
    | GiveUp(id: nat)
    | Select
    | Wake
    | TakeConn(id: nat)
    | TakePermit(id: nat)
    | ReturnConn(id: nat)
    | DropGuard(id: nat)
    | DropPermit(id: nat)
    | SessionTake(session: nat)
    | SessionDrop(session: nat)

  predicate At(s: State, id: nat, g: Stage) {
    id in s.clients && s.clients[id].stage == g
  }

  function Move(s: State, id: nat, g: Stage): map<nat, Client> {
    if id in s.clients then s.clients[id := s.clients[id].(stage := g)] else s.clients
  }

  function QueueOf(s: State, id: nat): Priority {
    if id in s.clients then s.clients[id].queue else Low
  }

  /** The first ready branch of the biased select. */
  function Chosen(qs: Queues): Priority {
    if qs.high != [] then High else if qs.normal != [] then Normal else Low
  }

  predicate Enabled(s: State, step: Step) {
    match step
    case Request(id, _) => id !in s.clients
    case Enqueue(id) => At(s, id, Sending) && |Get(s.queues, QueueOf(s, id))| < Capacity(QueueOf(s, id))
    case GiveUp(id) => At(s, id, Sending) || At(s, id, Queued)
    case Select => s.worker.Idle? && Get(s.queues, Chosen(s.queues)) != []
    case Wake => s.worker.Waiting? && !(s.worker.id in s.clients && HoldsGuard(s.clients[s.worker.id].stage))
    case TakeConn(id) => At(s, id, Guarded) && s.conns > 0
    case TakePermit(id) => At(s, id, Connected) && s.permits > 0
    case ReturnConn(id) => id in s.clients && HoldsConn(s.clients[id].stage)
    case DropGuard(id) => id in s.clients && (s.clients[id].stage.Guarded? || s.clients[id].stage.Returned?)
    case DropPermit(id) => At(s, id, Unguarded)
    case SessionTake(p) => p !in s.sessions && s.permits > 0
    case SessionDrop(p) => p in s.sessions
  }

  function Selection(s: State): State {
    var q := Chosen(s.queues);
    if Get(s.queues, q) == [] then s else
      var id := Get(s.queues, q)[0];
      var alive := At(s, id, Queued);
      s.(queues := Put(s.queues, q, Get(s.queues, q)[1..]),
         clients := Move(s, id, if alive then Guarded else Gone),
         worker := if alive then Waiting(id) else Idle,
         log := s.log + [Selected(q, id, alive)])
  }

  function Apply(s: State, step: Step): State {
    match step
    case Request(id, q) => s.(clients := s.clients[id := Client(q, Sending)])
    case Enqueue(id) =>
      var q := QueueOf(s, id);
      s.(clients := Move(s, id, Queued), queues := Put(s.queues, q, Get(s.queues, q) + [id]),
          log := s.log + [Arrived(q, id)])
    case GiveUp(id) => s.(clients := Move(s, id, if At(s, id, Queued) then Abandoned else Gone))
    case Select => Selection(s)
    case Wake => s.(worker := Idle)
    case TakeConn(id) => s.(clients := Move(s, id, Connected), conns := if s.conns > 0 then s.conns - 1 else 0)
    case TakePermit(id) => s.(clients := Move(s, id, Writing), permits := if s.permits > 0 then s.permits - 1 else 0)
    case ReturnConn(id) => s.(clients := Move(s, id, Returned(At(s, id, Writing))), conns := s.conns + 1)
    case DropGuard(id) => s.(clients := Move(s, id, if At(s, id, Returned(true)) then Unguarded else Gone))
    case DropPermit(id) => s.(clients := Move(s, id, Gone), permits := s.permits + 1)
    case SessionTake(p) => s.(sessions := s.sessions + {p}, permits := if s.permits > 0 then s.permits - 1 else 0)
    case SessionDrop(p) => s.(sessions := s.sessions - {p}, permits := s.permits + 1)
  }

  predicate CanRun(s: State, steps: seq<Step>)
    decreases |steps|
  {
    steps == [] || (Enabled(s, steps[0]) && CanRun(Apply(s, steps[0]), steps[1..]))
  }

  function Run(s: State, steps: seq<Step>): State
    decreases |steps|
  {
    if steps == [] then s else Run(Apply(s, steps[0]), steps[1..])
  }

  // ---------------------------------------------------------------- the queues

  function Arrivals(log: seq<Note>, q: Priority): seq<nat> {
    if log == [] then [] else
      var n := log[|log| - 1];
      Arrivals(log[..|log| - 1], q) + if n.Arrived? && n.q == q then [n.id] else []
  }

  function Served(log: seq<Note>, q: Priority): seq<nat> {
    if log == [] then [] else
      var n := log[|log| - 1];
      Served(log[..|log| - 1], q) + if n.Selected? && n.q == q then [n.id] else []
  }

  lemma NotesSnoc(log: seq<Note>, n: Note, q: Priority)
    ensures Arrivals(log + [n], q) == Arrivals(log, q) + if n.Arrived? && n.q == q then [n.id] else []
    ensures Served(log + [n], q) == Served(log, q) + if n.Selected? && n.q == q then [n.id] else []
  {
    assert (log + [n])[..|log + [n]| - 1] == log;
  }

  /** First in, first out: what was taken from the queue followed by what is still in it is what
      entered it, in order. */
  ghost predicate Fifo(s: State, q: Priority) {
    Arrivals(s.log, q) == Served(s.log, q) + Get(s.queues, q)
  }

  /** Entry `i` of queue `q` belongs to a request of that queue that still waits or gave up. */
  predicate Pending(s: State, q: Priority, i: nat)
    requires i < |Get(s.queues, q)|
  {
    var id := Get(s.queues, q)[i];
    id in s.clients && s.clients[id].queue == q && (s.clients[id].stage.Queued? || s.clients[id].stage.Abandoned?)
  }

  ghost predicate QueueInv(s: State, q: Priority) {
    && |Get(s.queues, q)| <= Capacity(q)
    && (forall i: nat {:trigger Pending(s, q, i)} :: i < |Get(s.queues, q)| ==> Pending(s, q, i))
    && (forall i, j :: 0 <= i < j < |Get(s.queues, q)| ==> Get(s.queues, q)[i] != Get(s.queues, q)[j])
    && (forall id | id in s.clients :: s.clients[id].queue == q && s.clients[id].stage.Queued? ==>
      id in Get(s.queues, q))
  }

  // ---------------------------------------------------------------- guard, connection, permit

  ghost predicate GuardInv(s: State) {
    forall id | id in s.clients :: HoldsGuard(s.clients[id].stage) ==> s.worker == Waiting(id)
  }

  ghost predicate ConnInv(s: State) {
    && s.conns <= 1
    && (s.conns == 0 <==> s.worker.Waiting? && s.worker.id in s.clients && HoldsConn(s.clients[s.worker.id].stage))
  }

  predicate IsHolder(s: State, id: nat) {
    id in s.clients && HoldsPermit(s.clients[id].stage)
  }

  /** The permit is free, or exactly one request or session has it. */
  ghost predicate PermitInv(s: State) {
    && s.permits <= 1
    && (forall id :: IsHolder(s, id) ==> s.permits == 0 && s.sessions == {})
    && (forall id, id' :: IsHolder(s, id) && IsHolder(s, id') ==> id == id')
    && (forall p, p' | p in s.sessions && p' in s.sessions :: p == p')
    && (s.sessions != {} ==> s.permits == 0)
    && (s.permits == 0 && s.sessions == {} ==> exists id :: IsHolder(s, id))
  }

  ghost predicate Inv(s: State) {
    && GuardInv(s) && ConnInv(s) && PermitInv(s)
    && forall q :: QueueInv(s, q) && Fifo(s, q)
  }

  // ---------------------------------------------------------------- the invariant over every run

  lemma GuardStep(s: State, step: Step)
    requires GuardInv(s) && Enabled(s, step)
    requires forall q :: QueueInv(s, q)
    ensures GuardInv(Apply(s, step))
  {
    if step.Select? {
      assert QueueInv(s, Chosen(s.queues)) && Pending(s, Chosen(s.queues), 0);
    }
  }

  lemma ConnStep(s: State, step: Step)
    requires GuardInv(s) && ConnInv(s) && Enabled(s, step)
    ensures ConnInv(Apply(s, step))
  {
  }

  lemma PermitStep(s: State, step: Step)
    requires PermitInv(s) && Enabled(s, step)
    requires forall q :: QueueInv(s, q)
    ensures PermitInv(Apply(s, step))
  {
    if step.Select? {
      assert QueueInv(s, Chosen(s.queues)) && Pending(s, Chosen(s.queues), 0);
    }
    PermitStays(s, step);
    assert step.DropPermit? ==> IsHolder(s, step.id);
    forall id ensures IsHolder(Apply(s, step), id) ==>
      (IsHolder(s, id) && !(step.DropPermit? && id == step.id)) || (step.TakePermit? && id == step.id)
    {
      assert IsHolder(s, id) || !IsHolder(s, id);
    }
  }

  /** A taken permit stays with its holder or comes back. */
  lemma PermitStays(s: State, step: Step)
    requires PermitInv(s) && Enabled(s, step)
    requires forall q :: QueueInv(s, q)
    ensures var t := Apply(s, step); t.permits == 0 && t.sessions == {} ==> exists id :: IsHolder(t, id)
  {
    var t := Apply(s, step);
    if step.TakePermit? {
      assert IsHolder(t, step.id);
    } else if s.permits == 0 && s.sessions == {} {
      var id :| IsHolder(s, id);
      if step.Select? { assert QueueInv(s, Chosen(s.queues)) && Pending(s, Chosen(s.queues), 0); }
      assert t.permits == 0 ==> IsHolder(t, id);
    }
  }

  lemma FifoEnqueue(s: State, id: nat, q: Priority)
    requires Fifo(s, q) && Enabled(s, Enqueue(id))
    ensures Fifo(Apply(s, Enqueue(id)), q)
  {
    NotesSnoc(s.log, Arrived(QueueOf(s, id), id), q);
    var t := Apply(s, Enqueue(id));
    assert Get(t.queues, q) == Get(s.queues, q) + if q == QueueOf(s, id) then [id] else [];
  }

  lemma FifoSelect(s: State, q: Priority)
    requires Fifo(s, q) && Enabled(s, Select)
    ensures Fifo(Selection(s), q)
  {
    var c := Chosen(s.queues);
    var id := Get(s.queues, c)[0];
    NotesSnoc(s.log, Selected(c, id, At(s, id, Queued)), q);
    SelectionQueue(s, q);
    if q == c {
      var rest := Get(s.queues, q)[1..];
      assert Get(s.queues, q) == [id] + rest;
      MoveOne(Served(s.log, q), id, rest);
    } else {
      assert Served(s.log, q) + [] == Served(s.log, q);
    }
  }

  lemma SelectionQueue(s: State, q: Priority)
    requires Enabled(s, Select)
    ensures Get(Selection(s).queues, q) == if q == Chosen(s.queues) then Get(s.queues, q)[1..] else Get(s.queues, q)
  {
  }

  lemma MoveOne(a: seq<nat>, x: nat, b: seq<nat>)
    ensures a + ([x] + b) == (a + [x]) + b
  {
  }

  lemma FifoStep(s: State, step: Step, q: Priority)
    requires Fifo(s, q) && Enabled(s, step)
    ensures Fifo(Apply(s, step), q)
  {
    if step.Enqueue? {
      FifoEnqueue(s, step.id, q);
    } else if step.Select? {
      FifoSelect(s, q);
    }
  }

  lemma SelectStep(s: State, q: Priority)
    requires QueueInv(s, q) && QueueInv(s, Chosen(s.queues)) && Enabled(s, Select)
    ensures QueueInv(Selection(s), q)
  {
    var t := Selection(s);
    var ids := Get(s.queues, q);
    assert Pending(s, Chosen(s.queues), 0);
    if q == Chosen(s.queues) {
      assert Get(t.queues, q) == ids[1..];
      forall i: nat | i < |ids| - 1 ensures Pending(t, q, i) { assert Pending(s, q, i + 1); }
    } else {
      assert Get(t.queues, q) == ids;
      forall i: nat | i < |ids| ensures Pending(t, q, i) { assert Pending(s, q, i); }
    }
  }

  lemma EnqueueStep(s: State, id: nat, q: Priority)
    requires QueueInv(s, q) && Enabled(s, Enqueue(id))
    ensures QueueInv(Apply(s, Enqueue(id)), q)
  {
    var t := Apply(s, Enqueue(id));
    var ids := Get(s.queues, q);
    forall i: nat | i < |ids| ensures Pending(t, q, i) && ids[i] != id { assert Pending(s, q, i); }
    if q == QueueOf(s, id) {
      assert Get(t.queues, q) == ids + [id] && Pending(t, q, |ids|);
    } else {
      assert Get(t.queues, q) == ids;
    }
  }

  lemma OtherStep(s: State, step: Step, q: Priority)
    requires QueueInv(s, q) && Enabled(s, step) && !step.Enqueue? && !step.Select?
    ensures QueueInv(Apply(s, step), q)
  {
    var t := Apply(s, step);
    forall i: nat | i < |Get(s.queues, q)| ensures Pending(t, q, i) { assert Pending(s, q, i); }
  }

  lemma StepKeepsInv(s: State, step: Step)
    requires Inv(s) && Enabled(s, step)
    ensures Inv(Apply(s, step))
  {
    GuardStep(s, step);
    ConnStep(s, step);
    PermitStep(s, step);
    forall q ensures QueueInv(Apply(s, step), q) && Fifo(Apply(s, step), q) {
      FifoStep(s, step, q);
      if step.Select? {
        SelectStep(s, q);
      } else if step.Enqueue? {
        EnqueueStep(s, step.id, q);
      } else {
        OtherStep(s, step, q);
      }
    }
  }

  lemma {:induction false} RunKeepsInv(s: State, steps: seq<Step>)
    requires Inv(s) && CanRun(s, steps)
    ensures Inv(Run(s, steps))
    decreases |steps|
  {
    if steps != [] {
      StepKeepsInv(s, steps[0]);
      RunKeepsInv(Apply(s, steps[0]), steps[1..]);
    }
  }

  /** Whatever the interleaving: at most one guard is out, a write connection excludes every other
      holder of the permit, each queue is served first in first out and never overflows. */
  lemma SchedulerSafe(steps: seq<Step>)
    requires CanRun(START, steps)
    ensures var s := Run(START, steps);
      && (forall a, b | a in s.clients && b in s.clients ::
            HoldsGuard(s.clients[a].stage) && HoldsGuard(s.clients[b].stage) ==> a == b)
      && (forall a, b | At(s, a, Writing) && b in s.clients ::
            HoldsPermit(s.clients[b].stage) || HoldsConn(s.clients[b].stage) ==> a == b)
      && (forall a | At(s, a, Writing) :: s.sessions == {})
      && (forall p, p' | p in s.sessions && p' in s.sessions :: p == p')
      && (forall q :: Served(s.log, q) <= Arrivals(s.log, q) && |Get(s.queues, q)| <= Capacity(q))
  {
    RunKeepsInv(START, steps);
    var s := Run(START, steps);
    assert forall id | id in s.clients :: HoldsPermit(s.clients[id].stage) ==> IsHolder(s, id);
    forall q ensures Served(s.log, q) <= Arrivals(s.log, q) && |Get(s.queues, q)| <= Capacity(q) {
      assert Fifo(s, q) && QueueInv(s, q);
    }
  }

  /** A request that holds the guard never waits for the connection. */
  lemma ConnFreeForGuarded(steps: seq<Step>, id: nat)
    requires CanRun(START, steps) && At(Run(START, steps), id, Guarded)
    ensures Enabled(Run(START, steps), TakeConn(id))
  {
    RunKeepsInv(START, steps);
  }

  /** While requests wait, the worker can select or wake, or somebody holds the guard and can drop it. */
  lemma NeverStuck(steps: seq<Step>, q: Priority)
    requires CanRun(START, steps) && Get(Run(START, steps).queues, q) != []
    ensures var s := Run(START, steps);
      || Enabled(s, Select) || Enabled(s, Wake)
      || (s.worker.Waiting? && (Enabled(s, ReturnConn(s.worker.id)) || Enabled(s, DropGuard(s.worker.id))))
  {
    RunKeepsInv(START, steps);
  }

  // ---------------------------------------------------------------- conservation

  function PermitHolders(s: State): set<nat> {
    set id | id in s.clients && HoldsPermit(s.clients[id].stage)
  }

  function ConnHolders(s: State): set<nat> {
    set id | id in s.clients && HoldsConn(s.clients[id].stage)
  }

  lemma AtMostOne(ids: set<nat>)
    requires forall a, b :: a in ids && b in ids ==> a == b
    ensures |ids| == if ids == {} then 0 else 1
  {
    if a :| a in ids { assert ids == {a}; }
  }

  /** In every run there is one permit: free, with one request, or with one session. */
  lemma PermitConserved(steps: seq<Step>)
    requires CanRun(START, steps)
    ensures var s := Run(START, steps); s.permits + |PermitHolders(s)| + |s.sessions| == 1
  {
    RunKeepsInv(START, steps);
    var s := Run(START, steps);
    assert forall id :: id in PermitHolders(s) <==> IsHolder(s, id);
    AtMostOne(PermitHolders(s));
    AtMostOne(s.sessions);
  }

  /** In every run there is one write connection: in the pool, or with one request. */
  lemma ConnConserved(steps: seq<Step>)
    requires CanRun(START, steps)
    ensures var s := Run(START, steps); s.conns + |ConnHolders(s)| == 1
  {
    RunKeepsInv(START, steps);
    var s := Run(START, steps);
    AtMostOne(ConnHolders(s));
    if s.conns == 0 { assert s.worker.id in ConnHolders(s); }
  }

  /** A request with the connection waits for the permit only while somebody else has it. */
  lemma PermitFreeUnlessHeld(steps: seq<Step>, id: nat)
    requires CanRun(START, steps) && At(Run(START, steps), id, Connected)
    ensures var s := Run(START, steps);
      Enabled(s, TakePermit(id)) <==> PermitHolders(s) == {} && s.sessions == {}
  {
    PermitConserved(steps);
    RunKeepsInv(START, steps);
    var s := Run(START, steps);
    assert forall p :: p in PermitHolders(s) <==> IsHolder(s, p);
  }

  /** Likewise a session. */
  lemma SessionWaitsOnlyForHolder(steps: seq<Step>, p: nat)
    requires CanRun(START, steps) && p !in Run(START, steps).sessions
    ensures var s := Run(START, steps);
      Enabled(s, SessionTake(p)) <==> PermitHolders(s) == {} && s.sessions == {}
  {
    PermitConserved(steps);
    RunKeepsInv(START, steps);
    var s := Run(START, steps);
    assert forall id :: id in PermitHolders(s) <==> IsHolder(s, id);
  }

  // ---------------------------------------------------------------- leaving

  /** The step by which a request that is no longer wanted goes on to leave. */
  function LeaveStep(id: nat, g: Stage): Step
    requires !g.Abandoned? && !g.Gone?
  {
    match g
    case Sending => GiveUp(id)
    case Queued => GiveUp(id)
    case Guarded => DropGuard(id)
    case Returned(_) => DropGuard(id)
    case Unguarded => DropPermit(id)
    case _ => ReturnConn(id)
  }

  /** How many such steps are left. */
  function StepsToLeave(g: Stage): nat {
    match g
    case Abandoned => 0
    case Gone => 0
    case Connected => 2
    case Writing => 3
    case Returned(permit) => if permit then 2 else 1
    case _ => 1
  }

  /** A request can be cancelled or dropped at every stage, and is gone after at most three steps of
      its own, whatever the others do. */
  lemma CanAlwaysLeave(s: State, id: nat)
    requires id in s.clients && !s.clients[id].stage.Abandoned? && !s.clients[id].stage.Gone?
    ensures
      var step := LeaveStep(id, s.clients[id].stage);
      && Enabled(s, step) && id in Apply(s, step).clients
      && StepsToLeave(Apply(s, step).clients[id].stage) < StepsToLeave(s.clients[id].stage) <= 3
  {
  }

  // ---------------------------------------------------------------- abandoned requests

  /** All waiting requests, in the order in which they would be served. */
  function Line(s: State): seq<nat> {
    s.queues.high + s.queues.normal + s.queues.low
  }

  function Selects(n: nat): seq<Step> {
    if n == 0 then [] else [Select] + Selects(n - 1)
  }

  lemma SelectTakesFirst(s: State)
    requires Line(s) != []
    ensures Get(s.queues, Chosen(s.queues)) != [] && Get(s.queues, Chosen(s.queues))[0] == Line(s)[0]
    ensures Line(Selection(s)) == Line(s)[1..]
  {
  }

  /** How many requests are ahead of a queue in the line. */
  function Before(qs: Queues, q: Priority): nat {
    match q case High => 0 case Normal => |qs.high| case Low => |qs.high| + |qs.normal|
  }

  lemma LineEntry(s: State, i: nat) returns (q: Priority, k: nat)
    requires Inv(s) && i < |Line(s)|
    ensures k < |Get(s.queues, q)| && Line(s)[i] == Get(s.queues, q)[k] && Pending(s, q, k)
    ensures i == k + Before(s.queues, q)
  {
    var h, n := |s.queues.high|, |s.queues.normal|;
    q := if i < h then High else if i < h + n then Normal else Low;
    k := if i < h then i else if i < h + n then i - h else i - h - n;
    assert QueueInv(s, q) && Pending(s, q, k);
  }

  lemma LineDistinct(s: State, i: nat, j: nat)
    requires Inv(s) && i < j < |Line(s)|
    ensures Line(s)[i] != Line(s)[j]
  {
    var q, k := LineEntry(s, i);
    var q', k' := LineEntry(s, j);
    assert QueueInv(s, q);
  }

  /** The worker passes over abandoned requests one selection each, and the first live request
      in line gets the guard. */
  lemma {:induction false} AbandonedDoNotBlock(s: State, n: nat)
    requires Inv(s) && s.worker.Idle? && n < |Line(s)| && At(s, Line(s)[n], Queued)
    requires forall i :: 0 <= i < n ==> At(s, Line(s)[i], Abandoned)
    ensures CanRun(s, Selects(n + 1))
    ensures Run(s, Selects(n + 1)).worker == Waiting(Line(s)[n])
    ensures At(Run(s, Selects(n + 1)), Line(s)[n], Guarded)
    decreases n
  {
    SelectTakesFirst(s);
    var t := Apply(s, Select);
    assert Selects(n + 1)[1..] == Selects(n) && Selects(n + 1)[0] == Select;
    if n > 0 {
      assert At(s, Line(s)[0], Abandoned);
      assert Line(t)[n - 1] == Line(s)[n] && t.worker.Idle?;
      forall i | 0 <= i < n ensures At(t, Line(t)[i], if i < n - 1 then Abandoned else Queued) {
        LineDistinct(s, 0, i + 1);
        assert Line(t)[i] == Line(s)[i + 1];
      }
      StepKeepsInv(s, Select);
      AbandonedDoNotBlock(t, n - 1);
    }
  }

  // ---------------------------------------------------------------- no dead ends

  lemma {:induction false} RunConcat(s: State, a: seq<Step>, b: seq<Step>)
    requires CanRun(s, a) && CanRun(Run(s, a), b)
    ensures CanRun(s, a + b) && Run(s, a + b) == Run(Run(s, a), b)
    decreases |a|
  {
    if a == [] {
      assert a + b == b;
    } else {
      RunConcat(Apply(s, a[0]), a[1..], b);
      assert (a + b)[1..] == a[1..] + b;
    }
  }

  lemma OneStep(s: State, step: Step)
    requires Enabled(s, step)
    ensures CanRun(s, [step]) && Run(s, [step]) == Apply(s, step)
  {
    assert [step][1..] == [];
  }

  lemma ThenStep(s: State, steps: seq<Step>, step: Step)
    requires CanRun(s, steps) && Enabled(Run(s, steps), step)
    ensures CanRun(s, steps + [step]) && Run(s, steps + [step]) == Apply(Run(s, steps), step)
  {
    OneStep(Run(s, steps), step);
    RunConcat(s, steps, [step]);
  }

  /** The waiting requests are the same and in the same order in both states. */
  ghost predicate SameLine(s: State, t: State) {
    && s.queues == t.queues
    && forall id :: (At(s, id, Queued) ==> At(t, id, Queued)) && (At(s, id, Sending) ==> At(t, id, Sending))
  }

  /** Whoever holds the guard can give it up, and the worker becomes idle. */
  lemma FreeGuard(s: State) returns (steps: seq<Step>)
    requires Inv(s)
    ensures CanRun(s, steps) && Run(s, steps).worker.Idle? && Inv(Run(s, steps)) && SameLine(s, Run(s, steps))
  {
    steps := [];
    if s.worker.Waiting? {
      var id := s.worker.id;
      if id in s.clients && HoldsConn(s.clients[id].stage) {
        ThenStep(s, steps, ReturnConn(id));
        steps := [ReturnConn(id)];
      }
      var t := Run(s, steps);
      assert SameLine(s, t) && t.worker == s.worker;
      if id in t.clients && HoldsGuard(t.clients[id].stage) {
        ThenStep(s, steps, DropGuard(id));
        steps := steps + [DropGuard(id)];
      }
      ThenStep(s, steps, Wake);
      steps := steps + [Wake];
    }
    RunKeepsInv(s, steps);
  }

  /** With nobody holding the guard, whoever holds the permit can give it up. */
  lemma FreePermit(s: State) returns (steps: seq<Step>)
    requires Inv(s) && s.worker.Idle?
    ensures CanRun(s, steps) && Run(s, steps).worker.Idle? && Run(s, steps).permits == 1
    ensures Inv(Run(s, steps)) && SameLine(s, Run(s, steps))
  {
    steps := [];
    if s.permits == 0 {
      if p :| p in s.sessions {
        ThenStep(s, steps, SessionDrop(p));
        steps := [SessionDrop(p)];
      } else {
        var id :| IsHolder(s, id);
        assert At(s, id, Unguarded);
        ThenStep(s, steps, DropPermit(id));
        steps := [DropPermit(id)];
      }
    }
    RunKeepsInv(s, steps);
  }

  /** The request at the front of the line gets the guard, the connection and the permit. */
  lemma FirstWrites(s: State) returns (steps: seq<Step>)
    requires Inv(s) && s.worker.Idle? && s.permits == 1 && Line(s) != [] && At(s, Line(s)[0], Queued)
    ensures CanRun(s, steps) && At(Run(s, steps), Line(s)[0], Writing)
  {
    var id := Line(s)[0];
    SelectTakesFirst(s);
    steps := [];
    ThenStep(s, steps, Select);
    steps := [Select];
    ThenStep(s, steps, TakeConn(id));
    steps := steps + [TakeConn(id)];
    ThenStep(s, steps, TakePermit(id));
    steps := steps + [TakePermit(id)];
  }

  lemma FirstIsQueued(s: State)
    requires Inv(s) && Line(s) != []
    ensures !At(s, Line(s)[0], Sending)
  {
    var q, k := LineEntry(s, 0);
  }

  /** The first request in line is passed over or served; the rest moves up. */
  lemma MoveUp(s: State) returns (steps: seq<Step>)
    requires Inv(s) && s.worker.Idle? && s.permits == 1 && Line(s) != []
    ensures CanRun(s, steps) && Inv(Run(s, steps)) && Run(s, steps).worker.Idle? && Run(s, steps).permits == 1
    ensures Line(Run(s, steps)) == Line(s)[1..]
    ensures forall id :: At(s, id, Queued) && id != Line(s)[0] ==> At(Run(s, steps), id, Queued)
    ensures forall id :: At(s, id, Sending) ==> At(Run(s, steps), id, Sending)
  {
    SelectTakesFirst(s);
    OneStep(s, Select);
    StepKeepsInv(s, Select);
    var t := Selection(s);
    assert Apply(s, Select) == t && t.permits == 1;
    FirstIsQueued(s);
    var more := FreeGuard(t);
    RunConcat(s, [Select], more);
    var free := FreePermit(Run(t, more));
    RunConcat(s, [Select] + more, free);
    steps := [Select] + more + free;
  }

  lemma {:induction false} ReachesWriting(s: State, n: nat) returns (steps: seq<Step>)
    requires Inv(s) && s.worker.Idle? && s.permits == 1 && n < |Line(s)| && At(s, Line(s)[n], Queued)
    ensures CanRun(s, steps) && At(Run(s, steps), Line(s)[n], Writing)
    decreases n
  {
    if n == 0 {
      steps := FirstWrites(s);
    } else {
      LineDistinct(s, 0, n);
      var first := MoveUp(s);
      var t := Run(s, first);
      var more := ReachesWriting(t, n - 1);
      RunConcat(s, first, more);
      steps := first + more;
    }
  }

  lemma WaitsInLine(s: State, id: nat) returns (n: nat)
    requires Inv(s) && At(s, id, Queued)
    ensures n < |Line(s)| && Line(s)[n] == id
  {
    var q := s.clients[id].queue;
    assert QueueInv(s, q) && id in Get(s.queues, q);
    var k :| 0 <= k < |Get(s.queues, q)| && Get(s.queues, q)[k] == id;
    n := Before(s.queues, q) + k;
  }

  /** A request that waits for room in its queue gets in once the line has moved up far enough. */
  lemma {:induction false} GetsIn(s: State, id: nat) returns (steps: seq<Step>)
    requires Inv(s) && s.worker.Idle? && s.permits == 1 && At(s, id, Sending)
    ensures CanRun(s, steps) && Inv(Run(s, steps)) && At(Run(s, steps), id, Queued)
    ensures Run(s, steps).worker.Idle? && Run(s, steps).permits == 1
    decreases |Line(s)|
  {
    var q := QueueOf(s, id);
    if |Get(s.queues, q)| < Capacity(q) {
      steps := [Enqueue(id)];
      OneStep(s, Enqueue(id));
      StepKeepsInv(s, Enqueue(id));
    } else {
      assert Line(s) != [];
      var first := MoveUp(s);
      var more := GetsIn(Run(s, first), id);
      RunConcat(s, first, more);
      steps := first + more;
    }
  }

  /** Guard and permit given up. */
  lemma Settle(s: State) returns (steps: seq<Step>)
    requires Inv(s)
    ensures CanRun(s, steps) && Inv(Run(s, steps)) && SameLine(s, Run(s, steps))
    ensures Run(s, steps).worker.Idle? && Run(s, steps).permits == 1
  {
    var guard := FreeGuard(s);
    var permit := FreePermit(Run(s, guard));
    RunConcat(s, guard, permit);
    steps := guard + permit;
  }

  /** No reachable state is a dead end: a request that waits can still get the write connection. */
  lemma NoDeadEnd(steps: seq<Step>, id: nat)
    requires CanRun(START, steps)
    requires At(Run(START, steps), id, Sending) || At(Run(START, steps), id, Queued)
    ensures exists more :: CanRun(START, steps + more) && At(Run(START, steps + more), id, Writing)
  {
    RunKeepsInv(START, steps);
    var s := Run(START, steps);
    var settle := Settle(s);
    var t := Run(s, settle);
    var enter := [];
    if At(t, id, Sending) { enter := GetsIn(t, id); }
    RunConcat(s, settle, enter);
    var u := Run(t, enter);
    var n := WaitsInLine(u, id);
    var more := ReachesWriting(u, n);
    RunConcat(s, settle + enter, more);
    RunConcat(START, steps, settle + enter + more);
  }

  // ---------------------------------------------------------------- priority

  /** `id` has left its queue, or never was a request of it that waits. */
  ghost predicate Past(s: State, id: nat) {
    id in s.clients && !s.clients[id].stage.Sending? && forall q :: id !in Get(s.queues, q)
  }

  lemma PastStays(s: State, step: Step, id: nat)
    requires Past(s, id) && Enabled(s, step)
    ensures Past(Apply(s, step), id)
  {
    forall q ensures id !in Get(Apply(s, step).queues, q) {
      assert id !in Get(s.queues, q);
    }
  }

  lemma {:induction false} PastForGood(s: State, steps: seq<Step>, id: nat)
    requires Past(s, id) && CanRun(s, steps)
    ensures Past(Run(s, steps), id)
    decreases |steps|
  {
    if steps != [] {
      PastStays(s, steps[0], id);
      PastForGood(Apply(s, steps[0]), steps[1..], id);
    }
  }

  lemma OneQueue(s: State, q: Priority, q': Priority, id: nat)
    requires Inv(s) && id in Get(s.queues, q)
    ensures id in s.clients && !s.clients[id].stage.Sending? && (id in Get(s.queues, q') ==> q == q')
  {
    assert QueueInv(s, q) && QueueInv(s, q');
    var k: nat :| k < |Get(s.queues, q)| && Get(s.queues, q)[k] == id;
    assert Pending(s, q, k);
    if id in Get(s.queues, q') {
      var k': nat :| k' < |Get(s.queues, q')| && Get(s.queues, q')[k'] == id;
      assert Pending(s, q', k');
    }
  }

  /** A step either leaves a waiting request in its queue or is the selection that serves it. */
  lemma WaitingStep(s: State, step: Step, q: Priority, id: nat)
    requires Inv(s) && Enabled(s, step) && id in Get(s.queues, q)
    ensures id in Get(Apply(s, step).queues, q) || Past(Apply(s, step), id)
  {
    var t := Apply(s, step);
    OneQueue(s, q, q, id);
    if id !in Get(t.queues, q) {
      forall q' ensures id !in Get(t.queues, q') {
        OneQueue(s, q, q', id);
      }
    }
  }

  /** While a request waits, nothing is served from a queue of lower priority. */
  lemma {:induction false} NotOvertaken(s: State, steps: seq<Step>, q: Priority, lower: Priority, id: nat)
    requires Inv(s) && CanRun(s, steps) && Rank(q) < Rank(lower)
    requires id in Get(s.queues, q) && id in Get(Run(s, steps).queues, q)
    ensures Served(Run(s, steps).log, lower) == Served(s.log, lower)
    decreases |steps|
  {
    if steps != [] {
      var step, t := steps[0], Apply(s, steps[0]);
      StepKeepsInv(s, step);
      WaitingStep(s, step, q, id);
      if Past(t, id) { PastForGood(t, steps[1..], id); }
      assert Served(t.log, lower) == Served(s.log, lower) by {
        if step.Select? || step.Enqueue? { NotesSnoc(s.log, t.log[|s.log|], lower); }
      }
      NotOvertaken(t, steps[1..], q, lower, id);
    }
  }
}
