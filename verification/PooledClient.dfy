/** The client that sticks to a working server and falls back to others. Its three operations run
    under one write lock, so every interleaving of callers is a sequence of them. */
module PooledClient {
  import opened RangeSets
  import opened AddrPicking

  datatype Inner = Inner(
    picker: Picker, client: Option<Address>, hadSuccess: bool, firstFailAt: Option<nat>, generation: nat)

  datatype Answer = Answer(server: Address, generation: nat)

  /** Whether a client can be built for an address. */
  type Builder = Address -> bool

  function GetClient(s: Inner, resolve: Resolver, builds: Builder): (Inner, Option<Answer>) {
    if s.client.Some? then (s, Some(Answer(s.client.value, s.generation)))
    else
      var (picker, next) := PickNext(s.picker, resolve);
      match next
      case None => (s.(picker := picker), None)
      case Some(server) =>
        if builds(server) then (s.(picker := picker, client := Some(server)), Some(Answer(server, s.generation)))
        else (s.(picker := picker), None)
  }

  function HandleSuccess(s: Inner, generation: nat): Inner {
    if s.generation != generation then s else s.(hadSuccess := true, firstFailAt := None)
  }

  /** `duration_since` is zero for an earlier instant. */
  function Elapsed(now: nat, since: nat): nat {
    if now < since then 0 else now - since
  }

  function HandleError(s: Inner, generation: nat, now: nat, stickiness: nat): Inner {
    if generation != s.generation then s
    else if s.firstFailAt.None? && s.hadSuccess then s.(firstFailAt := Some(now))
    else if s.firstFailAt.Some? && Elapsed(now, s.firstFailAt.value) < stickiness then s
    else Inner(if s.hadSuccess then Reset(s.picker) else s.picker, None, false, None, s.generation + 1)
  }

  class PooledClientInner {
    const picker: AddrPicker
    const stickiness: nat
    var client: Option<Address>
    var hadSuccess: bool
    var firstFailAt: Option<nat>
    var generation: nat

    constructor (hosts: seq<string>, stickiness: nat)
      ensures State() == Start(hosts) && this.stickiness == stickiness && fresh(picker)
    {
      picker := new AddrPicker(hosts);
      this.stickiness := stickiness;
      client, hadSuccess, firstFailAt, generation := None, false, None, 0;
    }

    ghost function State(): Inner
      reads this, picker
    {
      Inner(picker.State(), client, hadSuccess, firstFailAt, generation)
    }

    method Get(resolve: Resolver, builds: Builder) returns (r: Option<Answer>)
      modifies this, picker
      ensures State() == GetClient(old(State()), resolve, builds).0
      ensures r == GetClient(old(State()), resolve, builds).1
    {
      if client.None? {
        var next := picker.Next(resolve);
        if next.None? || !builds(next.value) { return None; }
        client := next;
      }
      r := Some(Answer(client.value, generation));
    }

    method OnSuccess(of: nat)
      modifies this
      ensures State() == HandleSuccess(old(State()), of)
    {
      if generation != of { return; }
      hadSuccess := true;
      firstFailAt := None;
    }

    method OnError(of: nat, now: nat)
      modifies this, picker
      ensures State() == HandleError(old(State()), of, now, stickiness)
    {
      if of != generation { return; }
      if firstFailAt.None? && hadSuccess {
        firstFailAt := Some(now);
      } else if firstFailAt.Some? && Elapsed(now, firstFailAt.value) < stickiness {
        return;
      } else {
        if hadSuccess { picker.Restart(); }
        client := None;
        firstFailAt := None;
        hadSuccess := false;
        generation := generation + 1;
      }
    }
  }

  function Start(hosts: seq<string>): Inner {
    Inner(Picker(hosts, 0, None, 0), None, false, None, 0)
  }

  // ---------------------------------------------------------------- runs

  datatype Action =
    | Ask(resolve: Resolver, builds: Builder)
    | Succeeded(generation: nat)
    | Failed(generation: nat, now: nat)

  /** What really happened to the current server, oldest first. */
  datatype Mark = Good | Bad(at: nat)

  /** An answer, and how many addresses had been picked before it for which no client could be built. */
  datatype Given = Given(server: Address, generation: nat, skipped: nat)

  /** A run: the state, the answers given so far, the history of the current server, and the
      number of addresses picked in vain. */
  datatype Run = Run(inner: Inner, answers: seq<Given>, marks: seq<Mark>, skipped: nat)

  function Begin(hosts: seq<string>): Run {
    Run(Start(hosts), [], [], 0)
  }

  /** The pick gave an address, but no client. */
  predicate PickedInVain(s: Inner, resolve: Resolver, builds: Builder) {
    s.client.None? && PickNext(s.picker, resolve).1.Some? && !builds(PickNext(s.picker, resolve).1.value)
  }

  function Step(r: Run, act: Action, stickiness: nat): Run {
    match act
    case Ask(resolve, builds) =>
      var (inner, answer) := GetClient(r.inner, resolve, builds);
      var given := if answer.Some? then [Given(answer.value.server, answer.value.generation, r.skipped)] else [];
      Run(inner, r.answers + given, r.marks,
          if PickedInVain(r.inner, resolve, builds) then r.skipped + 1 else r.skipped)
    case Succeeded(g) =>
      Run(HandleSuccess(r.inner, g), r.answers,
          if g == r.inner.generation then r.marks + [Good] else r.marks, r.skipped)
    case Failed(g, now) =>
      var inner := HandleError(r.inner, g, now, stickiness);
      Run(inner, r.answers,
          if inner.generation != r.inner.generation then []
          else if g == r.inner.generation then r.marks + [Bad(now)] else r.marks,
          r.skipped)
  }

  /** A result belongs to a request that was given a server. */
  ghost predicate Possible(r: Run, act: Action) {
    !act.Ask? ==> exists i :: 0 <= i < |r.answers| && r.answers[i].generation == act.generation
  }

  ghost predicate AllPossible(r: Run, acts: seq<Action>, stickiness: nat)
    decreases |acts|
  {
    acts == [] || (Possible(r, acts[0]) && AllPossible(Step(r, acts[0], stickiness), acts[1..], stickiness))
  }

  function Steps(r: Run, acts: seq<Action>, stickiness: nat): Run
    decreases |acts|
  {
    if acts == [] then r else Steps(Step(r, acts[0], stickiness), acts[1..], stickiness)
  }

  /** The time of the first failure since the last success; none without a success. */
  function FirstFailure(marks: seq<Mark>): Option<nat> {
    if marks == [] || marks[|marks| - 1].Good? then None
    else
      var before := marks[..|marks| - 1];
      if FirstFailure(before).Some? then FirstFailure(before)
      else if Good in before then Some(marks[|marks| - 1].at) else None
  }

  lemma FirstFailureSnoc(marks: seq<Mark>, m: Mark)
    ensures FirstFailure(marks + [m]) ==
      if m.Good? then None
      else if FirstFailure(marks).Some? then FirstFailure(marks)
      else if Good in marks then Some(m.at) else None
    ensures Good in marks + [m] <==> Good in marks || m.Good?
  {
    assert (marks + [m])[..|marks + [m]| - 1] == marks;
  }

  // ---------------------------------------------------------------- stickiness

  /** The fields say what the history says. */
  ghost predicate Remembers(r: Run) {
    && (r.inner.hadSuccess <==> Good in r.marks)
    && r.inner.firstFailAt == FirstFailure(r.marks)
    && (r.inner.firstFailAt.Some? ==> r.inner.hadSuccess)
  }

  lemma FailureRemembers(r: Run, g: nat, now: nat, stickiness: nat)
    requires Remembers(r)
    ensures Remembers(Step(r, Failed(g, now), stickiness))
  {
    var s := Step(r, Failed(g, now), stickiness);
    if g != r.inner.generation {
      assert s == r;
    } else if s.inner.generation != r.inner.generation {
      assert s.marks == [] && s.inner.firstFailAt == None && !s.inner.hadSuccess;
    } else {
      assert s.marks == r.marks + [Bad(now)];
      FirstFailureSnoc(r.marks, Bad(now));
    }
  }

  lemma SuccessRemembers(r: Run, g: nat, stickiness: nat)
    requires Remembers(r)
    ensures Remembers(Step(r, Succeeded(g), stickiness))
  {
    FirstFailureSnoc(r.marks, Good);
  }

  lemma StepRemembers(r: Run, act: Action, stickiness: nat)
    requires Remembers(r)
    ensures Remembers(Step(r, act, stickiness))
  {
    match act
    case Ask(_, _) =>
    case Succeeded(g) => SuccessRemembers(r, g, stickiness);
    case Failed(g, now) => FailureRemembers(r, g, now, stickiness);
  }

  lemma {:induction false} RunRemembers(r: Run, acts: seq<Action>, stickiness: nat)
    requires Remembers(r)
    ensures Remembers(Steps(r, acts, stickiness))
    decreases |acts|
  {
    if acts != [] {
      StepRemembers(r, acts[0], stickiness);
      RunRemembers(Step(r, acts[0], stickiness), acts[1..], stickiness);
    }
  }

  /** The first failure since the last success is at least that long ago. */
  predicate FailedFor(marks: seq<Mark>, now: nat, stickiness: nat) {
    FirstFailure(marks).Some? && (stickiness == 0 || now - FirstFailure(marks).value >= stickiness)
  }

  /** A server is given up exactly when a request of its own generation fails and it either never
      worked or has been failing for at least the timeout; only a server that worked sends the
      picker back to the first host. A result of another generation changes nothing. */
  ghost predicate GivesUpRightly(r: Run, act: Action, stickiness: nat) {
    var s := Step(r, act, stickiness);
    && (s.inner.generation != r.inner.generation <==>
          && act.Failed? && act.generation == r.inner.generation
          && (Good !in r.marks || FailedFor(r.marks, act.now, stickiness)))
    && (s.inner.generation != r.inner.generation ==>
          && s.inner.generation == r.inner.generation + 1 && s.inner.client == None
          && s.inner.picker == if Good in r.marks then Reset(r.inner.picker) else r.inner.picker)
    && (!act.Ask? && act.generation != r.inner.generation ==> s == r)
    && (!act.Ask? && s.inner.generation == r.inner.generation ==>
      s.inner.client == r.inner.client && s.inner.picker == r.inner.picker)
  }

  /** In every run, every step gives up a server only rightly. */
  lemma Sticky(hosts: seq<string>, acts: seq<Action>, act: Action, stickiness: nat)
    ensures GivesUpRightly(Steps(Begin(hosts), acts, stickiness), act, stickiness)
  {
    RunRemembers(Begin(hosts), acts, stickiness);
  }

  lemma {:induction false} RunHosts(r: Run, acts: seq<Action>, stickiness: nat)
    ensures Steps(r, acts, stickiness).inner.picker.hosts == r.inner.picker.hosts
    decreases |acts|
  {
    if acts != [] { RunHosts(Step(r, acts[0], stickiness), acts[1..], stickiness); }
  }

  /** In every run, when a server that once worked is given up the next one asked for is the first
      address of the first host, under the next generation. */
  lemma RestartsAtFirst(hosts: seq<string>, acts: seq<Action>, act: Action, stickiness: nat,
                        resolve: Resolver, builds: Builder, answers: seq<seq<Address>>)
    requires Steady(hosts, resolve, answers)
    requires
      var r := Steps(Begin(hosts), acts, stickiness);
      Good in r.marks && Step(r, act, stickiness).inner.generation != r.inner.generation
    ensures
      var r := Steps(Begin(hosts), acts, stickiness);
      var first := answers[0][0];
      GetClient(Step(r, act, stickiness).inner, resolve, builds).1
        == if builds(first) then Some(Answer(first, r.inner.generation + 1)) else None
  {
    var r := Steps(Begin(hosts), acts, stickiness);
    Sticky(hosts, acts, act, stickiness);
    RunHosts(Begin(hosts), acts, stickiness);
    assert ResolvesTo(resolve, hosts[0], answers[0]);
    PickMoves(Step(r, act, stickiness).inner.picker, resolve, answers, Fresh);
  }

  // ---------------------------------------------------------------- one server a generation

  ghost predicate OneEach(r: Run) {
    && (forall i :: 0 <= i < |r.answers| ==> r.answers[i].generation <= r.inner.generation)
    && (forall i :: 0 <= i < |r.answers| && r.answers[i].generation == r.inner.generation ==>
      r.inner.client == Some(r.answers[i].server) && r.skipped == r.answers[i].skipped)
    && (forall i, j :: 0 <= i < j < |r.answers| && r.answers[i].generation == r.answers[j].generation ==>
      r.answers[i] == r.answers[j])
  }

  lemma StepOneEach(r: Run, act: Action, stickiness: nat)
    requires OneEach(r)
    ensures OneEach(Step(r, act, stickiness))
  {
  }

  lemma {:induction false} RunOneEach(r: Run, acts: seq<Action>, stickiness: nat)
    requires OneEach(r)
    ensures OneEach(Steps(r, acts, stickiness))
    decreases |acts|
  {
    if acts != [] {
      StepOneEach(r, acts[0], stickiness);
      RunOneEach(Step(r, acts[0], stickiness), acts[1..], stickiness);
    }
  }

  // ---------------------------------------------------------------- cycling

  /** Position on a cycle of `n` after `k` steps; a completed round counts as `n`. */
  function Spent(k: nat, n: nat): nat {
    if k <= n || n == 0 then k else Spent(k - n, n)
  }

  /** Entry `k` of a sequence repeated for ever. */
  function AtCycle(cycle: seq<Address>, k: nat): Address
    requires cycle != []
  {
    if k < |cycle| then cycle[k] else AtCycle(cycle, k - |cycle|)
  }

  lemma {:induction false} AtCycleIs(cycle: seq<Address>, k: nat)
    requires cycle != []
    ensures AtCycle(cycle, k) == cycle[k % |cycle|]
  {
    if k >= |cycle| {
      AtCycleIs(cycle, k - |cycle|);
      ModShift(k, |cycle|);
    }
  }

  lemma ModShift(k: nat, n: nat)
    requires 0 < n <= k
    ensures k % n == (k - n) % n
  {
    var q, m := (k - n) / n, (k - n) % n;
    assert k == n * (q + 1) + m;
    ModIs(k, n, q + 1, m);
  }

  /** The answer is as far round the cycle as generations and vain picks came before it. */
  ghost predicate OnCycle(answers: seq<seq<Address>>, a: Given) {
    All(answers) != [] && a.server == AtCycle(All(answers), a.generation + a.skipped)
  }

  /** Without a success, generation `g` tries address `g` of the cycle. */
  ghost predicate Cycling(r: Run, answers: seq<seq<Address>>, place: Place) {
    && At(r.inner.picker, answers, place) && !r.inner.hadSuccess && r.inner.firstFailAt.None?
    && All(answers) != []
    && Used(answers, place) == Spent(Picks(r), |All(answers)|)
    && (r.inner.client.Some? ==> OnCycle(answers, Given(r.inner.client.value, r.inner.generation, r.skipped)))
    && (forall i :: 0 <= i < |r.answers| ==> OnCycle(answers, r.answers[i]))
  }

  /** How often the picker was asked. */
  function Picks(r: Run): nat {
    r.inner.generation + r.skipped + if r.inner.client.Some? then 1 else 0
  }

  /** An action in a run where nothing succeeds and every host always has the same addresses. */
  ghost predicate Unlucky(act: Action, hosts: seq<string>, answers: seq<seq<Address>>) {
    !act.Succeeded? && (act.Ask? ==> Steady(hosts, act.resolve, answers))
  }

  lemma SteadyNonEmpty(hosts: seq<string>, resolve: Resolver, answers: seq<seq<Address>>)
    requires Steady(hosts, resolve, answers)
    ensures forall h :: 0 <= h < |answers| ==> answers[h] != []
  {
    forall h | 0 <= h < |answers| ensures answers[h] != [] {
      assert ResolvesTo(resolve, hosts[h], answers[h]);
    }
  }

  lemma {:induction false} SpentNext(cycle: seq<Address>, k: nat)
    requires cycle != []
    ensures Spent(k, |cycle|) <= |cycle|
    ensures Spent(k + 1, |cycle|) == (if Spent(k, |cycle|) < |cycle| then Spent(k, |cycle|) else 0) + 1
    ensures AtCycle(cycle, k) == cycle[Spent(k + 1, |cycle|) - 1]
  {
    if k > |cycle| { SpentNext(cycle, k - |cycle|); }
  }

  lemma MulMonotone(n: nat, a: nat, b: nat)
    ensures a <= b ==> n * a <= n * b
  {
  }

  lemma ModIs(k: nat, n: nat, q: nat, m: nat)
    requires n > 0 && m < n && k == n * q + m
    ensures k % n == m
  {
    var d := k / n;
    MulMonotone(n, d + 1, q);
    MulMonotone(n, q + 1, d);
  }

  lemma RoundNext(answers: seq<seq<Address>>, place: Place, k: nat)
    requires |answers| > 0 && (forall h :: 0 <= h < |answers| ==> answers[h] != []) && Inside(answers, place)
    requires All(answers) != [] && Used(answers, place) == Spent(k, |All(answers)|)
    ensures Inside(answers, Next(answers, place)) && Next(answers, place).In?
    ensures Used(answers, Next(answers, place)) == Spent(k + 1, |All(answers)|)
    ensures answers[Next(answers, place).h][Next(answers, place).i - 1] == AtCycle(All(answers), k)
  {
    var next := Next(answers, place);
    NextRound(answers, place);
    SpentNext(All(answers), k);
    UsedAt(answers, next.h, next.i);
  }

  /** A pick of the `k`-th address, counted from 0, gives address `k` of the cycle. */
  lemma PickOnCycle(p: Picker, resolve: Resolver, answers: seq<seq<Address>>, place: Place, k: nat)
    returns (next: Place)
    requires Steady(p.hosts, resolve, answers) && At(p, answers, place)
    requires All(answers) != [] && Used(answers, place) == Spent(k, |All(answers)|)
    ensures At(PickNext(p, resolve).0, answers, next) && PickNext(p, resolve).0.hosts == p.hosts
    ensures PickNext(p, resolve).1 == Some(AtCycle(All(answers), k))
    ensures Used(answers, next) == Spent(k + 1, |All(answers)|)
  {
    next := Next(answers, place);
    SteadyNonEmpty(p.hosts, resolve, answers);
    RoundNext(answers, place, k);
    PickMoves(p, resolve, answers, place);
  }

  lemma FailCycles(r: Run, act: Action, answers: seq<seq<Address>>, place: Place, stickiness: nat)
    requires Cycling(r, answers, place) && act.Failed? && OneEach(r) && Possible(r, act)
    ensures Cycling(Step(r, act, stickiness), answers, place)
    ensures Step(r, act, stickiness).inner.picker == r.inner.picker
  {
  }

  /** What asking does when a server has to be picked. */
  lemma AskPicks(r: Run, resolve: Resolver, builds: Builder, server: Address, stickiness: nat)
    requires r.inner.client.None? && PickNext(r.inner.picker, resolve).1 == Some(server)
    ensures
      var s, moved := Step(r, Ask(resolve, builds), stickiness),
          r.inner.(picker := PickNext(r.inner.picker, resolve).0);
      if builds(server)
      then s == Run(moved.(client := Some(server)), r.answers + [Given(server, r.inner.generation, r.skipped)],
          r.marks, r.skipped)
      else s == Run(moved, r.answers, r.marks, r.skipped + 1)
  {
  }

  lemma AskKept(r: Run, resolve: Resolver, builds: Builder, server: Address, stickiness: nat)
    requires r.inner.client == Some(server)
    ensures Step(r, Ask(resolve, builds), stickiness)
         == r.(answers := r.answers + [Given(server, r.inner.generation, r.skipped)])
  {
  }

  lemma GivenOnCycle(answers: seq<seq<Address>>, given: seq<Given>, a: Given)
    requires (forall i :: 0 <= i < |given| ==> OnCycle(answers, given[i])) && OnCycle(answers, a)
    ensures forall i :: 0 <= i < |given + [a]| ==> OnCycle(answers, (given + [a])[i])
  {
  }

  lemma BuiltCycles(r: Run, answers: seq<seq<Address>>, place: Place, picker: Picker, next: Place, server: Address)
    requires Cycling(r, answers, place) && r.inner.client.None? && At(picker, answers, next)
    requires Used(answers, next) == Spent(Picks(r) + 1, |All(answers)|) && server == AtCycle(All(answers), Picks(r))
    ensures
      var a := Given(server, r.inner.generation, r.skipped);
      Cycling(Run(r.inner.(picker := picker, client := Some(server)), r.answers + [a], r.marks, r.skipped), answers,
          next)
  {
    GivenOnCycle(answers, r.answers, Given(server, r.inner.generation, r.skipped));
  }

  lemma VainCycles(r: Run, answers: seq<seq<Address>>, place: Place, picker: Picker, next: Place)
    requires Cycling(r, answers, place) && r.inner.client.None? && At(picker, answers, next)
    requires Used(answers, next) == Spent(Picks(r) + 1, |All(answers)|)
    ensures Cycling(Run(r.inner.(picker := picker), r.answers, r.marks, r.skipped + 1), answers, next)
  {
  }

  lemma AskCycles(r: Run, resolve: Resolver, builds: Builder, answers: seq<seq<Address>>, place: Place, stickiness: nat)
    returns (next: Place)
    requires Cycling(r, answers, place) && Steady(r.inner.picker.hosts, resolve, answers) && r.inner.client.None?
    ensures Cycling(Step(r, Ask(resolve, builds), stickiness), answers, next)
    ensures Step(r, Ask(resolve, builds), stickiness).inner.picker.hosts == r.inner.picker.hosts
  {
    next := PickOnCycle(r.inner.picker, resolve, answers, place, Picks(r));
    var picker, server := PickNext(r.inner.picker, resolve).0, AtCycle(All(answers), Picks(r));
    AskPicks(r, resolve, builds, server, stickiness);
    if builds(server) {
      BuiltCycles(r, answers, place, picker, next, server);
    } else {
      VainCycles(r, answers, place, picker, next);
    }
  }

  lemma StepCycles(r: Run, act: Action, hosts: seq<string>, answers: seq<seq<Address>>, place: Place, stickiness: nat)
    returns (next: Place)
    requires Cycling(r, answers, place) && r.inner.picker.hosts == hosts && Unlucky(act, hosts, answers)
    requires OneEach(r) && Possible(r, act)
    ensures Cycling(Step(r, act, stickiness), answers, next) && Step(r, act, stickiness).inner.picker.hosts == hosts
  {
    next := place;
    if act.Failed? {
      FailCycles(r, act, answers, place, stickiness);
    } else if r.inner.client.None? {
      next := AskCycles(r, act.resolve, act.builds, answers, place, stickiness);
    } else {
      var server := r.inner.client.value;
      AskKept(r, act.resolve, act.builds, server, stickiness);
      GivenOnCycle(answers, r.answers, Given(server, r.inner.generation, r.skipped));
    }
  }

  lemma {:induction false} RunCycles(r: Run, acts: seq<Action>, hosts: seq<string>, answers: seq<seq<Address>>,
                                     place: Place, stickiness: nat)
    requires Cycling(r, answers, place) && r.inner.picker.hosts == hosts && OneEach(r)
    requires AllPossible(r, acts, stickiness)
    requires forall i :: 0 <= i < |acts| ==> Unlucky(acts[i], hosts, answers)
    ensures forall a :: a in Steps(r, acts, stickiness).answers ==> OnCycle(answers, a)
    decreases |acts|
  {
    if acts != [] {
      var next := StepCycles(r, acts[0], hosts, answers, place, stickiness);
      StepOneEach(r, acts[0], stickiness);
      RunCycles(Step(r, acts[0], stickiness), acts[1..], hosts, answers, next, stickiness);
    }
  }

  /** With no success and steady lookups, whatever the interleaving, attempts go round the cycle of
      all addresses of all hosts: generation `g` is sent to address `g` of it, one further for
      each address passed over because no client could be built. */
  lemma AttemptsCycle(hosts: seq<string>, acts: seq<Action>, answers: seq<seq<Address>>, stickiness: nat)
    requires hosts != [] && |answers| == |hosts| && forall h :: 0 <= h < |answers| ==> answers[h] != []
    requires AllPossible(Begin(hosts), acts, stickiness)
    requires forall i :: 0 <= i < |acts| ==> Unlucky(acts[i], hosts, answers)
    ensures forall a :: a in Steps(Begin(hosts), acts, stickiness).answers ==> OnCycle(answers, a)
  {
    UsedAt(answers, 0, 1);
    RunCycles(Begin(hosts), acts, hosts, answers, Fresh, stickiness);
  }
}
