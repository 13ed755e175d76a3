/** Choosing the next server address: hosts in order, the addresses of a host in sorted order. */
module AddrPicking {
  import opened RangeSets

  type Address = nat

  // ---------------------------------------------------------------- sorting

  predicate Sorted(s: seq<Address>) {
    |s| <= 1 || (s[0] <= s[1] && Sorted(s[1..]))
  }

  function Insert(a: Address, s: seq<Address>): (r: seq<Address>)
    ensures |r| == |s| + 1 && r[0] == if s == [] || a <= s[0] then a else s[0]
  {
    if s == [] || a <= s[0] then [a] + s else [s[0]] + Insert(a, s[1..])
  }

  lemma {:induction false} InsertSorted(a: Address, s: seq<Address>)
    requires Sorted(s)
    ensures Sorted(Insert(a, s))
  {
    if s == [] || a <= s[0] {
      assert ([a] + s)[1..] == s;
    } else {
      InsertSorted(a, s[1..]);
      assert Insert(a, s)[1..] == Insert(a, s[1..]);
    }
  }

  lemma {:induction false} InsertMembers(a: Address, s: seq<Address>)
    ensures multiset(Insert(a, s)) == multiset(s) + multiset{a}
  {
    if s != [] && a > s[0] {
      InsertMembers(a, s[1..]);
      assert s == [s[0]] + s[1..];
    }
  }

  /** The same addresses, in order. */
  function Sort(s: seq<Address>): (r: seq<Address>)
    ensures Sorted(r) && multiset(r) == multiset(s) && |r| == |s|
  {
    if s == [] then [] else
      var rest := Sort(s[1..]);
      assert s == [s[0]] + s[1..];
      InsertSorted(s[0], rest);
      InsertMembers(s[0], rest);
      Insert(s[0], rest)
  }

  // ---------------------------------------------------------------- the picker

  /** `resolved` and `nextResolved`: the addresses of the last host and how many were used. */
  datatype Picker = Picker(hosts: seq<string>, nextHost: nat, resolved: Option<seq<Address>>, nextResolved: nat)

  /** What parsing or looking up a host gives at this moment; nothing for a bad or failing host. */
  type Resolver = string -> Option<seq<Address>>

  function Addresses(p: Picker): seq<Address> {
    if p.resolved.Some? then p.resolved.value else []
  }

  function Take(p: Picker): (Picker, Option<Address>) {
    if p.nextResolved < |Addresses(p)|
    then (p.(nextResolved := p.nextResolved + 1), Some(Addresses(p)[p.nextResolved]))
    else (p, None)
  }

  function PickNext(p: Picker, resolve: Resolver): (Picker, Option<Address>) {
    if p.nextResolved < |Addresses(p)| then Take(p)
    else if p.nextHost >= |p.hosts| then (p, None)
    else
      var moved := p.(nextHost := (p.nextHost + 1) % |p.hosts|);
      match resolve(p.hosts[p.nextHost])
      case None => (moved, None)
      case Some(found) => Take(moved.(resolved := Some(Sort(found)), nextResolved := 0))
  }

  function Reset(p: Picker): Picker {
    p.(nextHost := 0, resolved := None, nextResolved := 0)
  }

  class AddrPicker {
    const hosts: seq<string>
    var nextHost: nat
    var resolved: Option<seq<Address>>
    var nextResolved: nat

    constructor (hosts: seq<string>)
      ensures this.hosts == hosts && State() == Picker(hosts, 0, None, 0)
    {
      this.hosts, nextHost, resolved, nextResolved := hosts, 0, None, 0;
    }

    ghost function State(): Picker
      reads this
    {
      Picker(hosts, nextHost, resolved, nextResolved)
    }

    method Next(resolve: Resolver) returns (r: Option<Address>)
      modifies this
      ensures State() == PickNext(old(State()), resolve).0 && r == PickNext(old(State()), resolve).1
    {
      var size := if resolved.Some? then |resolved.value| else 0;
      if nextResolved >= size {
        if nextHost >= |hosts| { return None; }
        var host := hosts[nextHost];
        nextHost := (nextHost + 1) % |hosts|;
        var found := resolve(host);
        if found.None? { return None; }
        resolved := Some(Sort(found.value));
        nextResolved := 0;
      }
      if resolved.Some? && nextResolved < |resolved.value| {
        r := Some(resolved.value[nextResolved]);
        nextResolved := nextResolved + 1;
      } else {
        r := None;
      }
    }

    method Restart()
      modifies this
      ensures State() == Reset(old(State()))
    {
      nextHost, resolved, nextResolved := 0, None, 0;
    }
  }

  // ---------------------------------------------------------------- the cycle

  /** Every host resolves, always to the same addresses: `answers`, once sorted. */
  ghost predicate Steady(hosts: seq<string>, resolve: Resolver, answers: seq<seq<Address>>) {
    hosts != [] && |answers| == |hosts| && forall h :: 0 <= h < |hosts| ==> ResolvesTo(resolve, hosts[h], answers[h])
  }

  ghost predicate ResolvesTo(resolve: Resolver, host: string, answer: seq<Address>) {
    answer != [] && resolve(host).Some? && Sort(resolve(host).value) == answer
  }

  /** The addresses of the first `h` hosts, in the order in which they are tried. */
  function Cycle(answers: seq<seq<Address>>, h: nat): seq<Address>
    requires h <= |answers|
  {
    if h == 0 then [] else Cycle(answers, h - 1) + answers[h - 1]
  }

  function All(answers: seq<seq<Address>>): seq<Address> {
    Cycle(answers, |answers|)
  }

  lemma {:induction false} CyclePrefix(answers: seq<seq<Address>>, h: nat, k: nat)
    requires h <= k <= |answers|
    ensures Cycle(answers, h) <= Cycle(answers, k)
    decreases k
  {
    if h < k { CyclePrefix(answers, h, k - 1); }
  }

  /** The addresses of host `h` sit together in the cycle. */
  lemma CycleAt(answers: seq<seq<Address>>, h: nat, i: nat)
    requires h < |answers| && i < |answers[h]|
    ensures |Cycle(answers, h)| + i < |All(answers)| && All(answers)[|Cycle(answers, h)| + i] == answers[h][i]
  {
    CyclePrefix(answers, h + 1, |answers|);
    var upTo := Cycle(answers, h + 1);
    assert upTo[|Cycle(answers, h)| + i] == answers[h][i];
  }

  function Follow(h: nat, n: nat): nat {
    if h + 1 < n then h + 1 else 0
  }

  lemma FollowIsMod(h: nat, n: nat)
    requires h < n
    ensures (h + 1) % n == Follow(h, n)
  {
  }

  /** The first `i` addresses of host `h` have been used, or none at all yet. */
  datatype Place = Fresh | In(h: nat, i: nat)

  ghost predicate At(p: Picker, answers: seq<seq<Address>>, place: Place) {
    && |p.hosts| == |answers| > 0
    && match place
       case Fresh => p.nextHost == 0 && p.resolved.None? && p.nextResolved == 0
       case In(h, i) =>
         && h < |answers| && p.nextHost == Follow(h, |answers|) && p.resolved == Some(answers[h])
         && p.nextResolved == i && 0 < i <= |answers[h]|
  }

  /** How many addresses of the cycle have been used. */
  function Used(answers: seq<seq<Address>>, place: Place): nat
    requires place.In? ==> place.h <= |answers|
  {
    if place.Fresh? then 0 else |Cycle(answers, place.h)| + place.i
  }

  function Next(answers: seq<seq<Address>>, place: Place): Place {
    if place.Fresh? || place.h >= |answers| then In(0, 1)
    else if place.i < |answers[place.h]| then In(place.h, place.i + 1)
    else In(Follow(place.h, |answers|), 1)
  }

  lemma PickHost(p: Picker, resolve: Resolver, answer: seq<Address>)
    requires p.nextResolved >= |Addresses(p)| && p.nextHost < |p.hosts|
    requires ResolvesTo(resolve, p.hosts[p.nextHost], answer)
    ensures PickNext(p, resolve) == (Picker(p.hosts, (p.nextHost + 1) % |p.hosts|, Some(answer), 1), Some(answer[0]))
  {
  }

  /** With steady hosts, each pick moves one place on and gives the address found there. */
  lemma PickMoves(p: Picker, resolve: Resolver, answers: seq<seq<Address>>, place: Place)
    requires Steady(p.hosts, resolve, answers) && At(p, answers, place)
    ensures var next := Next(answers, place);
      && At(PickNext(p, resolve).0, answers, next)
      && PickNext(p, resolve).1 == Some(answers[next.h][next.i - 1])
      && PickNext(p, resolve).0.hosts == p.hosts
  {
    if place.Fresh? || place.i == |answers[place.h]| {
      PickHost(p, resolve, answers[p.nextHost]);
      FollowIsMod(p.nextHost, |answers|);
    }
  }

  predicate Inside(answers: seq<seq<Address>>, place: Place) {
    place.In? ==> place.h < |answers| && 0 < place.i <= |answers[place.h]|
  }

  lemma UsedAt(answers: seq<seq<Address>>, h: nat, i: nat)
    requires h < |answers| && 0 < i <= |answers[h]|
    ensures Used(answers, In(h, i)) <= |All(answers)| && All(answers)[Used(answers, In(h, i)) - 1] == answers[h][i - 1]
    ensures i == |answers[h]| ==> Used(answers, In(h, i)) == |Cycle(answers, h + 1)|
  {
    CycleAt(answers, h, i - 1);
  }

  /** Moving one place on moves one step round the cycle. */
  lemma NextRound(answers: seq<seq<Address>>, place: Place)
    requires |answers| > 0 && (forall h :: 0 <= h < |answers| ==> answers[h] != []) && Inside(answers, place)
    ensures Inside(answers, Next(answers, place)) && Used(answers, place) <= |All(answers)|
    ensures Used(answers, Next(answers, place)) ==
      (if Used(answers, place) < |All(answers)| then Used(answers, place) else 0) + 1
  {
    var next := Next(answers, place);
    UsedAt(answers, next.h, next.i);
    if place.In? {
      UsedAt(answers, place.h, place.i);
    }
  }

  // ---------------------------------------------------------------- hosts that do not answer

  /** All addresses of the last host have been used. */
  predicate UsedUp(p: Picker) {
    p.nextResolved >= |Addresses(p)| && p.nextHost < |p.hosts|
  }

  predicate Alive(resolve: Resolver, host: string) {
    resolve(host).Some? && resolve(host).value != []
  }

  function HostAfter(h: nat, k: nat, n: nat): nat
    decreases k
  {
    if k == 0 then h else HostAfter(Follow(h, n), k - 1, n)
  }

  lemma {:induction false} HostAfterIs(h: nat, k: nat, n: nat)
    requires h < n && k <= n
    ensures HostAfter(h, k, n) == if h + k < n then h + k else h + k - n
    decreases k
  {
    if k > 0 {
      HostAfterIs(Follow(h, n), k - 1, n);
    }
  }

  function PickTimes(p: Picker, resolve: Resolver, k: nat): Picker
    decreases k
  {
    if k == 0 then p else PickTimes(PickNext(p, resolve).0, resolve, k - 1)
  }

  /** A host that gives no address is passed over for good, until its turn comes again. */
  lemma DeadHost(p: Picker, resolve: Resolver)
    requires UsedUp(p) && !Alive(resolve, p.hosts[p.nextHost])
    ensures PickNext(p, resolve).1 == None
    ensures
      var q := PickNext(p, resolve).0;
      UsedUp(q) && q.hosts == p.hosts && q.nextHost == Follow(p.nextHost, |p.hosts|)
  {
    FollowIsMod(p.nextHost, |p.hosts|);
    if resolve(p.hosts[p.nextHost]).Some? { assert Sort([]) == []; }
  }

  /** A host that answers is tried from its least address on. */
  lemma AliveHost(p: Picker, resolve: Resolver)
    requires UsedUp(p) && Alive(resolve, p.hosts[p.nextHost])
    ensures PickNext(p, resolve).1 == Some(Sort(resolve(p.hosts[p.nextHost]).value)[0])
  {
  }

  /** The picks before the first host that answers give nothing; that one is found. */
  lemma {:induction false} PassesDeadHosts(p: Picker, resolve: Resolver, k: nat) returns (j: nat)
    requires UsedUp(p) && HostAfter(p.nextHost, k, |p.hosts|) < |p.hosts|
    requires Alive(resolve, p.hosts[HostAfter(p.nextHost, k, |p.hosts|)])
    ensures j <= k && PickNext(PickTimes(p, resolve, j), resolve).1.Some?
    ensures forall i: nat :: i < j ==> PickNext(PickTimes(p, resolve, i), resolve).1 == None
    decreases k
  {
    if Alive(resolve, p.hosts[p.nextHost]) {
      j := 0;
      AliveHost(p, resolve);
    } else {
      DeadHost(p, resolve);
      var q := PickNext(p, resolve).0;
      var i := PassesDeadHosts(q, resolve, k - 1);
      j := i + 1;
      forall x: nat | x < j ensures PickNext(PickTimes(p, resolve, x), resolve).1 == None {
        if x > 0 { assert PickTimes(p, resolve, x) == PickTimes(q, resolve, x - 1); }
      }
    }
  }

  /** If any host answers, one of as many picks as there are hosts gives an address. */
  lemma FindsAnAddress(p: Picker, resolve: Resolver, h: nat) returns (j: nat)
    requires UsedUp(p) && h < |p.hosts| && Alive(resolve, p.hosts[h])
    ensures j < |p.hosts| && PickNext(PickTimes(p, resolve, j), resolve).1.Some?
  {
    var n := |p.hosts|;
    var k := if h >= p.nextHost then h - p.nextHost else n - p.nextHost + h;
    HostAfterIs(p.nextHost, k, n);
    j := PassesDeadHosts(p, resolve, k);
  }
}
