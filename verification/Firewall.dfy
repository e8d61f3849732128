/**
 The forwarding chain that enforces Access. The chain is a list of rules built
 from the Devices and the addresses ever given to one; the kernel takes the
 first rule that matches a packet.
 */
module Firewall {
  import opened Basics
  import opened Ipv4
  import opened Access

  datatype Flow = Flow(source: Addr, destination: Addr)

  /** A packet with the addresses that opened its flow, if the flow is tracked. */
  datatype Packet = Packet(source: Addr, destination: Addr, origin: Option<Flow>, established: bool)

  datatype Target = Accept | Drop | MeshGuard

  /** A rule matches when every condition it states holds. */
  datatype Rule = Rule(
    source: Option<Net>,
    destination: Option<Net>,
    origSource: Option<Net>,
    origDestination: Option<Net>,
    established: bool,
    target: Target)

  const MATCH_ALL := Rule(None, None, None, None, false, Drop)

  predicate Within(net: Option<Net>, a: Addr) {
    net.None? || Contains(net.value, a)
  }

  predicate Matches(r: Rule, p: Packet) {
    Within(r.source, p.source) && Within(r.destination, p.destination) && (r.established ==> p.established) &&
    (r.origSource.Some? || r.origDestination.Some? ==> p.origin.Some?) &&
    (p.origin.Some? ==> Within(r.origSource, p.origin.value.source) && Within(r.origDestination, p.origin.value.destination))
  }

  datatype Fate = Accepted | Dropped | Passed

  /** First-match evaluation. The mesh guard chain can drop a packet but not accept it. */
  function Evaluate(rules: seq<Rule>, guarded: Packet -> bool, p: Packet): Fate {
    if rules == [] then Passed
    else if Matches(rules[0], p) && rules[0].target == Accept then Accepted
    else if Matches(rules[0], p) && rules[0].target == Drop then Dropped
    else if Matches(rules[0], p) && guarded(p) then Dropped
    else Evaluate(rules[1..], guarded, p)
  }

  lemma {:induction false} EvaluateJoin(a: seq<Rule>, b: seq<Rule>, guarded: Packet -> bool, p: Packet)
    ensures Evaluate(a + b, guarded, p) ==
      if Evaluate(a, guarded, p) != Passed then Evaluate(a, guarded, p) else Evaluate(b, guarded, p)
  {
    if a == [] {
      assert a + b == b;
    } else {
      assert (a + b)[1..] == a[1..] + b;
      EvaluateJoin(a[1..], b, guarded, p);
    }
  }

  // ---------------------------------------------------------------- blocks of rules

  datatype Kind = Either | Origin | OrigTarget

  function DropRules(a: Addr, kind: Kind): seq<Rule> {
    match kind
    case Either => [MATCH_ALL.(source := Some(a)), MATCH_ALL.(destination := Some(a))]
    case Origin => [MATCH_ALL.(origSource := Some(a))]
    case OrigTarget => [MATCH_ALL.(origDestination := Some(a))]
  }

  predicate Hits(p: Packet, a: Addr, kind: Kind) {
    match kind
    case Either => p.source == a || p.destination == a
    case Origin => p.origin.Some? && p.origin.value.source == a
    case OrigTarget => p.origin.Some? && p.origin.value.destination == a
  }

  function Drops(addrs: seq<Addr>, kind: Kind): seq<Rule> {
    if addrs == [] then [] else Drops(addrs[..|addrs| - 1], kind) + DropRules(addrs[|addrs| - 1], kind)
  }

  predicate HitsAny(p: Packet, addrs: seq<Addr>, kind: Kind) {
    exists a :: a in addrs && Hits(p, a, kind)
  }

  lemma DropsOne(a: Addr, kind: Kind, guarded: Packet -> bool, p: Packet)
    ensures Evaluate(DropRules(a, kind), guarded, p) == if Hits(p, a, kind) then Dropped else Passed
  {
    var rules := DropRules(a, kind);
    assert Contains(a, p.source) <==> a == p.source;
    assert Contains(a, p.destination) <==> a == p.destination;
    if p.origin.Some? {
      assert Contains(a, p.origin.value.source) <==> a == p.origin.value.source;
      assert Contains(a, p.origin.value.destination) <==> a == p.origin.value.destination;
    }
    if kind == Either {
      var from, to := MATCH_ALL.(source := Some(a)), MATCH_ALL.(destination := Some(a));
      EvaluateJoin([from], [to], guarded, p);
      assert rules == [from] + [to];
      assert [from][1..] == [] && [to][1..] == [];
    } else {
      assert rules[1..] == [];
    }
  }

  lemma {:induction false} DropsHit(addrs: seq<Addr>, kind: Kind, guarded: Packet -> bool, p: Packet)
    ensures Evaluate(Drops(addrs, kind), guarded, p) == if HitsAny(p, addrs, kind) then Dropped else Passed
  {
    if addrs != [] {
      var n := |addrs| - 1;
      DropsHit(addrs[..n], kind, guarded, p);
      DropsOne(addrs[n], kind, guarded, p);
      EvaluateJoin(Drops(addrs[..n], kind), DropRules(addrs[n], kind), guarded, p);
      assert addrs == addrs[..n] + [addrs[n]];
    }
  }

  /** One Device address with the networks its holder may reach. */
  datatype Grant = Grant(address: Addr, routes: seq<Net>)

  function PermitRule(address: Addr, route: Net, outward: bool): Rule {
    if outward then MATCH_ALL.(origSource := Some(address), origDestination := Some(route), target := Accept)
    else MATCH_ALL.(origDestination := Some(address), origSource := Some(route), target := Accept)
  }

  function Permits(address: Addr, routes: seq<Net>, outward: bool): seq<Rule> {
    if routes == [] then []
    else Permits(address, routes[..|routes| - 1], outward) + [PermitRule(address, routes[|routes| - 1], outward)]
  }

  /** The flow runs between the address and one of its networks, in the given direction. */
  predicate Covers(g: Grant, p: Packet, outward: bool) {
    p.origin.Some? &&
    var f := p.origin.value;
    if outward then f.source == g.address && InAny(g.routes, f.destination)
    else f.destination == g.address && InAny(g.routes, f.source)
  }

  lemma {:induction false} PermitsCover(g: Grant, outward: bool, guarded: Packet -> bool, p: Packet)
    ensures Evaluate(Permits(g.address, g.routes, outward), guarded, p) == if Covers(g, p, outward) then Accepted else Passed
    decreases |g.routes|
  {
    if g.routes != [] {
      var n := |g.routes| - 1;
      var rest := g.(routes := g.routes[..n]);
      var rule := PermitRule(g.address, g.routes[n], outward);
      PermitsCover(rest, outward, guarded, p);
      EvaluateJoin(Permits(g.address, rest.routes, outward), [rule], guarded, p);
      assert [rule][1..] == [];
      if p.origin.Some? {
        var f := p.origin.value;
        assert Contains(g.address, f.source) <==> g.address == f.source;
        assert Contains(g.address, f.destination) <==> g.address == f.destination;
        assert g.routes == rest.routes + [g.routes[n]];
        InAnyJoin(rest.routes, [g.routes[n]], f.source);
        InAnyJoin(rest.routes, [g.routes[n]], f.destination);
        assert [g.routes[n]][0] == g.routes[n];
      }
    }
  }

  /** Outward rules: a Device's permits, then a drop for everything else it opens. */
  function Outward(grants: seq<Grant>): seq<Rule> {
    if grants == [] then []
    else
      var g := grants[|grants| - 1];
      Outward(grants[..|grants| - 1]) + (Permits(g.address, g.routes, true) + DropRules(g.address, Origin))
  }

  /** The first grant of an address; later ones are shadowed by its drop. */
  function FirstGrant(grants: seq<Grant>, a: Addr): (r: Option<Grant>)
    ensures r.Some? ==> r.value in grants && r.value.address == a
    ensures r.None? ==> forall g :: g in grants ==> g.address != a
  {
    if grants == [] then None
    else
      var n := |grants| - 1;
      var first := FirstGrant(grants[..n], a);
      assert grants == grants[..n] + [grants[n]];
      if first.Some? then first else if grants[n].address == a then Some(grants[n]) else None
  }

  function OutwardFate(grants: seq<Grant>, p: Packet): Fate {
    if p.origin.None? || FirstGrant(grants, p.origin.value.source).None? then Passed
    else if Covers(FirstGrant(grants, p.origin.value.source).value, p, true) then Accepted
    else Dropped
  }

  lemma {:induction false} OutwardIsFirstGrant(grants: seq<Grant>, guarded: Packet -> bool, p: Packet)
    ensures Evaluate(Outward(grants), guarded, p) == OutwardFate(grants, p)
  {
    if grants != [] {
      var n := |grants| - 1;
      var g := grants[n];
      OutwardIsFirstGrant(grants[..n], guarded, p);
      PermitsCover(g, true, guarded, p);
      DropsOne(g.address, Origin, guarded, p);
      EvaluateJoin(Permits(g.address, g.routes, true), DropRules(g.address, Origin), guarded, p);
      EvaluateJoin(Outward(grants[..n]), Permits(g.address, g.routes, true) + DropRules(g.address, Origin), guarded, p);
    }
  }

  /** Inward rules: flows that a Device's networks open towards it. */
  function Inward(grants: seq<Grant>): seq<Rule> {
    if grants == [] then []
    else
      var g := grants[|grants| - 1];
      Inward(grants[..|grants| - 1]) + Permits(g.address, g.routes, false)
  }

  predicate InwardCovered(grants: seq<Grant>, p: Packet) {
    exists g :: g in grants && Covers(g, p, false)
  }

  lemma {:induction false} InwardIsAnyGrant(grants: seq<Grant>, guarded: Packet -> bool, p: Packet)
    ensures Evaluate(Inward(grants), guarded, p) == if InwardCovered(grants, p) then Accepted else Passed
  {
    if grants != [] {
      var n := |grants| - 1;
      InwardIsAnyGrant(grants[..n], guarded, p);
      PermitsCover(grants[n], false, guarded, p);
      EvaluateJoin(Inward(grants[..n]), Permits(grants[n].address, grants[n].routes, false), guarded, p);
      assert grants == grants[..n] + [grants[n]];
    }
  }

  // ---------------------------------------------------------------- the chain

  function Without(addrs: seq<Addr>, out: set<Addr>): (r: seq<Addr>)
    ensures forall a :: a in r <==> a in addrs && a !in out
  {
    if addrs == [] then []
    else
      var n := |addrs| - 1;
      assert addrs == addrs[..n] + [addrs[n]];
      Without(addrs[..n], out) + if addrs[n] in out then [] else [addrs[n]]
  }

  function Opening(mesh: bool, known: seq<Addr>, active: set<Addr>): seq<Rule> {
    (if mesh then [MATCH_ALL.(target := MeshGuard)] else []) + Drops(Without(known, active), Either)
  }

  function Addresses(grants: seq<Grant>): set<Addr> {
    set g | g in grants :: g.address
  }

  function Middle(known: seq<Addr>, grants: seq<Grant>): seq<Rule> {
    Drops(Without(known, Addresses(grants)), Origin)
  }

  function Closing(known: seq<Addr>): seq<Rule> {
    Drops(known, OrigTarget) + (Drops(known, Either) + [MATCH_ALL.(established := true, target := Accept)])
  }

  function Chain(mesh: bool, known: seq<Addr>, active: set<Addr>, grants: seq<Grant>): seq<Rule> {
    Opening(mesh, known, active) + (Outward(grants) + (Middle(known, grants) + (Inward(grants) + Closing(known))))
  }

  lemma OpeningDrops(mesh: bool, known: seq<Addr>, active: set<Addr>, guarded: Packet -> bool, p: Packet)
    ensures Evaluate(Opening(mesh, known, active), guarded, p) ==
      if (mesh && guarded(p)) || HitsAny(p, Without(known, active), Either) then Dropped else Passed
  {
    var guard := if mesh then [MATCH_ALL.(target := MeshGuard)] else [];
    DropsHit(Without(known, active), Either, guarded, p);
    EvaluateJoin(guard, Drops(Without(known, active), Either), guarded, p);
    if mesh {
      assert guard[1..] == [];
    }
  }

  predicate Touches(p: Packet, known: seq<Addr>) {
    HitsAny(p, known, Either) || HitsAny(p, known, Origin) || HitsAny(p, known, OrigTarget)
  }

  lemma ClosingDropsKnown(known: seq<Addr>, guarded: Packet -> bool, p: Packet)
    ensures Evaluate(Closing(known), guarded, p) ==
      if HitsAny(p, known, OrigTarget) || HitsAny(p, known, Either) then Dropped else if p.established then Accepted else Passed
  {
    var last := [MATCH_ALL.(established := true, target := Accept)];
    DropsHit(known, OrigTarget, guarded, p);
    DropsHit(known, Either, guarded, p);
    EvaluateJoin(Drops(known, Either), last, guarded, p);
    EvaluateJoin(Drops(known, OrigTarget), Drops(known, Either) + last, guarded, p);
    assert last[1..] == [];
  }

  /** When the chain accepts, written without the chain. */
  predicate Authorized(mesh: bool, known: seq<Addr>, active: set<Addr>, grants: seq<Grant>, guarded: Packet -> bool, p: Packet) {
    !(mesh && guarded(p)) && p.source !in Without(known, active) && p.destination !in Without(known, active) &&
    p.origin.Some? &&
    var f := p.origin.value;
    if f.source in Addresses(grants) then Covers(FirstGrant(grants, f.source).value, p, true)
    else f.source !in known && InwardCovered(grants, p)
  }

  function Combined(mesh: bool, known: seq<Addr>, active: set<Addr>, grants: seq<Grant>, guarded: Packet -> bool, p: Packet): Fate {
    if (mesh && guarded(p)) || HitsAny(p, Without(known, active), Either) then Dropped
    else if OutwardFate(grants, p) != Passed then OutwardFate(grants, p)
    else if HitsAny(p, Without(known, Addresses(grants)), Origin) then Dropped
    else if InwardCovered(grants, p) then Accepted
    else if HitsAny(p, known, OrigTarget) || HitsAny(p, known, Either) then Dropped
    else if p.established then Accepted else Passed
  }

  lemma FatesCombine(mesh: bool, known: seq<Addr>, active: set<Addr>, grants: seq<Grant>, guarded: Packet -> bool, p: Packet)
    requires Touches(p, known) && forall g :: g in grants ==> g.address in known
    ensures Combined(mesh, known, active, grants, guarded, p) ==
      if Authorized(mesh, known, active, grants, guarded, p) then Accepted else Dropped
  {
    var retired := Without(known, active);
    assert HitsAny(p, retired, Either) <==> p.source in retired || p.destination in retired by {
      if p.source in retired { assert Hits(p, p.source, Either); }
      if p.destination in retired { assert Hits(p, p.destination, Either); }
    }
    if p.origin.Some? {
      var f := p.origin.value;
      var gone := Without(known, Addresses(grants));
      assert HitsAny(p, gone, Origin) <==> f.source in gone by {
        if f.source in gone { assert Hits(p, f.source, Origin); }
      }
      assert HitsAny(p, known, Origin) <==> f.source in known by {
        if f.source in known { assert Hits(p, f.source, Origin); }
      }
      if g :| g in grants && g.address == f.source {
        assert f.source in Addresses(grants);
      }
    }
  }

  /**
   A packet that touches a known Device address is accepted exactly when the
   flow's opener holds a first grant for its destination or, if no Device
   address opened it, when a grant of its destination covers the opener.
   Everything else that touches such an address is dropped, so the final accept
   of established flows never decides it.
   */
  lemma KnownPacketsNeedGrants(mesh: bool, known: seq<Addr>, active: set<Addr>, grants: seq<Grant>,
                               guarded: Packet -> bool, p: Packet)
    requires Touches(p, known) && forall g :: g in grants ==> g.address in known
    ensures Evaluate(Chain(mesh, known, active, grants), guarded, p) ==
      if Authorized(mesh, known, active, grants, guarded, p) then Accepted else Dropped
  {
    var tail3 := Inward(grants) + Closing(known);
    var tail2 := Middle(known, grants) + tail3;
    var tail1 := Outward(grants) + tail2;
    EvaluateJoin(Opening(mesh, known, active), tail1, guarded, p);
    EvaluateJoin(Outward(grants), tail2, guarded, p);
    EvaluateJoin(Middle(known, grants), tail3, guarded, p);
    EvaluateJoin(Inward(grants), Closing(known), guarded, p);
    OpeningDrops(mesh, known, active, guarded, p);
    OutwardIsFirstGrant(grants, guarded, p);
    DropsHit(Without(known, Addresses(grants)), Origin, guarded, p);
    InwardIsAnyGrant(grants, guarded, p);
    ClosingDropsKnown(known, guarded, p);
    FatesCombine(mesh, known, active, grants, guarded, p);
  }

  // ---------------------------------------------------------------- building it

  datatype Client = Client(address: Addr, device: Device)

  method AppendDrops(rules: seq<Rule>, addrs: seq<Addr>, kind: Kind) returns (r: seq<Rule>)
    ensures r == rules + Drops(addrs, kind)
  {
    r := rules;
    for n := 0 to |addrs|
      invariant r == rules + Drops(addrs[..n], kind)
    {
      assert addrs[..n + 1][..n] == addrs[..n];
      r := r + DropRules(addrs[n], kind);
    }
    assert addrs[..|addrs|] == addrs;
  }

  method AppendPermits(rules: seq<Rule>, g: Grant, outward: bool) returns (r: seq<Rule>)
    ensures r == rules + Permits(g.address, g.routes, outward)
  {
    r := rules;
    for n := 0 to |g.routes|
      invariant r == rules + Permits(g.address, g.routes[..n], outward)
    {
      assert g.routes[..n + 1][..n] == g.routes[..n];
      r := r + [PermitRule(g.address, g.routes[n], outward)];
    }
    assert g.routes[..|g.routes|] == g.routes;
  }

  method AppendOutward(rules: seq<Rule>, grants: seq<Grant>) returns (r: seq<Rule>)
    ensures r == rules + Outward(grants)
  {
    r := rules;
    for n := 0 to |grants|
      invariant r == rules + Outward(grants[..n])
    {
      assert grants[..n + 1][..n] == grants[..n];
      r := AppendPermits(r, grants[n], true);
      r := r + DropRules(grants[n].address, Origin);
    }
    assert grants[..|grants|] == grants;
  }

  method AppendInward(rules: seq<Rule>, grants: seq<Grant>) returns (r: seq<Rule>)
    ensures r == rules + Inward(grants)
  {
    r := rules;
    for n := 0 to |grants|
      invariant r == rules + Inward(grants[..n])
    {
      assert grants[..n + 1][..n] == grants[..n];
      r := AppendPermits(r, grants[n], false);
    }
    assert grants[..|grants|] == grants;
  }

  lemma Regroup(a: seq<Rule>, b: seq<Rule>, c: seq<Rule>, d: seq<Rule>, e: seq<Rule>, f: seq<Rule>, g: seq<Rule>)
    ensures a + b + c + d + e + f + g == a + (b + (c + (d + (e + (f + g)))))
  {
  }

  method BuildChain(mesh: bool, known: seq<Addr>, active: set<Addr>, grants: seq<Grant>) returns (rules: seq<Rule>)
    ensures rules == Chain(mesh, known, active, grants)
  {
    rules := if mesh then [MATCH_ALL.(target := MeshGuard)] else [];
    rules := AppendDrops(rules, Without(known, active), Either);
    rules := AppendOutward(rules, grants);
    rules := AppendDrops(rules, Without(known, Addresses(grants)), Origin);
    rules := AppendInward(rules, grants);
    rules := AppendDrops(rules, known, OrigTarget);
    rules := AppendDrops(rules, known, Either);
    rules := rules + [MATCH_ALL.(established := true, target := Accept)];
    Regroup(Opening(mesh, known, active), Outward(grants), Middle(known, grants), Inward(grants),
            Drops(known, OrigTarget), Drops(known, Either), [MATCH_ALL.(established := true, target := Accept)]);
  }

  ghost predicate GrantsOf(grants: seq<Grant>, clients: seq<Client>) {
    |grants| == |clients| &&
    forall i :: 0 <= i < |clients| ==>
      grants[i].address == clients[i].address &&
      forall a: Addr :: InAny(grants[i].routes, a) <==> MayReach(clients[i].device, a)
  }

  /** Some active Device's Access covers the flow that the packet belongs to. */
  ghost predicate AccessCovers(clients: seq<Client>, p: Packet) {
    p.origin.Some? &&
    exists i :: 0 <= i < |clients| && Active(clients[i].device) &&
      ((clients[i].address == p.origin.value.source && MayReach(clients[i].device, p.origin.value.destination)) ||
       (clients[i].address == p.origin.value.destination && MayReach(clients[i].device, p.origin.value.source)))
  }

  ghost predicate ActiveAre(active: set<Addr>, clients: seq<Client>) {
    forall a :: a in active <==> exists i :: 0 <= i < |clients| && clients[i].address == a && Active(clients[i].device)
  }

  method ActiveAddresses(clients: seq<Client>) returns (active: set<Addr>)
    ensures ActiveAre(active, clients)
  {
    active := {};
    for n := 0 to |clients|
      invariant forall a :: a in active <==> exists i :: 0 <= i < n && clients[i].address == a && Active(clients[i].device)
    {
      if Active(clients[n].device) {
        active := active + {clients[n].address};
      }
    }
  }

  method GrantAll(clients: seq<Client>) returns (grants: seq<Grant>)
    ensures GrantsOf(grants, clients)
  {
    grants := [];
    for n := 0 to |clients|
      invariant GrantsOf(grants, clients[..n])
    {
      assert clients[..n + 1] == clients[..n] + [clients[n]];
      var routes := EffectiveNetworks(clients[n].device);
      grants := grants + [Grant(clients[n].address, routes)];
    }
    assert clients[..|clients|] == clients;
  }

  predicate DistinctAddresses(clients: seq<Client>) {
    forall i, j :: 0 <= i < j < |clients| ==> clients[i].address != clients[j].address
  }

  /** The Device with the address may reach the other end. */
  ghost predicate DeviceReaches(clients: seq<Client>, address: Addr, other: Addr) {
    exists i :: 0 <= i < |clients| && clients[i].address == address && MayReach(clients[i].device, other)
  }

  predicate IsClient(clients: seq<Client>, address: Addr) {
    exists i :: 0 <= i < |clients| && clients[i].address == address
  }

  /**
   Access permits the flow: the Device that opened it may reach its target or,
   when no known address opened it, its target may reach the opener.
   */
  ghost predicate FlowPermitted(clients: seq<Client>, known: seq<Addr>, p: Packet) {
    p.origin.Some? &&
    var f := p.origin.value;
    if IsClient(clients, f.source) then DeviceReaches(clients, f.source, f.destination)
    else f.source !in known && DeviceReaches(clients, f.destination, f.source)
  }

  predicate IsFirst(clients: seq<Client>, j: nat) {
    j < |clients| && forall k :: 0 <= k < j ==> clients[k].address != clients[j].address
  }

  /** The second record has the address of the first, which no record before that one has. */
  predicate ComesFirst(clients: seq<Client>, j: nat, i: nat) {
    IsFirst(clients, j) && i < |clients| && clients[i].address == clients[j].address
  }

  /** At every address the first Device record may reach everything that any record there may reach. */
  ghost predicate FirstReachesAll(clients: seq<Client>) {
    forall j: nat, i: nat, other: Addr ::
      ComesFirst(clients, j, i) && MayReach(clients[i].device, other) ==> MayReach(clients[j].device, other)
  }

  lemma {:induction false} FirstGrantIndex(grants: seq<Grant>, a: Addr) returns (j: nat)
    requires FirstGrant(grants, a).Some?
    ensures j < |grants| && FirstGrant(grants, a) == Some(grants[j]) && grants[j].address == a
    ensures forall k :: 0 <= k < j ==> grants[k].address != a
  {
    var n := |grants| - 1;
    if FirstGrant(grants[..n], a).Some? {
      j := FirstGrantIndex(grants[..n], a);
      assert forall k :: 0 <= k < n ==> grants[..n][k] == grants[k];
    } else {
      j := n;
      assert forall k :: 0 <= k < n ==> grants[k] in grants[..n];
    }
  }

  /** The first grant of an address is the one of its first Device record. */
  lemma FirstGrantIsFirst(grants: seq<Grant>, clients: seq<Client>, a: Addr) returns (j: nat)
    requires GrantsOf(grants, clients) && IsClient(clients, a)
    ensures IsFirst(clients, j) && clients[j].address == a && FirstGrant(grants, a) == Some(grants[j])
  {
    var i :| 0 <= i < |clients| && clients[i].address == a;
    assert grants[i] in grants;
    j := FirstGrantIndex(grants, a);
  }

  lemma FirstGrantReaches(grants: seq<Grant>, clients: seq<Client>, a: Addr, other: Addr)
    requires GrantsOf(grants, clients) && FirstReachesAll(clients)
    ensures FirstGrant(grants, a).Some? <==> IsClient(clients, a)
    ensures FirstGrant(grants, a).Some? ==>
      (InAny(FirstGrant(grants, a).value.routes, other) <==> DeviceReaches(clients, a, other))
  {
    if FirstGrant(grants, a).Some? {
      var i :| 0 <= i < |grants| && grants[i] == FirstGrant(grants, a).value;
      assert clients[i].address == a;
    }
    if IsClient(clients, a) {
      var j := FirstGrantIsFirst(grants, clients, a);
      assert InAny(grants[j].routes, other) <==> MayReach(clients[j].device, other);
      if DeviceReaches(clients, a, other) {
        var i: nat :| i < |clients| && clients[i].address == a && MayReach(clients[i].device, other);
        assert ComesFirst(clients, j, i);
      }
    }
  }

  lemma InwardReaches(grants: seq<Grant>, clients: seq<Client>, p: Packet)
    requires GrantsOf(grants, clients) && p.origin.Some?
    ensures InwardCovered(grants, p) <==> DeviceReaches(clients, p.origin.value.destination, p.origin.value.source)
  {
    if InwardCovered(grants, p) {
      var g :| g in grants && Covers(g, p, false);
      var i :| 0 <= i < |grants| && grants[i] == g;
    }
    if DeviceReaches(clients, p.origin.value.destination, p.origin.value.source) {
      var i :| 0 <= i < |clients| && clients[i].address == p.origin.value.destination && MayReach(clients[i].device, p.origin.value.source);
      assert grants[i] in grants && Covers(grants[i], p, false);
    }
  }

  /** What the chain accepts, in terms of Devices and their Access. */
  ghost predicate AcceptedByAccess(mesh: bool, known: seq<Addr>, active: set<Addr>, clients: seq<Client>, guarded: Packet -> bool, p: Packet) {
    !(mesh && guarded(p)) && (p.source in known ==> p.source in active) && (p.destination in known ==> p.destination in active) &&
    FlowPermitted(clients, known, p)
  }

  lemma FirstReachesAllIsExact(mesh: bool, known: seq<Addr>, active: set<Addr>, grants: seq<Grant>, clients: seq<Client>,
                               guarded: Packet -> bool, p: Packet)
    requires GrantsOf(grants, clients) && FirstReachesAll(clients)
    ensures Authorized(mesh, known, active, grants, guarded, p) <==> AcceptedByAccess(mesh, known, active, clients, guarded, p)
  {
    hide GrantsOf, FirstReachesAll;
    if p.origin.Some? {
      var f := p.origin.value;
      FirstGrantReaches(grants, clients, f.source, f.destination);
      InwardReaches(grants, clients, p);
      assert f.source in Addresses(grants) <==> FirstGrant(grants, f.source).Some?;
    }
  }

  lemma DistinctFirstReachesAll(clients: seq<Client>)
    requires DistinctAddresses(clients)
    ensures FirstReachesAll(clients)
  {
    forall j: nat, i: nat, other: Addr | ComesFirst(clients, j, i) && MayReach(clients[i].device, other)
      ensures MayReach(clients[j].device, other)
    {
      assert i == j;
    }
  }

  /** With one Device per address the chain enforces Access exactly. */
  lemma DistinctAddressesAreExact(mesh: bool, known: seq<Addr>, active: set<Addr>, grants: seq<Grant>, clients: seq<Client>,
                                  guarded: Packet -> bool, p: Packet)
    requires GrantsOf(grants, clients) && DistinctAddresses(clients)
    ensures Authorized(mesh, known, active, grants, guarded, p) <==> AcceptedByAccess(mesh, known, active, clients, guarded, p)
  {
    DistinctFirstReachesAll(clients);
    FirstReachesAllIsExact(mesh, known, active, grants, clients, guarded, p);
  }

  /** The chain accepts exactly what Access permits, of all packets that touch a known address and whatever the mesh guard does. */
  ghost predicate Exact(mesh: bool, known: seq<Addr>, active: set<Addr>, grants: seq<Grant>, clients: seq<Client>) {
    forall guarded: Packet -> bool, p: Packet :: Touches(p, known) ==>
      (Evaluate(Chain(mesh, known, active, grants), guarded, p) == Accepted <==>
       AcceptedByAccess(mesh, known, active, clients, guarded, p))
  }

  /** A flow that a later record at the address may open and the first may not is dropped. */
  lemma ShadowedFlowIsDropped(mesh: bool, known: seq<Addr>, active: set<Addr>, grants: seq<Grant>, clients: seq<Client>,
                              j: nat, i: nat, other: Addr)
    requires GrantsOf(grants, clients) && (forall g :: g in grants ==> g.address in known) && ActiveAre(active, clients)
    requires ComesFirst(clients, j, i) && MayReach(clients[i].device, other) && !MayReach(clients[j].device, other)
    ensures var a := clients[j].address;
            var p := Packet(a, a, Some(Flow(a, other)), true);
            Touches(p, known) && Evaluate(Chain(mesh, known, active, grants), _ => false, p) == Dropped &&
            AcceptedByAccess(mesh, known, active, clients, _ => false, p)
  {
    var a := clients[j].address;
    var p := Packet(a, a, Some(Flow(a, other)), true);
    assert grants[j] in grants && a in known && Hits(p, a, Either);
    assert clients[i].address == a && Active(clients[i].device);
    var first := FirstGrantIsFirst(grants, clients, a);
    assert first == j;
    assert grants[j].address in Addresses(grants);
    KnownPacketsNeedGrants(mesh, known, active, grants, _ => false, p);
  }

  lemma FirstReachesAllMakesExact(mesh: bool, known: seq<Addr>, active: set<Addr>, grants: seq<Grant>, clients: seq<Client>)
    requires GrantsOf(grants, clients) && (forall g :: g in grants ==> g.address in known) && FirstReachesAll(clients)
    ensures Exact(mesh, known, active, grants, clients)
  {
    hide GrantsOf, AcceptedByAccess, Authorized, Chain, Touches, Evaluate, FirstReachesAll;
    forall guarded: Packet -> bool, p: Packet | Touches(p, known)
      ensures Evaluate(Chain(mesh, known, active, grants), guarded, p) == Accepted <==>
              AcceptedByAccess(mesh, known, active, clients, guarded, p)
    {
      FirstReachesAllIsExact(mesh, known, active, grants, clients, guarded, p);
      KnownPacketsNeedGrants(mesh, known, active, grants, guarded, p);
    }
  }

  lemma ShadowingIsInexact(mesh: bool, known: seq<Addr>, active: set<Addr>, grants: seq<Grant>, clients: seq<Client>)
    requires GrantsOf(grants, clients) && (forall g :: g in grants ==> g.address in known) && ActiveAre(active, clients)
    requires !FirstReachesAll(clients)
    ensures !Exact(mesh, known, active, grants, clients)
  {
    hide GrantsOf, ActiveAre, AcceptedByAccess, Chain, Touches, Evaluate;
    var j: nat, i: nat, other: Addr :| ComesFirst(clients, j, i) && MayReach(clients[i].device, other) && !MayReach(clients[j].device, other);
    ShadowedFlowIsDropped(mesh, known, active, grants, clients, j, i, other);
  }

  /** The chain enforces Access exactly if and only if at every address the first record reaches all that any record there may reach. */
  lemma ExactIffFirstReachesAll(mesh: bool, known: seq<Addr>, active: set<Addr>, grants: seq<Grant>, clients: seq<Client>)
    requires GrantsOf(grants, clients) && (forall g :: g in grants ==> g.address in known) && ActiveAre(active, clients)
    ensures Exact(mesh, known, active, grants, clients) <==> FirstReachesAll(clients)
  {
    hide GrantsOf, ActiveAre, FirstReachesAll, Exact;
    if FirstReachesAll(clients) {
      FirstReachesAllMakesExact(mesh, known, active, grants, clients);
    } else {
      ShadowingIsInexact(mesh, known, active, grants, clients);
    }
  }

  /** An inactive Device record that comes first takes an active one's flows at the same address away. */
  lemma SharedAddressIsShadowed(address: Addr, other: Addr, off: Device, on: Device, grants: seq<Grant>, guarded: Packet -> bool)
    requires !Active(off) && MayReach(on, other) && other != address
    requires GrantsOf(grants, [Client(address, off), Client(address, on)])
    ensures var p := Packet(address, other, Some(Flow(address, other)), true);
            AccessCovers([Client(address, off), Client(address, on)], p) &&
            Evaluate(Chain(false, [address], {address}, grants), guarded, p) == Dropped
  {
    var clients := [Client(address, off), Client(address, on)];
    var p := Packet(address, other, Some(Flow(address, other)), true);
    assert clients[1].address == address && MayReach(clients[1].device, other);
    assert Hits(p, address, Either) && Touches(p, [address]);
    assert grants[..1] == [grants[0]] && grants[..1][..0] == [];
    assert FirstGrant(grants, address) == Some(grants[0]);
    assert grants[0] in grants && address in Addresses(grants);
    assert !MayReach(clients[0].device, other);
    KnownPacketsNeedGrants(false, [address], {address}, grants, guarded, p);
  }

  lemma AuthorizedMeansAccess(mesh: bool, known: seq<Addr>, active: set<Addr>, grants: seq<Grant>, clients: seq<Client>,
                              guarded: Packet -> bool, p: Packet)
    requires GrantsOf(grants, clients) && Authorized(mesh, known, active, grants, guarded, p)
    ensures AccessCovers(clients, p) && (mesh ==> !guarded(p))
    ensures (p.source in known ==> p.source in active) && (p.destination in known ==> p.destination in active)
  {
    var f := p.origin.value;
    if f.source in Addresses(grants) {
      var g := FirstGrant(grants, f.source).value;
      var i :| 0 <= i < |grants| && grants[i] == g;
      assert MayReach(clients[i].device, f.destination);
    } else {
      var g :| g in grants && Covers(g, p, false);
      var i :| 0 <= i < |grants| && grants[i] == g;
      assert MayReach(clients[i].device, f.source);
    }
  }

  /** Every address ever given to a Device, each once. */
  method KnownAddresses(previous: seq<Addr>, clients: seq<Client>, meshSources: seq<Addr>) returns (known: seq<Addr>)
    ensures forall a :: a in known <==> a in previous || a in meshSources || exists i :: 0 <= i < |clients| && clients[i].address == a
    ensures forall i, j :: 0 <= i < j < |known| ==> known[i] != known[j]
  {
    known := [];
    var all := previous + meshSources + seq(|clients|, i requires 0 <= i < |clients| => clients[i].address);
    for n := 0 to |all|
      invariant forall a :: a in known <==> a in all[..n]
      invariant forall i, j :: 0 <= i < j < |known| ==> known[i] != known[j]
    {
      assert all[..n + 1] == all[..n] + [all[n]];
      if all[n] !in known {
        known := known + [all[n]];
      }
    }
    assert all[..|all|] == all;
    forall i | 0 <= i < |clients|
      ensures clients[i].address in known
    {
      assert all[|previous| + |meshSources| + i] == clients[i].address;
    }
  }

  /**
   The installed chain. For every packet that touches an address ever given to
   a Device, acceptance means that an active Device's Access covers the flow and
   that neither end is a retired address; anything else is dropped.
   */
  method SyncAccessFirewall(mesh: bool, clients: seq<Client>, previous: seq<Addr>, meshSources: seq<Addr>)
    returns (rules: seq<Rule>, known: seq<Addr>, active: set<Addr>)
    ensures forall a :: a in previous || (mesh && a in meshSources) ==> a in known
    ensures forall i :: 0 <= i < |clients| ==> clients[i].address in known
    ensures ActiveAre(active, clients)
    ensures forall guarded: Packet -> bool, p: Packet :: Touches(p, known) ==> Evaluate(rules, guarded, p) != Passed
    ensures forall guarded: Packet -> bool, p: Packet :: Touches(p, known) && Evaluate(rules, guarded, p) == Accepted ==>
      AccessCovers(clients, p) && (mesh ==> !guarded(p)) &&
      (p.source in known ==> p.source in active) && (p.destination in known ==> p.destination in active)
    ensures FirstReachesAll(clients) <==> forall guarded: Packet -> bool, p: Packet :: Touches(p, known) ==>
      (Evaluate(rules, guarded, p) == Accepted <==> AcceptedByAccess(mesh, known, active, clients, guarded, p))
    ensures DistinctAddresses(clients) ==> FirstReachesAll(clients)
  {
    hide Chain, AcceptedByAccess, AccessCovers, Authorized, Evaluate, Touches, FirstReachesAll, DistinctAddresses;
    known := KnownAddresses(previous, clients, if mesh then meshSources else []);
    active := ActiveAddresses(clients);
    var grants := GrantAll(clients);
    rules := BuildChain(mesh, known, active, grants);
    assert forall g :: g in grants ==> g.address in known by {
      forall i | 0 <= i < |grants|
        ensures grants[i].address in known
      {
        assert clients[i].address in known;
      }
    }
    ExactIffFirstReachesAll(mesh, known, active, grants, clients);
    if DistinctAddresses(clients) {
      DistinctFirstReachesAll(clients);
    }
    forall guarded: Packet -> bool, p: Packet | Touches(p, known)
      ensures Evaluate(rules, guarded, p) == if Authorized(mesh, known, active, grants, guarded, p) then Accepted else Dropped
      ensures Authorized(mesh, known, active, grants, guarded, p) ==>
                AccessCovers(clients, p) && (mesh ==> !guarded(p)) &&
                (p.source in known ==> p.source in active) && (p.destination in known ==> p.destination in active)
    {
      KnownPacketsNeedGrants(mesh, known, active, grants, guarded, p);
      if Authorized(mesh, known, active, grants, guarded, p) {
        AuthorizedMeansAccess(mesh, known, active, grants, clients, guarded, p);
      }
    }
  }
}
