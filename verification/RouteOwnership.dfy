/**
 The route-ownership rule in terms of addresses: every address of a stored route
 lies within a grant of one active site_router, and no address belongs to routes
 of two owners.
 */
module RouteOwnership {
  import opened Basics
  import opened Ipv4
  import opened Canonical

  /** The owner that a route record names: the owner field, or the Node field when that is blank, and both if both are there. */
  predicate NamesOwner(record: RouteRecord, owner: string) {
    owner != "" && (record.nodeId == "" || Trim(record.nodeId) == owner) &&
    owner == if Trim(record.ownerNodeId) != "" then Trim(record.ownerNodeId) else Trim(record.nodeId)
  }

  /** The stored route claims the network for the owner. */
  predicate Claims(pf: Platform, entries: Entries, p: string, owner: string, net: Net) {
    p in entries && pf.decodeRoute(entries[p]).Some? &&
    var record := pf.decodeRoute(entries[p]).value;
    NamesOwner(record, owner) && UsableNet(pf.parsePrefix(Trim(record.cidr))) == Some(net)
  }

  /** The authorized routes of a Node or, when it has no such list, the advertised ones. */
  function Granted(node: NodeRecord): seq<string> {
    match node.authorizedRoutes
    case Some(routes) => routes
    case None => node.advertisedRoutes
  }

  ghost predicate Grants(pf: Platform, grant: string, net: Net) {
    var granted := UsableNet(pf.parsePrefix(grant));
    granted.Some? && forall a: Addr :: Contains(net, a) ==> Contains(granted.value, a)
  }

  /** The owner's stored Node is an unrevoked site_router with a grant that holds all addresses of the network. */
  ghost predicate Entitled(pf: Platform, entries: Entries, owner: string, net: Net) {
    var path := "control/nodes/" + owner + ".json";
    path in entries && pf.decodeNode(entries[path]).Some? &&
    var node := pf.decodeNode(entries[path]).value;
    Trim(node.nodeId) == owner && !node.revoked && "site_router" in node.roles &&
    exists i :: 0 <= i < |Granted(node)| && Grants(pf, Granted(node)[i], net)
  }

  /** A network of which another is no prefix has an address outside of that one. */
  lemma SomeAddressOutside(outer: Net, inner: Net) returns (a: Addr)
    requires !(outer <= inner)
    ensures Contains(inner, a) && !Contains(outer, a)
  {
    if |inner| < |outer| {
      a := inner + [!outer[|inner|]] + seq(31 - |inner|, _ => false);
      assert a[|inner|] != outer[|inner|];
    } else {
      a := Host(inner);
      assert a[..|outer|] == inner[..|outer|];
    }
  }

  /** A network lies within another exactly when that one is a prefix of it. */
  lemma PrefixIffWithin(outer: Net, inner: Net)
    ensures outer <= inner <==> forall a: Addr :: Contains(inner, a) ==> Contains(outer, a)
  {
    if !(outer <= inner) {
      var a := SomeAddressOutside(outer, inner);
    }
  }

  lemma ClaimIsNamed(pf: Platform, entries: Entries, p: string)
    requires p in entries
    ensures forall owner, net :: Claims(pf, entries, p, owner, net) <==> ClaimOf(pf, entries[p]) == Some(Claim(owner, net))
  {
  }

  lemma GrantCoversIff(pf: Platform, grant: string, net: Net)
    ensures GrantCovers(pf, grant, net) <==> Grants(pf, grant, net)
  {
    var granted := UsableNet(pf.parsePrefix(grant));
    if granted.Some? {
      PrefixIffWithin(granted.value, net);
    }
  }

  lemma NodePathIs(owner: string)
    ensures NodePath(owner) == "control/nodes/" + owner + ".json"
  {
  }

  lemma BackedIffEntitled(pf: Platform, entries: Entries, owner: string, net: Net)
    ensures Backed(pf, entries, Claim(owner, net)) <==> Entitled(pf, entries, owner, net)
  {
    hide GrantCovers, Grants;
    NodePathIs(owner);
    if NodePath(owner) in entries && pf.decodeNode(entries[NodePath(owner)]).Some? {
      var node := pf.decodeNode(entries[NodePath(owner)]).value;
      assert Granted(node) == GrantsOf(node);
      forall i | 0 <= i < |GrantsOf(node)|
        ensures GrantCovers(pf, GrantsOf(node)[i], net) <==> Grants(pf, GrantsOf(node)[i], net)
      {
        GrantCoversIff(pf, GrantsOf(node)[i], net);
      }
    }
  }

  /** A route that claims a network for an owner who is entitled to it. */
  ghost predicate Legitimate(pf: Platform, entries: Entries, p: string) {
    exists owner, net :: Claims(pf, entries, p, owner, net) && Entitled(pf, entries, owner, net)
  }

  lemma BackedIffLegitimate(pf: Platform, entries: Entries, p: string)
    requires p in entries
    ensures ClaimBacked(pf, entries[p], entries) <==> Legitimate(pf, entries, p)
  {
    hide Claims, Entitled, Backed;
    ClaimIsNamed(pf, entries, p);
    var claim := ClaimOf(pf, entries[p]);
    if claim.Some? {
      var owner, net := claim.value.owner, claim.value.net;
      assert claim.value == Claim(owner, net);
      BackedIffEntitled(pf, entries, owner, net);
    }
    if Legitimate(pf, entries, p) {
      var owner, net :| Claims(pf, entries, p, owner, net) && Entitled(pf, entries, owner, net);
      BackedIffEntitled(pf, entries, owner, net);
    }
  }

  predicate BothClaim(pf: Platform, entries: Entries, p: string, x: string, m: Net, q: string, y: string, n: Net, a: Addr) {
    IsRoute(p) && IsRoute(q) && Claims(pf, entries, p, x, m) && Claims(pf, entries, q, y, n) && Contains(m, a) && Contains(n, a)
  }

  /** No address is claimed by routes of two owners. */
  ghost predicate OneOwnerPerAddress(pf: Platform, entries: Entries) {
    forall p, q, a: Addr, x, m, y, n :: BothClaim(pf, entries, p, x, m, q, y, n, a) ==> x == y
  }

  lemma ClaimsAreStored(pf: Platform, entries: Entries, p: string, owner: string, net: Net)
    requires Claims(pf, entries, p, owner, net)
    ensures p in entries && ClaimOf(pf, entries[p]) == Some(Claim(owner, net))
  {
    ClaimIsNamed(pf, entries, p);
  }

  lemma OwnedMeansOneOwner(pf: Platform, entries: Entries)
    requires RoutesOwned(pf, entries)
    ensures OneOwnerPerAddress(pf, entries)
  {
    hide Claims;
    forall p, q, a: Addr, x, m, y, n | BothClaim(pf, entries, p, x, m, q, y, n, a)
      ensures x == y
    {
      ClaimsAreStored(pf, entries, p, x, m);
      ClaimsAreStored(pf, entries, q, y, n);
      OverlapIsSharedAddress(m, n);
      assert Compatible(Claim(x, m), Claim(y, n));
    }
  }

  lemma OneOwnerIsCompatible(pf: Platform, entries: Entries, p: string, q: string)
    requires OneOwnerPerAddress(pf, entries) && p in entries && q in entries && IsRoute(p) && IsRoute(q)
    requires ClaimOf(pf, entries[p]).Some? && ClaimOf(pf, entries[q]).Some?
    ensures Compatible(ClaimOf(pf, entries[p]).value, ClaimOf(pf, entries[q]).value)
  {
    hide Claims;
    ClaimIsNamed(pf, entries, p);
    ClaimIsNamed(pf, entries, q);
    var a, b := ClaimOf(pf, entries[p]).value, ClaimOf(pf, entries[q]).value;
    assert Claims(pf, entries, p, a.owner, a.net) && Claims(pf, entries, q, b.owner, b.net);
    OverlapIsSharedAddress(a.net, b.net);
    if x: Addr :| Contains(a.net, x) && Contains(b.net, x) {
      assert BothClaim(pf, entries, p, a.owner, a.net, q, b.owner, b.net, x);
    }
  }

  /**
   The rule that the state machine enforces holds if and only if every stored
   route is legitimate and no address is claimed by routes of two owners.
   */
  lemma RuleByAddresses(pf: Platform, entries: Entries)
    ensures RoutesOwned(pf, entries) <==>
      (forall p :: p in entries && IsRoute(p) ==> Legitimate(pf, entries, p)) && OneOwnerPerAddress(pf, entries)
  {
    hide Legitimate, OneOwnerPerAddress, ClaimBacked, ClaimOf, Compatible;
    forall p | p in entries && IsRoute(p)
      ensures ClaimBacked(pf, entries[p], entries) <==> Legitimate(pf, entries, p)
    {
      BackedIffLegitimate(pf, entries, p);
    }
    if RoutesOwned(pf, entries) {
      OwnedMeansOneOwner(pf, entries);
    }
    if OneOwnerPerAddress(pf, entries) {
      forall p, q | p in entries && IsRoute(p) && q in entries && IsRoute(q) && ClaimOf(pf, entries[p]).Some? && ClaimOf(pf, entries[q]).Some?
        ensures Compatible(ClaimOf(pf, entries[p]).value, ClaimOf(pf, entries[q]).value)
      {
        OneOwnerIsCompatible(pf, entries, p, q);
      }
    }
  }
}
