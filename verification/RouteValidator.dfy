/**
 The route-ownership validator as the state machine runs it: it simulates the
 operations on the route and Node records only, collects one claim per route and
 compares the claims pairwise. It decides the rule on the state that the real
 writes will produce, although it never sees that state.
 */
module RouteValidator {
  import opened Basics
  import opened Ipv4
  import opened Canonical

  predicate Records(result: Entries, entries: Entries, prefix: string) {
    (forall p :: p in result ==> p in entries && HasPrefix(p, prefix) && result[p] == entries[p]) &&
    (forall p :: p in entries && HasPrefix(p, prefix) ==> p in result)
  }

  /** The records under a prefix that the operations would leave. */
  method ResultingPrefixRecords(entries: Entries, prefix: string, ops: seq<Operation>) returns (result: Entries)
    requires forall i :: 0 <= i < |ops| ==> ops[i].op == "put" || ops[i].op == "delete"
    ensures Records(result, Writes(entries, ops), prefix)
  {
    result := map p | p in entries && HasPrefix(p, prefix) :: entries[p];
    for n := 0 to |ops|
      invariant Records(result, Writes(entries, ops[..n]), prefix)
    {
      assert ops[..n + 1][..n] == ops[..n];
      var op := ops[n];
      if HasPrefix(op.path, prefix) {
        if op.op == "put" {
          result := result[op.path := op.data];
        } else if op.op == "delete" {
          result := result - {op.path};
        }
      }
    }
    assert ops[..|ops|] == ops;
  }

  method Authorized(pf: Platform, grants: seq<string>, net: Net) returns (ok: bool)
    ensures ok <==> exists i :: 0 <= i < |grants| && GrantCovers(pf, grants[i], net)
  {
    ok := false;
    var n := 0;
    while n < |grants| && !ok
      invariant n <= |grants|
      invariant ok <==> exists i :: 0 <= i < n && GrantCovers(pf, grants[i], net)
    {
      ok := GrantCovers(pf, grants[n], net);
      n := n + 1;
    }
  }

  method CheckClaim(pf: Platform, raw: Bytes, nodes: Entries) returns (claim: Option<Claim>)
    ensures claim.Some? <==> ClaimBacked(pf, raw, nodes)
    ensures claim.Some? ==> claim == ClaimOf(pf, raw)
  {
    claim := ClaimOf(pf, raw);
    if claim.None? {
      return;
    }
    var path := NodePath(claim.value.owner);
    if path !in nodes {
      return None;
    }
    var node := pf.decodeNode(nodes[path]);
    if node.None? || !ActiveSiteRouter(node.value, claim.value.owner) {
      return None;
    }
    var ok := Authorized(pf, GrantsOf(node.value), claim.value.net);
    if !ok {
      return None;
    }
  }

  predicate NoConflict(claims: seq<Claim>) {
    forall i, j :: 0 <= i < j < |claims| ==> Compatible(claims[i], claims[j])
  }

  /** Every pair of claims collected so far is free of conflict. */
  method PairwiseCompatible(claims: seq<Claim>) returns (ok: bool)
    ensures ok <==> NoConflict(claims)
  {
    for i := 0 to |claims|
      invariant forall a, b :: 0 <= a < i && a < b < |claims| ==> Compatible(claims[a], claims[b])
    {
      for j := i + 1 to |claims|
        invariant forall b :: i < b < j ==> Compatible(claims[i], claims[b])
      {
        if !Compatible(claims[i], claims[j]) {
          return false;
        }
      }
    }
    return true;
  }

  /** Claims and the routes they came from, position by position. */
  predicate Collected(pf: Platform, routes: Entries, seen: seq<string>, claims: seq<Claim>) {
    |seen| == |claims| &&
    forall i :: 0 <= i < |seen| ==> seen[i] in routes && ClaimOf(pf, routes[seen[i]]) == Some(claims[i])
  }

  lemma CompatibleIsSymmetric(a: Claim, b: Claim)
    ensures Compatible(a, b) <==> Compatible(b, a)
  {
  }

  /** Claims of any two collected routes agree when no two claims conflict. */
  lemma CollectedAgree(pf: Platform, routes: Entries, seen: seq<string>, claims: seq<Claim>, p: string, q: string)
    requires Collected(pf, routes, seen, claims) && NoConflict(claims) && p in seen && q in seen
    ensures Compatible(ClaimOf(pf, routes[p]).value, ClaimOf(pf, routes[q]).value)
  {
    var i :| 0 <= i < |seen| && seen[i] == p;
    var j :| 0 <= j < |seen| && seen[j] == q;
    if j < i {
      CompatibleIsSymmetric(claims[j], claims[i]);
    }
  }

  lemma NodePathIsNode(owner: string)
    ensures HasPrefix(NodePath(owner), NODES)
  {
    assert NodePath(owner) == NODES + (owner + ".json");
  }

  lemma BackedByAllEntries(pf: Platform, entries: Entries, nodes: Entries, raw: Bytes)
    requires Records(nodes, entries, NODES) && ClaimBacked(pf, raw, nodes)
    ensures ClaimBacked(pf, raw, entries)
  {
    NodePathIsNode(ClaimOf(pf, raw).value.owner);
  }

  /** The rule holds when every route is backed and no claims conflict. */
  lemma CollectedMeansOwned(pf: Platform, entries: Entries, routes: Entries, nodes: Entries,
                            seen: seq<string>, claims: seq<Claim>)
    requires Records(routes, entries, ROUTES) && Records(nodes, entries, NODES)
    requires Collected(pf, routes, seen, claims) && NoConflict(claims)
    requires forall p :: p in routes ==> p in seen && ClaimBacked(pf, routes[p], nodes)
    ensures RoutesOwned(pf, entries)
  {
    forall p | p in entries && IsRoute(p)
      ensures ClaimBacked(pf, entries[p], entries)
    {
      assert p in routes;
      BackedByAllEntries(pf, entries, nodes, routes[p]);
    }
    forall p, q | p in entries && IsRoute(p) && q in entries && IsRoute(q)
      ensures ClaimOf(pf, entries[p]).Some? && ClaimOf(pf, entries[q]).Some? ==>
        Compatible(ClaimOf(pf, entries[p]).value, ClaimOf(pf, entries[q]).value)
    {
      assert p in routes && q in routes;
      CollectedAgree(pf, routes, seen, claims, p, q);
    }
  }

  lemma OwnedMeansNoConflict(pf: Platform, entries: Entries, routes: Entries, seen: seq<string>, claims: seq<Claim>)
    requires Records(routes, entries, ROUTES) && Collected(pf, routes, seen, claims) && RoutesOwned(pf, entries)
    ensures NoConflict(claims)
  {
    forall i, j | 0 <= i < j < |claims|
      ensures Compatible(claims[i], claims[j])
    {
      assert seen[i] in entries && seen[j] in entries && IsRoute(seen[i]) && IsRoute(seen[j]);
    }
  }

  /** One claim per route, or a route that is not backed. */
  method CollectClaims(pf: Platform, routes: Entries, nodes: Entries)
    returns (result: Option<seq<Claim>>, ghost seen: seq<string>, ghost unbacked: string)
    ensures result.Some? ==> Collected(pf, routes, seen, result.value)
    ensures result.Some? ==> forall p :: p in routes ==> p in seen && ClaimBacked(pf, routes[p], nodes)
    ensures result.None? ==> unbacked in routes && !ClaimBacked(pf, routes[unbacked], nodes)
  {
    var claims: seq<Claim>, pending := [], routes.Keys;
    seen, unbacked := [], "";
    while pending != {}
      invariant pending <= routes.Keys
      invariant Collected(pf, routes, seen, claims)
      invariant forall p :: p in routes && p !in pending ==> p in seen && ClaimBacked(pf, routes[p], nodes)
      decreases pending
    {
      var path :| path in pending;
      var claim := CheckClaim(pf, routes[path], nodes);
      if claim.None? {
        unbacked := path;
        return None, seen, unbacked;
      }
      claims, seen, pending := claims + [claim.value], seen + [path], pending - {path};
    }
    result := Some(claims);
  }

  /** A route that the Node records alone do not back breaks the rule. */
  lemma UnbackedBreaksRule(pf: Platform, entries: Entries, nodes: Entries, path: string)
    requires Records(nodes, entries, NODES)
    requires path in entries && IsRoute(path) && !ClaimBacked(pf, entries[path], nodes)
    ensures !RoutesOwned(pf, entries)
  {
    var claim := ClaimOf(pf, entries[path]);
    if claim.Some? {
      NodePathIsNode(claim.value.owner);
    }
  }

  /** Decides the route-ownership rule on the state the operations would produce. */
  method ValidateRouteOwnership(pf: Platform, entries: Entries, ops: seq<Operation>) returns (ok: bool)
    requires forall i :: 0 <= i < |ops| ==> ops[i].op == "put" || ops[i].op == "delete"
    ensures ok <==> RoutesOwned(pf, Writes(entries, ops))
  {
    var routes := ResultingPrefixRecords(entries, ROUTES, ops);
    var nodes := ResultingPrefixRecords(entries, NODES, ops);
    ghost var after := Writes(entries, ops);
    var claims, seen, unbacked := CollectClaims(pf, routes, nodes);
    if claims.None? {
      UnbackedBreaksRule(pf, after, nodes, unbacked);
      return false;
    }
    ok := PairwiseCompatible(claims.value);
    if ok {
      CollectedMeansOwned(pf, after, routes, nodes, seen, claims.value);
    } else if RoutesOwned(pf, after) {
      OwnedMeansNoConflict(pf, after, routes, seen, claims.value);
    }
  }
}
