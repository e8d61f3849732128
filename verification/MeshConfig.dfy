/**
 The routing configuration a Controller hands to a mesh Node: approved paths,
 owned routes, the overlay subnet and the policy lease.
 */
module MeshConfig {
  import opened Basics
  import opened Ipv4

  datatype Path = Path(
    id: Name,
    ownerNodeId: Name,
    cidr: string,
    hops: seq<Name>,
    health: string,
    rtt: real,
    loss: real,
    cost: real,
    score: real)

  datatype Route = Route(cidr: string, ownerNodeId: Name)

  datatype RoutingConfig = RoutingConfig(
    policyExpiresAt: int,
    overlaySubnet: string,
    localSiteRouter: bool,
    paths: seq<Path>,
    transitPaths: seq<Path>,
    routes: seq<Route>)

  type Parser = string -> ParsedPrefix

  predicate DistinctHops(hops: seq<Name>) {
    forall i, j :: 0 <= i < j < |hops| ==> hops[i] != hops[j]
  }

  predicate PathValid(parse: Parser, p: Path) {
    Trim(p.id) != "" && Trim(p.ownerNodeId) != "" && 2 <= |p.hops| <= MAX_PATH_HOPS &&
    (forall i :: 0 <= i < |p.hops| ==> Trim(p.hops[i]) != "") &&
    (forall i, j :: 0 <= i < j < |p.hops| ==> Trim(p.hops[i]) != Trim(p.hops[j])) &&
    p.hops[|p.hops| - 1] == p.ownerNodeId && UsableNet(parse(p.cidr)).Some?
  }

  predicate ConfigValid(parse: Parser, c: RoutingConfig) {
    (c.overlaySubnet != "" ==> parse(c.overlaySubnet).V4?) &&
    (forall i :: 0 <= i < |c.routes| ==> UsableNet(parse(c.routes[i].cidr)).Some? && Trim(c.routes[i].ownerNodeId) != "") &&
    (forall i :: 0 <= i < |c.paths| ==> PathValid(parse, c.paths[i])) &&
    (forall i :: 0 <= i < |c.transitPaths| ==> PathValid(parse, c.transitPaths[i]))
  }

  predicate PolicyValid(c: RoutingConfig, nowUnix: int) {
    c.policyExpiresAt == 0 || nowUnix < c.policyExpiresAt
  }

  /** The overlay contains an address; an overlay that does not parse contains nothing. */
  predicate OverlayContains(parse: Parser, c: RoutingConfig, a: Addr) {
    var p := parse(c.overlaySubnet);
    p.V4? && p.bits <= 32 && p.addr[..p.bits] <= a
  }

  predicate Matches(parse: Parser, r: Route, a: Addr) {
    var net := UsableNet(parse(r.cidr));
    net.Some? && Contains(net.value, a)
  }

  function Length(parse: Parser, r: Route): nat {
    var net := UsableNet(parse(r.cidr));
    if net.Some? then |net.value| else 0
  }

  /** Longest-match lookup (section 5.1 of RFC 4632); the first route wins among equal lengths. */
  ghost predicate LongestMatch(parse: Parser, routes: seq<Route>, a: Addr, i: nat) {
    i < |routes| && Matches(parse, routes[i], a) &&
    forall j :: 0 <= j < |routes| && Matches(parse, routes[j], a) ==>
      Length(parse, routes[j]) < Length(parse, routes[i]) || (Length(parse, routes[j]) == Length(parse, routes[i]) && i <= j)
  }

  function RouteFor(parse: Parser, routes: seq<Route>, a: Addr): Option<Route> {
    if routes == [] then None
    else
      var n := |routes| - 1;
      var best := RouteFor(parse, routes[..n], a);
      if Matches(parse, routes[n], a) && (best.None? || Length(parse, best.value) < Length(parse, routes[n]))
      then Some(routes[n]) else best
  }

  /** The lookup finds the longest match, and fails only when nothing matches. */
  lemma {:induction false} RouteForIsLongestMatch(parse: Parser, routes: seq<Route>, a: Addr)
    ensures RouteFor(parse, routes, a).Some? ==>
      exists i: nat :: LongestMatch(parse, routes, a, i) && RouteFor(parse, routes, a) == Some(routes[i])
    ensures RouteFor(parse, routes, a).None? ==> forall j :: 0 <= j < |routes| ==> !Matches(parse, routes[j], a)
  {
    if routes != [] {
      var n := |routes| - 1;
      var rest := routes[..n];
      RouteForIsLongestMatch(parse, rest, a);
      assert forall j :: 0 <= j < n ==> rest[j] == routes[j];
      if RouteFor(parse, rest, a).Some? {
        var i: nat :| LongestMatch(parse, rest, a, i) && RouteFor(parse, rest, a) == Some(rest[i]);
        if Matches(parse, routes[n], a) && Length(parse, rest[i]) < Length(parse, routes[n]) {
          assert LongestMatch(parse, routes, a, n);
        } else {
          assert LongestMatch(parse, routes, a, i);
        }
      } else if Matches(parse, routes[n], a) {
        assert LongestMatch(parse, routes, a, n);
      }
    }
  }

  method LookupRoute(parse: Parser, routes: seq<Route>, a: Addr) returns (r: Option<Route>)
    ensures r == RouteFor(parse, routes, a)
  {
    r := None;
    for n := 0 to |routes|
      invariant r == RouteFor(parse, routes[..n], a)
    {
      assert routes[..n + 1][..n] == routes[..n];
      if Matches(parse, routes[n], a) && (r.None? || Length(parse, r.value) < Length(parse, routes[n])) {
        r := Some(routes[n]);
      }
    }
    assert routes[..|routes|] == routes;
  }

  predicate IsSourcePath(p: Path, local: string, route: Route) {
    2 <= |p.hops| && p.hops[0] == local && p.ownerNodeId == route.ownerNodeId && p.cidr == route.cidr
  }

  /** The paths from this Node to the owner of a route, in configuration order. */
  function SourcePathsOf(paths: seq<Path>, local: string, route: Route): (r: seq<Path>)
    ensures forall p :: p in r <==> p in paths && IsSourcePath(p, local, route)
  {
    if paths == [] then []
    else
      var n := |paths| - 1;
      assert paths == paths[..n] + [paths[n]];
      SourcePathsOf(paths[..n], local, route) + if IsSourcePath(paths[n], local, route) then [paths[n]] else []
  }

  method SourcePaths(paths: seq<Path>, local: string, route: Route) returns (r: seq<Path>)
    ensures r == SourcePathsOf(paths, local, route)
  {
    r := [];
    for n := 0 to |paths|
      invariant r == SourcePathsOf(paths[..n], local, route)
    {
      assert paths[..n + 1][..n] == paths[..n];
      if IsSourcePath(paths[n], local, route) {
        r := r + [paths[n]];
      }
    }
    assert paths[..|paths|] == paths;
  }

  function TransitPath(paths: seq<Path>, id: string): (r: Option<Path>)
    ensures r.Some? ==>
      r.value.id == id && exists i :: 0 <= i < |paths| && paths[i] == r.value && forall j :: 0 <= j < i ==> paths[j].id != id
    ensures r.None? ==> forall p :: p in paths ==> p.id != id
  {
    if paths == [] then None
    else if paths[0].id == id then Some(paths[0])
    else TransitPath(paths[1..], id)
  }
}
