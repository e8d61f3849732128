/**
 Path distribution. The Controller gives a public Node its source paths and
 every Node the transit paths that run through it, each from a topology
 snapshot of its own moment: canonical links overlaid with fresh telemetry.
 */
module PathDistribution {
  import opened Basics
  import opened Topology

  const MAX_INTERMEDIATE_PUBLIC_NODES := 2

  datatype Telemetry = Telemetry(lastSeen: int, links: seq<Link>)

  datatype Owned = Owned(owner: string, cidr: string)

  type Pair = (string, string)

  /** What the Controller holds at one moment. */
  datatype Control = Control(
    nodeIds: seq<string>,
    publicIds: seq<string>,
    canonical: seq<Pair>,
    routes: seq<Owned>,
    telemetry: map<string, Telemetry>,
    now: int,
    ttl: int)

  ghost predicate Proper(c: Control) {
    (forall id :: id in c.nodeIds ==> Trim(id) == id && id != "") && forall id :: id in c.publicIds ==> id in c.nodeIds
  }

  // ---------------------------------------------------------------- the snapshot's links

  function CanonicalPairs(pairs: seq<Pair>, nodeIds: seq<string>): set<Pair> {
    if pairs == [] then {}
    else
      var (a, b) := pairs[|pairs| - 1];
      CanonicalPairs(pairs[..|pairs| - 1], nodeIds) + if a in nodeIds && b in nodeIds then {(a, b), (b, a)} else {}
  }

  function LinkPairs(node: string, links: seq<Link>, nodeIds: seq<string>): set<Pair> {
    if links == [] then {}
    else
      var l := links[|links| - 1];
      LinkPairs(node, links[..|links| - 1], nodeIds) + if l.source == node && l.target in nodeIds then {(node, l.target)} else {}
  }

  predicate Current(t: Telemetry, now: int, ttl: int) {
    t.lastSeen > 0 && now - t.lastSeen <= ttl
  }

  /** What one Node reports, while its telemetry is current. */
  function NodePairs(c: Control, id: string): set<Pair> {
    if id in c.telemetry && Current(c.telemetry[id], c.now, c.ttl) then LinkPairs(id, c.telemetry[id].links, c.nodeIds) else {}
  }

  function ReportedPairs(c: Control, ids: seq<string>): set<Pair> {
    if ids == [] then {} else ReportedPairs(c, ids[..|ids| - 1]) + NodePairs(c, ids[|ids| - 1])
  }

  function Pairs(c: Control): set<Pair> {
    CanonicalPairs(c.canonical, c.nodeIds) + ReportedPairs(c, c.nodeIds)
  }

  predicate Keyed(m: map<Pair, Link>) {
    forall k :: k in m ==> m[k].source == k.0 && m[k].target == k.1
  }

  /** The links of a snapshot: one per pair. */
  ghost predicate Lists(links: seq<Link>, pairs: set<Pair>) {
    SingleLinks(links) &&
    (forall l :: l in links ==> (l.source, l.target) in pairs) &&
    forall a, b :: (a, b) in pairs ==> exists l :: l in links && l.source == a && l.target == b
  }

  // ---------------------------------------------------------------- pairs and health, declaratively

  predicate Reports(links: seq<Link>, a: string, b: string, i: nat) {
    i < |links| && links[i].source == a && links[i].target == b
  }

  predicate LastReportAt(links: seq<Link>, a: string, b: string, i: nat) {
    Reports(links, a, b, i) && forall k: nat :: i < k < |links| ==> !Reports(links, a, b, k)
  }

  /** A known Node whose telemetry is from the last ttl seconds. */
  predicate Heard(c: Control, id: string) {
    id in c.nodeIds && id in c.telemetry && c.telemetry[id].lastSeen > 0 && c.now <= c.telemetry[id].lastSeen + c.ttl
  }

  /** A link has the health of its source's last current report on it, and "unknown" without one. */
  ghost predicate HealthIsReported(c: Control, l: Link) {
    if Heard(c, l.source) && l.target in c.nodeIds then
      var links := c.telemetry[l.source].links;
      (forall i: nat :: LastReportAt(links, l.source, l.target, i) ==> l.health == links[i].health) &&
      ((forall i: nat :: !Reports(links, l.source, l.target, i)) ==> l.health == "unknown")
    else l.health == "unknown"
  }

  function LastReport(links: seq<Link>, k: Pair): Option<Link> {
    if links == [] then None
    else
      var l := links[|links| - 1];
      if l.source == k.0 && l.target == k.1 then Some(l) else LastReport(links[..|links| - 1], k)
  }

  lemma ReportsPrefix(links: seq<Link>, a: string, b: string, n: nat, i: nat)
    requires i < n <= |links|
    ensures Reports(links[..n], a, b, i) <==> Reports(links, a, b, i)
  {
  }

  lemma {:induction false} LastReportIsLast(links: seq<Link>, k: Pair)
    ensures LastReport(links, k).None? ==> forall i: nat :: !Reports(links, k.0, k.1, i)
    ensures LastReport(links, k).Some? ==> exists i: nat :: LastReportAt(links, k.0, k.1, i) && links[i] == LastReport(links, k).value
  {
    if links != [] {
      var n := |links| - 1;
      LastReportIsLast(links[..n], k);
      forall i: nat | i < n
        ensures Reports(links[..n], k.0, k.1, i) <==> Reports(links, k.0, k.1, i)
      {
        ReportsPrefix(links, k.0, k.1, n, i);
      }
      if Reports(links, k.0, k.1, n) {
        assert LastReportAt(links, k.0, k.1, n);
      } else if LastReport(links, k).Some? {
        var i: nat :| LastReportAt(links[..n], k.0, k.1, i) && links[..n][i] == LastReport(links, k).value;
        assert LastReportAt(links, k.0, k.1, i);
      }
    }
  }

  lemma OneLastReport(links: seq<Link>, a: string, b: string, i: nat, j: nat)
    requires LastReportAt(links, a, b, i) && LastReportAt(links, a, b, j)
    ensures i == j
  {
  }

  /** The last current report on a pair. */
  function Report(c: Control, k: Pair): Option<Link> {
    if Heard(c, k.0) && k.1 in c.nodeIds then LastReport(c.telemetry[k.0].links, k) else None
  }

  lemma ReportDecidesHealth(c: Control, l: Link)
    requires var r := Report(c, (l.source, l.target)); if r.Some? then l == r.value else l.health == "unknown"
    ensures HealthIsReported(c, l)
  {
    if Heard(c, l.source) && l.target in c.nodeIds {
      hide LastReport;
      var links := c.telemetry[l.source].links;
      LastReportIsLast(links, (l.source, l.target));
      if LastReport(links, (l.source, l.target)).Some? {
        var i: nat :| LastReportAt(links, l.source, l.target, i) && links[i] == LastReport(links, (l.source, l.target)).value;
        forall j: nat | LastReportAt(links, l.source, l.target, j)
          ensures l.health == links[j].health
        {
          OneLastReport(links, l.source, l.target, i, j);
        }
      }
    }
  }

  lemma {:induction false} CanonicalPairsAre(pairs: seq<Pair>, nodeIds: seq<string>, a: string, b: string)
    ensures (a, b) in CanonicalPairs(pairs, nodeIds) <==> a in nodeIds && b in nodeIds && ((a, b) in pairs || (b, a) in pairs)
  {
    if pairs != [] {
      var n := |pairs| - 1;
      CanonicalPairsAre(pairs[..n], nodeIds, a, b);
      assert pairs == pairs[..n] + [pairs[n]];
      var (x, y) := pairs[n];
      assert pairs[n] == (x, y);
      assert forall p :: p in pairs <==> p in pairs[..n] || p == (x, y);
    }
  }

  lemma {:induction false} LinkPairsAre(node: string, links: seq<Link>, nodeIds: seq<string>, a: string, b: string)
    ensures (a, b) in LinkPairs(node, links, nodeIds) <==> a == node && b in nodeIds && exists i: nat :: Reports(links, a, b, i)
  {
    if links != [] {
      var n := |links| - 1;
      LinkPairsAre(node, links[..n], nodeIds, a, b);
      assert forall i :: 0 <= i < n ==> (Reports(links[..n], a, b, i) <==> Reports(links, a, b, i));
      if i: nat :| Reports(links, a, b, i) {
        assert Reports(links[..n], a, b, i) || Reports(links, a, b, n);
      }
      if i: nat :| Reports(links[..n], a, b, i) {
        assert Reports(links, a, b, i);
      }
      if links[n].source == a && links[n].target == b {
        assert Reports(links, a, b, n);
      }
    }
  }

  ghost predicate ReportedBy(c: Control, a: string, b: string) {
    Heard(c, a) && b in c.nodeIds && exists i: nat :: Reports(c.telemetry[a].links, a, b, i)
  }

  lemma {:induction false} ReportedPairsAre(c: Control, ids: seq<string>, a: string, b: string)
    requires forall id :: id in ids ==> id in c.nodeIds
    ensures (a, b) in ReportedPairs(c, ids) <==> a in ids && ReportedBy(c, a, b)
  {
    if ids != [] {
      var n := |ids| - 1;
      ReportedPairsAre(c, ids[..n], a, b);
      assert ids == ids[..n] + [ids[n]];
      if ids[n] in c.telemetry {
        LinkPairsAre(ids[n], c.telemetry[ids[n]].links, c.nodeIds, a, b);
      }
    }
  }

  /** The pairs of a snapshot: both directions of every canonical link between known Nodes, and what known Nodes currently report. */
  lemma PairsAre(c: Control, a: string, b: string)
    ensures (a, b) in Pairs(c) <==>
      (a in c.nodeIds && b in c.nodeIds && ((a, b) in c.canonical || (b, a) in c.canonical)) || ReportedBy(c, a, b)
  {
    CanonicalPairsAre(c.canonical, c.nodeIds, a, b);
    ReportedPairsAre(c, c.nodeIds, a, b);
  }

  // ---------------------------------------------------------------- building the snapshot

  /** The links that one Node reports of itself to known Nodes; the last report on a pair stands. */
  method OverlayReport(id: string, reported: seq<Link>, nodeIds: seq<string>, m0: map<Pair, Link>) returns (m: map<Pair, Link>)
    requires Keyed(m0)
    ensures Keyed(m) && m.Keys == m0.Keys + LinkPairs(id, reported, nodeIds)
    ensures forall k :: k in m ==>
      if k.0 == id && k.1 in nodeIds && LastReport(reported, k).Some? then m[k] == LastReport(reported, k).value
      else k in m0 && m[k] == m0[k]
  {
    m := m0;
    for i := 0 to |reported|
      invariant Keyed(m) && m.Keys == m0.Keys + LinkPairs(id, reported[..i], nodeIds)
      invariant forall k :: k in m ==>
        if k.0 == id && k.1 in nodeIds && LastReport(reported[..i], k).Some? then m[k] == LastReport(reported[..i], k).value
        else k in m0 && m[k] == m0[k]
    {
      assert reported[..i + 1][..i] == reported[..i];
      if reported[i].source == id && reported[i].target in nodeIds {
        m := m[(id, reported[i].target) := reported[i]];
      }
    }
    assert reported[..|reported|] == reported;
  }

  /** Every link is the last current report of one of the Nodes, or as it was before. */
  ghost predicate Overlaid(c: Control, ids: seq<string>, m0: map<Pair, Link>, m: map<Pair, Link>) {
    forall k :: k in m ==> if k.0 in ids && Report(c, k).Some? then m[k] == Report(c, k).value else k in m0 && m[k] == m0[k]
  }

  lemma NothingOverlaid(c: Control, m: map<Pair, Link>)
    ensures Overlaid(c, [], m, m)
  {
  }

  method OverlayNode(c: Control, id: string, ghost ids: seq<string>, ghost m0: map<Pair, Link>, m: map<Pair, Link>)
    returns (next: map<Pair, Link>)
    requires Keyed(m) && Overlaid(c, ids, m0, m) && id in c.nodeIds
    ensures Keyed(next) && next.Keys == m.Keys + NodePairs(c, id) && Overlaid(c, ids + [id], m0, next)
  {
    hide LastReport, LinkPairs;
    next := m;
    if id in c.telemetry && Current(c.telemetry[id], c.now, c.ttl) {
      next := OverlayReport(id, c.telemetry[id].links, c.nodeIds, m);
    }
  }

  method OverlayTelemetry(c: Control, m0: map<Pair, Link>) returns (m: map<Pair, Link>)
    requires Keyed(m0)
    ensures Keyed(m) && m.Keys == m0.Keys + ReportedPairs(c, c.nodeIds) && Overlaid(c, c.nodeIds, m0, m)
  {
    hide Overlaid, Keyed, NodePairs;
    m := m0;
    assert Overlaid(c, [], m0, m) by { NothingOverlaid(c, m0); }
    for n := 0 to |c.nodeIds|
      invariant Keyed(m) && m.Keys == m0.Keys + ReportedPairs(c, c.nodeIds[..n]) && Overlaid(c, c.nodeIds[..n], m0, m)
    {
      assert c.nodeIds[..n + 1][..n] == c.nodeIds[..n] && c.nodeIds[..n + 1] == c.nodeIds[..n] + [c.nodeIds[n]];
      m := OverlayNode(c, c.nodeIds[n], c.nodeIds[..n], m0, m);
    }
    assert c.nodeIds[..|c.nodeIds|] == c.nodeIds;
  }

  lemma ListsOneMore(links: seq<Link>, pairs: set<Pair>, l: Link)
    requires Lists(links, pairs) && (l.source, l.target) !in pairs
    ensures Lists(links + [l], pairs + {(l.source, l.target)})
  {
    var more := links + [l];
    forall i, j | 0 <= i < j < |more|
      ensures more[i].source != more[j].source || more[i].target != more[j].target
    {
      if j == |links| {
        assert more[i] in links;
      }
    }
    forall a, b | (a, b) in pairs + {(l.source, l.target)}
      ensures exists x :: x in more && x.source == a && x.target == b
    {
      if (a, b) in pairs {
        var x :| x in links && x.source == a && x.target == b;
        assert x in more;
      } else {
        assert l in more;
      }
    }
  }

  /** The canonical links in both directions, of unknown health. */
  method CanonicalLinks(c: Control) returns (m: map<Pair, Link>)
    ensures Keyed(m) && m.Keys == CanonicalPairs(c.canonical, c.nodeIds) && forall k :: k in m ==> m[k].health == "unknown"
  {
    m := map[];
    for n := 0 to |c.canonical|
      invariant Keyed(m) && m.Keys == CanonicalPairs(c.canonical[..n], c.nodeIds) && forall k :: k in m ==> m[k].health == "unknown"
    {
      assert c.canonical[..n + 1][..n] == c.canonical[..n];
      var (a, b) := c.canonical[n];
      if a in c.nodeIds && b in c.nodeIds {
        m := m[(a, b) := Link(a, b, "unknown")][(b, a) := Link(b, a, "unknown")];
      }
    }
    assert c.canonical[..|c.canonical|] == c.canonical;
  }

  lemma HealthOfOverlaid(c: Control, canonical: map<Pair, Link>, m: map<Pair, Link>, k: Pair)
    requires Keyed(m) && Overlaid(c, c.nodeIds, canonical, m) && k in m && forall p :: p in canonical ==> canonical[p].health == "unknown"
    ensures HealthIsReported(c, m[k])
  {
    hide LastReport, HealthIsReported;
    assert k == (m[k].source, m[k].target);
    ReportDecidesHealth(c, m[k]);
  }

  method SnapshotLinks(c: Control) returns (links: seq<Link>)
    ensures Lists(links, Pairs(c)) && forall l :: l in links ==> HealthIsReported(c, l)
  {
    hide CanonicalPairs, ReportedPairs, Report, HealthIsReported, Overlaid;
    var canonical := CanonicalLinks(c);
    var m := OverlayTelemetry(c, canonical);
    links := [];
    var pending := m.Keys;
    while pending != {}
      invariant pending <= m.Keys && Lists(links, m.Keys - pending)
      invariant forall l :: l in links ==> HealthIsReported(c, l)
      decreases pending
    {
      var k :| k in pending;
      ghost var done := m.Keys - pending;
      ghost var were := links;
      links := links + [m[k]];
      pending := pending - {k};
      ListsOneMore(were, done, m[k]);
      assert m.Keys - pending == done + {k};
      assert k == (m[k].source, m[k].target);
      HealthOfOverlaid(c, canonical, m, k);
    }
    assert m.Keys - {} == m.Keys;
  }

  // ---------------------------------------------------------------- the lists of one Node

  datatype Candidate = Candidate(id: string, owner: string, cidr: string, hops: Hops)

  type PathId = (string, string, Hops) -> string

  function CandidateOf(pathId: PathId, route: Owned, hops: Hops): Candidate {
    Candidate(pathId(Trim(route.owner), route.cidr, hops), Trim(route.owner), route.cidr, hops)
  }

  function SearchFor(links: seq<Link>, publicIds: seq<string>, route: Owned, includeFailed: bool): Search {
    Search(links, publicIds, Trim(route.owner), MAX_INTERMEDIATE_PUBLIC_NODES, includeFailed)
  }

  predicate Named(route: Owned) {
    route.owner != "" && route.cidr != ""
  }

  predicate Refused(source: string, route: Owned) {
    Trim(source) == "" || Trim(route.owner) == "" || Trim(source) == Trim(route.owner)
  }

  predicate FromSource(pathId: PathId, s: Search, route: Owned, source: string, x: Candidate) {
    x == CandidateOf(pathId, route, x.hops) && SimplePath(s, Trim(source), x.hops)
  }

  predicate Through(pathId: PathId, s: Search, route: Owned, publicIds: seq<string>, node: string, x: Candidate) {
    node in x.hops && exists source :: source in publicIds && FromSource(pathId, s, route, source, x)
  }

  method SourceCandidates(pathId: PathId, s: Search, route: Owned, source: string) returns (r: Option<seq<Candidate>>)
    requires s.owner == Trim(route.owner)
    ensures r.None? <==> Refused(source, route)
    ensures r.Some? ==> forall x :: x in r.value <==> FromSource(pathId, s, route, source, x)
  {
    var found := CandidatePaths(s, source, route.owner);
    if found.None? {
      return None;
    }
    var list: seq<Candidate> := [];
    for n := 0 to |found.value|
      invariant forall x :: x in list <==> x == CandidateOf(pathId, route, x.hops) && x.hops in found.value[..n]
    {
      assert found.value[..n + 1] == found.value[..n] + [found.value[n]];
      list := list + [CandidateOf(pathId, route, found.value[n])];
    }
    assert found.value[..|found.value|] == found.value;
    r := Some(list);
  }

  method OnPath(all: seq<Candidate>, node: string) returns (r: seq<Candidate>)
    ensures forall x :: x in r <==> x in all && node in x.hops
  {
    r := [];
    for n := 0 to |all|
      invariant forall x :: x in r <==> x in all[..n] && node in x.hops
    {
      assert all[..n + 1] == all[..n] + [all[n]];
      if node in all[n].hops {
        r := r + [all[n]];
      }
    }
    assert all[..|all|] == all;
  }

  method TransitCandidates(pathId: PathId, s: Search, route: Owned, publicIds: seq<string>, node: string)
    returns (r: Option<seq<Candidate>>)
    requires s.owner == Trim(route.owner)
    ensures r.None? <==> exists source :: source in publicIds && Refused(source, route)
    ensures r.Some? ==> forall x :: x in r.value <==> Through(pathId, s, route, publicIds, node, x)
  {
    var list: seq<Candidate> := [];
    for n := 0 to |publicIds|
      invariant forall source :: source in publicIds[..n] ==> !Refused(source, route)
      invariant forall x :: x in list <==> Through(pathId, s, route, publicIds[..n], node, x)
    {
      assert publicIds[..n + 1] == publicIds[..n] + [publicIds[n]];
      var found := SourceCandidates(pathId, s, route, publicIds[n]);
      if found.None? {
        return None;
      }
      var here := OnPath(found.value, node);
      forall x
        ensures x in list + here <==> Through(pathId, s, route, publicIds[..n + 1], node, x)
      {
      }
      list := list + here;
    }
    assert publicIds[..|publicIds|] == publicIds;
    r := Some(list);
  }

  datatype PathLists = PathLists(paths: seq<Candidate>, transit: seq<Candidate>)

  /** A source path of a Node: over links that are not reported failed. */
  ghost predicate IsSource(pathId: PathId, links: seq<Link>, c: Control, routes: seq<Owned>, node: string, x: Candidate) {
    exists route :: route in routes && Named(route) &&
      FromSource(pathId, SearchFor(links, c.publicIds, route, false), route, node, x)
  }

  /** A transit path of a Node: from any public Node, whatever the health of its links. */
  ghost predicate IsTransit(pathId: PathId, links: seq<Link>, c: Control, routes: seq<Owned>, node: string, x: Candidate) {
    exists route :: route in routes && Named(route) &&
      Through(pathId, SearchFor(links, c.publicIds, route, true), route, c.publicIds, node, x)
  }

  ghost predicate Blocked(c: Control, routes: seq<Owned>, node: string) {
    exists route :: route in routes && Named(route) &&
      (exists source :: source in (if node in c.publicIds then [node] else []) + c.publicIds && Refused(source, route))
  }

  /**
   The path lists of one Node, or None where the whole configuration is refused.
   */
  method RoutingPaths(pathId: PathId, links: seq<Link>, c: Control, node: string) returns (r: Option<PathLists>)
    ensures r.None? <==> Blocked(c, c.routes, node)
    ensures r.Some? ==> forall x :: x in r.value.paths <==> node in c.publicIds && IsSource(pathId, links, c, c.routes, node, x)
    ensures r.Some? ==> forall x :: x in r.value.transit <==> IsTransit(pathId, links, c, c.routes, node, x)
  {
    var paths: seq<Candidate>, transit: seq<Candidate> := [], [];
    var seen: set<Owned> := {};
    for n := 0 to |c.routes|
      invariant forall route :: route in seen <==> route in c.routes[..n] && Named(route)
      invariant !Blocked(c, c.routes[..n], node)
      invariant forall x :: x in paths <==> node in c.publicIds && IsSource(pathId, links, c, c.routes[..n], node, x)
      invariant forall x :: x in transit <==> IsTransit(pathId, links, c, c.routes[..n], node, x)
    {
      assert c.routes[..n + 1] == c.routes[..n] + [c.routes[n]];
      var route := c.routes[n];
      if Named(route) && route !in seen {
        var own: Option<seq<Candidate>> := Some([]);
        if node in c.publicIds {
          own := SourceCandidates(pathId, SearchFor(links, c.publicIds, route, false), route, node);
        }
        if own.None? {
          assert node in [node] + c.publicIds && Refused(node, route);
          return None;
        }
        var through := TransitCandidates(pathId, SearchFor(links, c.publicIds, route, true), route, c.publicIds, node);
        if through.None? {
          return None;
        }
        paths, transit, seen := paths + own.value, transit + through.value, seen + {route};
      }
    }
    assert c.routes[..|c.routes|] == c.routes;
    r := Some(PathLists(paths, transit));
  }

  /** The Controller refuses every Node its configuration exactly while a public Node owns a route. */
  lemma RefusedIffPublicOwner(c: Control, node: string)
    requires Proper(c) && forall route :: route in c.routes ==> Trim(route.owner) == route.owner
    ensures Blocked(c, c.routes, node) <==> exists route :: route in c.routes && Named(route) && route.owner in c.publicIds
  {
    forall route | route in c.routes && Named(route) && route.owner in c.publicIds
      ensures Blocked(c, c.routes, node)
    {
      assert route.owner in (if node in c.publicIds then [node] else []) + c.publicIds && Refused(route.owner, route);
    }
  }

  // ---------------------------------------------------------------- distribution

  /** Two moments of the same Controller: only telemetry and time differ. */
  predicate SameCanon(c1: Control, c2: Control) {
    c1.(telemetry := c2.telemetry, now := c2.now) == c2
  }

  predicate Linked(pairs: set<Pair>, hops: Hops) {
    forall i :: 0 <= i < |hops| - 1 ==> (hops[i], hops[i + 1]) in pairs
  }

  lemma EdgeIsPair(s: Search, pairs: set<Pair>, a: string, b: string)
    requires Lists(s.links, pairs) && s.includeFailed
    requires forall p: Pair :: p in pairs ==> Trim(p.0) == p.0 && p.0 != "" && Trim(p.1) == p.1 && p.1 != ""
    ensures Edge(s, a, b) <==> (a, b) in pairs && a != b
  {
    if (a, b) in pairs && a != b {
      var l :| l in s.links && l.source == a && l.target == b;
      assert Usable(l, true);
    }
  }

  lemma {:induction false} CanonicalAreNodes(pairs: seq<Pair>, nodeIds: seq<string>)
    ensures forall p: Pair :: p in CanonicalPairs(pairs, nodeIds) ==> p.0 in nodeIds && p.1 in nodeIds
  {
    if pairs != [] {
      CanonicalAreNodes(pairs[..|pairs| - 1], nodeIds);
    }
  }

  lemma {:induction false} LinkedAreNodes(node: string, links: seq<Link>, nodeIds: seq<string>)
    ensures forall p: Pair :: p in LinkPairs(node, links, nodeIds) ==> p.0 == node && p.1 in nodeIds
  {
    if links != [] {
      LinkedAreNodes(node, links[..|links| - 1], nodeIds);
    }
  }

  lemma {:induction false} ReportedAreNodes(c: Control, ids: seq<string>)
    ensures forall p: Pair :: p in ReportedPairs(c, ids) ==> p.0 in ids && p.1 in c.nodeIds
  {
    if ids != [] {
      var id := ids[|ids| - 1];
      ReportedAreNodes(c, ids[..|ids| - 1]);
      if id in c.telemetry {
        LinkedAreNodes(id, c.telemetry[id].links, c.nodeIds);
      }
    }
  }

  lemma PairsAreProper(c: Control)
    requires Proper(c)
    ensures forall p: Pair :: p in Pairs(c) ==> Trim(p.0) == p.0 && p.0 != "" && Trim(p.1) == p.1 && p.1 != ""
  {
    CanonicalAreNodes(c.canonical, c.nodeIds);
    ReportedAreNodes(c, c.nodeIds);
  }

  lemma SimplePathOverPairs(s: Search, t: Search, pairs: set<Pair>, source: string, hops: Hops)
    requires Lists(t.links, pairs) && t.includeFailed && t.(links := s.links, includeFailed := s.includeFailed) == s
    requires forall p: Pair :: p in pairs ==> Trim(p.0) == p.0 && p.0 != "" && Trim(p.1) == p.1 && p.1 != ""
    requires SimplePath(s, source, hops)
    ensures SimplePath(t, source, hops) <==> Linked(pairs, hops)
  {
    forall i | 0 <= i < |hops| - 1
      ensures Edge(t, hops[i], hops[i + 1]) <==> (hops[i], hops[i + 1]) in pairs
    {
      EdgeIsPair(t, pairs, hops[i], hops[i + 1]);
    }
  }

  lemma SamePathSameHops(pathId: PathId, s: Search, t: Search, pairs: set<Pair>, r: Owned, source: string, x: Candidate)
    requires Lists(t.links, pairs) && t.includeFailed && t.(links := s.links, includeFailed := s.includeFailed) == s
    requires forall p: Pair :: p in pairs ==> Trim(p.0) == p.0 && p.0 != "" && Trim(p.1) == p.1 && p.1 != ""
    requires FromSource(pathId, s, r, source, x)
    ensures FromSource(pathId, t, r, source, x) <==> Linked(pairs, x.hops)
  {
    SimplePathOverPairs(s, t, pairs, Trim(source), x.hops);
  }

  lemma TransitNeedsPairs(pathId: PathId, links: seq<Link>, c: Control, node: string, x: Candidate)
    requires Proper(c) && Lists(links, Pairs(c)) && IsTransit(pathId, links, c, c.routes, node, x)
    ensures Linked(Pairs(c), x.hops)
  {
    PairsAreProper(c);
    var route :| route in c.routes && Named(route) &&
      Through(pathId, SearchFor(links, c.publicIds, route, true), route, c.publicIds, node, x);
    var s := SearchFor(links, c.publicIds, route, true);
    var source :| source in c.publicIds && FromSource(pathId, s, route, source, x);
    SamePathSameHops(pathId, s, s, Pairs(c), route, source, x);
  }

  /**
   A path the Controller gave a source at one moment is in the transit list that
   any Node on it gets at another moment, with the same identifier, owner, CIDR
   and hops, exactly when every hop is a link of that other moment.
   */
  lemma PathIsDistributedIff(pathId: PathId, links1: seq<Link>, c1: Control, links2: seq<Link>, c2: Control,
                             source: string, node: string, x: Candidate)
    requires SameCanon(c1, c2) && Proper(c2) && Lists(links2, Pairs(c2))
    requires source in c1.publicIds && IsSource(pathId, links1, c1, c1.routes, source, x) && node in x.hops
    ensures IsTransit(pathId, links2, c2, c2.routes, node, x) <==> Linked(Pairs(c2), x.hops)
  {
    if IsTransit(pathId, links2, c2, c2.routes, node, x) {
      TransitNeedsPairs(pathId, links2, c2, node, x);
    }
    if Linked(Pairs(c2), x.hops) {
      PairsAreProper(c2);
      var route :| route in c1.routes && Named(route) &&
        FromSource(pathId, SearchFor(links1, c1.publicIds, route, false), route, source, x);
      var s, t := SearchFor(links1, c1.publicIds, route, false), SearchFor(links2, c2.publicIds, route, true);
      SamePathSameHops(pathId, s, t, Pairs(c2), route, source, x);
      assert Through(pathId, t, route, c2.publicIds, node, x);
    }
  }

  lemma {:induction false} SomeLastReport(links: seq<Link>, a: string, b: string, i: nat) returns (last: nat)
    requires Reports(links, a, b, i)
    ensures LastReportAt(links, a, b, last)
    decreases |links| - i
  {
    if k: nat :| i < k < |links| && Reports(links, a, b, k) {
      last := SomeLastReport(links, a, b, k);
    } else {
      last := i;
    }
  }

  ghost predicate NotReportedFailed(c: Control, a: string, b: string) {
    Heard(c, a) ==> forall i: nat :: LastReportAt(c.telemetry[a].links, a, b, i) ==> c.telemetry[a].links[i].health != "failed"
  }

  lemma FailedIffReported(c: Control, l: Link)
    requires HealthIsReported(c, l) && l.target in c.nodeIds
    ensures l.health != "failed" <==> NotReportedFailed(c, l.source, l.target)
  {
    if Heard(c, l.source) {
      var links := c.telemetry[l.source].links;
      if i: nat :| Reports(links, l.source, l.target, i) {
        var last := SomeLastReport(links, l.source, l.target, i);
      }
    }
  }

  lemma PairsAreNodes(c: Control, a: string, b: string)
    requires (a, b) in Pairs(c)
    ensures a in c.nodeIds && b in c.nodeIds
  {
    PairsAre(c, a, b);
  }

  lemma OneLinkOfPair(links: seq<Link>, k: Link, l: Link)
    requires SingleLinks(links) && k in links && l in links && k.source == l.source && k.target == l.target
    ensures k == l
  {
    var i :| 0 <= i < |links| && links[i] == k;
    var j :| 0 <= j < |links| && links[j] == l;
  }

  /** A source path may use a pair of different Nodes exactly when its last current report, if there is one, does not call it failed. */
  lemma SourceEdgeIff(s: Search, c: Control, a: string, b: string)
    requires Proper(c) && Lists(s.links, Pairs(c)) && !s.includeFailed && forall l :: l in s.links ==> HealthIsReported(c, l)
    ensures Edge(s, a, b) <==> (a, b) in Pairs(c) && a != b && NotReportedFailed(c, a, b)
  {
    PairsAreProper(c);
    hide Pairs, HealthIsReported, NotReportedFailed;
    if (a, b) in Pairs(c) && a != b {
      PairsAreNodes(c, a, b);
      var l :| l in s.links && l.source == a && l.target == b;
      FailedIffReported(c, l);
      forall k | k in s.links && k.source == a && k.target == b
        ensures k == l
      {
        OneLinkOfPair(s.links, k, l);
      }
      if l.health != "failed" {
        assert Usable(l, false);
      }
    }
  }

  lemma SourceNeedsPairs(pathId: PathId, links: seq<Link>, c: Control, source: string, x: Candidate)
    requires Proper(c) && Lists(links, Pairs(c)) && IsSource(pathId, links, c, c.routes, source, x)
    ensures Linked(Pairs(c), x.hops)
  {
    PairsAreProper(c);
    var route :| route in c.routes && Named(route) &&
      FromSource(pathId, SearchFor(links, c.publicIds, route, false), route, source, x);
    var s := SearchFor(links, c.publicIds, route, false);
    forall i | 0 <= i < |x.hops| - 1
      ensures (x.hops[i], x.hops[i + 1]) in Pairs(c)
    {
      assert Edge(s, x.hops[i], x.hops[i + 1]);
    }
  }

  /** While telemetry reports only canonical links, every source path is in every such transit list, whatever the health. */
  lemma CanonicalPathsAreDistributed(pathId: PathId, links1: seq<Link>, c1: Control, links2: seq<Link>, c2: Control,
                                     source: string, node: string, x: Candidate)
    requires SameCanon(c1, c2) && Proper(c2) && Lists(links1, Pairs(c1)) && Lists(links2, Pairs(c2))
    requires ReportedPairs(c1, c1.nodeIds) <= CanonicalPairs(c1.canonical, c1.nodeIds)
    requires source in c1.publicIds && IsSource(pathId, links1, c1, c1.routes, source, x) && node in x.hops
    ensures IsTransit(pathId, links2, c2, c2.routes, node, x)
  {
    SourceNeedsPairs(pathId, links1, c1, source, x);
    PathIsDistributedIff(pathId, links1, c1, links2, c2, source, node, x);
  }

  /** A link known from telemetry alone gives a source a path that its owner refuses once the report is stale. */
  lemma ReportedLinkIsNotDistributed(pathId: PathId)
    returns (links: seq<Link>, c1: Control, c2: Control, x: Candidate)
    ensures SameCanon(c1, c2) && Proper(c2) && Lists(links, Pairs(c1)) && Lists([], Pairs(c2))
    ensures "a" in c1.publicIds && IsSource(pathId, links, c1, c1.routes, "a", x) && "b" in x.hops
    ensures !IsTransit(pathId, [], c2, c2.routes, "b", x)
  {
    var link := Link("a", "b", "healthy");
    var route := Owned("b", "10.0.0.0/8");
    var t := Telemetry(1, [link]);
    links := [link];
    c1 := Control(["a", "b"], ["a"], [], [route], map["a" := t], 1, 90);
    c2 := c1.(now := 1000);
    x := CandidateOf(pathId, route, ["a", "b"]);
    assert Pairs(c1) == {("a", "b")} by {
      assert c1.nodeIds[..1] == ["a"];
      assert t.links[..0] == [];
      assert LinkPairs("a", t.links, c1.nodeIds) == {("a", "b")};
      assert ReportedPairs(c1, ["a"]) == {("a", "b")};
    }
    assert Pairs(c2) == {} by {
      assert c2.nodeIds[..1] == ["a"];
      assert ReportedPairs(c2, ["a"]) == {};
    }
    var s := SearchFor(links, c1.publicIds, route, false);
    assert Edge(s, "a", "b") by { assert link in s.links; }
    assert SimplePath(s, "a", x.hops);
    assert FromSource(pathId, s, route, "a", x);
    PathIsDistributedIff(pathId, links, c1, [], c2, "a", "b", x);
  }
}
