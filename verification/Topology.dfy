/**
 Path discovery: a bounded walk over the links of a topology snapshot that
 collects every simple path from a source to the owner of a route.
 */
module Topology {
  import opened Basics

  type Hops = seq<string>

  datatype Link = Link(source: string, target: string, health: string)

  datatype Search = Search(
    links: seq<Link>,
    publicIds: seq<string>,
    owner: string,
    maxIntermediates: int,
    includeFailed: bool)

  predicate Usable(l: Link, includeFailed: bool) {
    (includeFailed || l.health != "failed") &&
    Trim(l.source) != "" && Trim(l.target) != "" && Trim(l.source) != Trim(l.target)
  }

  function CountPublic(publicIds: seq<string>, hops: Hops): nat {
    if hops == [] then 0
    else CountPublic(publicIds, hops[..|hops| - 1]) + if hops[|hops| - 1] in publicIds then 1 else 0
  }

  /** The usable links out of a Node, in snapshot order. */
  function Out(links: seq<Link>, includeFailed: bool, node: string): (r: seq<Link>)
    ensures forall l :: l in r <==> l in links && Usable(l, includeFailed) && Trim(l.source) == node
  {
    if links == [] then []
    else
      var n := |links| - 1;
      assert links == links[..n] + [links[n]];
      Out(links[..n], includeFailed, node) +
      if Usable(links[n], includeFailed) && Trim(links[n].source) == node then [links[n]] else []
  }

  // ---------------------------------------------------------------- the walk

  predicate Extends(s: Search, hops: Hops, l: Link)
    requires hops != []
  {
    l.target !in hops && CountPublic(s.publicIds, hops[1..]) <= s.maxIntermediates
  }

  function Walk(s: Search, hops: Hops): seq<Hops>
    requires hops != []
    decreases MAX_PATH_HOPS + 1 - |hops|, 1, 0
  {
    if |hops| > MAX_PATH_HOPS then []
    else if hops[|hops| - 1] == s.owner then [hops]
    else Branch(s, hops, Out(s.links, s.includeFailed, hops[|hops| - 1]))
  }

  function Branch(s: Search, hops: Hops, links: seq<Link>): seq<Hops>
    requires 0 < |hops| <= MAX_PATH_HOPS
    decreases MAX_PATH_HOPS + 1 - |hops|, 0, |links|
  {
    if links == [] then []
    else Branch(s, hops, links[..|links| - 1]) + Visit(s, hops, links[|links| - 1])
  }

  function Visit(s: Search, hops: Hops, l: Link): seq<Hops>
    requires 0 < |hops| <= MAX_PATH_HOPS
    decreases MAX_PATH_HOPS + 1 - |hops|, 0, 0
  {
    if Extends(s, hops, l) then Walk(s, hops + [l.target]) else []
  }

  lemma BranchOneMore(s: Search, hops: Hops, links: seq<Link>)
    requires 0 < |hops| <= MAX_PATH_HOPS && links != []
    ensures Branch(s, hops, links) == Branch(s, hops, links[..|links| - 1]) + Visit(s, hops, links[|links| - 1])
  {
  }

  ghost predicate IsAdjacency(a: map<string, seq<Link>>, links: seq<Link>, includeFailed: bool) {
    forall node :: (if node in a then a[node] else []) == Out(links, includeFailed, node)
  }

  method WalkFrom(s: Search, adjacency: map<string, seq<Link>>, hops: Hops) returns (found: seq<Hops>)
    requires hops != [] && IsAdjacency(adjacency, s.links, s.includeFailed)
    ensures found == Walk(s, hops)
    decreases MAX_PATH_HOPS + 1 - |hops|, 1
  {
    if |hops| > MAX_PATH_HOPS {
      return [];
    }
    var node := hops[|hops| - 1];
    if node == s.owner {
      return [hops];
    }
    var links := if node in adjacency then adjacency[node] else [];
    assert links == Out(s.links, s.includeFailed, node);
    found := VisitAll(s, adjacency, hops, links);
  }

  method VisitAll(s: Search, adjacency: map<string, seq<Link>>, hops: Hops, links: seq<Link>) returns (found: seq<Hops>)
    requires 0 < |hops| <= MAX_PATH_HOPS && IsAdjacency(adjacency, s.links, s.includeFailed)
    ensures found == Branch(s, hops, links)
    decreases MAX_PATH_HOPS + 1 - |hops|, 0
  {
    found := [];
    for n := 0 to |links|
      invariant found == Branch(s, hops, links[..n])
    {
      assert links[..n + 1][..n] == links[..n];
      BranchOneMore(s, hops, links[..n + 1]);
      if Extends(s, hops, links[n]) {
        var more := WalkFrom(s, adjacency, hops + [links[n].target]);
        found := found + more;
      }
    }
    assert links[..|links|] == links;
  }

  lemma OutOneMore(links: seq<Link>, includeFailed: bool, node: string)
    requires links != []
    ensures var n := |links| - 1;
            Out(links, includeFailed, node) == Out(links[..n], includeFailed, node) +
            if Usable(links[n], includeFailed) && Trim(links[n].source) == node then [links[n]] else []
  {
  }

  method BuildAdjacency(links: seq<Link>, includeFailed: bool) returns (a: map<string, seq<Link>>)
    ensures IsAdjacency(a, links, includeFailed)
  {
    a := map[];
    for n := 0 to |links|
      invariant IsAdjacency(a, links[..n], includeFailed)
    {
      assert links[..n + 1][..n] == links[..n];
      var l := links[n];
      ghost var before := a;
      if Usable(l, includeFailed) {
        var start := Trim(l.source);
        a := a[start := (if start in a then a[start] else []) + [l]];
      }
      forall node
        ensures (if node in a then a[node] else []) == Out(links[..n + 1], includeFailed, node)
      {
        OutOneMore(links[..n + 1], includeFailed, node);
        assert (if node in before then before[node] else []) == Out(links[..n], includeFailed, node);
      }
    }
    assert links[..|links|] == links;
  }

  // ---------------------------------------------------------------- what the walk finds

  predicate Edge(s: Search, a: string, b: string) {
    exists l :: l in s.links && Usable(l, s.includeFailed) && Trim(l.source) == a && l.target == b
  }

  predicate Distinct(hops: Hops) {
    forall i, j :: 0 <= i < j < |hops| ==> hops[i] != hops[j]
  }

  /** A loop-free path over usable links, within the hop bound, that ends at the owner. */
  predicate SimplePath(s: Search, source: string, hops: Hops) {
    2 <= |hops| <= MAX_PATH_HOPS && hops[0] == source && hops[|hops| - 1] == s.owner && Distinct(hops) &&
    (forall i :: 0 <= i < |hops| - 1 ==> Edge(s, hops[i], hops[i + 1])) &&
    CountPublic(s.publicIds, hops[1..|hops| - 1]) <= s.maxIntermediates
  }

  /** A path that grows out of hops by steps the walk may take. */
  predicate Grows(s: Search, hops: Hops, path: Hops)
    requires hops != []
  {
    hops <= path && |path| <= MAX_PATH_HOPS && path[|path| - 1] == s.owner &&
    (forall i :: |hops| - 1 <= i < |path| - 1 ==> path[i] != s.owner && Edge(s, path[i], path[i + 1])) &&
    (forall i, j :: 0 <= i < j < |path| && |hops| <= j ==> path[i] != path[j]) &&
    (forall j :: |hops| <= j < |path| ==> CountPublic(s.publicIds, path[1..j]) <= s.maxIntermediates)
  }

  lemma {:induction false} BranchMembers(s: Search, hops: Hops, links: seq<Link>, path: Hops)
    requires 0 < |hops| <= MAX_PATH_HOPS
    ensures path in Branch(s, hops, links) <==> exists l :: l in links && path in Visit(s, hops, l)
  {
    if links != [] {
      var n := |links| - 1;
      BranchMembers(s, hops, links[..n], path);
      assert links == links[..n] + [links[n]];
      assert path in Branch(s, hops, links) <==> path in Branch(s, hops, links[..n]) || path in Visit(s, hops, links[n]);
    }
  }

  lemma OneStepBack(s: Search, hops: Hops, l: Link, path: Hops)
    requires 0 < |hops| <= MAX_PATH_HOPS && hops[|hops| - 1] != s.owner
    requires l in Out(s.links, s.includeFailed, hops[|hops| - 1]) && Extends(s, hops, l) && Grows(s, hops + [l.target], path)
    ensures Grows(s, hops, path)
  {
    var k := |hops|;
    assert path[..k + 1] == hops + [l.target];
    assert hops == path[..k] && path[k] == l.target;
    assert path[1..k] == hops[1..];
    assert Edge(s, path[k - 1], path[k]);
  }

  lemma GrowsByOne(s: Search, hops: Hops, path: Hops)
    requires 0 < |hops| <= MAX_PATH_HOPS && hops[|hops| - 1] != s.owner
    ensures Grows(s, hops, path) <==>
      exists l :: l in Out(s.links, s.includeFailed, hops[|hops| - 1]) && Extends(s, hops, l) && Grows(s, hops + [l.target], path)
  {
    var node := hops[|hops| - 1];
    if Grows(s, hops, path) {
      var k := |hops|;
      assert k < |path| && Edge(s, path[k - 1], path[k]);
      var l :| l in s.links && Usable(l, s.includeFailed) && Trim(l.source) == node && l.target == path[k];
      assert path[1..k] == hops[1..];
      assert hops + [l.target] == path[..k + 1];
      assert l in Out(s.links, s.includeFailed, node) && Extends(s, hops, l) && Grows(s, hops + [l.target], path);
    }
    forall l | l in Out(s.links, s.includeFailed, node) && Extends(s, hops, l) && Grows(s, hops + [l.target], path)
      ensures Grows(s, hops, path)
    {
      OneStepBack(s, hops, l, path);
    }
  }

  /** The walk from hops collects exactly the paths that grow out of hops. */
  lemma {:induction false} WalkIsExact(s: Search, hops: Hops, path: Hops)
    requires hops != []
    ensures path in Walk(s, hops) <==> Grows(s, hops, path)
    decreases MAX_PATH_HOPS + 1 - |hops|
  {
    if |hops| <= MAX_PATH_HOPS && hops[|hops| - 1] != s.owner {
      var links := Out(s.links, s.includeFailed, hops[|hops| - 1]);
      BranchMembers(s, hops, links, path);
      GrowsByOne(s, hops, path);
      forall l | l in links && Extends(s, hops, l)
        ensures path in Walk(s, hops + [l.target]) <==> Grows(s, hops + [l.target], path)
      {
        WalkIsExact(s, hops + [l.target], path);
      }
    } else if |hops| <= MAX_PATH_HOPS && Grows(s, hops, path) {
      assert path[|hops| - 1] == s.owner;
      assert path == hops;
    }
  }

  lemma {:induction false} CountGrows(publicIds: seq<string>, hops: Hops, n: nat)
    requires n <= |hops|
    ensures CountPublic(publicIds, hops[..n]) <= CountPublic(publicIds, hops)
  {
    if n < |hops| {
      assert hops[..|hops| - 1][..n] == hops[..n];
      CountGrows(publicIds, hops[..|hops| - 1], n);
    } else {
      assert hops[..n] == hops;
    }
  }

  /** From a source that is not the owner, the walk collects exactly the simple paths. */
  lemma FindsSimplePaths(s: Search, source: string, path: Hops)
    requires source != s.owner
    ensures path in Walk(s, [source]) <==> SimplePath(s, source, path)
  {
    WalkIsExact(s, [source], path);
    if SimplePath(s, source, path) {
      var last := |path| - 1;
      forall j | 1 <= j < |path|
        ensures CountPublic(s.publicIds, path[1..j]) <= s.maxIntermediates
      {
        assert path[1..last][..j - 1] == path[1..j];
        CountGrows(s.publicIds, path[1..last], j - 1);
      }
      assert Grows(s, [source], path);
    }
  }

  // ---------------------------------------------------------------- each path once

  ghost predicate SingleLinks(links: seq<Link>) {
    forall i, j :: 0 <= i < j < |links| ==> links[i].source != links[j].source || links[i].target != links[j].target
  }

  predicate NoRepeats(found: seq<Hops>) {
    forall i, j :: 0 <= i < j < |found| ==> found[i] != found[j]
  }

  ghost predicate DistinctTargets(links: seq<Link>) {
    forall i, j :: 0 <= i < j < |links| ==> links[i].target != links[j].target
  }

  lemma {:induction false} OutHasDistinctTargets(links: seq<Link>, includeFailed: bool, node: string)
    requires SingleLinks(links) && forall l :: l in links ==> Trim(l.source) == l.source
    ensures DistinctTargets(Out(links, includeFailed, node))
  {
    if links != [] {
      var n := |links| - 1;
      OutHasDistinctTargets(links[..n], includeFailed, node);
      forall l | l in Out(links[..n], includeFailed, node)
        ensures l.source == node && (links[n].source == node ==> l.target != links[n].target)
      {
        var i :| 0 <= i < n && links[i] == l;
      }
    }
  }

  lemma JoinHasNoRepeats(a: seq<Hops>, b: seq<Hops>)
    requires NoRepeats(a) && NoRepeats(b) && forall path :: path in a ==> path !in b
    ensures NoRepeats(a + b)
  {
    var c := a + b;
    forall i, j | 0 <= i < j < |c|
      ensures c[i] != c[j]
    {
      if i < |a| <= j {
        assert c[i] in a && c[j] == b[j - |a|];
      }
    }
  }

  lemma {:induction false} BranchHasNoRepeats(s: Search, hops: Hops, links: seq<Link>)
    requires 0 < |hops| <= MAX_PATH_HOPS && DistinctTargets(links)
    requires forall l :: l in links && Extends(s, hops, l) ==> NoRepeats(Walk(s, hops + [l.target]))
    ensures NoRepeats(Branch(s, hops, links))
  {
    if links != [] {
      var n := |links| - 1;
      var l := links[n];
      var before := Branch(s, hops, links[..n]);
      BranchHasNoRepeats(s, hops, links[..n]);
      forall path | path in before
        ensures path !in Visit(s, hops, l)
      {
        BranchMembers(s, hops, links[..n], path);
        var k :| k in links[..n] && path in Visit(s, hops, k);
        WalkIsExact(s, hops + [k.target], path);
        assert path[|hops|] == k.target;
        WalkIsExact(s, hops + [l.target], path);
      }
      assert NoRepeats(Visit(s, hops, l));
      JoinHasNoRepeats(before, Visit(s, hops, l));
    }
  }

  /** With one link per ordered pair of Nodes, every path is found once. */
  lemma {:induction false} FindsEachPathOnce(s: Search, hops: Hops)
    requires hops != [] && SingleLinks(s.links) && forall l :: l in s.links ==> Trim(l.source) == l.source
    ensures NoRepeats(Walk(s, hops))
    decreases MAX_PATH_HOPS + 1 - |hops|
  {
    if |hops| <= MAX_PATH_HOPS && hops[|hops| - 1] != s.owner {
      var links := Out(s.links, s.includeFailed, hops[|hops| - 1]);
      OutHasDistinctTargets(s.links, s.includeFailed, hops[|hops| - 1]);
      forall l | l in links && Extends(s, hops, l)
        ensures NoRepeats(Walk(s, hops + [l.target]))
      {
        FindsEachPathOnce(s, hops + [l.target]);
      }
      BranchHasNoRepeats(s, hops, links);
    }
  }

  // ---------------------------------------------------------------- the operation

  /** The hop lists of a search, or None where the search is refused. */
  method CandidatePaths(s: Search, sourceId: string, ownerId: string) returns (found: Option<seq<Hops>>)
    requires s.owner == Trim(ownerId)
    ensures found.None? <==> Trim(sourceId) == "" || Trim(ownerId) == "" || Trim(sourceId) == Trim(ownerId)
    ensures found.Some? ==> forall path :: path in found.value <==> SimplePath(s, Trim(sourceId), path)
    ensures found.Some? && SingleLinks(s.links) && (forall l :: l in s.links ==> Trim(l.source) == l.source) ==>
      NoRepeats(found.value)
  {
    var source := Trim(sourceId);
    if source == "" || s.owner == "" {
      return None;
    }
    var adjacency := BuildAdjacency(s.links, s.includeFailed);
    var paths := WalkFrom(s, adjacency, [source]);
    if source == s.owner {
      // The one path the walk collects has a single hop, which path validation refuses.
      return None;
    }
    forall path
      ensures path in paths <==> SimplePath(s, source, path)
    {
      FindsSimplePaths(s, source, path);
    }
    if SingleLinks(s.links) && forall l :: l in s.links ==> Trim(l.source) == l.source {
      FindsEachPathOnce(s, [source]);
    }
    found := Some(paths);
  }
}
