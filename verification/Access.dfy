/**
 Access: the networks a Device may reach are the allowed CIDRs minus the denied
 ones. Networks are bit prefixes, so a network's halves extend it by one bit.
 */
module Access {
  import opened Basics
  import opened Ipv4

  predicate Disjoint(p: Net, q: Net) {
    !Overlaps(p, q)
  }

  predicate PairwiseDisjoint(nets: seq<Net>) {
    forall i, j :: 0 <= i < j < |nets| ==> Disjoint(nets[i], nets[j])
  }

  lemma InAnyJoin(p: seq<Net>, q: seq<Net>, a: Addr)
    ensures InAny(p + q, a) <==> InAny(p, a) || InAny(q, a)
  {
    if InAny(p, a) {
      var i :| 0 <= i < |p| && Contains(p[i], a);
      assert (p + q)[i] == p[i];
    }
    if InAny(q, a) {
      var i :| 0 <= i < |q| && Contains(q[i], a);
      assert (p + q)[|p| + i] == q[i];
    }
  }

  // ---------------------------------------------------------------- exclusion

  lemma HalfTowards(c: Bits, x: Bits)
    requires c < x
    ensures c + [false] <= x || c + [true] <= x
  {
    assert c + [x[|c|]] == x[..|c| + 1];
    if x[|c|] {
      assert c + [true] <= x;
    } else {
      assert c + [false] <= x;
    }
  }

  /** A block is the union of its halves. */
  lemma HalvesCover(c: Net, a: Addr)
    requires |c| < 32
    ensures Contains(c, a) <==> Contains(c + [false], a) || Contains(c + [true], a)
    ensures !(Contains(c + [false], a) && Contains(c + [true], a))
  {
    if Contains(c, a) {
      HalfTowards(c, a);
    }
    if Contains(c + [false], a) {
      assert !a[|c|] && c == (c + [false])[..|c|];
    }
    if Contains(c + [true], a) {
      assert a[|c|] && c == (c + [true])[..|c|];
    }
  }

  lemma StepExcludes(net: Net, block: Net, parts: seq<Net>, out: Net, next: Net)
    requires |block| < 32 && net <= block && {out, next} == {block + [false], block + [true]}
    requires forall a: Addr :: InAny(parts, a) <==> Contains(net, a) && !Contains(block, a)
    ensures forall a: Addr :: InAny(parts + [out], a) <==> Contains(net, a) && !Contains(next, a)
  {
    forall a: Addr
      ensures InAny(parts + [out], a) <==> Contains(net, a) && !Contains(next, a)
    {
      HalvesCover(block, a);
      InAnyJoin(parts, [out], a);
      assert InAny([out], a) <==> Contains(out, a) by { assert [out][0] == out; }
      assert (block + [false])[|block|] != (block + [true])[|block|];
      if Contains(block, a) {
        assert net == a[..|net|];
      }
    }
  }

  /** The parts of a network outside one of its subnetworks, by splitting towards it. */
  method AddressExclude(net: Net, other: Net) returns (parts: seq<Net>)
    requires net <= other
    ensures forall a: Addr :: InAny(parts, a) <==> Contains(net, a) && !Contains(other, a)
  {
    parts := [];
    if other == net {
      return;
    }
    var block: Net := net;
    var low: Net, high: Net := net + [false], net + [true];
    HalfTowards(net, other);
    while low != other && high != other
      invariant |block| < |other| && net <= block <= other && low == block + [false] && high == block + [true]
      invariant low <= other || high <= other
      invariant forall a: Addr :: InAny(parts, a) <==> Contains(net, a) && !Contains(block, a)
      decreases |other| - |block|
    {
      ghost var was := parts;
      if low <= other {
        parts := parts + [high];
        StepExcludes(net, block, was, high, low);
        block := low;
      } else {
        parts := parts + [low];
        StepExcludes(net, block, was, low, high);
        block := high;
      }
      low, high := block + [false], block + [true];
      HalfTowards(block, other);
    }
    if low == other {
      StepExcludes(net, block, parts, high, low);
      parts := parts + [high];
    } else {
      StepExcludes(net, block, parts, low, high);
      parts := parts + [low];
    }
  }

  // ---------------------------------------------------------------- collapsing: merging siblings

  function Supernet(n: Net): Net {
    if n == [] then n else n[..|n| - 1]
  }

  predicate KeyedBySupernet(m: map<Net, Net>) {
    forall k :: k in m ==> Supernet(m[k]) == k
  }

  ghost predicate Covers(pending: seq<Net>, m: map<Net, Net>, a: Addr) {
    InAny(pending, a) || exists k :: k in m && Contains(m[k], a)
  }

  /** Two different networks under one supernet make up the supernet. */
  lemma SiblingsMerge(p: Net, q: Net, a: Addr)
    requires Supernet(p) == Supernet(q) && p != q
    ensures Contains(Supernet(p), a) <==> Contains(p, a) || Contains(q, a)
  {
    var s := Supernet(p);
    if p != [] && q != [] {
      assert p == s + [p[|s|]] && q == s + [q[|s|]];
      assert p[|s|] != q[|s|];
      HalvesCover(s, a);
    }
  }

  lemma KeepOne(rest: seq<Net>, m: map<Net, Net>, net: Net, a: Addr)
    requires Supernet(net) !in m
    ensures Covers(rest, m[Supernet(net) := net], a) <==> Covers(rest + [net], m, a)
  {
    var after := m[Supernet(net) := net];
    InAnyJoin(rest, [net], a);
    assert InAny([net], a) <==> Contains(net, a) by { assert [net][0] == net; }
    if k :| k in m && Contains(m[k], a) {
      assert after[k] == m[k];
    }
    if Contains(net, a) {
      assert after[Supernet(net)] == net;
    }
  }

  lemma MergeTwo(rest: seq<Net>, m: map<Net, Net>, net: Net, a: Addr)
    requires KeyedBySupernet(m) && Supernet(net) in m && m[Supernet(net)] != net
    ensures Covers(rest + [Supernet(net)], m - {Supernet(net)}, a) <==> Covers(rest + [net], m, a)
  {
    var s := Supernet(net);
    var after := m - {s};
    SiblingsMerge(m[s], net, a);
    InAnyJoin(rest, [net], a);
    InAnyJoin(rest, [s], a);
    assert InAny([net], a) <==> Contains(net, a) by { assert [net][0] == net; }
    assert InAny([s], a) <==> Contains(s, a) by { assert [s][0] == s; }
    if k :| k in m && Contains(m[k], a) {
      assert k == s || after[k] == m[k];
    }
    if k :| k in after && Contains(after[k], a) {
      assert m[k] == after[k];
    }
  }

  lemma DropOne(rest: seq<Net>, m: map<Net, Net>, net: Net, a: Addr)
    requires Supernet(net) in m && m[Supernet(net)] == net
    ensures Covers(rest, m, a) <==> Covers(rest + [net], m, a)
  {
    InAnyJoin(rest, [net], a);
    assert InAny([net], a) <==> Contains(net, a) by { assert [net][0] == net; }
  }

  /** Merges siblings until none share a supernet; the covered addresses stay the same. */
  method MergeSiblings(nets: seq<Net>) returns (m: map<Net, Net>)
    ensures KeyedBySupernet(m)
    ensures forall a: Addr :: (exists k :: k in m && Contains(m[k], a)) <==> InAny(nets, a)
  {
    var pending := nets;
    m := map[];
    while pending != []
      invariant KeyedBySupernet(m)
      invariant forall a: Addr :: Covers(pending, m, a) <==> InAny(nets, a)
      decreases 2 * |pending| + |m|
    {
      var net := pending[|pending| - 1];
      var rest := pending[..|pending| - 1];
      var supernet := Supernet(net);
      ghost var before := m;
      assert pending == rest + [net];
      if supernet !in m {
        m := m[supernet := net];
        pending := rest;
        forall a: Addr ensures Covers(pending, m, a) <==> Covers(rest + [net], before, a) { KeepOne(rest, before, net, a); }
      } else if m[supernet] != net {
        assert |m - {supernet}| == |m| - 1;
        m := m - {supernet};
        pending := rest + [supernet];
        forall a: Addr ensures Covers(pending, m, a) <==> Covers(rest + [net], before, a) { MergeTwo(rest, before, net, a); }
      } else {
        pending := rest;
        forall a: Addr ensures Covers(pending, m, a) <==> Covers(rest + [net], before, a) { DropOne(rest, before, net, a); }
      }
    }
  }

  // ---------------------------------------------------------------- collapsing: dropping covered networks

  /** Order by network address, then by prefix length. */
  predicate Before(p: Bits, q: Bits) {
    q != [] && (p == [] || (p[0] == q[0] && Before(p[1..], q[1..])) || (!p[0] && q[0]))
  }

  predicate Sorted(nets: seq<Net>) {
    forall i, j :: 0 <= i < j < |nets| ==> Before(nets[i], nets[j])
  }

  lemma {:induction false} BeforeIsTotal(p: Bits, q: Bits)
    ensures Before(p, q) || p == q || Before(q, p)
    ensures !(Before(p, q) && Before(q, p)) && !Before(p, p)
  {
    if p != [] && q != [] {
      BeforeIsTotal(p[1..], q[1..]);
      assert p == [p[0]] + p[1..] && q == [q[0]] + q[1..];
    }
    if p != [] {
      BeforeIsTotal(p[1..], p[1..]);
    }
  }

  lemma {:induction false} BeforeIsTransitive(p: Bits, q: Bits, r: Bits)
    requires Before(p, q) && Before(q, r)
    ensures Before(p, r)
  {
    if p != [] && p[0] == q[0] && q[0] == r[0] {
      BeforeIsTransitive(p[1..], q[1..], r[1..]);
    }
  }

  lemma {:induction false} PrefixIsBefore(p: Bits, q: Bits)
    requires p < q
    ensures Before(p, q)
  {
    if p != [] {
      assert p[1..] < q[1..];
      PrefixIsBefore(p[1..], q[1..]);
    }
  }

  /** Whatever is ordered between a network and one of its subnetworks is a subnetwork too. */
  lemma {:induction false} BetweenIsInside(p: Bits, x: Bits, q: Bits)
    requires Before(p, x) && Before(x, q) && p <= q
    ensures p <= x
  {
    if p != [] {
      assert p[0] == q[0] && p[1..] <= q[1..];
      BetweenIsInside(p[1..], x[1..], q[1..]);
      assert p == [p[0]] + p[1..] && x == [x[0]] + x[1..];
    }
  }

  function Broadcast(n: Net): Addr {
    n + seq(32 - |n|, _ => true)
  }

  lemma {:induction false} InsideEndsSooner(p: Bits, q: Bits, n: nat)
    requires p <= q && |q| <= n
    ensures !Before(p + seq(n - |p|, _ => true), q + seq(n - |q|, _ => true))
    decreases n
  {
    var x, y := p + seq(n - |p|, _ => true), q + seq(n - |q|, _ => true);
    if n > 0 {
      if p != [] {
        InsideEndsSooner(p[1..], q[1..], n - 1);
        assert x[1..] == p[1..] + seq(n - 1 - |p[1..]|, _ => true);
        assert y[1..] == q[1..] + seq(n - 1 - |q[1..]|, _ => true);
      } else if q != [] {
        InsideEndsSooner([], q[1..], n - 1);
        assert x[1..] == [] + seq(n - 1, _ => true);
        assert y[1..] == q[1..] + seq(n - 1 - |q[1..]|, _ => true);
      } else {
        InsideEndsSooner([], [], n - 1);
        assert x[1..] == [] + seq(n - 1, _ => true) == y[1..];
      }
    }
  }

  lemma {:induction false} ApartEndsLater(p: Bits, q: Bits, x: Bits, y: Bits)
    requires Before(p, q) && !(p <= q)
    ensures Before(p + x, q + y)
  {
    assert p != [] && q != [];
    assert (p + x)[1..] == p[1..] + x && (q + y)[1..] == q[1..] + y;
    if p[0] == q[0] {
      assert p == [p[0]] + p[1..] && q == [q[0]] + q[1..];
      ApartEndsLater(p[1..], q[1..], x, y);
    }
  }

  /** In sorted order, a network ends no later than its predecessor exactly when it lies inside it. */
  lemma EndsLaterUnlessInside(p: Net, q: Net)
    requires Before(p, q)
    ensures !Before(Broadcast(p), Broadcast(q)) <==> p <= q
  {
    if p <= q {
      InsideEndsSooner(p, q, 32);
    } else {
      ApartEndsLater(p, q, Broadcast(p)[|p|..], Broadcast(q)[|q|..]);
      assert p + Broadcast(p)[|p|..] == Broadcast(p) && q + Broadcast(q)[|q|..] == Broadcast(q);
    }
  }

  lemma SortedIsPrefixFree(nets: seq<Net>, n: Net)
    requires Sorted(nets + [n]) && PairwiseDisjoint(nets) && nets != [] && !(nets[|nets| - 1] <= n)
    ensures PairwiseDisjoint(nets + [n])
  {
    var all := nets + [n];
    var k := |nets|;
    forall i | 0 <= i < k
      ensures Disjoint(all[i], n)
    {
      assert Before(all[i], all[k]);
      if n <= all[i] {
        BeforeIsTotal(n, all[i]);
        if n < all[i] {
          PrefixIsBefore(n, all[i]);
        }
      }
      if all[i] <= n && i < k - 1 {
        assert Before(all[i], all[k - 1]) && Before(all[k - 1], all[k]);
        assert Disjoint(nets[i], nets[k - 1]);
        BetweenIsInside(all[i], all[k - 1], n);
      }
    }
  }

  /** Keeps, from networks in order, those the last kept one does not cover. */
  method DropCovered(nets: seq<Net>) returns (kept: seq<Net>)
    requires Sorted(nets)
    ensures Sorted(kept) && PairwiseDisjoint(kept)
    ensures forall a: Addr :: InAny(kept, a) <==> InAny(nets, a)
  {
    kept := [];
    for n := 0 to |nets|
      invariant Sorted(kept) && PairwiseDisjoint(kept) && forall k :: k in kept ==> k in nets[..n]
      invariant forall a: Addr :: InAny(kept, a) <==> InAny(nets[..n], a)
    {
      assert nets[..n + 1] == nets[..n] + [nets[n]];
      forall i | 0 <= i < |kept|
        ensures Before(kept[i], nets[n])
      {
        assert kept[i] in nets[..n];
      }
      forall a: Addr
        ensures InAny(nets[..n + 1], a) <==> InAny(nets[..n], a) || Contains(nets[n], a)
        ensures InAny(kept + [nets[n]], a) <==> InAny(kept, a) || Contains(nets[n], a)
      {
        InAnyJoin(nets[..n], [nets[n]], a);
        InAnyJoin(kept, [nets[n]], a);
        assert InAny([nets[n]], a) <==> Contains(nets[n], a) by { assert [nets[n]][0] == nets[n]; }
      }
      if kept != [] {
        var last := kept[|kept| - 1];
        EndsLaterUnlessInside(last, nets[n]);
        if !Before(Broadcast(last), Broadcast(nets[n])) {
          forall a: Addr | Contains(nets[n], a)
            ensures InAny(kept, a)
          {
            assert last == a[..|last|];
          }
          continue;
        }
        SortedIsPrefixFree(kept, nets[n]);
      }
      kept := kept + [nets[n]];
    }
    assert nets[..|nets|] == nets;
  }

  // ---------------------------------------------------------------- sorting

  method Insert(nets: seq<Net>, n: Net) returns (r: seq<Net>)
    requires Sorted(nets) && n !in nets
    ensures Sorted(r) && forall x :: x in r <==> x in nets || x == n
  {
    var i := 0;
    while i < |nets| && Before(nets[i], n)
      invariant 0 <= i <= |nets| && forall k :: 0 <= k < i ==> Before(nets[k], n)
    {
      i := i + 1;
    }
    r := nets[..i] + [n] + nets[i..];
    forall k | i <= k < |nets|
      ensures Before(n, nets[k])
    {
      BeforeIsTotal(nets[i], n);
      if k > i {
        BeforeIsTransitive(n, nets[i], nets[k]);
      }
    }
    assert nets == nets[..i] + nets[i..];
  }

  method SortSet(s: set<Net>) returns (r: seq<Net>)
    ensures Sorted(r) && forall x :: x in r <==> x in s
  {
    r := [];
    var pending := s;
    while pending != {}
      invariant pending <= s && Sorted(r) && forall x :: x in r <==> x in s - pending
      decreases pending
    {
      var x :| x in pending;
      r := Insert(r, x);
      pending := pending - {x};
    }
  }

  /** The same addresses as sorted, pairwise disjoint networks. */
  method CollapseAddresses(nets: seq<Net>) returns (r: seq<Net>)
    ensures Sorted(r) && PairwiseDisjoint(r)
    ensures forall a: Addr :: InAny(r, a) <==> InAny(nets, a)
  {
    var m := MergeSiblings(nets);
    var all := SortSet(m.Values);
    forall a: Addr
      ensures InAny(all, a) <==> InAny(nets, a)
    {
      if InAny(all, a) {
        var i :| 0 <= i < |all| && Contains(all[i], a);
        assert all[i] in m.Values;
      }
      if k :| k in m && Contains(m[k], a) {
        assert m[k] in m.Values;
        var i :| 0 <= i < |all| && all[i] == m[k];
      }
    }
    r := DropCovered(all);
  }

  // ---------------------------------------------------------------- subtraction

  predicate Permitted(allows: seq<Net>, denies: seq<Net>, a: Addr) {
    InAny(allows, a) && !InAny(denies, a)
  }

  /** One deny taken out of every fragment. */
  method SubtractOne(fragments: seq<Net>, deny: Net) returns (next: seq<Net>)
    ensures forall a: Addr :: InAny(next, a) <==> InAny(fragments, a) && !Contains(deny, a)
  {
    next := [];
    for n := 0 to |fragments|
      invariant forall a: Addr :: InAny(next, a) <==> InAny(fragments[..n], a) && !Contains(deny, a)
    {
      var net := fragments[n];
      var parts: seq<Net> := [];
      if !Overlaps(net, deny) {
        parts := [net];
        forall a: Addr | Contains(net, a)
          ensures !Contains(deny, a)
        {
          OverlapIsSharedAddress(net, deny);
        }
        assert parts[0] == net;
      } else if deny <= net {
        forall a: Addr | Contains(net, a)
          ensures Contains(deny, a)
        {
          assert deny == a[..|deny|];
        }
      } else {
        parts := AddressExclude(net, deny);
      }
      forall a: Addr
        ensures InAny(next + parts, a) <==> InAny(fragments[..n + 1], a) && !Contains(deny, a)
      {
        InAnyJoin(next, parts, a);
        InAnyJoin(fragments[..n], [net], a);
        assert InAny([net], a) <==> Contains(net, a) by { assert [net][0] == net; }
        assert fragments[..n + 1] == fragments[..n] + [net];
      }
      next := next + parts;
    }
    assert fragments[..|fragments|] == fragments;
  }

  /** An address is in the result exactly when some allow and no deny holds it; the fragments are sorted and disjoint. */
  method SubtractDenies(allows: seq<Net>, denies: seq<Net>) returns (r: seq<Net>)
    ensures forall a: Addr :: InAny(r, a) <==> Permitted(allows, denies, a)
    ensures Sorted(r) && PairwiseDisjoint(r)
  {
    var fragments := allows;
    for n := 0 to |denies|
      invariant forall a: Addr :: InAny(fragments, a) <==> Permitted(allows, denies[..n], a)
    {
      ghost var was := fragments;
      fragments := SubtractOne(fragments, denies[n]);
      forall a: Addr
        ensures InAny(fragments, a) <==> Permitted(allows, denies[..n + 1], a)
      {
        assert denies[..n + 1] == denies[..n] + [denies[n]];
        InAnyJoin(denies[..n], [denies[n]], a);
        assert InAny([denies[n]], a) <==> Contains(denies[n], a) by { assert [denies[n]][0] == denies[n]; }
      }
    }
    assert denies[..|denies|] == denies;
    r := CollapseAddresses(fragments);
  }

  // ---------------------------------------------------------------- a Device's networks

  datatype Rules = Rules(allow: seq<Net>, deny: seq<Net>)

  datatype Device = Device(enabled: bool, revoked: bool, user: Option<Rules>, own: Option<Rules>, legacy: seq<Net>)

  function AllowsOf(r: Option<Rules>): seq<Net> {
    if r.Some? then r.value.allow else []
  }

  function DeniesOf(r: Option<Rules>): seq<Net> {
    if r.Some? then r.value.deny else []
  }

  predicate Active(d: Device) {
    d.enabled && !d.revoked
  }

  /** The Device may reach the address: it is active, something allows it and nothing denies it. */
  predicate MayReach(d: Device, a: Addr) {
    Active(d) &&
    (InAny(AllowsOf(d.user), a) || InAny(AllowsOf(d.own), a) || InAny(d.legacy, a)) &&
    !InAny(DeniesOf(d.user), a) && !InAny(DeniesOf(d.own), a)
  }

  method EffectiveNetworks(d: Device) returns (r: seq<Net>)
    ensures forall a: Addr :: InAny(r, a) <==> MayReach(d, a)
    ensures Sorted(r) && PairwiseDisjoint(r)
  {
    if !d.enabled || d.revoked {
      return [];
    }
    var allows := AllowsOf(d.user) + AllowsOf(d.own) + d.legacy;
    var denies := DeniesOf(d.user) + DeniesOf(d.own);
    forall a: Addr
      ensures Permitted(allows, denies, a) <==> MayReach(d, a)
    {
      InAnyJoin(AllowsOf(d.user), AllowsOf(d.own), a);
      InAnyJoin(AllowsOf(d.user) + AllowsOf(d.own), d.legacy, a);
      InAnyJoin(DeniesOf(d.user), DeniesOf(d.own), a);
    }
    var collapsedAllows := CollapseAddresses(allows);
    var collapsedDenies := CollapseAddresses(denies);
    r := SubtractDenies(collapsedAllows, collapsedDenies);
  }
}
