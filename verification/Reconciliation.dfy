/**
 Administrative revision reconciliation: replicas whose canonical entries agree
 but whose revision counters drifted apart are brought to one counter by a
 committed entry that carries no policy. The procedure gathers every member's
 state and every Gateway's receipt, commits the largest revision seen and then
 confirms every member.
 */
module Reconciliation {
  import opened Basics
  import opened Canonical

  // ---------------------------------------------------------------- diverged counters

  /** Entries applied in order, starting from any canonical state. */
  ghost function Follow(pf: Platform, v: View, log: seq<LogEntry>): View {
    if log == [] then v else Once(pf, Follow(pf, v, log[..|log| - 1]), log[|log| - 1])
  }

  predicate Exhausted(v: View) {
    v.revision == MAX_U64
  }

  /** Before every entry either both counters are exhausted or neither is. */
  ghost predicate ExhaustedTogether(pf: Platform, a: View, b: View, log: seq<LogEntry>) {
    forall n :: 0 <= n < |log| ==> (Exhausted(Follow(pf, a, log[..n])) <==> Exhausted(Follow(pf, b, log[..n])))
  }

  lemma OneEntryAgrees(pf: Platform, a: View, b: View, e: LogEntry)
    requires a.entries == b.entries && (Exhausted(a) <==> Exhausted(b))
    ensures Once(pf, a, e).entries == Once(pf, b, e).entries
  {
  }

  /** Whatever the counters, replicas with equal entries stay equal in entries under a common log. */
  lemma {:induction false} EntriesIgnoreCounters(pf: Platform, a: View, b: View, log: seq<LogEntry>)
    requires a.entries == b.entries && ExhaustedTogether(pf, a, b, log)
    ensures Follow(pf, a, log).entries == Follow(pf, b, log).entries
  {
    if log != [] {
      var n := |log| - 1;
      var before := log[..n];
      forall k | 0 <= k < n
        ensures before[..k] == log[..k]
      {
      }
      EntriesIgnoreCounters(pf, a, b, before);
      OneEntryAgrees(pf, Follow(pf, a, before), Follow(pf, b, before), log[n]);
    }
  }

  /** A path that is neither a route nor a Node record. */
  predicate PlainPath(pf: Platform, path: string) {
    pf.normalizePath(path) == Some(path) && !IsRoute(path) && !HasPrefix(path, NODES)
  }

  lemma PlainPutKeepsOwned(pf: Platform, entries: Entries, path: string, data: Bytes)
    requires RoutesOwned(pf, entries) && PlainPath(pf, path)
    ensures RoutesOwned(pf, entries[path := data])
  {
    var after := entries[path := data];
    forall p | p in after && IsRoute(p)
      ensures ClaimBacked(pf, after[p], after)
    {
      assert ClaimBacked(pf, entries[p], entries);
      var owner := ClaimOf(pf, entries[p]).value.owner;
      assert NodePath(owner) == NODES + (owner + ".json");
    }
  }

  /** New content for a path. */
  function Fresh(entries: Entries, path: string): Bytes {
    if Lookup(entries, path) == Some([]) then [0] else []
  }

  function PutOf(entries: Entries, path: string): Operation {
    Operation("put", path, Fresh(entries, path), false, false, "")
  }

  lemma PutIsAccepted(pf: Platform, entries: Entries, path: string)
    requires RoutesOwned(pf, entries) && PlainPath(pf, path)
    ensures var op := PutOf(entries, path);
            Admitted(pf, Command(Mutation(1, "m", "Put", [op], 0))) == Some([op]) && Accepts(pf, entries, [op]) &&
            Writes(entries, [op]) == entries[path := op.data]
  {
    var op := PutOf(entries, path);
    assert [op][..0] == [];
    assert AllSupported(pf, [op]) && Normalized(pf, [op]) == [op];
    PlainPutKeepsOwned(pf, entries, path, op.data);
  }

  /** When exactly one counter is exhausted, a plain put parts the replicas. */
  lemma ExhaustedCounterParts(pf: Platform, a: View, b: View, path: string)
    requires a.entries == b.entries && RoutesOwned(pf, a.entries) && PlainPath(pf, path) && Exhausted(a) != Exhausted(b)
    ensures var put := Command(Mutation(1, "m", "Put", [PutOf(a.entries, path)], 0));
            Once(pf, a, put).entries != Once(pf, b, put).entries
  {
    var op := PutOf(a.entries, path);
    PutIsAccepted(pf, a.entries, path);
    assert Lookup(a.entries, path) != Some(op.data);
    assert a.entries[path := op.data][path] == op.data;
  }

  /** Equal replicas agree on the outcome of every next entry if and only if both counters are exhausted or neither is. */
  lemma NextEntryAgreesIff(pf: Platform, a: View, b: View, path: string)
    requires a.entries == b.entries && RoutesOwned(pf, a.entries) && PlainPath(pf, path)
    ensures (forall e :: Once(pf, a, e).entries == Once(pf, b, e).entries) <==> (Exhausted(a) <==> Exhausted(b))
  {
    if Exhausted(a) <==> Exhausted(b) {
      forall e
        ensures Once(pf, a, e).entries == Once(pf, b, e).entries
      {
        OneEntryAgrees(pf, a, b, e);
      }
    } else {
      ExhaustedCounterParts(pf, a, b, path);
    }
  }

  lemma {:induction false} FollowGrows(pf: Platform, v: View, log: seq<LogEntry>, n: nat)
    requires n <= |log|
    ensures Follow(pf, v, log[..n]).revision <= Follow(pf, v, log).revision
  {
    if n == |log| {
      assert log[..n] == log;
    } else {
      FollowGrows(pf, v, log[..|log| - 1], n);
      assert log[..|log| - 1][..n] == log[..n];
    }
  }

  lemma {:induction false} FollowConcat(pf: Platform, v: View, a: seq<LogEntry>, b: seq<LogEntry>)
    ensures Follow(pf, v, a + b) == Follow(pf, Follow(pf, v, a), b)
  {
    if b == [] {
      assert a + b == a;
    } else {
      assert (a + b)[..|a + b| - 1] == a + b[..|b| - 1];
      FollowConcat(pf, v, a, b[..|b| - 1]);
    }
  }

  /** Entries that left the Leader's counter alone moved no member's entries and no counter past the Leader's. */
  lemma {:induction false} QuietLogIsQuiet(pf: Platform, leader: View, peer: View, log: seq<LogEntry>)
    requires leader.entries == peer.entries && leader.revision < MAX_U64 && peer.revision < MAX_U64
    requires Follow(pf, leader, log).revision == leader.revision
    ensures Follow(pf, leader, log).entries == leader.entries == Follow(pf, peer, log).entries
    ensures Follow(pf, peer, log).revision <= Max(leader.revision, peer.revision)
  {
    if log != [] {
      var n := |log| - 1;
      FollowGrows(pf, leader, log, 0);
      FollowGrows(pf, leader, log[..n], 0);
      FollowGrows(pf, leader, log, n);
      assert log[..0] == [] && log[..n][..0] == [];
      QuietLogIsQuiet(pf, leader, peer, log[..n]);
      var e := log[n];
      if Admitted(pf, e).Some? && Accepts(pf, leader.entries, Admitted(pf, e).value) {
        assert e.mutation.kind == RECONCILE;
        assert Admitted(pf, e).value == [];
      }
    }
  }

  function Advance(minimum: nat): LogEntry {
    Command(Mutation(1, "revision-recovery", RECONCILE, [], minimum))
  }

  lemma AdvanceAfter(pf: Platform, v: View, quiet: seq<LogEntry>, minimum: nat)
    requires var w := Follow(pf, v, quiet); RoutesOwned(pf, w.entries) && w.revision <= minimum && 0 < minimum < MAX_U64
    ensures Follow(pf, v, quiet + [Advance(minimum)]) == View(Follow(pf, v, quiet).entries, minimum, 1)
  {
    assert (quiet + [Advance(minimum)])[..|quiet|] == quiet;
    assert Admitted(pf, Advance(minimum)) == Some([]);
  }

  /**
   After the reconciliation entry two members that agreed on entries are equal in
   everything, at exactly the reconciled revision, and stay equal under every log
   that follows, whatever counters they had before.
   */
  lemma CountersAlign(pf: Platform, leader: View, peer: View, quiet: seq<LogEntry>, minimum: nat, later: seq<LogEntry>)
    requires leader.entries == peer.entries && RoutesOwned(pf, leader.entries)
    requires Follow(pf, leader, quiet).revision == leader.revision
    requires leader.revision <= minimum && peer.revision <= minimum && 0 < minimum < MAX_U64
    ensures Follow(pf, leader, quiet + [Advance(minimum)]) == View(leader.entries, minimum, 1)
    ensures Follow(pf, peer, quiet + [Advance(minimum)] + later) == Follow(pf, leader, quiet + [Advance(minimum)] + later)
    ensures Follow(pf, peer, quiet + [Advance(minimum)] + later).revision >= minimum
  {
    QuietLogIsQuiet(pf, leader, peer, quiet);
    AdvanceAfter(pf, leader, quiet, minimum);
    AdvanceAfter(pf, peer, quiet, minimum);
    FollowConcat(pf, leader, quiet + [Advance(minimum)], later);
    FollowConcat(pf, peer, quiet + [Advance(minimum)], later);
    FollowGrows(pf, View(leader.entries, minimum, 1), later, 0);
    assert later[..0] == [];
  }

  // ---------------------------------------------------------------- the administrative procedure

  datatype RecoveryState = RecoveryState(revision: nat, floor: nat, digest: string, configuration: nat)

  /** A member's answer; None when the member could not be asked or is not ready. */
  type Answer = Option<RecoveryState>

  /** A Gateway receipt and the revision its verified signature vouches for, if any. */
  datatype Receipt = Receipt(signed: Bytes, verified: Option<nat>)

  predicate SameState(view: RecoveryState, answer: Answer) {
    answer.Some? && answer.value.digest == view.digest && answer.value.configuration == view.configuration
  }

  predicate Confirms(view: RecoveryState, minimum: nat, answer: Answer) {
    answer.Some? && answer.value.revision >= minimum && answer.value.digest == view.digest
  }

  /** A bound is the largest of a base and two revisions of every member and every receipt. */
  ghost predicate Covers(minimum: nat, view: RecoveryState, members: seq<Answer>, revisions: seq<nat>) {
    minimum >= 1 && minimum >= view.revision && minimum >= view.floor &&
    (forall i :: 0 <= i < |members| ==>
       members[i].Some? && minimum >= members[i].value.revision && minimum >= members[i].value.floor) &&
    (forall i :: 0 <= i < |revisions| ==> minimum >= revisions[i]) &&
    (minimum == 1 || minimum == view.revision || minimum == view.floor ||
     (exists i :: 0 <= i < |members| && (minimum == members[i].value.revision || minimum == members[i].value.floor)) ||
     (exists i :: 0 <= i < |revisions| && minimum == revisions[i]))
  }

  method GatherMembers(view: RecoveryState, members: seq<Answer>) returns (minimum: Option<nat>)
    ensures minimum.Some? <==> forall i :: 0 <= i < |members| ==> SameState(view, members[i])
    ensures minimum.Some? ==> Covers(minimum.value, view, members, [])
  {
    var bound: nat := Max(Max(view.revision, view.floor), 1);
    for n := 0 to |members|
      invariant forall i :: 0 <= i < n ==> SameState(view, members[i])
      invariant Covers(bound, view, members[..n], [])
    {
      if members[n].None? {
        return None;
      }
      var peer := members[n].value;
      if peer.digest != view.digest || peer.configuration != view.configuration {
        return None;
      }
      bound := Max(Max(bound, peer.revision), peer.floor);
      assert members[..n + 1] == members[..n] + [members[n]];
      assert forall i :: 0 <= i < n ==> members[..n + 1][i] == members[..n][i];
      assert members[..n + 1][n] == members[n];
    }
    assert members[..|members|] == members;
    return Some(bound);
  }

  /** Every active Gateway has exactly one receipt, with a verified revision. */
  predicate ReceiptsComplete(gateways: seq<string>, receipts: map<string, Receipt>) {
    |receipts| == |gateways| &&
    forall i :: 0 <= i < |gateways| ==> gateways[i] in receipts && receipts[gateways[i]].verified.Some?
  }

  function ReceiptRevisions(gateways: seq<string>, receipts: map<string, Receipt>): (r: seq<nat>)
    requires forall i :: 0 <= i < |gateways| ==> gateways[i] in receipts && receipts[gateways[i]].verified.Some?
  {
    seq(|gateways|, i requires 0 <= i < |gateways| => receipts[gateways[i]].verified.value)
  }

  method GatherReceipts(start: nat, view: RecoveryState, members: seq<Answer>,
                        gateways: seq<string>, receipts: map<string, Receipt>) returns (minimum: Option<nat>)
    requires Covers(start, view, members, [])
    ensures minimum.Some? <==> ReceiptsComplete(gateways, receipts)
    ensures minimum.Some? ==> Covers(minimum.value, view, members, ReceiptRevisions(gateways, receipts))
  {
    if |receipts| != |gateways| {
      return None;
    }
    var bound: nat := start;
    for n := 0 to |gateways|
      invariant forall i :: 0 <= i < n ==> gateways[i] in receipts && receipts[gateways[i]].verified.Some?
      invariant Covers(bound, view, members, ReceiptRevisions(gateways[..n], receipts))
    {
      if gateways[n] !in receipts || receipts[gateways[n]].verified.None? {
        return None;
      }
      ghost var previous := ReceiptRevisions(gateways[..n], receipts);
      bound := Max(bound, receipts[gateways[n]].verified.value);
      assert ReceiptRevisions(gateways[..n + 1], receipts) == previous + [receipts[gateways[n]].verified.value];
      assert (previous + [receipts[gateways[n]].verified.value])[n] == receipts[gateways[n]].verified.value;
      assert forall i :: 0 <= i < n ==> (previous + [receipts[gateways[n]].verified.value])[i] == previous[i];
    }
    assert gateways[..|gateways|] == gateways;
    return Some(bound);
  }

  /** The Leader's own check, just before it commits, that nothing moved since the states were gathered. */
  predicate Committable(view: RecoveryState, current: RecoveryState, minimum: nat) {
    view.digest == current.digest && view.configuration == current.configuration && view.revision == current.revision &&
    current.floor <= minimum && current.revision <= minimum && minimum != 0 && minimum != MAX_U64
  }

  /**
   The whole procedure, given what the cluster answers at each point. It
   acknowledges only when every member and every Gateway agreed, and then the
   revision it committed is the largest any of them had recorded.
   */
  method Reconcile(view: RecoveryState, members: seq<Answer>, gateways: seq<string>, receipts: map<string, Receipt>,
                   current: Answer, committed: bool, confirmations: seq<Answer>, final: Answer)
    returns (result: Option<nat>)
    requires |confirmations| == |members|
    ensures result.Some? ==>
      Covers(result.value, view, members, if ReceiptsComplete(gateways, receipts) then ReceiptRevisions(gateways, receipts) else [])
    ensures result.Some? ==>
      (forall i :: 0 <= i < |members| ==> SameState(view, members[i])) && ReceiptsComplete(gateways, receipts) &&
      current.Some? && Committable(view, current.value, result.value) && committed &&
      (forall i :: 0 <= i < |confirmations| ==> Confirms(view, result.value, confirmations[i])) &&
      SameState(view, final) && final.value.revision >= result.value
    ensures result.None? ==>
      (exists i :: 0 <= i < |members| && !SameState(view, members[i])) || !ReceiptsComplete(gateways, receipts) ||
      current.None? || !committed || !SameState(view, final) ||
      (exists m :: Covers(m, view, members, ReceiptRevisions(gateways, receipts)) &&
         (!Committable(view, current.value, m) || final.value.revision < m ||
          exists i :: 0 <= i < |confirmations| && !Confirms(view, m, confirmations[i])))
  {
    var gathered := GatherMembers(view, members);
    if gathered.None? {
      return None;
    }
    var bound := GatherReceipts(gathered.value, view, members, gateways, receipts);
    if bound.None? {
      return None;
    }
    var minimum := bound.value;
    if current.None? || !Committable(view, current.value, minimum) || !committed {
      return None;
    }
    for n := 0 to |confirmations|
      invariant forall i :: 0 <= i < n ==> Confirms(view, minimum, confirmations[i])
    {
      if !Confirms(view, minimum, confirmations[n]) {
        return None;
      }
    }
    if !SameState(view, final) || final.value.revision < minimum {
      return None;
    }
    return Some(minimum);
  }

  // ---------------------------------------------------------------- what an acknowledgement means

  /** The committed reconstruction metadata of a member, with the digest of its entries. */
  function StateOf(pf: Platform, v: View, floor: nat, configuration: nat): RecoveryState {
    RecoveryState(v.revision, floor, pf.checksum(v.schema, 0, v.entries), configuration)
  }

  ghost predicate DigestInjective(pf: Platform) {
    forall s: nat, e: Entries, s': nat, e': Entries ::
      pf.checksum(s, 0, e) == pf.checksum(s', 0, e') ==> s == s' && e == e'
  }

  /** A prefix of a quiet log is quiet for the Leader. */
  lemma QuietPrefix(pf: Platform, leader: View, quiet: seq<LogEntry>, n: nat)
    requires n <= |quiet| && leader.revision < MAX_U64 && Follow(pf, leader, quiet).revision == leader.revision
    ensures Follow(pf, leader, quiet[..n]).entries == leader.entries
    ensures Follow(pf, leader, quiet[..n]).revision == leader.revision
    ensures Follow(pf, Follow(pf, leader, quiet[..n]), quiet[n..]).revision == leader.revision
  {
    FollowGrows(pf, leader, quiet, n);
    FollowGrows(pf, leader, quiet[..n], 0);
    assert quiet[..n][..0] == [];
    QuietLogIsQuiet(pf, leader, leader, quiet[..n]);
    FollowConcat(pf, leader, quiet[..n], quiet[n..]);
    assert quiet[..n] + quiet[n..] == quiet;
  }

  /** Members that agree at a position of a quiet log are aligned by the reconciliation entry after it. */
  lemma AlignedFromPosition(pf: Platform, leader: View, peer: View, quiet: seq<LogEntry>, minimum: nat, later: seq<LogEntry>,
                            position: nat)
    requires position <= |quiet| && RoutesOwned(pf, leader.entries) && Follow(pf, leader, quiet).revision == leader.revision
    requires Follow(pf, peer, quiet[..position]).entries == leader.entries
    requires leader.revision <= minimum && Follow(pf, peer, quiet[..position]).revision <= minimum && 0 < minimum < MAX_U64
    ensures var log := quiet + [Advance(minimum)] + later;
            Follow(pf, peer, log) == Follow(pf, leader, log) && Follow(pf, leader, log).revision >= minimum
  {
    var before, rest := quiet[..position], quiet[position..];
    QuietPrefix(pf, leader, quiet, position);
    CountersAlign(pf, Follow(pf, leader, before), Follow(pf, peer, before), rest, minimum, later);
    var tail := rest + [Advance(minimum)] + later;
    assert quiet + [Advance(minimum)] + later == before + tail;
    FollowConcat(pf, leader, before, tail);
    FollowConcat(pf, peer, before, tail);
  }

  /**
   If the checks of an acknowledged reconciliation hold of the members' real
   states, then from its commit on every member equals the Leader in entries and
   counter under any later log, at or above the reconciled minimum and so at or
   above every revision, floor and receipt that was gathered. A member may have
   answered from any later position before the commit.
   */
  lemma AcknowledgedMeansAligned(pf: Platform, leader: View, floor: nat, configuration: nat,
                                 peers: seq<View>, members: seq<Answer>, revisions: seq<nat>,
                                 quiet: seq<LogEntry>, current: RecoveryState, minimum: nat,
                                 later: seq<LogEntry>, i: nat, position: nat)
    requires DigestInjective(pf) && RoutesOwned(pf, leader.entries)
    requires |members| == |peers| && i < |peers| && position <= |quiet|
    requires members[i].Some? && members[i].value ==
      StateOf(pf, Follow(pf, peers[i], quiet[..position]), members[i].value.floor, members[i].value.configuration)
    requires SameState(StateOf(pf, leader, floor, configuration), members[i])
    requires Covers(minimum, StateOf(pf, leader, floor, configuration), members, revisions)
    requires current == StateOf(pf, Follow(pf, leader, quiet), current.floor, current.configuration)
    requires Committable(StateOf(pf, leader, floor, configuration), current, minimum)
    requires minimum < MAX_U64
    ensures var log := quiet + [Advance(minimum)] + later;
            Follow(pf, peers[i], log) == Follow(pf, leader, log) && Follow(pf, leader, log).revision >= minimum
    ensures forall k :: 0 <= k < |members| ==> members[k].Some? && minimum >= members[k].value.floor && minimum >= members[k].value.revision
    ensures forall k :: 0 <= k < |revisions| ==> minimum >= revisions[k]
  {
    AlignedFromPosition(pf, leader, peers[i], quiet, minimum, later, position);
  }
}
