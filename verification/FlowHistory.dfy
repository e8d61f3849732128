/** The packet filter over every trace of packets and revocations. */
module FlowHistory {
  import opened Basics
  import opened Relay
  import opened FlowPolicy

  datatype Event = Packet(offer: Offer) | Revocation

  function Step(t: Table, e: Ends, x: Event): Table {
    if x.Packet? then FlowPolicy.After(t, e, x.offer) else Revoked(t)
  }

  function Reach(e: Ends, trace: seq<Event>): Table {
    if trace == [] then NO_FLOWS else Step(Reach(e, trace[..|trace| - 1]), e, trace[|trace| - 1])
  }

  /** The i-th event is a packet that the filter let through. */
  predicate AllowedAt(e: Ends, trace: seq<Event>, i: nat) {
    i < |trace| && trace[i].Packet? && FlowPolicy.Allowed(Reach(e, trace[..i]), e, trace[i].offer)
  }

  function SegmentAt(e: Ends, trace: seq<Event>, i: nat): Segment
    requires AllowedAt(e, trace, i)
  {
    SegmentOf(e, trace[i].offer).value
  }

  predicate InFlow(e: Ends, trace: seq<Event>, i: nat, f: Flow) {
    AllowedAt(e, trace, i) && SegmentAt(e, trace, i).flow == f
  }

  predicate ResetAt(e: Ends, trace: seq<Event>, i: nat)
    requires AllowedAt(e, trace, i)
  {
    SegmentAt(e, trace, i).flow.protocol == TCP && SegmentAt(e, trace, i).rst
  }

  // ---------------------------------------------------------------- bounds and revocation

  lemma PrunedIsSmaller(t: Table, at: int)
    ensures |Pruned(t, at).flows| <= |t.flows|
  {
    SmallerKeys(Pruned(t, at).flows, t.flows);
  }

  lemma RenewedKeepsBound(p: Table, sender: Side, s: Segment, at: int)
    requires |p.flows| <= MAX_FLOWS && Passes(p, sender, s, at)
    ensures |Renewed(p, s, at).flows| <= MAX_FLOWS
  {
    if s.flow in p.flows {
      assert p.flows[s.flow := at + IDLE].Keys == p.flows.Keys;
      SmallerKeys(p.flows[s.flow := at + IDLE], p.flows);
    } else {
      assert |p.flows[s.flow := at + IDLE]| == |p.flows| + 1;
    }
    SmallerKeys(p.flows - {s.flow}, p.flows);
  }

  lemma StepKeepsBound(t: Table, e: Ends, x: Event)
    requires |t.flows| <= MAX_FLOWS
    ensures |Step(t, e, x).flows| <= MAX_FLOWS
  {
    hide SegmentOf, Pruned, Renewed, Passes;
    if x.Packet? {
      var o := x.offer;
      PrunedIsSmaller(t, o.at);
      if FlowPolicy.Allowed(t, e, o) {
        RenewedKeepsBound(Pruned(t, o.at), Sender(e, o), SegmentOf(e, o).value, o.at);
      }
    }
  }

  /** The flow table never holds more than 4096 flows. */
  lemma {:induction false} FlowsAreBounded(e: Ends, trace: seq<Event>)
    ensures |Reach(e, trace).flows| <= MAX_FLOWS
  {
    if trace != [] {
      var n := |trace| - 1;
      FlowsAreBounded(e, trace[..n]);
      StepKeepsBound(Reach(e, trace[..n]), e, trace[n]);
    }
  }

  lemma {:induction false} RevokedStays(e: Ends, trace: seq<Event>, r: nat)
    requires r < |trace| && trace[r].Revocation?
    ensures Reach(e, trace).revoked
  {
    if r < |trace| - 1 {
      RevokedStays(e, trace[..|trace| - 1], r);
    }
  }

  /** Nothing is let through after a revocation. */
  lemma NothingAllowedAfterRevoke(e: Ends, trace: seq<Event>, r: nat, i: nat)
    requires r < i < |trace| && trace[r].Revocation?
    ensures !AllowedAt(e, trace, i)
  {
    RevokedStays(e, trace[..i], r);
  }

  // ---------------------------------------------------------------- flows go back to an opening

  /** No event from the a-th up to but not including the b-th is a packet of the flow that was let through. */
  predicate NoneInFlow(e: Ends, trace: seq<Event>, a: nat, b: nat, f: Flow)
    decreases b
  {
    b <= a || (!InFlow(e, trace, b - 1, f) && NoneInFlow(e, trace, a, b - 1, f))
  }

  /** The last packet of the flow before the i-th event. */
  predicate Previous(e: Ends, trace: seq<Event>, i: nat, f: Flow, p: nat) {
    p < i <= |trace| && InFlow(e, trace, p, f) && NoneInFlow(e, trace, p + 1, i, f)
  }

  ghost predicate Continues(e: Ends, trace: seq<Event>, i: nat, f: Flow, p: nat)
    requires AllowedAt(e, trace, i)
  {
    Previous(e, trace, i, f, p) && !ResetAt(e, trace, p) && trace[i].offer.at - trace[p].offer.at < IDLE
  }

  /**
   The packet opens its flow, or continues it: the flow's previous packet let
   through was no reset, came less than 30 seconds earlier and is linked itself.
   */
  ghost predicate Linked(e: Ends, trace: seq<Event>, i: nat, f: Flow)
    decreases i
  {
    InFlow(e, trace, i, f) &&
    (Opens(Sender(e, trace[i].offer), SegmentAt(e, trace, i)) ||
     exists p: nat :: p < i && Continues(e, trace, i, f, p) && Linked(e, trace, p, f))
  }

  lemma AllowedAtPrefix(e: Ends, trace: seq<Event>, n: nat, i: nat)
    requires i < n <= |trace|
    ensures AllowedAt(e, trace[..n], i) <==> AllowedAt(e, trace, i)
    ensures AllowedAt(e, trace, i) ==> SegmentAt(e, trace[..n], i) == SegmentAt(e, trace, i)
  {
    assert trace[..n][..i] == trace[..i];
  }

  lemma {:induction false} NoneInFlowPrefix(e: Ends, trace: seq<Event>, n: nat, a: nat, b: nat, f: Flow)
    requires b <= n <= |trace| && NoneInFlow(e, trace[..n], a, b, f)
    ensures NoneInFlow(e, trace, a, b, f)
    decreases b
  {
    if a < b {
      AllowedAtPrefix(e, trace, n, b - 1);
      NoneInFlowPrefix(e, trace, n, a, b - 1, f);
    }
  }

  lemma PreviousPrefix(e: Ends, trace: seq<Event>, n: nat, i: nat, f: Flow, p: nat)
    requires i <= n <= |trace| && Previous(e, trace[..n], i, f, p)
    ensures Previous(e, trace, i, f, p)
  {
    hide AllowedAt, NoneInFlow;
    AllowedAtPrefix(e, trace, n, p);
    NoneInFlowPrefix(e, trace, n, p + 1, i, f);
  }

  lemma ContinuesPrefix(e: Ends, trace: seq<Event>, n: nat, i: nat, f: Flow, p: nat)
    requires i < n <= |trace| && AllowedAt(e, trace[..n], i) && Continues(e, trace[..n], i, f, p)
    ensures AllowedAt(e, trace, i) && Continues(e, trace, i, f, p)
  {
    AllowedAtPrefix(e, trace, n, i);
    AllowedAtPrefix(e, trace, n, p);
    PreviousPrefix(e, trace, n, i, f, p);
  }

  lemma {:induction false} LinkedPrefix(e: Ends, trace: seq<Event>, n: nat, i: nat, f: Flow)
    requires i < n <= |trace| && Linked(e, trace[..n], i, f)
    ensures Linked(e, trace, i, f)
    decreases i
  {
    AllowedAtPrefix(e, trace, n, i);
    if !Opens(Sender(e, trace[i].offer), SegmentAt(e, trace, i)) {
      var p: nat :| p < i && Continues(e, trace[..n], i, f, p) && Linked(e, trace[..n], p, f);
      ContinuesPrefix(e, trace, n, i, f, p);
      LinkedPrefix(e, trace, n, p, f);
    }
  }

  /** The table entry of a flow belongs to its last packet, which is linked and no reset. */
  ghost predicate Rooted(e: Ends, trace: seq<Event>, f: Flow, p: nat) {
    Previous(e, trace, |trace|, f, p) && !ResetAt(e, trace, p) && Linked(e, trace, p, f) &&
    f in Reach(e, trace).flows && Reach(e, trace).flows[f] == trace[p].offer.at + IDLE
  }

  lemma EntryAfterStep(t: Table, e: Ends, x: Event, f: Flow)
    requires f in Step(t, e, x).flows
    ensures f in t.flows || (x.Packet? && FlowPolicy.Allowed(t, e, x.offer) && SegmentOf(e, x.offer).value.flow == f)
    ensures x.Packet? && FlowPolicy.Allowed(t, e, x.offer) && SegmentOf(e, x.offer).value.flow == f ==>
      Step(t, e, x).flows[f] == x.offer.at + IDLE && !(f.protocol == TCP && SegmentOf(e, x.offer).value.rst)
    ensures !(x.Packet? && FlowPolicy.Allowed(t, e, x.offer) && SegmentOf(e, x.offer).value.flow == f) ==>
      f in t.flows && Step(t, e, x).flows[f] == t.flows[f]
  {
  }

  lemma RootedByNewest(e: Ends, trace: seq<Event>, f: Flow)
    requires trace != [] && f in Reach(e, trace).flows && Linked(e, trace, |trace| - 1, f)
    ensures Rooted(e, trace, f, |trace| - 1)
  {
    var n := |trace| - 1;
    EntryAfterStep(Reach(e, trace[..n]), e, trace[n], f);
  }

  lemma PreviousOneMore(e: Ends, trace: seq<Event>, n: nat, f: Flow, p: nat)
    requires n < |trace| && Previous(e, trace, n, f, p) && !InFlow(e, trace, n, f)
    ensures Previous(e, trace, n + 1, f, p)
  {
  }

  lemma EntryIsKept(e: Ends, trace: seq<Event>, f: Flow)
    requires trace != [] && f in Reach(e, trace).flows && !InFlow(e, trace, |trace| - 1, f)
    ensures Lookup(Reach(e, trace[..|trace| - 1]).flows, f) == Some(Reach(e, trace).flows[f])
  {
    EntryAfterStep(Reach(e, trace[..|trace| - 1]), e, trace[|trace| - 1], f);
  }

  lemma RootedByOlder(e: Ends, trace: seq<Event>, f: Flow, p: nat)
    requires trace != [] && f in Reach(e, trace).flows && !InFlow(e, trace, |trace| - 1, f)
    requires Rooted(e, trace[..|trace| - 1], f, p)
    ensures Rooted(e, trace, f, p)
  {
    var n := |trace| - 1;
    AllowedAtPrefix(e, trace, n, p);
    LinkedPrefix(e, trace, n, p, f);
    PreviousPrefix(e, trace, n, n, f, p);
    PreviousOneMore(e, trace, n, f, p);
    EntryIsKept(e, trace, f);
  }

  lemma EntryIsOlder(e: Ends, trace: seq<Event>, f: Flow)
    requires f in Reach(e, trace).flows
    ensures trace != [] && (InFlow(e, trace, |trace| - 1, f) || f in Reach(e, trace[..|trace| - 1]).flows)
  {
    var n := |trace| - 1;
    EntryAfterStep(Reach(e, trace[..n]), e, trace[n], f);
  }

  lemma {:induction false} EntriesAreRooted(e: Ends, trace: seq<Event>, f: Flow) returns (p: nat)
    requires f in Reach(e, trace).flows
    ensures Rooted(e, trace, f, p)
    decreases |trace|, 0
  {
    EntryIsOlder(e, trace, f);
    var n := |trace| - 1;
    if InFlow(e, trace, n, f) {
      p := n;
      AllowedIsLinked(e, trace, n);
      RootedByNewest(e, trace, f);
    } else {
      p := EntriesAreRooted(e, trace[..n], f);
      RootedByOlder(e, trace, f, p);
    }
  }

  lemma LinkedByEntry(e: Ends, trace: seq<Event>, i: nat, f: Flow, p: nat)
    requires InFlow(e, trace, i, f) && Rooted(e, trace[..i], f, p) && trace[i].offer.at < Reach(e, trace[..i]).flows[f]
    ensures Linked(e, trace, i, f)
  {
    AllowedAtPrefix(e, trace, i, p);
    PreviousPrefix(e, trace, i, i, f, p);
    LinkedPrefix(e, trace, i, p, f);
    assert Continues(e, trace, i, f, p);
  }

  /** A packet let through opens its flow or finds a live entry of it. */
  lemma OpensOrFinds(t: Table, e: Ends, o: Offer)
    requires FlowPolicy.Allowed(t, e, o)
    ensures var s := SegmentOf(e, o).value;
            Opens(Sender(e, o), s) || (s.flow in t.flows && o.at < t.flows[s.flow])
  {
  }

  /** Every packet let through is linked back to an opening packet of the Initiator. */
  lemma {:induction false} AllowedIsLinked(e: Ends, trace: seq<Event>, i: nat)
    requires AllowedAt(e, trace, i)
    ensures Linked(e, trace, i, SegmentAt(e, trace, i).flow)
    decreases i, 1
  {
    var f := SegmentAt(e, trace, i).flow;
    OpensOrFinds(Reach(e, trace[..i]), e, trace[i].offer);
    if !Opens(Sender(e, trace[i].offer), SegmentAt(e, trace, i)) {
      var p := EntriesAreRooted(e, trace[..i], f);
      LinkedByEntry(e, trace, i, f, p);
    }
  }

  /** A packet of the Host never opens a flow: it continues one, so an Initiator's packet began it. */
  lemma HostPacketsContinue(e: Ends, trace: seq<Event>, i: nat) returns (p: nat)
    requires AllowedAt(e, trace, i) && Sender(e, trace[i].offer) == Host
    ensures Continues(e, trace, i, SegmentAt(e, trace, i).flow, p) && Linked(e, trace, p, SegmentAt(e, trace, i).flow)
  {
    var f := SegmentAt(e, trace, i).flow;
    AllowedIsLinked(e, trace, i);
    p :| p < i && Continues(e, trace, i, f, p) && Linked(e, trace, p, f);
  }
}
