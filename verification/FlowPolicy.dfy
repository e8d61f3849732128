/**
 The packet filter of one peer-to-peer session. It admits unfragmented IPv4 TCP
 and UDP packets between the two Devices, on the ports of the granted service,
 in flows that the Initiator opened.
 */
module FlowPolicy {
  import opened Basics
  import opened Ipv4
  import opened MeshRouter
  import opened Relay

  const MAX_FLOWS := 4096
  const IDLE := 30 * SECOND
  const TCP := 6
  const UDP := 17

  /** A flow by its ends: the Initiator's port and the Host's port. */
  datatype Flow = Flow(protocol: int, client: int, service: int)

  datatype Segment = Segment(flow: Flow, syn: bool, ack: bool, rst: bool)

  function Word(p: Bytes, at: nat): int
    requires at + 2 <= |p|
  {
    p[at] as int * 256 + p[at + 1] as int
  }

  predicate Flag(b: byte, weight: int)
    requires weight > 0
  {
    (b as int / weight) % 2 == 1
  }

  predicate ServicePort(protocol: int, port: int) {
    if protocol == TCP then port == 47984 || port == 47989 || port == 48010
    else port == 47998 || port == 47999 || port == 48000 || port == 48002 || port == 48010
  }

  /** No options, no fragments and an exact length (section 3.1 of RFC 791). */
  predicate PlainHeader(p: Bytes) {
    |p| >= 20 && p[0] == 0x45 && Word(p, 2) == |p| && (Word(p, 6) == 0 || Word(p, 6) == 0x4000)
  }

  predicate TransportFits(p: Bytes)
    requires |p| >= 28
  {
    if p[9] as int == TCP then |p| >= 40 && 20 <= (p[32] / 16) as int * 4 <= |p| - 20
    else Word(p, 24) == |p| - 20
  }

  /** The segment in a packet from one Device to the other, if it is one the filter considers. */
  function Parse(p: Bytes, from: Addr, to: Addr, sender: Side): Option<Segment> {
    if !PlainHeader(p) || p[9] as int !in {TCP, UDP} || |p| < 28 || AddrAt(p, 12) != from || AddrAt(p, 16) != to ||
       Word(p, 20) == 0 || Word(p, 22) == 0 || !TransportFits(p) then None
    else
      var protocol := p[9] as int;
      var f := if sender == Host then Flow(protocol, Word(p, 22), Word(p, 20)) else Flow(protocol, Word(p, 20), Word(p, 22));
      var flags: byte := if protocol == TCP then p[33] else 0;
      if ServicePort(protocol, f.service) then Some(Segment(f, Flag(flags, 2), Flag(flags, 16), Flag(flags, 4))) else None
  }

  // ---------------------------------------------------------------- one decision

  datatype Ends = Ends(side: Side, initiator: Addr, host: Addr)

  datatype Table = Table(revoked: bool, flows: map<Flow, int>, nextPrune: Option<int>)

  const NO_FLOWS := Table(false, map[], None)

  /** A packet offered to the filter; live says whether the session is active at that moment. */
  datatype Offer = Offer(packet: Bytes, outbound: bool, live: bool, at: int)

  function Sender(e: Ends, o: Offer): Side {
    if o.outbound then e.side else Other(e.side)
  }

  function AddressOf(e: Ends, side: Side): Addr {
    if side == Initiator then e.initiator else e.host
  }

  function SegmentOf(e: Ends, o: Offer): Option<Segment> {
    var sender := Sender(e, o);
    Parse(o.packet, AddressOf(e, sender), AddressOf(e, Other(sender)), sender)
  }

  function Pruned(t: Table, at: int): Table {
    if t.nextPrune.Some? && at < t.nextPrune.value then t
    else t.(flows := map f | f in t.flows && at < t.flows[f] :: t.flows[f], nextPrune := Some(at + SECOND))
  }

  predicate Established(t: Table, f: Flow, at: int) {
    f in t.flows && at < t.flows[f]
  }

  predicate Opens(sender: Side, s: Segment) {
    sender == Initiator && (s.flow.protocol == TCP ==> s.syn && !s.ack)
  }

  predicate Passes(t: Table, sender: Side, s: Segment, at: int) {
    if Established(t, s.flow, at) then sender == Host ==> !(s.flow.protocol == TCP && s.syn && !s.ack)
    else Opens(sender, s) && |t.flows| < MAX_FLOWS
  }

  function Renewed(t: Table, s: Segment, at: int): Table {
    if s.flow.protocol == TCP && s.rst then t.(flows := t.flows - {s.flow}) else t.(flows := t.flows[s.flow := at + IDLE])
  }

  predicate Allowed(t: Table, e: Ends, o: Offer) {
    !t.revoked && o.live && SegmentOf(e, o).Some? && Passes(Pruned(t, o.at), Sender(e, o), SegmentOf(e, o).value, o.at)
  }

  function After(t: Table, e: Ends, o: Offer): Table {
    if t.revoked || !o.live then t.(flows := map[])
    else if SegmentOf(e, o).None? then t
    else if Allowed(t, e, o) then Renewed(Pruned(t, o.at), SegmentOf(e, o).value, o.at)
    else Pruned(t, o.at)
  }

  function Revoked(t: Table): Table {
    t.(revoked := true, flows := map[])
  }

  // ---------------------------------------------------------------- the object

  class Policy {
    const ends: Ends
    var revoked: bool
    var flows: map<Flow, int>
    var nextPrune: Option<int>

    ghost function Value(): Table
      reads this
    {
      Table(revoked, flows, nextPrune)
    }

    constructor (ends: Ends)
      ensures this.ends == ends && Value() == NO_FLOWS
    {
      this.ends, revoked, flows, nextPrune := ends, false, map[], None;
    }

    method Revoke()
      modifies this
      ensures Value() == Revoked(old(Value()))
    {
      revoked, flows := true, map[];
    }

    method Prune(at: int)
      modifies this
      ensures Value() == Pruned(old(Value()), at)
    {
      if nextPrune.Some? && at < nextPrune.value {
        return;
      }
      var pending := flows.Keys;
      var start := flows;
      while pending != {}
        invariant pending <= start.Keys && revoked == old(revoked)
        invariant flows == map f | f in start && (f in pending || at < start[f]) :: start[f]
        decreases pending
      {
        var f :| f in pending;
        if at >= start[f] {
          flows := flows - {f};
        }
        pending := pending - {f};
      }
      nextPrune := Some(at + SECOND);
    }

    method DecideSegment(s: Segment, sender: Side, at: int) returns (allowed: bool)
      modifies this
      ensures var t := Pruned(old(Value()), at);
              allowed == Passes(t, sender, s, at) && Value() == if allowed then Renewed(t, s, at) else t
    {
      Prune(at);
      var established := s.flow in flows && at < flows[s.flow];
      if sender == Host {
        if !established || (s.flow.protocol == TCP && s.syn && !s.ack) {
          return false;
        }
      } else if !established {
        if |flows| >= MAX_FLOWS || (s.flow.protocol == TCP && (!s.syn || s.ack)) {
          return false;
        }
      }
      ghost var before := flows;
      flows := flows[s.flow := at + IDLE];
      if s.flow.protocol == TCP && s.rst {
        flows := flows - {s.flow};
        assert flows == before - {s.flow};
      }
      allowed := true;
    }

    method Decide(o: Offer) returns (allowed: bool)
      modifies this
      ensures Value() == After(old(Value()), ends, o) && allowed == Allowed(old(Value()), ends, o)
    {
      if revoked || !o.live {
        flows := map[];
        return false;
      }
      var parsed := SegmentOf(ends, o);
      if parsed.None? {
        return false;
      }
      allowed := DecideSegment(parsed.value, Sender(ends, o), o.at);
    }
  }
}
