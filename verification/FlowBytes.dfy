/**
 The packet filter at the bytes of a packet: which packets it considers, which
 ones open, continue and end a flow, and which flow that is (section 3.1 of RFC
 791, section 3.1 of RFC 9293 and RFC 768).
 */
module FlowBytes {
  import opened Basics
  import opened Ipv4
  import opened MeshRouter
  import opened Relay
  import opened FlowPolicy

  /** An IPv4 header of 20 bytes with an exact length that is no fragment. */
  predicate Unfragmented(p: Bytes) {
    |p| >= 28 && p[0] == 69 && p[2] as int * 256 + p[3] as int == |p| && (p[6] == 0 || p[6] == 64) && p[7] == 0
  }

  function SourcePort(p: Bytes): int
    requires |p| >= 28
  {
    p[20] as int * 256 + p[21] as int
  }

  function TargetPort(p: Bytes): int
    requires |p| >= 28
  {
    p[22] as int * 256 + p[23] as int
  }

  predicate TcpService(port: int) {
    port in {47984, 47989, 48010}
  }

  predicate UdpService(port: int) {
    port in {47998, 47999, 48000, 48002, 48010}
  }

  /** The flow that the packet belongs to: the ports of its header, the Initiator's first. */
  function FlowAt(p: Bytes, sender: Side): Flow
    requires |p| >= 28
  {
    if sender == Initiator then Flow(p[9] as int, SourcePort(p), TargetPort(p)) else Flow(p[9] as int, TargetPort(p), SourcePort(p))
  }

  predicate Between(p: Bytes, from: Addr, to: Addr)
    requires |p| >= 28
  {
    AddrAt(p, 12) == from && AddrAt(p, 16) == to && SourcePort(p) != 0 && TargetPort(p) != 0
  }

  /** A TCP packet of the service, with a header that lies within it. */
  predicate TcpPacket(p: Bytes, from: Addr, to: Addr, sender: Side) {
    Unfragmented(p) && |p| >= 40 && p[9] == 6 && Between(p, from, to) && TcpService(FlowAt(p, sender).service) &&
    5 <= p[32] / 16 && 20 + 4 * (p[32] / 16) as int <= |p|
  }

  /** A UDP packet of the service that fills the IPv4 packet. */
  predicate UdpPacket(p: Bytes, from: Addr, to: Addr, sender: Side) {
    Unfragmented(p) && p[9] == 17 && Between(p, from, to) && UdpService(FlowAt(p, sender).service) &&
    p[24] as int * 256 + p[25] as int == |p| - 20
  }

  /** The TCP flags in byte 33: RST is 0x04, SYN is 0x02 and ACK is 0x10. */
  predicate Rst(p: Bytes) requires |p| >= 40 { p[33] % 8 >= 4 }

  predicate Syn(p: Bytes) requires |p| >= 40 { p[33] % 4 >= 2 }

  predicate Ack(p: Bytes) requires |p| >= 40 { p[33] % 32 >= 16 }

  predicate ServicePacket(e: Ends, o: Offer) {
    var sender := Sender(e, o);
    var from, to := AddressOf(e, sender), AddressOf(e, Other(sender));
    TcpPacket(o.packet, from, to, sender) || UdpPacket(o.packet, from, to, sender)
  }

  /** The packet asks for a new connection: a TCP packet with SYN and without ACK, or any UDP packet. */
  predicate AsksToOpen(p: Bytes)
    requires |p| >= 28
  {
    p[9] == 6 ==> |p| >= 40 && Syn(p) && !Ack(p)
  }

  /** The packet resets its connection. */
  predicate Resets(p: Bytes)
    requires |p| >= 28
  {
    p[9] == 6 && |p| >= 40 && Rst(p)
  }

  // ---------------------------------------------------------------- the parser at the bytes

  lemma ResetBit(n: nat)
    ensures n / 4 % 2 == 1 <==> n % 8 >= 4
  {
  }

  lemma SynBit(n: nat)
    ensures n / 2 % 2 == 1 <==> n % 4 >= 2
  {
  }

  lemma AckBit(n: nat)
    ensures n / 16 % 2 == 1 <==> n % 32 >= 16
  {
  }

  lemma FlagBits(b: byte)
    ensures Flag(b, 4) <==> b % 8 >= 4
    ensures Flag(b, 2) <==> b % 4 >= 2
    ensures Flag(b, 16) <==> b % 32 >= 16
  {
    ResetBit(b as nat);
    SynBit(b as nat);
    AckBit(b as nat);
  }

  lemma PlainIsUnfragmented(p: Bytes)
    requires |p| >= 28
    ensures PlainHeader(p) <==> Unfragmented(p)
  {
  }

  lemma ServiceIsTcpOrUdp(protocol: int, port: int)
    requires protocol == TCP || protocol == UDP
    ensures ServicePort(protocol, port) <==> if protocol == TCP then TcpService(port) else UdpService(port)
  {
  }

  /** The parser considers exactly the service packets, and reads the flow and the flags that their bytes hold. */
  lemma ParsesBytes(e: Ends, o: Offer)
    ensures SegmentOf(e, o).Some? <==> ServicePacket(e, o)
    ensures SegmentOf(e, o).Some? ==>
      var s, p := SegmentOf(e, o).value, o.packet;
      s.flow == FlowAt(p, Sender(e, o)) && (s.flow.protocol == TCP <==> p[9] == 6) &&
      ((s.flow.protocol == TCP ==> s.syn && !s.ack) <==> AsksToOpen(p)) && ((s.flow.protocol == TCP && s.rst) <==> Resets(p))
  {
    hide AddrAt;
    var p := o.packet;
    if |p| >= 28 {
      PlainIsUnfragmented(p);
      ServiceIsTcpOrUdp(TCP, FlowAt(p, Sender(e, o)).service);
      ServiceIsTcpOrUdp(UDP, FlowAt(p, Sender(e, o)).service);
      if |p| >= 40 {
        FlagBits(p[33]);
      }
    }
  }

  // ---------------------------------------------------------------- the decision at the bytes

  /** The flow has an entry that has not run out. */
  predicate Fresh(t: Table, f: Flow, at: int) {
    f in t.flows && at < t.flows[f]
  }

  /** Pruning keeps what has not run out, and may leave what has. */
  lemma PruningKeepsFresh(t: Table, f: Flow, at: int)
    ensures Fresh(Pruned(t, at), f, at) <==> Fresh(t, f, at)
    ensures Fresh(t, f, at) ==> Pruned(t, at).flows[f] == t.flows[f]
  {
  }

  /** Which packets pass a live filter: service packets that continue a flow in use, and openings by the Initiator while there is room. */
  predicate PassesByBytes(t: Table, e: Ends, o: Offer, room: bool) {
    ServicePacket(e, o) &&
    var p, sender := o.packet, Sender(e, o);
    if Fresh(t, FlowAt(p, sender), o.at) then sender == Host && p[9] == 6 ==> !AsksToOpen(p)
    else sender == Initiator && AsksToOpen(p) && room
  }

  lemma ServicePacketIsLong(e: Ends, o: Offer)
    requires ServicePacket(e, o)
    ensures |o.packet| >= 28 && (o.packet[9] == 6 || o.packet[9] == 17) && (o.packet[9] == 6 ==> |o.packet| >= 40)
  {
  }

  /** The filter's decision, from the bytes of the packet and the flows in use. */
  lemma DecidesByBytes(t: Table, e: Ends, o: Offer)
    ensures Allowed(t, e, o) <==>
      !t.revoked && o.live && PassesByBytes(t, e, o, |Pruned(t, o.at).flows| < MAX_FLOWS)
  {
    hide Parse, Pruned, ServicePacket;
    ParsesBytes(e, o);
    if SegmentOf(e, o).Some? {
      ServicePacketIsLong(e, o);
      PruningKeepsFresh(t, FlowAt(o.packet, Sender(e, o)), o.at);
    }
  }

  /** With no flow in use, a TCP packet of the service passes if and only if the Initiator sends it with SYN set and ACK clear. */
  lemma TcpOpensIff(t: Table, e: Ends, o: Offer)
    requires t.flows == map[] && !t.revoked && o.live && ServicePacket(e, o) && |o.packet| >= 40 && o.packet[9] == 6
    ensures Allowed(t, e, o) <==> Sender(e, o) == Initiator && o.packet[33] % 4 >= 2 && o.packet[33] % 32 < 16
  {
    hide ServicePacket;
    DecidesByBytes(t, e, o);
    assert Pruned(t, o.at).flows == map[];
  }

  /** An allowed packet leaves its flow in use for 30 s, unless it is a TCP packet with RST set, which ends the flow. */
  lemma AllowedKeepsFlowIff(t: Table, e: Ends, o: Offer)
    requires Allowed(t, e, o)
    ensures |o.packet| >= 28 && (o.packet[9] == 6 ==> |o.packet| >= 40)
    ensures var f, after := FlowAt(o.packet, Sender(e, o)), After(t, e, o).flows;
            if o.packet[9] == 6 && o.packet[33] % 8 >= 4 then f !in after else Lookup(after, f) == Some(o.at + 30 * SECOND)
  {
    hide Parse, Pruned, ServicePacket;
    ParsesBytes(e, o);
    ServicePacketIsLong(e, o);
  }

  /** No packet that a live filter decides touches another flow in use. */
  lemma OtherFlowsStay(t: Table, e: Ends, o: Offer, f: Flow)
    requires !t.revoked && o.live && (Allowed(t, e, o) ==> |o.packet| >= 28 && f != FlowAt(o.packet, Sender(e, o)))
    ensures Fresh(After(t, e, o), f, o.at) <==> Fresh(t, f, o.at)
    ensures Fresh(t, f, o.at) ==> After(t, e, o).flows[f] == t.flows[f]
  {
    hide Parse, Pruned, ServicePacket;
    ParsesBytes(e, o);
    PruningKeepsFresh(t, f, o.at);
  }
}
