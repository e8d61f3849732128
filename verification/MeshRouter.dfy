/**
 The mesh Router: it sends packets from its tunnel along approved paths, relays
 frames that name it as the next hop of an approved path, and remembers, per
 Device, the path on which that Device's traffic last arrived.
 */
module MeshRouter {
  import opened Basics
  import opened Ipv4
  import opened MeshConfig
  import opened FrameCodec
  import PS = PathSelection

  const REVERSE_TTL := 600 * SECOND

  function Unix(now: int): int
    requires now >= 0
  {
    now / SECOND
  }

  // ---------------------------------------------------------------- packets

  function ByteBits(b: byte): (r: Bits)
    ensures |r| == 8
  {
    var n := b as int;
    [n / 128 % 2 == 1, n / 64 % 2 == 1, n / 32 % 2 == 1, n / 16 % 2 == 1, n / 8 % 2 == 1, n / 4 % 2 == 1, n / 2 % 2 == 1, n % 2 == 1]
  }

  function AddrAt(packet: Bytes, at: nat): Addr
    requires at + 4 <= |packet|
  {
    ByteBits(packet[at]) + ByteBits(packet[at + 1]) + ByteBits(packet[at + 2]) + ByteBits(packet[at + 3])
  }

  datatype Endpoints = Endpoints(source: Addr, destination: Addr)

  /** Source and destination of a well-formed IPv4 packet (section 3.1 of RFC 791). */
  function ParseEndpoints(packet: Bytes): Option<Endpoints> {
    if |packet| < 20 || packet[0] / 16 != 4 then None
    else
      var headerLen := (packet[0] % 16) as int * 4;
      var totalLen := packet[2] as int * 256 + packet[3] as int;
      if headerLen < 20 || headerLen > |packet| || totalLen < headerLen || totalLen > |packet| then None
      else Some(Endpoints(AddrAt(packet, 12), AddrAt(packet, 16)))
  }

  // ---------------------------------------------------------------- validation of a received frame

  function Reversed(hops: seq<Name>): (r: seq<Name>)
    ensures |r| == |hops| && forall i :: 0 <= i < |hops| ==> r[i] == hops[|hops| - 1 - i]
  {
    seq(|hops|, i requires 0 <= i < |hops| => hops[|hops| - 1 - i])
  }

  predicate OwnedBy(parse: Parser, c: RoutingConfig, a: Addr, owner: string, cidr: string) {
    var route := RouteFor(parse, c.routes, a);
    route.Some? && route.value.ownerNodeId == owner && route.value.cidr == cidr
  }

  /** The packet may travel this approved path in this direction. */
  predicate PacketFits(parse: Parser, c: RoutingConfig, path: Path, isReturn: bool, e: Endpoints) {
    if isReturn then
      Trim(c.overlaySubnet) != "" && OverlayContains(parse, c, e.destination) &&
      OwnedBy(parse, c, e.source, path.ownerNodeId, path.cidr)
    else
      OverlayContains(parse, c, e.source) &&
      var net := parse(path.cidr);
      net.V4? && net.bits <= 32 && Contains(net.addr[..net.bits], e.destination) &&
      OwnedBy(parse, c, e.destination, path.ownerNodeId, path.cidr)
  }

  /** The approved path under which this Node accepts a frame from this peer, if there is one. */
  function Admit(parse: Parser, local: Name, c: RoutingConfig, peer: Name, f: Frame): Option<Path> {
    if !ValidateBasic(f) || f.hops[f.hopIndex] != local || f.hops[f.hopIndex - 1] != peer then None
    else
      var path := TransitPath(c.transitPaths, f.pathId);
      if path.None? || path.value.ownerNodeId != f.ownerNodeId ||
         f.hops != (if f.isReturn then Reversed(path.value.hops) else path.value.hops) then None
      else
        var e := ParseEndpoints(f.payload);
        if e.Some? && PacketFits(parse, c, path.value, f.isReturn, e.value) then path else None
  }

  // ---------------------------------------------------------------- actions

  datatype Action = Drop | Deliver(packet: Bytes) | Send(to: Name, raw: Bytes)

  datatype ReversePath = ReversePath(path: Path, lastSeen: int)

  type Reverse = map<Addr, ReversePath>

  function SendFrame(f: Frame, mesh: PS.Mesh): Action {
    if 0 < f.hopIndex < |f.hops| && mesh.canSend(f.hops[f.hopIndex]) && ValidateBasic(f)
    then Send(f.hops[f.hopIndex], Encode(f)) else Drop
  }

  function Remember(r: Reverse, device: Addr, path: Path, now: int): Reverse {
    (map d | d in r && now - r[d].lastSeen <= REVERSE_TTL :: r[d])[device := ReversePath(path, now)]
  }

  predicate Known(r: Reverse, device: Addr, now: int) {
    device in r && now - r[device].lastSeen <= REVERSE_TTL
  }

  /** The table after a lookup: a live entry is refreshed, a stale one dropped. */
  function Touched(r: Reverse, device: Addr, now: int): Reverse {
    if Known(r, device, now) then r[device := r[device].(lastSeen := now)] else r - {device}
  }

  predicate Lands(f: Frame) {
    f.hopIndex == |f.hops| - 1
  }

  /** What the Node does with bytes from an authenticated mesh peer. */
  function OnMesh(parse: Parser, local: Name, c: RoutingConfig, peer: Name, raw: Bytes, mesh: PS.Mesh, now: nat): Action {
    var f := Decode(raw);
    if f.None? || !PolicyValid(c, Unix(now)) || Admit(parse, local, c, peer, f.value).None? then Drop
    else if Lands(f.value) then Deliver(f.value.payload)
    else SendFrame(f.value.(hopIndex := f.value.hopIndex + 1), mesh)
  }

  /** The path that a frame teaches this Node: that of an admitted forward frame that lands here. */
  function Learned(parse: Parser, local: Name, c: RoutingConfig, peer: Name, f: Option<Frame>, now: nat): Option<Path> {
    if f.None? || !PolicyValid(c, Unix(now)) || !Lands(f.value) || f.value.isReturn then None
    else Admit(parse, local, c, peer, f.value)
  }

  /** The reverse table after a frame, which is None when the bytes did not decode. */
  function ReverseAfter(parse: Parser, local: Name, c: RoutingConfig, peer: Name, f: Option<Frame>, now: nat, r: Reverse): Reverse {
    var path := Learned(parse, local, c, peer, f, now);
    if path.None? then r else Remember(r, ParseEndpoints(f.value.payload).value.source, path.value, now)
  }

  function ReturnFrame(local: Name, path: Path, packet: Bytes): Frame {
    Frame(path.id, local, Reversed(path.hops), 1, true, packet)
  }

  function ForwardFrame(path: Path, packet: Bytes): Frame {
    Frame(path.id, path.ownerNodeId, path.hops, 1, false, packet)
  }

  /** A site Router answers Devices of the overlay on the path they came by. */
  predicate Answers(parse: Parser, c: RoutingConfig, packet: Bytes) {
    var e := ParseEndpoints(packet);
    e.Some? && c.localSiteRouter && OverlayContains(parse, c, e.value.destination)
  }

  /** The reverse table after a tunnel packet. */
  function TunnelReverse(parse: Parser, c: RoutingConfig, packet: Bytes, now: nat, r: Reverse): Reverse {
    if PolicyValid(c, Unix(now)) && Answers(parse, c, packet)
    then Touched(r, ParseEndpoints(packet).value.destination, now) else r
  }

  function Answer(local: Name, r: Reverse, device: Addr, packet: Bytes, mesh: PS.Mesh, now: int): Action {
    if Known(r, device, now) && |r[device].path.hops| >= 2 && Reversed(r[device].path.hops)[0] == local
    then SendFrame(ReturnFrame(local, r[device].path, packet), mesh) else Drop
  }

  function RouteKey(route: Route): string {
    route.ownerNodeId + "|" + route.cidr
  }

  predicate SendsAlong(local: Name, path: Path, packet: Bytes, mesh: PS.Mesh, a: Action) {
    PS.ViablePath(local, path, mesh).Some? && a == SendFrame(ForwardFrame(path, packet), mesh)
  }

  /** What path selection decides for a packet: the route and the decision, if there is a route. */
  function Selected(parse: Parser, local: Name, c: RoutingConfig, selections: map<string, PS.Selection>,
                    packet: Bytes, mesh: PS.Mesh, now: int): Option<(Route, PS.Choice)>
    requires ParseEndpoints(packet).Some?
  {
    var route := RouteFor(parse, c.routes, ParseEndpoints(packet).value.destination);
    if route.None? then None
    else
      var key := RouteKey(route.value);
      var s := if key in selections then selections[key] else PS.NEW_SELECTION;
      var offers := PS.Selector.OffersOf(local, SourcePathsOf(c.paths, local, route.value), mesh);
      Some((route.value, PS.Choose(s, offers, now)))
  }

  /** Any other packet goes to the owner of its route along the path that path selection chose. */
  ghost predicate Forwards(parse: Parser, local: Name, c: RoutingConfig, selections: map<string, PS.Selection>,
                           packet: Bytes, mesh: PS.Mesh, now: int, a: Action)
    requires ParseEndpoints(packet).Some?
  {
    var selected := Selected(parse, local, c, selections, packet, mesh, now);
    if selected.None? || selected.value.1.chosen.None? then a == Drop
    else exists path ::
      path in SourcePathsOf(c.paths, local, selected.value.0) && path.id == selected.value.1.chosen.value &&
      SendsAlong(local, path, packet, mesh, a)
  }

  /** The selections after a packet was forwarded: only that of its route is touched. */
  function SelectionsAfter(parse: Parser, local: Name, c: RoutingConfig, selections: map<string, PS.Selection>,
                           packet: Bytes, mesh: PS.Mesh, now: int): map<string, PS.Selection>
    requires ParseEndpoints(packet).Some?
  {
    var selected := Selected(parse, local, c, selections, packet, mesh, now);
    if selected.None? then selections else selections[RouteKey(selected.value.0) := selected.value.1.selection]
  }

  /** The selections after a tunnel packet. */
  function TunnelSelections(parse: Parser, local: Name, c: RoutingConfig, selections: map<string, PS.Selection>,
                            packet: Bytes, mesh: PS.Mesh, now: nat): map<string, PS.Selection>
  {
    if ParseEndpoints(packet).None? || !PolicyValid(c, Unix(now)) || Answers(parse, c, packet) then selections
    else SelectionsAfter(parse, local, c, selections, packet, mesh, now)
  }

  // ---------------------------------------------------------------- the object

  class Router {
    const local: Name
    const parse: Parser
    const selector: PS.Selector
    var config: RoutingConfig
    var reverse: Reverse

    constructor (local: Name, parse: Parser, config: RoutingConfig)
      ensures this.local == local && this.parse == parse && this.config == config && reverse == map[]
      ensures fresh(selector) && selector.local == local && selector.selections == map[]
    {
      this.local, this.parse, this.config, reverse := local, parse, config, map[];
      selector := new PS.Selector(local);
    }

    method RememberReverse(device: Addr, path: Path, now: int)
      modifies this`reverse
      ensures reverse == Remember(old(reverse), device, path, now)
    {
      var pending := reverse.Keys;
      var start := reverse;
      while pending != {}
        invariant pending <= start.Keys
        invariant reverse == map d | d in start && (d in pending || now - start[d].lastSeen <= REVERSE_TTL) :: start[d]
        decreases pending
      {
        var d :| d in pending;
        if now - start[d].lastSeen > REVERSE_TTL {
          reverse := reverse - {d};
        }
        pending := pending - {d};
      }
      reverse := reverse[device := ReversePath(path, now)];
    }

    method ReverseFor(device: Addr, now: int) returns (path: Option<Path>)
      modifies this`reverse
      ensures path == if Known(old(reverse), device, now) then Some(old(reverse)[device].path) else None
      ensures reverse == Touched(old(reverse), device, now)
    {
      if device !in reverse || now - reverse[device].lastSeen > REVERSE_TTL {
        reverse := reverse - {device};
        return None;
      }
      path := Some(reverse[device].path);
      reverse := reverse[device := reverse[device].(lastSeen := now)];
    }

    method Transmit(f: Frame, mesh: PS.Mesh) returns (a: Action)
      ensures a == SendFrame(f, mesh)
    {
      if f.hopIndex <= 0 || f.hopIndex >= |f.hops| || !mesh.canSend(f.hops[f.hopIndex]) {
        return Drop;
      }
      var raw := MarshalFrame(f);
      return if raw.None? then Drop else Send(f.hops[f.hopIndex], raw.value);
    }

    /** Bytes from a mesh peer are relayed, delivered or dropped exactly as OnMesh says. */
    method HandleMeshData(peer: Name, raw: Bytes, mesh: PS.Mesh, now: nat) returns (a: Action)
      modifies this`reverse
      ensures a == OnMesh(parse, local, config, peer, raw, mesh, now)
      ensures reverse == ReverseAfter(parse, local, config, peer, Decode(raw), now, old(reverse))
    {
      var frame := UnmarshalFrame(raw);
      if frame.None? || !PolicyValid(config, Unix(now)) {
        return Drop;
      }
      var f := frame.value;
      var path := Admit(parse, local, config, peer, f);
      if path.None? {
        return Drop;
      }
      if f.hopIndex == |f.hops| - 1 {
        if !f.isReturn {
          var e := ParseEndpoints(f.payload);
          RememberReverse(e.value.source, path.value, now);
        }
        return Deliver(f.payload);
      }
      a := Transmit(f.(hopIndex := f.hopIndex + 1), mesh);
    }

    /** The path behind a chosen identifier: a viable one of lowest score. */
    method ChosenPath(paths: seq<Path>, id: string, mesh: PS.Mesh) returns (path: Option<Path>)
      ensures path.Some? ==> path.value in paths && path.value.id == id && PS.ViablePath(local, path.value, mesh).Some?
      ensures path.Some? ==> forall i :: 0 <= i < |paths| && paths[i].id == id && PS.ViablePath(local, paths[i], mesh).Some? ==>
        PS.ViablePath(local, path.value, mesh).value <= PS.ViablePath(local, paths[i], mesh).value
      ensures path.None? ==> forall i :: 0 <= i < |paths| ==> paths[i].id != id || PS.ViablePath(local, paths[i], mesh).None?
    {
      path := None;
      for n := 0 to |paths|
        invariant path.Some? ==> path.value in paths && path.value.id == id && PS.ViablePath(local, path.value, mesh).Some?
        invariant path.Some? ==> forall i :: 0 <= i < n && paths[i].id == id && PS.ViablePath(local, paths[i], mesh).Some? ==>
          PS.ViablePath(local, path.value, mesh).value <= PS.ViablePath(local, paths[i], mesh).value
        invariant path.None? ==> forall i :: 0 <= i < n ==> paths[i].id != id || PS.ViablePath(local, paths[i], mesh).None?
      {
        var score := PS.ViablePath(local, paths[n], mesh);
        if paths[n].id == id && score.Some? &&
           (path.None? || score.value < PS.ViablePath(local, path.value, mesh).value) {
          path := Some(paths[n]);
        }
      }
    }

    /** A packet for the owner of its route, along the path that path selection chooses. */
    method ForwardPacket(packet: Bytes, mesh: PS.Mesh, now: nat) returns (a: Action)
      requires selector.local == local && ParseEndpoints(packet).Some?
      modifies selector
      ensures !a.Deliver? && Forwards(parse, local, config, old(selector.selections), packet, mesh, now, a)
      ensures selector.selections == SelectionsAfter(parse, local, config, old(selector.selections), packet, mesh, now)
    {
      var route := LookupRoute(parse, config.routes, ParseEndpoints(packet).value.destination);
      if route.None? {
        return Drop;
      }
      var paths := SourcePaths(config.paths, local, route.value);
      var chosen := selector.ChoosePath(RouteKey(route.value), paths, mesh, now);
      if chosen.None? {
        return Drop;
      }
      var path := ChosenPath(paths, chosen.value, mesh);
      a := Transmit(ForwardFrame(path.value, packet), mesh);
    }

    /**
     A packet from the tunnel. A site Router answers a Device on the reverse of
     the path it last came on; any other packet goes to the owner of its route
     along a viable approved path that starts here.
     */
    method HandleTunPacket(packet: Bytes, mesh: PS.Mesh, now: nat) returns (a: Action)
      requires selector.local == local
      modifies this`reverse, selector
      ensures !a.Deliver?
      ensures reverse == TunnelReverse(parse, config, packet, now, old(reverse))
      ensures selector.selections == TunnelSelections(parse, local, config, old(selector.selections), packet, mesh, now)
      ensures ParseEndpoints(packet).None? || !PolicyValid(config, Unix(now)) ==> a.Drop?
      ensures PolicyValid(config, Unix(now)) && Answers(parse, config, packet) ==>
                a == Answer(local, old(reverse), ParseEndpoints(packet).value.destination, packet, mesh, now)
      ensures PolicyValid(config, Unix(now)) && ParseEndpoints(packet).Some? && !Answers(parse, config, packet) ==>
                Forwards(parse, local, config, old(selector.selections), packet, mesh, now, a)
    {
      hide ValidateBasic, Encode, ParseEndpoints, Forwards, PolicyValid, OverlayContains, Remember;
      var e := ParseEndpoints(packet);
      if e.None? || !PolicyValid(config, Unix(now)) {
        return Drop;
      }
      if config.localSiteRouter && OverlayContains(parse, config, e.value.destination) {
        var known := ReverseFor(e.value.destination, now);
        if known.None? || |known.value.hops| < 2 || Reversed(known.value.hops)[0] != local {
          return Drop;
        }
        a := Transmit(ReturnFrame(local, known.value, packet), mesh);
        return;
      }
      a := ForwardPacket(packet, mesh, now);
    }
  }
}
