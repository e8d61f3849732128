/**
 Packets across a network of mesh Routers: delivery along an approved path,
 replies along its reverse, and what no peer can bring about.
 */
module MeshDelivery {
  import opened Basics
  import opened Ipv4
  import opened MeshConfig
  import opened FrameCodec
  import opened MeshRouter
  import PS = PathSelection

  /** The Nodes that answer, with what each knows, sees of its links and reads on its clock. */
  datatype Network = Network(
    parse: Parser,
    configs: map<Name, RoutingConfig>,
    mesh: Name -> PS.Mesh,
    clock: Name -> nat)

  datatype Flight = InFlight(sender: Name, receiver: Name, raw: Bytes) | Landed(at: Name, packet: Bytes) | Lost

  /** One Node handles what was sent to it. */
  function Hop(net: Network, x: Flight): Flight {
    match x
    case InFlight(sender, receiver, raw) =>
      if receiver !in net.configs then Lost
      else
        var a := OnMesh(net.parse, receiver, net.configs[receiver], sender, raw, net.mesh(receiver), net.clock(receiver));
        (match a
         case Drop => Lost
         case Deliver(packet) => Landed(receiver, packet)
         case Send(to, next) => InFlight(receiver, to, next))
    case _ => x
  }

  function Run(net: Network, x: Flight, n: nat): Flight
    decreases n
  {
    if n == 0 then x else Run(net, Hop(net, x), n - 1)
  }

  // ---------------------------------------------------------------- delivery

  function Way(path: Path, isReturn: bool): (r: seq<Name>)
    ensures |r| == |path.hops|
  {
    if isReturn then Reversed(path.hops) else path.hops
  }

  function Leg(path: Path, isReturn: bool, packet: Bytes, k: nat): Frame {
    Frame(path.id, path.ownerNodeId, Way(path, isReturn), k, isReturn, packet)
  }

  /** The Node holds the path with the same owner, CIDR and hops, and the packet belongs on it. */
  predicate Approves(net: Network, node: Name, path: Path, isReturn: bool, packet: Bytes) {
    node in net.configs &&
    var c := net.configs[node];
    var held := TransitPath(c.transitPaths, path.id);
    PolicyValid(c, Unix(net.clock(node))) && held.Some? &&
    held.value.ownerNodeId == path.ownerNodeId && held.value.cidr == path.cidr && held.value.hops == path.hops &&
    ParseEndpoints(packet).Some? && PacketFits(net.parse, c, path, isReturn, ParseEndpoints(packet).value)
  }

  /** Every Node on the way approves, and every relay reaches its successor. */
  predicate Passable(net: Network, path: Path, isReturn: bool, packet: Bytes) {
    var hops := Way(path, isReturn);
    (forall i :: 1 <= i < |hops| ==> Approves(net, hops[i], path, isReturn, packet)) &&
    (forall i :: 1 <= i < |hops| - 1 ==> net.mesh(hops[i]).canSend(hops[i + 1]))
  }

  lemma LegIsAdmitted(net: Network, path: Path, isReturn: bool, packet: Bytes, k: nat)
    requires ValidateBasic(Leg(path, isReturn, packet, k)) && Approves(net, Way(path, isReturn)[k], path, isReturn, packet)
    ensures var hops := Way(path, isReturn);
            Admit(net.parse, hops[k], net.configs[hops[k]], hops[k - 1], Leg(path, isReturn, packet, k)).Some?
  {
  }

  lemma Handled(net: Network, sender: Name, receiver: Name, raw: Bytes, f: Frame)
    requires Decode(raw) == Some(f) && receiver in net.configs && ValidateBasic(f)
    requires PolicyValid(net.configs[receiver], Unix(net.clock(receiver)))
    requires Admit(net.parse, receiver, net.configs[receiver], sender, f).Some?
    requires Lands(f) || net.mesh(receiver).canSend(f.hops[f.hopIndex + 1])
    ensures Hop(net, InFlight(sender, receiver, raw)) ==
      if Lands(f) then Landed(receiver, f.payload)
      else InFlight(receiver, f.hops[f.hopIndex + 1], Encode(f.(hopIndex := f.hopIndex + 1)))
  {
    hide Decode, Encode, Admit, PolicyValid;
  }

  /** One handling at an approving Node moves a frame one hop on, or lands it at the end. */
  lemma LegAdvances(net: Network, path: Path, isReturn: bool, packet: Bytes, k: nat)
    requires ValidateBasic(Leg(path, isReturn, packet, k))
    requires var hops := Way(path, isReturn);
             Approves(net, hops[k], path, isReturn, packet) && (k < |hops| - 1 ==> net.mesh(hops[k]).canSend(hops[k + 1]))
    ensures var hops := Way(path, isReturn);
            Hop(net, InFlight(hops[k - 1], hops[k], Encode(Leg(path, isReturn, packet, k)))) ==
            if k == |hops| - 1 then Landed(hops[k], packet)
            else InFlight(hops[k], hops[k + 1], Encode(Leg(path, isReturn, packet, k + 1)))
  {
    hide Decode, Encode, Admit, Hop, PacketFits;
    var f := Leg(path, isReturn, packet, k);
    var hops := Way(path, isReturn);
    LegIsAdmitted(net, path, isReturn, packet, k);
    var raw := Encode(f);
    assert Decode(raw) == Some(f) by { DecodeEncode(f); }
    Handled(net, hops[k - 1], hops[k], raw, f);
  }

  /**
   A packet put on an approved path reaches the far end byte for byte: one
   send for every hop after the first, and it is in flight until the last.
   */
  lemma {:induction false} Delivered(net: Network, path: Path, isReturn: bool, packet: Bytes, k: nat)
    requires Passable(net, path, isReturn, packet) && ValidateBasic(Leg(path, isReturn, packet, k))
    ensures var hops := Way(path, isReturn);
            var x := InFlight(hops[k - 1], hops[k], Encode(Leg(path, isReturn, packet, k)));
            Run(net, x, |hops| - k) == Landed(hops[|hops| - 1], packet) &&
            forall n: nat :: n < |hops| - k ==> Run(net, x, n).InFlight?
    decreases |path.hops| - k
  {
    hide Encode, Hop, Approves;
    var hops := Way(path, isReturn);
    var x := InFlight(hops[k - 1], hops[k], Encode(Leg(path, isReturn, packet, k)));
    LegAdvances(net, path, isReturn, packet, k);
    if k < |hops| - 1 {
      Delivered(net, path, isReturn, packet, k + 1);
      forall n: nat | n < |hops| - k
        ensures Run(net, x, n).InFlight?
      {
        if n > 0 {
          assert Run(net, x, n) == Run(net, Hop(net, x), n - 1);
        }
      }
    } else {
      assert Run(net, x, 1) == Run(net, Hop(net, x), 0);
    }
  }

  lemma SentLeg(local: Name, path: Path, packet: Bytes, mesh: PS.Mesh, a: Action)
    requires SendsAlong(local, path, packet, mesh, a) && a.Send?
    ensures ValidateBasic(Leg(path, false, packet, 1)) && path.hops[0] == local
    ensures a == Send(path.hops[1], Encode(Leg(path, false, packet, 1)))
  {
    assert ForwardFrame(path, packet) == Leg(path, false, packet, 1);
  }

  /** A path from this Node that carries the route of the packet's destination. */
  predicate CarriesRoute(parse: Parser, local: Name, c: RoutingConfig, path: Path, packet: Bytes) {
    path.hops != [] && path.hops[0] == local && ParseEndpoints(packet).Some? &&
    OwnedBy(parse, c, ParseEndpoints(packet).value.destination, path.ownerNodeId, path.cidr)
  }

  /** What a source Router sends is the first leg of a configured path that carries the packet's route. */
  lemma ForwardsFirstLeg(parse: Parser, local: Name, c: RoutingConfig, selections: map<string, PS.Selection>,
                         packet: Bytes, mesh: PS.Mesh, now: int, a: Action)
    returns (path: Path)
    requires ParseEndpoints(packet).Some? && a.Send? && Forwards(parse, local, c, selections, packet, mesh, now, a)
    ensures path in c.paths && ValidateBasic(Leg(path, false, packet, 1)) && CarriesRoute(parse, local, c, path, packet)
    ensures a == Send(path.hops[1], Encode(Leg(path, false, packet, 1)))
  {
    var route := RouteFor(parse, c.routes, ParseEndpoints(packet).value.destination).value;
    path :| path in SourcePathsOf(c.paths, local, route) && SendsAlong(local, path, packet, mesh, a);
    SentLeg(local, path, packet, mesh, a);
  }

  /**
   What a source Router sends for a packet of its tunnel lands, unchanged, on
   the owner of the packet's route, when its paths to that owner are passable.
   */
  lemma TunnelPacketArrives(net: Network, local: Name, selections: map<string, PS.Selection>, packet: Bytes, a: Action)
    returns (path: Path)
    requires local in net.configs && ParseEndpoints(packet).Some? && a.Send?
    requires Forwards(net.parse, local, net.configs[local], selections, packet, net.mesh(local), net.clock(local), a)
    requires forall p :: p in net.configs[local].paths && CarriesRoute(net.parse, local, net.configs[local], p, packet) ==>
      Passable(net, p, false, packet)
    ensures path in net.configs[local].paths && 2 <= |path.hops| <= MAX_PATH_HOPS
    ensures CarriesRoute(net.parse, local, net.configs[local], path, packet)
    ensures Run(net, InFlight(local, a.to, a.raw), |path.hops| - 1) == Landed(path.ownerNodeId, packet)
  {
    path := ForwardsFirstLeg(net.parse, local, net.configs[local], selections, packet, net.mesh(local), net.clock(local), a);
    Delivered(net, path, false, packet, 1);
  }

  // ---------------------------------------------------------------- safety against any peer

  predicate OwnsDestination(net: Network, node: Name, packet: Bytes) {
    node in net.configs && ParseEndpoints(packet).Some? &&
    var route := RouteFor(net.parse, net.configs[node].routes, ParseEndpoints(packet).value.destination);
    route.Some? && route.value.ownerNodeId == node
  }

  /** How far bytes that decode to f may have come after n handlings. */
  predicate Contained(net: Network, f: Frame, x: Flight, n: nat) {
    match x
    case InFlight(_, _, raw) => f.hopIndex + n < |f.hops| <= MAX_PATH_HOPS && Decode(raw) == Some(f.(hopIndex := f.hopIndex + n))
    case Landed(at, packet) => packet == f.payload && (f.isReturn || OwnsDestination(net, at, packet))
    case Lost => true
  }

  ghost predicate Sane(net: Network) {
    forall node :: node in net.configs ==> ConfigValid(net.parse, net.configs[node])
  }

  /** The packet's ends belong on the path: a Device of the overlay on one side, the owner's CIDR on the other. */
  ghost predicate EndsFit(parse: Parser, c: RoutingConfig, path: Path, isReturn: bool, packet: Bytes) {
    ParseEndpoints(packet).Some? &&
    var e := ParseEndpoints(packet).value;
    var device, host := if isReturn then e.destination else e.source, if isReturn then e.source else e.destination;
    var overlay, route := parse(c.overlaySubnet), RouteFor(parse, c.routes, host);
    overlay.V4? && overlay.bits <= 32 && overlay.addr[..overlay.bits] <= device &&
    route == Some(Route(path.cidr, path.ownerNodeId)) && (isReturn ==> Trim(c.overlaySubnet) != "")
  }

  /** The frame is on its way along the path, from the sender to the receiver. */
  predicate OnTheWay(path: Path, f: Frame, sender: Name, receiver: Name) {
    f.pathId == path.id && f.ownerNodeId == path.ownerNodeId && |f.hops| == |path.hops| && 0 < f.hopIndex < |f.hops| &&
    (forall i :: 0 <= i < |path.hops| ==> f.hops[i] == path.hops[if f.isReturn then |path.hops| - 1 - i else i]) &&
    f.hops[f.hopIndex - 1] == sender && f.hops[f.hopIndex] == receiver
  }

  /**
   Bytes that a Node does not drop are a frame on its way along a path of the
   Node's own configuration, handed over by the hop before, with a packet whose
   ends belong on that path, under a policy that has not expired.
   */
  lemma HandledIsOnItsWay(net: Network, sender: Name, receiver: Name, raw: Bytes) returns (path: Path)
    requires receiver in net.configs && !Hop(net, InFlight(sender, receiver, raw)).Lost?
    ensures var c := net.configs[receiver];
            path in c.transitPaths && (c.policyExpiresAt == 0 || Unix(net.clock(receiver)) < c.policyExpiresAt) &&
            Decode(raw).Some? && OnTheWay(path, Decode(raw).value, sender, receiver) &&
            EndsFit(net.parse, c, path, Decode(raw).value.isReturn, Decode(raw).value.payload)
  {
    hide Decode, Encode, ParseEndpoints, RouteFor;
    var c, f := net.configs[receiver], Decode(raw).value;
    path := Admit(net.parse, receiver, c, sender, f).value;
  }

  /** What a handling does with a frame: it is lost, lands as it is, or goes one hop on. */
  lemma HopOutcome(net: Network, f: Frame, sender: Name, receiver: Name, raw: Bytes)
    requires receiver in net.configs && Decode(raw) == Some(f)
    ensures var x := Hop(net, InFlight(sender, receiver, raw));
            x.Lost? || (x == Landed(receiver, f.payload) && Lands(f)) ||
            (ValidateBasic(f.(hopIndex := f.hopIndex + 1)) && x.InFlight? && x.raw == Encode(f.(hopIndex := f.hopIndex + 1)))
  {
    hide Decode, Encode, Admit, PolicyValid;
  }

  /** A forward frame lands only at the owner of its packet's route. */
  lemma LandedIsOwned(net: Network, f: Frame, sender: Name, receiver: Name, raw: Bytes)
    requires receiver in net.configs && ConfigValid(net.parse, net.configs[receiver]) && Decode(raw) == Some(f)
    requires Hop(net, InFlight(sender, receiver, raw)).Landed? && Lands(f) && !f.isReturn
    ensures OwnsDestination(net, receiver, f.payload)
  {
    var path := HandledIsOnItsWay(net, sender, receiver, raw);
    hide Hop, Decode, ParseEndpoints, RouteFor;
    var c := net.configs[receiver];
    var i :| 0 <= i < |c.transitPaths| && c.transitPaths[i] == path;
    assert PathValid(net.parse, c.transitPaths[i]);
  }

  lemma RelayKeepsFrame(net: Network, f: Frame, sender: Name, receiver: Name, raw: Bytes)
    requires receiver in net.configs && ConfigValid(net.parse, net.configs[receiver]) && Decode(raw) == Some(f)
    ensures Contained(net, f, Hop(net, InFlight(sender, receiver, raw)), 1)
  {
    hide Hop, Decode, Encode, ConfigValid, OwnsDestination;
    HopOutcome(net, f, sender, receiver, raw);
    var x := Hop(net, InFlight(sender, receiver, raw));
    if x.InFlight? {
      DecodeEncode(f.(hopIndex := f.hopIndex + 1));
    } else if x.Landed? && !f.isReturn {
      LandedIsOwned(net, f, sender, receiver, raw);
    }
  }

  lemma ContainedFromStart(net: Network, f: Frame, g: Frame, y: Flight, n: nat)
    requires g == f.(hopIndex := f.hopIndex + n) && Contained(net, g, y, 1)
    ensures Contained(net, f, y, n + 1)
  {
    assert g.(hopIndex := g.hopIndex + 1) == f.(hopIndex := f.hopIndex + (n + 1));
  }

  /** One handling by a Node with a valid configuration keeps a frame contained. */
  lemma HopKeepsContained(net: Network, f: Frame, x: Flight, n: nat)
    requires Sane(net) && Contained(net, f, x, n)
    ensures Contained(net, f, Hop(net, x), n + 1)
  {
    if x.InFlight? && x.receiver in net.configs {
      var g := f.(hopIndex := f.hopIndex + n);
      RelayKeepsFrame(net, g, x.sender, x.receiver, x.raw);
      ContainedFromStart(net, f, g, Hop(net, x), n);
    }
  }

  function Containment(net: Network, f: Frame): (Flight, nat) -> bool {
    (y: Flight, k: nat) => Contained(net, f, y, k)
  }

  lemma ContainmentIsContained(net: Network, f: Frame, y: Flight, k: nat)
    requires Containment(net, f)(y, k)
    ensures Contained(net, f, y, k)
  {
  }

  lemma StartsContained(net: Network, f: Frame, sender: Name, receiver: Name, raw: Bytes)
    requires Decode(raw) == Some(f)
    ensures Containment(net, f)(InFlight(sender, receiver, raw), 0)
  {
  }

  lemma HopKeepsContainment(net: Network, f: Frame, x: Flight, n: nat)
    requires Sane(net) && Containment(net, f)(x, n)
    ensures Containment(net, f)(Hop(net, x), n + 1)
  {
    HopKeepsContained(net, f, x, n);
  }

  /** What every handling keeps, every run keeps. */
  lemma {:induction false} RunKeeps(net: Network, keeps: (Flight, nat) -> bool, x: Flight, m: nat, n: nat)
    requires keeps(x, m) && forall y, k: nat :: keeps(y, k) ==> keeps(Hop(net, y), k + 1)
    ensures keeps(Run(net, x, n), m + n)
    decreases n
  {
    if n > 0 {
      RunKeeps(net, keeps, Hop(net, x), m + 1, n - 1);
    }
  }

  /**
   Whatever bytes anyone injects anywhere: they are relayed at most to the end
   of their own hop list, a packet that lands is the injected payload, and a
   forward packet lands only on the Node that owns the route to its destination.
   */
  lemma InjectedFramesAreContained(net: Network, sender: Name, receiver: Name, raw: Bytes, f: Frame, n: nat)
    requires Sane(net) && Decode(raw) == Some(f)
    ensures Contained(net, f, Run(net, InFlight(sender, receiver, raw), n), n)
  {
    var keeps := Containment(net, f);
    StartsContained(net, f, sender, receiver, raw);
    forall y, k: nat | keeps(y, k)
      ensures keeps(Hop(net, y), k + 1)
    {
      HopKeepsContainment(net, f, y, k);
    }
    RunKeeps(net, keeps, InFlight(sender, receiver, raw), 0, n);
    ContainmentIsContained(net, f, Run(net, InFlight(sender, receiver, raw), n), n);
  }
}
