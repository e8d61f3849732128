/**
 Replies. The owner of a route remembers, per Device, the path of the Device's
 latest packet and answers on its reverse. The table has one path per Device, so
 a reply from another CIDR of the same owner may travel on the wrong path.
 */
module MeshReplies {
  import opened Basics
  import opened Ipv4
  import opened MeshConfig
  import opened FrameCodec
  import opened MeshRouter
  import opened MeshDelivery
  import PS = PathSelection

  // ---------------------------------------------------------------- the reverse table

  /** What touches the reverse table: a landed forward packet of a Device, or a reply to it. */
  datatype Touch = Learn(device: Addr, path: Path, at: int) | Reply(device: Addr, at: int)

  function After(r: Reverse, t: Touch): Reverse {
    if t.Learn? then Remember(r, t.device, t.path, t.at) else Touched(r, t.device, t.at)
  }

  function Table(h: seq<Touch>): Reverse {
    if h == [] then map[] else After(Table(h[..|h| - 1]), h[|h| - 1])
  }

  ghost predicate Chronological(h: seq<Touch>, now: int) {
    (forall i, j :: 0 <= i < j < |h| ==> h[i].at <= h[j].at) && forall i :: 0 <= i < |h| ==> h[i].at <= now
  }

  /** The path of the Device's most recent forward packet. */
  function LastLearned(h: seq<Touch>, device: Addr): Option<Path> {
    if h == [] then None
    else if h[|h| - 1].Learn? && h[|h| - 1].device == device then Some(h[|h| - 1].path)
    else LastLearned(h[..|h| - 1], device)
  }

  /** Since that packet, no two uses of the entry lie more than the lifetime apart. */
  predicate Unbroken(h: seq<Touch>, device: Addr, now: int) {
    h != [] &&
    var last := h[|h| - 1];
    if last.device != device then Unbroken(h[..|h| - 1], device, now)
    else now - last.at <= REVERSE_TTL && (last.Learn? || Unbroken(h[..|h| - 1], device, last.at))
  }

  /** The table knows a Device exactly while its entry is unbroken, and then holds its latest path. */
  lemma {:induction false} TableRemembersLatest(h: seq<Touch>, device: Addr, now: int)
    requires Chronological(h, now)
    ensures Known(Table(h), device, now) <==> Unbroken(h, device, now)
    ensures Known(Table(h), device, now) ==> LastLearned(h, device) == Some(Table(h)[device].path)
  {
    if h != [] {
      var n := |h| - 1;
      var rest, last := h[..n], h[n];
      TableRemembersLatest(rest, device, last.at);
      TableRemembersLatest(rest, device, now);
    }
  }

  // ---------------------------------------------------------------- the Router's own table

  /** What reaches a Router, with the configuration it has at that moment; a frame is what its bytes decode to. */
  datatype Input =
    | FromMesh(config: RoutingConfig, peer: Name, frame: Option<Frame>, at: nat)
    | FromTunnel(config: RoutingConfig, packet: Bytes, at: nat)

  function ReverseStep(parse: Parser, local: Name, input: Input, r: Reverse): Reverse {
    match input
    case FromMesh(c, peer, f, at) => ReverseAfter(parse, local, c, peer, f, at, r)
    case FromTunnel(c, packet, at) => TunnelReverse(parse, c, packet, at, r)
  }

  /** The Router's reverse table after a run of mesh frames and tunnel packets. */
  function ReverseOf(parse: Parser, local: Name, inputs: seq<Input>): Reverse {
    if inputs == [] then map[]
    else ReverseStep(parse, local, inputs[|inputs| - 1], ReverseOf(parse, local, inputs[..|inputs| - 1]))
  }

  /** The touch an input makes, if it makes one. */
  function TouchOf(parse: Parser, local: Name, input: Input): seq<Touch> {
    match input
    case FromMesh(c, peer, f, at) =>
      var path := Learned(parse, local, c, peer, f, at);
      if path.Some? then [Learn(ParseEndpoints(f.value.payload).value.source, path.value, at)] else []
    case FromTunnel(c, packet, at) =>
      if PolicyValid(c, Unix(at)) && Answers(parse, c, packet)
      then [Reply(ParseEndpoints(packet).value.destination, at)] else []
  }

  function Touches(parse: Parser, local: Name, inputs: seq<Input>): seq<Touch> {
    if inputs == [] then []
    else Touches(parse, local, inputs[..|inputs| - 1]) + TouchOf(parse, local, inputs[|inputs| - 1])
  }

  lemma TableOneMore(h: seq<Touch>, more: seq<Touch>)
    requires |more| <= 1
    ensures Table(h + more) == if more == [] then Table(h) else After(Table(h), more[0])
  {
    if more == [] {
      assert h + more == h;
    } else {
      assert (h + more)[..|h|] == h;
    }
  }

  lemma StepIsTouch(parse: Parser, local: Name, input: Input, r: Reverse)
    ensures |TouchOf(parse, local, input)| <= 1
    ensures ReverseStep(parse, local, input, r) ==
      if TouchOf(parse, local, input) == [] then r else After(r, TouchOf(parse, local, input)[0])
  {
  }

  /** The Router's table is the table of the touches of its run. */
  lemma {:induction false} ReverseIsTable(parse: Parser, local: Name, inputs: seq<Input>)
    ensures ReverseOf(parse, local, inputs) == Table(Touches(parse, local, inputs))
  {
    hide TouchOf, ReverseStep, After;
    if inputs != [] {
      var n := |inputs| - 1;
      ReverseIsTable(parse, local, inputs[..n]);
      StepIsTouch(parse, local, inputs[n], ReverseOf(parse, local, inputs[..n]));
      TableOneMore(Touches(parse, local, inputs[..n]), TouchOf(parse, local, inputs[n]));
    }
  }

  predicate EndsAt(path: Path, node: Name) {
    path.ownerNodeId == node && 2 <= |path.hops| <= MAX_PATH_HOPS && path.hops[|path.hops| - 1] == node
  }

  /** A learned path ends at this Router, which is the owner of its route. */
  lemma LearnedEndsHere(parse: Parser, local: Name, c: RoutingConfig, peer: Name, f: Option<Frame>, at: nat)
    requires ConfigValid(parse, c) && Learned(parse, local, c, peer, f, at).Some?
    ensures EndsAt(Learned(parse, local, c, peer, f, at).value, local)
  {
    var path := Learned(parse, local, c, peer, f, at).value;
    var i :| 0 <= i < |c.transitPaths| && c.transitPaths[i] == path;
    assert PathValid(parse, c.transitPaths[i]);
  }

  ghost predicate Configured(parse: Parser, inputs: seq<Input>) {
    forall i :: 0 <= i < |inputs| ==> ConfigValid(parse, inputs[i].config)
  }

  lemma {:induction false} LatestEndsHere(parse: Parser, local: Name, inputs: seq<Input>, device: Addr)
    requires Configured(parse, inputs) && LastLearned(Touches(parse, local, inputs), device).Some?
    ensures EndsAt(LastLearned(Touches(parse, local, inputs), device).value, local)
  {
    if inputs != [] {
      var n := |inputs| - 1;
      var before, more := Touches(parse, local, inputs[..n]), TouchOf(parse, local, inputs[n]);
      if more == [] {
        assert before + more == before;
        LatestEndsHere(parse, local, inputs[..n], device);
      } else {
        assert (before + more)[..|before|] == before;
        if more[0].Learn? && more[0].device == device {
          LearnedEndsHere(parse, local, inputs[n].config, inputs[n].peer, inputs[n].frame, inputs[n].at);
        } else {
          LatestEndsHere(parse, local, inputs[..n], device);
        }
      }
    }
  }

  ghost predicate InOrder(inputs: seq<Input>, now: int) {
    (forall i, j :: 0 <= i < j < |inputs| ==> inputs[i].at <= inputs[j].at) && forall i :: 0 <= i < |inputs| ==> inputs[i].at <= now
  }

  lemma OneMoreInOrder(h: seq<Touch>, more: seq<Touch>, at: int, now: int)
    requires Chronological(h, at) && |more| <= 1 && (forall t :: t in more ==> t.at == at) && at <= now
    ensures Chronological(h + more, now)
  {
  }

  lemma TouchIsAtInput(parse: Parser, local: Name, input: Input)
    ensures |TouchOf(parse, local, input)| <= 1 && forall t :: t in TouchOf(parse, local, input) ==> t.at == input.at
  {
    hide Learned, Answers;
  }

  lemma {:induction false} TouchesInOrder(parse: Parser, local: Name, inputs: seq<Input>, now: int)
    requires InOrder(inputs, now)
    ensures Chronological(Touches(parse, local, inputs), now)
  {
    hide TouchOf;
    if inputs != [] {
      var n := |inputs| - 1;
      TouchIsAtInput(parse, local, inputs[n]);
      TouchesInOrder(parse, local, inputs[..n], inputs[n].at);
      OneMoreInOrder(Touches(parse, local, inputs[..n]), TouchOf(parse, local, inputs[n]), inputs[n].at, now);
    }
  }

  /** The Router knows a Device exactly while its touches are unbroken, and then by a path that ends here. */
  lemma RouterKnowsLatest(parse: Parser, local: Name, inputs: seq<Input>, device: Addr, now: int)
    requires InOrder(inputs, now) && Configured(parse, inputs)
    ensures var r, h := ReverseOf(parse, local, inputs), Touches(parse, local, inputs);
            (Known(r, device, now) <==> Unbroken(h, device, now)) &&
            (Known(r, device, now) ==> LastLearned(h, device) == Some(r[device].path) && EndsAt(r[device].path, local))
  {
    hide ReverseOf, Touches, Table, InOrder, Configured, Chronological;
    ReverseIsTable(parse, local, inputs);
    TouchesInOrder(parse, local, inputs, now);
    TableRemembersLatest(Touches(parse, local, inputs), device, now);
    if LastLearned(Touches(parse, local, inputs), device).Some? {
      LatestEndsHere(parse, local, inputs, device);
    }
  }

  // ---------------------------------------------------------------- a reply on its way

  /** The Node holds the path and its overlay holds the reply's destination. */
  predicate Holds(net: Network, node: Name, path: Path, packet: Bytes) {
    node in net.configs &&
    var c := net.configs[node];
    var held := TransitPath(c.transitPaths, path.id);
    PolicyValid(c, Unix(net.clock(node))) && held.Some? &&
    held.value.ownerNodeId == path.ownerNodeId && held.value.cidr == path.cidr && held.value.hops == path.hops &&
    Trim(c.overlaySubnet) != "" && ParseEndpoints(packet).Some? &&
    OverlayContains(net.parse, c, ParseEndpoints(packet).value.destination)
  }

  /** The Node's routes give the reply's source to the path's owner and CIDR. */
  predicate OwnsSource(net: Network, node: Name, path: Path, packet: Bytes) {
    node in net.configs && ParseEndpoints(packet).Some? &&
    OwnedBy(net.parse, net.configs[node], ParseEndpoints(packet).value.source, path.ownerNodeId, path.cidr)
  }

  /** Every Node on the way back holds the path, and every relay reaches its successor. */
  predicate Standing(net: Network, path: Path, packet: Bytes) {
    var hops := Way(path, true);
    (forall i :: 1 <= i < |hops| ==> Holds(net, hops[i], path, packet)) &&
    (forall i :: 1 <= i < |hops| - 1 ==> net.mesh(hops[i]).canSend(hops[i + 1]))
  }

  function ReplyLeg(path: Path, packet: Bytes, k: nat): Flight
    requires ValidateBasic(Leg(path, true, packet, k))
  {
    InFlight(Way(path, true)[k - 1], Way(path, true)[k], Encode(Leg(path, true, packet, k)))
  }

  lemma OwnedIsApproved(net: Network, node: Name, path: Path, packet: Bytes)
    requires Holds(net, node, path, packet) && OwnsSource(net, node, path, packet)
    ensures Approves(net, node, path, true, packet)
  {
  }

  lemma UnownedIsLost(net: Network, path: Path, packet: Bytes, k: nat)
    requires ValidateBasic(Leg(path, true, packet, k))
    requires Holds(net, Way(path, true)[k], path, packet) && !OwnsSource(net, Way(path, true)[k], path, packet)
    ensures Hop(net, ReplyLeg(path, packet, k)) == Lost
  {
    var f := Leg(path, true, packet, k);
    DecodeEncode(f);
  }

  lemma {:induction false} LostStaysLost(net: Network, n: nat)
    ensures Run(net, Lost, n) == Lost
  {
    if n > 0 {
      LostStaysLost(net, n - 1);
    }
  }

  predicate AllOwnSource(net: Network, path: Path, packet: Bytes, k: nat) {
    forall i :: k <= i < |path.hops| ==> OwnsSource(net, Way(path, true)[i], path, packet)
  }

  /**
   On a standing path a reply lands on the path's first Node exactly when every
   Node it still has to pass gives its source to the path's owner and CIDR; it
   is lost otherwise.
   */
  lemma {:induction false} ReplyLandsIff(net: Network, path: Path, packet: Bytes, k: nat)
    requires Standing(net, path, packet) && ValidateBasic(Leg(path, true, packet, k))
    ensures Run(net, ReplyLeg(path, packet, k), |path.hops| - k) ==
      if AllOwnSource(net, path, packet, k) then Landed(path.hops[0], packet) else Lost
    decreases |path.hops| - k
  {
    hide Encode, Decode, Hop, OwnsSource;
    var hops := Way(path, true);
    var x := ReplyLeg(path, packet, k);
    var n: nat := |hops| - k;
    assert Holds(net, hops[k], path, packet);
    if !OwnsSource(net, hops[k], path, packet) {
      UnownedIsLost(net, path, packet, k);
      LostStaysLost(net, n - 1);
    } else {
      OwnedIsApproved(net, hops[k], path, packet);
      LegAdvances(net, path, true, packet, k);
      if k < |hops| - 1 {
        ReplyLandsIff(net, path, packet, k + 1);
      } else {
        assert Run(net, Hop(net, x), 0) == Hop(net, x);
      }
    }
  }

  lemma AnswerIsReplyLeg(owner: Name, r: Reverse, device: Addr, path: Path, packet: Bytes, mesh: PS.Mesh, now: int)
    requires Known(r, device, now) && r[device].path == path && EndsAt(path, owner)
    requires ValidateBasic(Leg(path, true, packet, 1)) && mesh.canSend(Way(path, true)[1])
    ensures var a := Answer(owner, r, device, packet, mesh, now);
            a.Send? && InFlight(owner, a.to, a.raw) == ReplyLeg(path, packet, 1)
  {
    assert ReturnFrame(owner, path, packet) == Leg(path, true, packet, 1);
  }

  /** A known Device is answered on the reverse of the known path, and the answer lands as ReplyLandsIff says. */
  lemma AnswerLandsIff(net: Network, r: Reverse, owner: Name, path: Path, packet: Bytes)
    requires ParseEndpoints(packet).Some? && EndsAt(path, owner) && ValidateBasic(Leg(path, true, packet, 1))
    requires var device := ParseEndpoints(packet).value.destination;
             Known(r, device, net.clock(owner)) && r[device].path == path
    requires net.mesh(owner).canSend(Way(path, true)[1]) && Standing(net, path, packet)
    ensures var a := Answer(owner, r, ParseEndpoints(packet).value.destination, packet, net.mesh(owner), net.clock(owner));
            a.Send? && Run(net, InFlight(owner, a.to, a.raw), |path.hops| - 1) ==
                       if AllOwnSource(net, path, packet, 1) then Landed(path.hops[0], packet) else Lost
  {
    hide Encode, Decode, Hop, ValidateBasic, Answer, Standing, AllOwnSource, Run, ReplyLeg;
    AnswerIsReplyLeg(owner, r, ParseEndpoints(packet).value.destination, path, packet, net.mesh(owner), net.clock(owner));
    ReplyLandsIff(net, path, packet, 1);
  }

  /**
   A reply that the owner's tunnel hands over while the Device's entry is
   unbroken leaves on the reverse of the path of the Device's most recent
   packet. On a standing path it lands, byte for byte, on that path's first Node
   when the whole way gives its source to the path's owner and CIDR, and is lost
   otherwise.
   */
  lemma ReplyReturnsIff(net: Network, inputs: seq<Input>, owner: Name, path: Path, packet: Bytes)
    requires InOrder(inputs, net.clock(owner)) && Configured(net.parse, inputs) && ParseEndpoints(packet).Some?
    requires var device, h := ParseEndpoints(packet).value.destination, Touches(net.parse, owner, inputs);
             Unbroken(h, device, net.clock(owner)) && LastLearned(h, device) == Some(path)
    requires ValidateBasic(Leg(path, true, packet, 1))
    requires net.mesh(owner).canSend(Way(path, true)[1]) && Standing(net, path, packet)
    ensures var r := ReverseOf(net.parse, owner, inputs);
            var a := Answer(owner, r, ParseEndpoints(packet).value.destination, packet, net.mesh(owner), net.clock(owner));
            a.Send? && Run(net, InFlight(owner, a.to, a.raw), |path.hops| - 1) ==
                       if AllOwnSource(net, path, packet, 1) then Landed(path.hops[0], packet) else Lost
  {
    hide Answer, Standing, AllOwnSource, Run, ReverseOf, Touches, ValidateBasic, InOrder, Configured;
    RouterKnowsLatest(net.parse, owner, inputs, ParseEndpoints(packet).value.destination, net.clock(owner));
    AnswerLandsIff(net, ReverseOf(net.parse, owner, inputs), owner, path, packet);
  }

  // ---------------------------------------------------------------- two CIDRs of one owner

  const SOURCE: Name := "s"
  const OWNER: Name := "o"
  const PATH_A := Path("pa", OWNER, "a", [SOURCE, OWNER], "healthy", 0.0, 0.0, 0.0, 0.0)
  const PATH_B := Path("pb", OWNER, "b", [SOURCE, OWNER], "healthy", 0.0, 0.0, 0.0, 0.0)
  const CONFIG := RoutingConfig(0, "v", true, [], [PATH_A, PATH_B], [Route("a", OWNER), Route("b", OWNER)])

  /** Two hosts in different CIDRs of one owner, and packets between them and a Device of the overlay. */
  datatype Scene = Scene(parse: Parser, device: Addr, hostA: Addr, hostB: Addr, toA: Bytes, toB: Bytes, fromA: Bytes)

  predicate InNet(p: ParsedPrefix, a: Addr) {
    p.V4? && 0 < p.bits <= 32 && p.addr[..p.bits] <= a
  }

  predicate Sends(packet: Bytes, from: Addr, to: Addr) {
    ParseEndpoints(packet) == Some(Endpoints(from, to)) && 0 < |packet| <= 65535
  }

  predicate Plausible(w: Scene) {
    InNet(w.parse("a"), w.hostA) && !InNet(w.parse("a"), w.hostB) && InNet(w.parse("b"), w.hostB) && !InNet(w.parse("b"), w.hostA) &&
    InNet(w.parse("v"), w.device) &&
    Sends(w.toA, w.device, w.hostA) && Sends(w.toB, w.device, w.hostB) && Sends(w.fromA, w.hostA, w.device)
  }

  function PairNetwork(w: Scene): Network {
    Network(w.parse, map[SOURCE := CONFIG, OWNER := CONFIG], _ => PS.Mesh(_ => true, _ => None), _ => 2)
  }

  /** The two hosts belong to different CIDRs of the owner. */
  lemma HostsHaveOwners(w: Scene)
    requires Plausible(w)
    ensures OwnedBy(w.parse, CONFIG, w.hostA, OWNER, "a") && !OwnedBy(w.parse, CONFIG, w.hostA, OWNER, "b")
    ensures OwnedBy(w.parse, CONFIG, w.hostB, OWNER, "b")
  {
    var routes := CONFIG.routes;
    assert routes[..1] == [Route("a", OWNER)] && routes[..1][..0] == [];
    assert RouteFor(w.parse, routes[..1], w.hostA) == Some(Route("a", OWNER));
    assert RouteFor(w.parse, routes[..1], w.hostB) == None;
  }

  lemma OneCharTrims(c: char)
    requires !IsSpace(c)
    ensures Trim([c]) == [c]
  {
  }

  lemma ConfigIsValid(parse: Parser)
    requires UsableNet(parse("a")).Some? && UsableNet(parse("b")).Some? && parse("v").V4?
    ensures ConfigValid(parse, CONFIG)
    ensures TransitPath(CONFIG.transitPaths, "pa") == Some(PATH_A) && TransitPath(CONFIG.transitPaths, "pb") == Some(PATH_B)
  {
    assert Trim("pa") == "pa" && Trim("pb") == "pb" && Trim("s") == "s" && Trim("o") == "o";
    assert CONFIG.transitPaths[1..] == [PATH_B];
  }

  function Arrival(path: Path, packet: Bytes, at: nat): Input {
    FromMesh(CONFIG, SOURCE, Some(Leg(path, false, packet, 1)), at)
  }

  function ReplyTo(w: Scene, r: Reverse): Action {
    Answer(OWNER, r, w.device, w.fromA, PairNetwork(w).mesh(OWNER), 2)
  }

  lemma LegsAreValid(path: Path, isReturn: bool, packet: Bytes)
    requires (path == PATH_A || path == PATH_B) && 0 < |packet| <= 65535
    ensures ValidateBasic(Leg(path, isReturn, packet, 1))
    ensures Way(path, isReturn) == if isReturn then [OWNER, SOURCE] else [SOURCE, OWNER]
  {
  }

  lemma ArrivalIsAdmitted(w: Scene, path: Path, packet: Bytes, host: Addr)
    requires Plausible(w) && Sends(packet, w.device, host) && ValidateBasic(Leg(path, false, packet, 1))
    requires (path == PATH_A && host == w.hostA) || (path == PATH_B && host == w.hostB)
    ensures Admit(w.parse, OWNER, CONFIG, SOURCE, Leg(path, false, packet, 1)) == Some(path)
  {
    hide OwnedBy, TransitPath, ValidateBasic, ParseEndpoints, ConfigValid;
    HostsHaveOwners(w);
    ConfigIsValid(w.parse);
  }

  lemma ArrivalTouches(w: Scene, path: Path, packet: Bytes, host: Addr, at: nat)
    requires Plausible(w) && Sends(packet, w.device, host)
    requires (path == PATH_A && host == w.hostA) || (path == PATH_B && host == w.hostB)
    ensures TouchOf(w.parse, OWNER, Arrival(path, packet, at)) == [Learn(w.device, path, at)]
  {
    hide Admit, Plausible, ParseEndpoints;
    LegsAreValid(path, false, packet);
    ArrivalIsAdmitted(w, path, packet, host);
  }

  lemma HoldsByConfig(net: Network, node: Name, c: RoutingConfig, path: Path, packet: Bytes)
    requires node in net.configs && net.configs[node] == c && c.policyExpiresAt == 0
    requires TransitPath(c.transitPaths, path.id) == Some(path) && Trim(c.overlaySubnet) != ""
    requires ParseEndpoints(packet).Some? && OverlayContains(net.parse, c, ParseEndpoints(packet).value.destination)
    ensures Holds(net, node, path, packet)
    ensures OwnsSource(net, node, path, packet) <==>
      OwnedBy(net.parse, c, ParseEndpoints(packet).value.source, path.ownerNodeId, path.cidr)
  {
  }

  lemma SourceHolds(w: Scene, path: Path)
    requires Plausible(w) && (path == PATH_A || path == PATH_B)
    ensures TransitPath(CONFIG.transitPaths, path.id) == Some(path) && Trim(CONFIG.overlaySubnet) != ""
    ensures OverlayContains(w.parse, CONFIG, w.device)
    ensures OwnedBy(w.parse, CONFIG, w.hostA, path.ownerNodeId, path.cidr) <==> path == PATH_A
  {
    HostsHaveOwners(w);
    ConfigIsValid(w.parse);
    OneCharTrims('v');
  }

  /** With one hop to go, the way back stands when its last Node holds the path. */
  lemma OneHopStands(net: Network, path: Path, packet: Bytes)
    requires |path.hops| == 2 && Holds(net, path.hops[0], path, packet)
    ensures Standing(net, path, packet)
    ensures AllOwnSource(net, path, packet, 1) <==> OwnsSource(net, path.hops[0], path, packet)
  {
    hide Holds, OwnsSource;
    assert Way(path, true)[1] == path.hops[0];
  }

  lemma PairStands(w: Scene, path: Path)
    requires Plausible(w) && (path == PATH_A || path == PATH_B)
    ensures Standing(PairNetwork(w), path, w.fromA) && EndsAt(path, OWNER)
    ensures AllOwnSource(PairNetwork(w), path, w.fromA, 1) <==> path == PATH_A
  {
    hide OwnedBy, TransitPath, ParseEndpoints, Trim, OverlayContains, Holds, OwnsSource, Standing, AllOwnSource;
    SourceHolds(w, path);
    HoldsByConfig(PairNetwork(w), SOURCE, CONFIG, path, w.fromA);
    OneHopStands(PairNetwork(w), path, w.fromA);
  }

  /** What the owner's Router does with the reply when its table holds one of the two paths. */
  lemma ReplyFollowsPath(w: Scene, r: Reverse, path: Path)
    requires Plausible(w) && (path == PATH_A || path == PATH_B) && Known(r, w.device, 2) && r[w.device].path == path
    ensures var a := ReplyTo(w, r);
            a.Send? && Run(PairNetwork(w), InFlight(OWNER, a.to, a.raw), 1) == if path == PATH_A then Landed(SOURCE, w.fromA) else Lost
  {
    hide Standing, AllOwnSource, ValidateBasic, ParseEndpoints, Answer, Run;
    LegsAreValid(path, true, w.fromA);
    PairStands(w, path);
    AnswerLandsIff(PairNetwork(w), r, OWNER, path, w.fromA);
  }

  lemma TouchesOfOne(parse: Parser, first: Input)
    ensures Touches(parse, OWNER, [first]) == TouchOf(parse, OWNER, first)
  {
    hide TouchOf;
    assert [first][..0] == [];
  }

  lemma TouchesOfTwo(parse: Parser, first: Input, second: Input)
    ensures Touches(parse, OWNER, [first, second]) == TouchOf(parse, OWNER, first) + TouchOf(parse, OWNER, second)
  {
    hide TouchOf;
    TouchesOfOne(parse, first);
    assert [first, second][..1] == [first];
  }

  lemma LastOfOne(device: Addr, p: Path)
    ensures var h := [Learn(device, p, 0)]; Unbroken(h, device, 2) && LastLearned(h, device) == Some(p)
  {
  }

  lemma LastOfTwo(device: Addr, p: Path, q: Path)
    ensures var h := [Learn(device, p, 0), Learn(device, q, 1)]; Unbroken(h, device, 2) && LastLearned(h, device) == Some(q)
  {
  }

  lemma KnownAfterOne(parse: Parser, first: Input, device: Addr, p: Path)
    requires ConfigValid(parse, first.config) && first.at == 0 && TouchOf(parse, OWNER, first) == [Learn(device, p, 0)]
    ensures var r := ReverseOf(parse, OWNER, [first]); Known(r, device, 2) && r[device].path == p
  {
    hide ReverseOf, Touches, TouchOf, Unbroken, LastLearned, ConfigValid;
    TouchesOfOne(parse, first);
    LastOfOne(device, p);
    RouterKnowsLatest(parse, OWNER, [first], device, 2);
  }

  lemma KnownAfterTwo(parse: Parser, first: Input, second: Input, device: Addr, p: Path, q: Path)
    requires ConfigValid(parse, first.config) && first.at == 0 && TouchOf(parse, OWNER, first) == [Learn(device, p, 0)]
    requires ConfigValid(parse, second.config) && second.at == 1 && TouchOf(parse, OWNER, second) == [Learn(device, q, 1)]
    ensures var r := ReverseOf(parse, OWNER, [first, second]); Known(r, device, 2) && r[device].path == q
  {
    hide ReverseOf, Touches, TouchOf, Unbroken, LastLearned, ConfigValid;
    TouchesOfTwo(parse, first, second);
    assert [Learn(device, p, 0)] + [Learn(device, q, 1)] == [Learn(device, p, 0), Learn(device, q, 1)];
    LastOfTwo(device, p, q);
    RouterKnowsLatest(parse, OWNER, [first, second], device, 2);
  }

  lemma SceneConfigIsValid(w: Scene)
    requires Plausible(w)
    ensures ConfigValid(w.parse, CONFIG)
  {
    hide ConfigValid;
    ConfigIsValid(w.parse);
  }

  /** The owner's Router knows the Device by the path of its latest packet. */
  lemma TableOfTwo(w: Scene)
    requires Plausible(w)
    ensures var r := ReverseOf(w.parse, OWNER, [Arrival(PATH_A, w.toA, 0)]); Known(r, w.device, 2) && r[w.device].path == PATH_A
    ensures var r := ReverseOf(w.parse, OWNER, [Arrival(PATH_A, w.toA, 0), Arrival(PATH_B, w.toB, 1)]);
            Known(r, w.device, 2) && r[w.device].path == PATH_B
  {
    hide ReverseOf, TouchOf, Leg, ConfigValid, Known;
    var first, second := Arrival(PATH_A, w.toA, 0), Arrival(PATH_B, w.toB, 1);
    SceneConfigIsValid(w);
    ArrivalTouches(w, PATH_A, w.toA, w.hostA, 0);
    ArrivalTouches(w, PATH_B, w.toB, w.hostB, 1);
    KnownAfterOne(w.parse, first, w.device, PATH_A);
    KnownAfterTwo(w.parse, first, second, w.device, PATH_A, PATH_B);
  }

  /**
   A reply from a host returns after the Device's packet to it, and is lost once
   the Device has also sent a packet to another CIDR of the same owner.
   */
  lemma OtherCidrLosesReply(w: Scene)
    requires Plausible(w)
    ensures var a := ReplyTo(w, ReverseOf(w.parse, OWNER, [Arrival(PATH_A, w.toA, 0)]));
            a.Send? && Run(PairNetwork(w), InFlight(OWNER, a.to, a.raw), 1) == Landed(SOURCE, w.fromA)
    ensures var a := ReplyTo(w, ReverseOf(w.parse, OWNER, [Arrival(PATH_A, w.toA, 0), Arrival(PATH_B, w.toB, 1)]));
            a.Send? && Run(PairNetwork(w), InFlight(OWNER, a.to, a.raw), 1) == Lost
  {
    hide ReverseOf, Run, Answer, Plausible;
    TableOfTwo(w);
    ReplyFollowsPath(w, ReverseOf(w.parse, OWNER, [Arrival(PATH_A, w.toA, 0)]), PATH_A);
    ReplyFollowsPath(w, ReverseOf(w.parse, OWNER, [Arrival(PATH_A, w.toA, 0), Arrival(PATH_B, w.toB, 1)]), PATH_B);
  }

  // ---------------------------------------------------------------- such a scene exists

  function Quad(b: byte): (a: Addr) {
    ByteBits(10) + ByteBits(b) + ByteBits(0) + ByteBits(1)
  }

  /** A datagram that is only a header, between the hosts 1 of two of the networks 10.0.0.0/16 to 10.255.0.0/16. */
  function Datagram(from: byte, to: byte): Bytes {
    [69, 0, 0, 20, 0, 0, 0, 0, 0, 0, 0, 0, 10, from, 0, 1, 10, to, 0, 1]
  }

  lemma DatagramSends(from: byte, to: byte)
    ensures Sends(Datagram(from, to), Quad(from), Quad(to))
  {
  }

  /** The first 16 bits tell the networks apart. */
  lemma QuadsPart(x: byte, y: byte)
    requires x != y && x < 4 && y < 4
    ensures Quad(x)[..16] <= Quad(x) && !(Quad(x)[..16] <= Quad(y))
  {
    assert Quad(x)[14] == (x / 2 % 2 == 1) && Quad(x)[15] == (x % 2 == 1);
    assert Quad(y)[14] == (y / 2 % 2 == 1) && Quad(y)[15] == (y % 2 == 1);
    assert Quad(x)[..16][14] == Quad(x)[14] && Quad(x)[..16][15] == Quad(x)[15];
  }

  function SceneParse(s: string): ParsedPrefix {
    V4(Quad(if s == "a" then 1 else if s == "b" then 2 else 0), 16)
  }

  lemma SceneParses()
    ensures SceneParse("a") == V4(Quad(1), 16) && SceneParse("b") == V4(Quad(2), 16) && SceneParse("v") == V4(Quad(0), 16)
  {
    hide Quad;
    assert "a" != "b" && "v" != "a" && "v" != "b";
  }

  /** The Device is 10.0.0.1, the hosts are 10.1.0.1 and 10.2.0.1, and each network is a /16. */
  lemma SceneExists() returns (w: Scene)
    ensures Plausible(w)
  {
    w := Scene(SceneParse, Quad(0), Quad(1), Quad(2), Datagram(0, 1), Datagram(0, 2), Datagram(1, 0));
    hide Sends, Quad, Datagram, SceneParse;
    SceneParses();
    DatagramSends(0, 1);
    DatagramSends(0, 2);
    DatagramSends(1, 0);
    QuadsPart(1, 2);
    QuadsPart(2, 1);
    QuadsPart(0, 1);
  }
}
