/**
 One tunnel adapter shared by the gateway and the peer-to-peer sessions. An
 address that was ever reserved for a peer belongs to that peer until the
 adapter is closed. Every action below is one critical section or one channel
 operation; a gateway read and a gateway write are a check and a later hand-over.
 */
module Mux {
  import opened Basics
  import opened Ipv4
  import opened MeshRouter

  const MAX_PEERS := 16
  const QUEUE_SIZE := 128

  /** The addresses of an IPv4 packet, however malformed the rest of it is. */
  function PacketAddresses(p: Bytes): Option<Endpoints> {
    if |p| < 20 || p[0] / 16 != 4 then None else Some(Endpoints(AddrAt(p, 12), AddrAt(p, 16)))
  }

  /** The queue of one attached peer; a closed queue keeps its place. */
  datatype Queue = Queue(peer: Addr, items: seq<Bytes>)

  /** A gateway call in progress; a stamp counts the actions before its check. */
  datatype Pending = Taken(packet: Bytes) | CheckedRead(packet: Bytes, stamp: nat) | CheckedWrite(packet: Bytes, stamp: nat)

  datatype Mux = Mux(
    peers: map<Addr, Option<nat>>,
    queues: seq<Queue>,
    gateway: seq<Bytes>,
    pending: map<nat, Pending>,
    closed: bool,
    clock: nat)

  const IDLE_MUX := Mux(map[], [], [], map[], false, 0)

  datatype Action =
    | Reserve(peer: Addr)
    | Attach(peer: Addr, bound: Addr)
    | ClosePeer(queue: nat)
    | Close
    | Dispatch(packet: Bytes)
    | Take(thread: nat, fits: bool)
    | CheckRead(thread: nat)
    | Return(thread: nat)
    | CheckWrite(thread: nat, packet: Bytes)
    | Pass(thread: nat)
    | PeerRead(queue: nat)

  predicate CanReserve(m: Mux, peer: Addr) {
    !m.closed && IsPrivate(peer) && (peer in m.peers || |m.peers| < MAX_PEERS)
  }

  function Reserved(m: Mux, peer: Addr): Mux {
    if CanReserve(m, peer) && peer !in m.peers then m.(peers := m.peers[peer := None]) else m
  }

  predicate CanAttach(m: Mux, peer: Addr, bound: Addr) {
    !m.closed && peer in m.peers && m.peers[peer].None? && bound == peer
  }

  function Attached(m: Mux, peer: Addr, bound: Addr): Mux {
    if CanAttach(m, peer, bound)
    then m.(peers := m.peers[peer := Some(|m.queues|)], queues := m.queues + [Queue(peer, [])]) else m
  }

  /** The peer's address stays reserved when its queue is detached. */
  function Detached(m: Mux, queue: nat): Mux {
    if queue < |m.queues| && m.queues[queue].peer in m.peers && m.peers[m.queues[queue].peer] == Some(queue)
    then m.(peers := m.peers[m.queues[queue].peer := None]) else m
  }

  predicate ForPeer(m: Mux, packet: Bytes) {
    PacketAddresses(packet).Some? && PacketAddresses(packet).value.destination in m.peers
  }

  predicate FromPeer(m: Mux, packet: Bytes) {
    PacketAddresses(packet).Some? && PacketAddresses(packet).value.source in m.peers
  }

  /** The queue a dispatched packet is put into; a full queue drops it. */
  function QueueFor(m: Mux, packet: Bytes): Option<nat> {
    if !ForPeer(m, packet) then None
    else
      var q := m.peers[PacketAddresses(packet).value.destination];
      if q.Some? && q.value < |m.queues| && |m.queues[q.value].items| < QUEUE_SIZE then q else None
  }

  function Push(m: Mux, queue: nat, packet: Bytes): Mux
    requires queue < |m.queues|
  {
    m.(queues := m.queues[queue := m.queues[queue].(items := m.queues[queue].items + [packet])])
  }

  function Dispatched(m: Mux, packet: Bytes): Mux {
    if ForPeer(m, packet) then
      if QueueFor(m, packet).Some? then Push(m, QueueFor(m, packet).value, packet) else m
    else if |m.gateway| < QUEUE_SIZE then m.(gateway := m.gateway + [packet]) else m
  }

  predicate Unread(m: Mux, thread: nat) {
    thread in m.pending && m.pending[thread].Taken?
  }

  function TakenBy(m: Mux, thread: nat, fits: bool): Mux {
    if m.gateway == [] || thread in m.pending then m
    else m.(gateway := m.gateway[1..], pending := if fits then m.pending[thread := Taken(m.gateway[0])] else m.pending)
  }

  function ReadChecked(m: Mux, thread: nat): Mux {
    if !Unread(m, thread) then m
    else if ForPeer(m, m.pending[thread].packet) then m.(pending := m.pending - {thread})
    else m.(pending := m.pending[thread := CheckedRead(m.pending[thread].packet, m.clock)])
  }

  function WriteChecked(m: Mux, thread: nat, packet: Bytes): Mux {
    if thread in m.pending || FromPeer(m, packet) then m
    else m.(pending := m.pending[thread := CheckedWrite(packet, m.clock)])
  }

  predicate Checked(m: Mux, thread: nat, reading: bool) {
    thread in m.pending && if reading then m.pending[thread].CheckedRead? else m.pending[thread].CheckedWrite?
  }

  function ReadByPeer(m: Mux, queue: nat): Mux {
    if queue < |m.queues| && m.queues[queue].items != []
    then m.(queues := m.queues[queue := m.queues[queue].(items := m.queues[queue].items[1..])]) else m
  }

  function Effect(m: Mux, a: Action): Mux {
    match a
    case Reserve(peer) => Reserved(m, peer)
    case Attach(peer, bound) => Attached(m, peer, bound)
    case ClosePeer(queue) => Detached(m, queue)
    case Close => m.(closed := true)
    case Dispatch(packet) => Dispatched(m, packet)
    case Take(thread, fits) => TakenBy(m, thread, fits)
    case CheckRead(thread) => ReadChecked(m, thread)
    case Return(thread) => if Checked(m, thread, true) then m.(pending := m.pending - {thread}) else m
    case CheckWrite(thread, packet) => WriteChecked(m, thread, packet)
    case Pass(thread) => if Checked(m, thread, false) then m.(pending := m.pending - {thread}) else m
    case PeerRead(queue) => ReadByPeer(m, queue)
  }

  function Step(m: Mux, a: Action): Mux {
    Effect(m, a).(clock := m.clock + 1)
  }

  function Reach(run: seq<Action>): Mux {
    if run == [] then IDLE_MUX else Step(Reach(run[..|run| - 1]), run[|run| - 1])
  }

  lemma ReachNothing()
    ensures Reach([]) == IDLE_MUX
  {
  }

  lemma ReachSteps(run: seq<Action>, n: nat)
    requires 0 < n <= |run|
    ensures Reach(run[..n]) == Step(Reach(run[..n - 1]), run[n - 1])
  {
    assert run[..n][..n - 1] == run[..n - 1];
  }

  // ---------------------------------------------------------------- reservations

  lemma {:induction false} ClockCountsActions(run: seq<Action>)
    ensures Reach(run).clock == |run|
  {
    if run != [] {
      ClockCountsActions(run[..|run| - 1]);
    }
  }

  lemma StepKeepsReservation(m: Mux, a: Action, peer: Addr)
    requires peer in m.peers
    ensures peer in Step(m, a).peers
  {
  }

  /** A reservation is never removed. */
  lemma {:induction false} ReservationsLast(run: seq<Action>, i: nat, peer: Addr)
    requires i <= |run| && peer in Reach(run[..i]).peers
    ensures peer in Reach(run).peers
  {
    if i < |run| {
      assert run[..|run| - 1][..i] == run[..i];
      ReservationsLast(run[..|run| - 1], i, peer);
      StepKeepsReservation(Reach(run[..|run| - 1]), run[|run| - 1], peer);
    } else {
      assert run[..i] == run;
    }
  }

  ghost predicate Bounded(m: Mux) {
    |m.peers| <= MAX_PEERS && |m.gateway| <= QUEUE_SIZE && (forall peer :: peer in m.peers ==> IsPrivate(peer)) &&
    forall k :: 0 <= k < |m.queues| ==> |m.queues[k].items| <= QUEUE_SIZE
  }

  lemma StepKeepsQueuesShort(m: Mux, a: Action)
    requires |m.gateway| <= QUEUE_SIZE && forall k :: 0 <= k < |m.queues| ==> |m.queues[k].items| <= QUEUE_SIZE
    ensures |Step(m, a).gateway| <= QUEUE_SIZE
    ensures forall k :: 0 <= k < |Step(m, a).queues| ==> |Step(m, a).queues[k].items| <= QUEUE_SIZE
  {
    hide ForPeer, FromPeer, CanAttach;
  }

  lemma SameKeysSameSize(m: Mux, a: Action)
    requires |m.peers| <= MAX_PEERS && forall peer :: peer in m.peers ==> IsPrivate(peer)
    ensures |Step(m, a).peers| <= MAX_PEERS && forall peer :: peer in Step(m, a).peers ==> IsPrivate(peer)
  {
    match a
    case Reserve(peer) =>
      if peer !in m.peers { assert |m.peers[peer := None]| == |m.peers| + 1; }
    case Attach(peer, _) =>
      if peer in m.peers { OneMoreKey(m.peers, peer, Some(|m.queues|)); }
    case ClosePeer(queue) =>
      if queue < |m.queues| && m.queues[queue].peer in m.peers { OneMoreKey(m.peers, m.queues[queue].peer, None); }
    case _ =>
  }

  lemma StepKeepsBounded(m: Mux, a: Action)
    requires Bounded(m)
    ensures Bounded(Step(m, a))
  {
    SameKeysSameSize(m, a);
    StepKeepsQueuesShort(m, a);
  }

  /** At most sixteen addresses are reserved, all of them private, and every queue holds at most 128 packets. */
  lemma {:induction false} EveryRunIsBounded(run: seq<Action>)
    ensures Bounded(Reach(run))
  {
    if run != [] {
      EveryRunIsBounded(run[..|run| - 1]);
      StepKeepsBounded(Reach(run[..|run| - 1]), run[|run| - 1]);
    }
  }

  // ---------------------------------------------------------------- what the gateway may carry

  /** A checked read was not for a peer, and a checked write not from one, when it was checked. */
  ghost predicate Honest(run: seq<Action>, p: Pending) {
    match p
    case Taken(_) => true
    case CheckedRead(packet, stamp) => stamp < |run| && !ForPeer(Reach(run[..stamp]), packet)
    case CheckedWrite(packet, stamp) => stamp < |run| && !FromPeer(Reach(run[..stamp]), packet)
  }

  /** A step leaves a pending call alone, or makes its check now. */
  lemma StepChecks(m: Mux, a: Action, thread: nat)
    requires thread in Step(m, a).pending
    ensures var p := Step(m, a).pending[thread];
            Lookup(m.pending, thread) == Some(p) || p.Taken? ||
            (p.stamp == m.clock && if p.CheckedRead? then !ForPeer(m, p.packet) else !FromPeer(m, p.packet))
  {
  }

  lemma FreshCheckIsHonest(run: seq<Action>, before: Mux, p: Pending, a: Action, thread: nat)
    requires run != [] && before == Reach(run[..|run| - 1]) && before.clock == |run| - 1
    requires Lookup(Step(before, a).pending, thread) == Some(p)
    ensures Lookup(before.pending, thread) == Some(p) || Honest(run, p)
  {
    StepChecks(before, a, thread);
  }

  lemma PendingComesFrom(run: seq<Action>, thread: nat)
    requires run != [] && thread in Reach(run).pending
    ensures var p := Reach(run).pending[thread];
            Lookup(Reach(run[..|run| - 1]).pending, thread) == Some(p) || Honest(run, p)
  {
    var before, a := Reach(run[..|run| - 1]), run[|run| - 1];
    ClockCountsActions(run[..|run| - 1]);
    FreshCheckIsHonest(run, before, Step(before, a).pending[thread], a, thread);
  }

  lemma HonestLater(run: seq<Action>, p: Pending)
    requires run != [] && Honest(run[..|run| - 1], p)
    ensures Honest(run, p)
  {
    if !p.Taken? {
      assert run[..|run| - 1][..p.stamp] == run[..p.stamp];
    }
  }

  lemma {:induction false} ChecksAreHonest(run: seq<Action>, thread: nat, p: Pending)
    requires Lookup(Reach(run).pending, thread) == Some(p)
    ensures Honest(run, p)
  {
    if run != [] {
      PendingComesFrom(run, thread);
      if !Honest(run, p) {
        ChecksAreHonest(run[..|run| - 1], thread, p);
        HonestLater(run, p);
      }
    }
  }

  /** The packet that an action hands to the gateway's reader or to the adapter, with the stamp of its check. */
  function HandedOver(m: Mux, a: Action): Option<Pending> {
    match a
    case Return(thread) => if Checked(m, thread, true) then Some(m.pending[thread]) else None
    case Pass(thread) => if Checked(m, thread, false) then Some(m.pending[thread]) else None
    case _ => None
  }

  /** The packet is one that a reservation of the address concerns: for it when read, from it when written. */
  predicate Concerns(p: Pending, peer: Addr) {
    !p.Taken? && PacketAddresses(p.packet).Some? &&
    var e := PacketAddresses(p.packet).value;
    (if p.CheckedRead? then e.destination else e.source) == peer
  }

  lemma HandedOverWasPending(m: Mux, a: Action)
    requires HandedOver(m, a).Some?
    ensures (a.Return? || a.Pass?) && Lookup(m.pending, a.thread) == HandedOver(m, a)
  {
  }

  lemma HonestMeansUnreserved(run: seq<Action>, p: Pending, peer: Addr)
    requires Honest(run, p) && Concerns(p, peer)
    ensures p.stamp < |run| && peer !in Reach(run[..p.stamp]).peers
  {
  }

  /**
   Once an address is reserved, no gateway read delivers a packet for it and no
   gateway write passes a packet from it, except a call that had made its check
   before the reservation.
   */
  lemma ReservedNeverReachesGateway(run: seq<Action>, i: nat, r: nat, peer: Addr)
    requires i < |run| && r <= i && peer in Reach(run[..r]).peers
    requires HandedOver(Reach(run[..i]), run[i]).Some?
    requires Concerns(HandedOver(Reach(run[..i]), run[i]).value, peer)
    ensures HandedOver(Reach(run[..i]), run[i]).value.stamp < r
  {
    hide Reach, HandedOver, Honest;
    var p := HandedOver(Reach(run[..i]), run[i]).value;
    HandedOverWasPending(Reach(run[..i]), run[i]);
    ChecksAreHonest(run[..i], run[i].thread, p);
    assert run[..i][..p.stamp] == run[..p.stamp];
    HonestMeansUnreserved(run[..i], p, peer);
    if r <= p.stamp {
      assert run[..p.stamp][..r] == run[..r];
      ReservationsLast(run[..p.stamp], r, peer);
    }
  }

  lemma QueuedAndTaken(packet: Bytes)
    ensures Step(Step(IDLE_MUX, Dispatch(packet)), Take(0, true)) == IDLE_MUX.(pending := map[0 := Taken(packet)], clock := 2)
  {
    assert Dispatched(IDLE_MUX, packet) == IDLE_MUX.(gateway := [packet]);
    assert [packet][1..] == [];
  }

  lemma CheckedAndReserved(packet: Bytes, peer: Addr)
    requires IsPrivate(peer)
    ensures Step(Step(IDLE_MUX.(pending := map[0 := Taken(packet)], clock := 2), CheckRead(0)), Reserve(peer)) ==
      IDLE_MUX.(peers := map[peer := None], pending := map[0 := CheckedRead(packet, 2)], clock := 4)
  {
    var taken := IDLE_MUX.(pending := map[0 := Taken(packet)], clock := 2);
    assert ReadChecked(taken, 0) == taken.(pending := map[0 := CheckedRead(packet, 2)]);
  }

  /** Such a call exists: a read that checked just before the reservation still delivers after it. */
  lemma CheckedBeforeReserveDelivers(packet: Bytes, peer: Addr) returns (run: seq<Action>)
    requires PacketAddresses(packet).Some? && PacketAddresses(packet).value.destination == peer && IsPrivate(peer)
    ensures |run| == 5 && peer in Reach(run[..4]).peers
    ensures HandedOver(Reach(run[..4]), run[4]) == Some(CheckedRead(packet, 2))
  {
    hide Reach, Effect;
    run := [Dispatch(packet), Take(0, true), CheckRead(0), Reserve(peer), Return(0)];
    assert Reach([]) == IDLE_MUX by { ReachNothing(); }
    var taken := IDLE_MUX.(pending := map[0 := Taken(packet)], clock := 2);
    assert Reach(run[..2]) == taken by {
      assert run[..0] == [];
      ReachSteps(run, 1);
      ReachSteps(run, 2);
      QueuedAndTaken(packet);
    }
    assert Reach(run[..4]) == IDLE_MUX.(peers := map[peer := None], pending := map[0 := CheckedRead(packet, 2)], clock := 4) by {
      ReachSteps(run, 3);
      ReachSteps(run, 4);
      CheckedAndReserved(packet, peer);
    }
  }

  /** And so does a write that checked just before the reservation of its source. */
  lemma CheckedBeforeReservePasses(packet: Bytes, peer: Addr) returns (run: seq<Action>)
    requires PacketAddresses(packet).Some? && PacketAddresses(packet).value.source == peer && IsPrivate(peer)
    ensures |run| == 3 && peer in Reach(run[..2]).peers
    ensures HandedOver(Reach(run[..2]), run[2]) == Some(CheckedWrite(packet, 0))
  {
    run := [CheckWrite(0, packet), Reserve(peer), Pass(0)];
    assert run[..0] == [];
    ReachSteps(run, 1);
    ReachSteps(run, 2);
  }

  // ---------------------------------------------------------------- peer queues

  /** What an action puts into a queue, and what it reads from it. */
  function Put(m: Mux, a: Action, queue: nat): seq<Bytes> {
    if a.Dispatch? && QueueFor(m, a.packet) == Some(queue) then [a.packet] else []
  }

  function Got(m: Mux, a: Action, queue: nat): seq<Bytes> {
    if a == PeerRead(queue) && queue < |m.queues| && m.queues[queue].items != [] then [m.queues[queue].items[0]] else []
  }

  /** The packets put into a queue, in order. */
  function PutInto(run: seq<Action>, queue: nat): seq<Bytes> {
    if run == [] then [] else PutInto(run[..|run| - 1], queue) + Put(Reach(run[..|run| - 1]), run[|run| - 1], queue)
  }

  /** The packets read from a queue, in order. */
  function ReadFrom(run: seq<Action>, queue: nat): seq<Bytes> {
    if run == [] then [] else ReadFrom(run[..|run| - 1], queue) + Got(Reach(run[..|run| - 1]), run[|run| - 1], queue)
  }

  function ItemsOf(m: Mux, queue: nat): seq<Bytes> {
    if queue < |m.queues| then m.queues[queue].items else []
  }

  lemma DispatchIsFifo(m: Mux, packet: Bytes, queue: nat)
    ensures ItemsOf(m, queue) + Put(m, Dispatch(packet), queue) == ItemsOf(Dispatched(m, packet), queue)
  {
  }

  lemma PeerReadIsFifo(m: Mux, q: nat, queue: nat)
    ensures ItemsOf(m, queue) == Got(m, PeerRead(q), queue) + ItemsOf(ReadByPeer(m, q), queue)
  {
  }

  lemma StepIsFifo(m: Mux, a: Action, queue: nat)
    ensures ItemsOf(m, queue) + Put(m, a, queue) == Got(m, a, queue) + ItemsOf(Step(m, a), queue)
  {
    match a
    case Dispatch(packet) => DispatchIsFifo(m, packet, queue);
    case PeerRead(q) => PeerReadIsFifo(m, q, queue);
    case _ => assert ItemsOf(Step(m, a), queue) == ItemsOf(m, queue);
  }

  lemma Rearrange(all: seq<Bytes>, gone: seq<Bytes>, items: seq<Bytes>, put: seq<Bytes>, got: seq<Bytes>, left: seq<Bytes>)
    requires all == gone + items && items + put == got + left
    ensures all + put == gone + got + left
  {
    assert all + put == gone + (items + put);
  }

  /** A peer reads exactly the packets put into its queue, in their order; the rest is still in the queue. */
  lemma {:induction false} QueuesAreFifo(run: seq<Action>, queue: nat)
    ensures PutInto(run, queue) == ReadFrom(run, queue) + ItemsOf(Reach(run), queue)
  {
    if run != [] {
      var n := |run| - 1;
      QueuesAreFifo(run[..n], queue);
      StepIsFifo(Reach(run[..n]), run[n], queue);
      Rearrange(PutInto(run[..n], queue), ReadFrom(run[..n], queue), ItemsOf(Reach(run[..n]), queue),
                Put(Reach(run[..n]), run[n], queue), Got(Reach(run[..n]), run[n], queue), ItemsOf(Reach(run), queue));
    }
  }

  /** The queue after a packet for that queue's peer was dispatched: one longer, unless it was full. */
  predicate Appended(before: Queue, after: Queue, packet: Bytes) {
    after.peer == before.peer && after.items == if |before.items| < 128 then before.items + [packet] else before.items
  }

  /** A packet for a reserved address goes to the queue attached to it and nowhere else. */
  lemma PeerPacketGoesTo(m: Mux, packet: Bytes)
    requires PacketAddresses(packet).Some? && PacketAddresses(packet).value.destination in m.peers
    ensures var after, q := Step(m, Dispatch(packet)), m.peers[PacketAddresses(packet).value.destination];
            after == m.(queues := after.queues, clock := after.clock) && |after.queues| == |m.queues| &&
            (forall k :: 0 <= k < |m.queues| && q != Some(k) ==> after.queues[k] == m.queues[k]) &&
            (q.Some? && q.value < |m.queues| ==> Appended(m.queues[q.value], after.queues[q.value], packet))
  {
    hide PacketAddresses;
  }

  /** Any other packet goes to the gateway's queue, unless that is full. */
  lemma OtherPacketGoesToGateway(m: Mux, packet: Bytes)
    requires PacketAddresses(packet).None? || PacketAddresses(packet).value.destination !in m.peers
    ensures var after := Step(m, Dispatch(packet));
            after == m.(gateway := if |m.gateway| < 128 then m.gateway + [packet] else m.gateway, clock := after.clock)
  {
    hide PacketAddresses;
  }

  /** What an action puts into the gateway's queue, and what a read takes from it. */
  function GatewayPut(m: Mux, a: Action): seq<Bytes> {
    if a.Dispatch? && !ForPeer(m, a.packet) && |m.gateway| < QUEUE_SIZE then [a.packet] else []
  }

  function GatewayTaken(m: Mux, a: Action): seq<Bytes> {
    if a.Take? && m.gateway != [] && a.thread !in m.pending then [m.gateway[0]] else []
  }

  function PutIntoGateway(run: seq<Action>): seq<Bytes> {
    if run == [] then [] else PutIntoGateway(run[..|run| - 1]) + GatewayPut(Reach(run[..|run| - 1]), run[|run| - 1])
  }

  function TakenFromGateway(run: seq<Action>): seq<Bytes> {
    if run == [] then [] else TakenFromGateway(run[..|run| - 1]) + GatewayTaken(Reach(run[..|run| - 1]), run[|run| - 1])
  }

  lemma GatewayStepIsFifo(m: Mux, a: Action)
    ensures m.gateway + GatewayPut(m, a) == GatewayTaken(m, a) + Step(m, a).gateway
  {
    hide ForPeer, FromPeer, CanAttach, CanReserve;
  }

  /** Gateway reads take exactly the packets that were dispatched to the gateway, in their order; the rest is still queued. */
  lemma {:induction false} GatewayIsFifo(run: seq<Action>)
    ensures PutIntoGateway(run) == TakenFromGateway(run) + Reach(run).gateway
  {
    hide GatewayPut, GatewayTaken, Step;
    if run != [] {
      var n := |run| - 1;
      var m := Reach(run[..n]);
      GatewayIsFifo(run[..n]);
      GatewayStepIsFifo(m, run[n]);
      Rearrange(PutIntoGateway(run[..n]), TakenFromGateway(run[..n]), m.gateway, GatewayPut(m, run[n]), GatewayTaken(m, run[n]), Reach(run).gateway);
    }
  }

  ghost predicate Filed(m: Mux) {
    forall peer :: peer in m.peers && m.peers[peer].Some? ==>
      m.peers[peer].value < |m.queues| && m.queues[m.peers[peer].value].peer == peer
  }

  predicate SamePeers(m: Mux, n: Mux) {
    n.peers == m.peers && |n.queues| == |m.queues| && forall k :: 0 <= k < |m.queues| ==> n.queues[k].peer == m.queues[k].peer
  }

  lemma DispatchKeepsPeers(m: Mux, packet: Bytes)
    ensures SamePeers(m, Dispatched(m, packet))
  {
  }

  lemma PeerReadKeepsPeers(m: Mux, queue: nat)
    ensures SamePeers(m, ReadByPeer(m, queue))
  {
  }

  lemma OthersKeepPeers(m: Mux, a: Action)
    requires !a.Attach? && !a.ClosePeer? && !a.Reserve?
    ensures SamePeers(m, Step(m, a))
  {
    match a
    case Dispatch(packet) => DispatchKeepsPeers(m, packet);
    case PeerRead(queue) => PeerReadKeepsPeers(m, queue);
    case _ =>
  }

  lemma AttachKeepsFiled(m: Mux, peer: Addr, bound: Addr)
    requires Filed(m)
    ensures Filed(Attached(m, peer, bound))
  {
  }

  lemma DetachKeepsFiled(m: Mux, queue: nat)
    requires Filed(m)
    ensures Filed(Detached(m, queue))
  {
  }

  lemma ReserveKeepsFiled(m: Mux, peer: Addr)
    requires Filed(m)
    ensures Filed(Reserved(m, peer))
  {
  }

  lemma SameQueuesKeepFiled(m: Mux, n: Mux)
    requires Filed(m) && SamePeers(m, n)
    ensures Filed(n)
  {
  }

  lemma StepKeepsFiled(m: Mux, a: Action)
    requires Filed(m)
    ensures Filed(Step(m, a))
  {
    match a
    case Attach(peer, bound) => AttachKeepsFiled(m, peer, bound);
    case ClosePeer(queue) => DetachKeepsFiled(m, queue);
    case Reserve(peer) => ReserveKeepsFiled(m, peer);
    case _ =>
      OthersKeepPeers(m, a);
      SameQueuesKeepFiled(m, Step(m, a));
  }

  lemma {:induction false} QueuesAreFiled(run: seq<Action>)
    ensures Filed(Reach(run))
  {
    if run != [] {
      QueuesAreFiled(run[..|run| - 1]);
      StepKeepsFiled(Reach(run[..|run| - 1]), run[|run| - 1]);
    }
  }

  lemma StepKeepsPeer(m: Mux, a: Action, queue: nat)
    requires queue < |m.queues|
    ensures queue < |Step(m, a).queues| && Step(m, a).queues[queue].peer == m.queues[queue].peer
  {
    hide ForPeer, FromPeer, CanAttach;
  }

  /** A packet enters only the queue of its own destination. */
  lemma {:induction false} QueuedPacketsAreForThePeer(run: seq<Action>, queue: nat, packet: Bytes)
    requires packet in PutInto(run, queue)
    ensures queue < |Reach(run).queues| && PacketAddresses(packet).Some?
    ensures Reach(run).queues[queue].peer == PacketAddresses(packet).value.destination
  {
    var n := |run| - 1;
    if packet in PutInto(run[..n], queue) {
      QueuedPacketsAreForThePeer(run[..n], queue, packet);
    } else {
      QueuesAreFiled(run[..n]);
    }
    StepKeepsPeer(Reach(run[..n]), run[n], queue);
  }

  /** No address is attached to the queue. */
  ghost predicate Off(m: Mux, queue: nat) {
    queue < |m.queues| && forall peer :: peer in m.peers ==> m.peers[peer] != Some(queue)
  }

  lemma ClosingDetaches(m: Mux, queue: nat)
    requires Filed(m) && queue < |m.queues|
    ensures Off(Step(m, ClosePeer(queue)), queue)
  {
  }

  lemma ClosingPutsNothing(m: Mux, queue: nat)
    ensures Put(m, ClosePeer(queue), queue) == []
  {
  }

  lemma StaysOff(m: Mux, a: Action, queue: nat)
    requires Off(m, queue)
    ensures Off(Step(m, a), queue) && Put(m, a, queue) == []
  {
    hide PacketAddresses, CanReserve, CanAttach, FromPeer;
  }

  /** Once a peer's queue is closed nothing is put into it again, also when the address is attached anew. */
  lemma {:induction false} ClosedGetsNothing(run: seq<Action>, i: nat, queue: nat)
    requires i < |run| && run[i] == ClosePeer(queue) && queue < |Reach(run[..i]).queues|
    ensures Off(Reach(run), queue) && PutInto(run, queue) == PutInto(run[..i], queue)
  {
    hide Step, Off, Put;
    var n := |run| - 1;
    if i == n {
      QueuesAreFiled(run[..n]);
      ClosingDetaches(Reach(run[..n]), queue);
      ClosingPutsNothing(Reach(run[..n]), queue);
    } else {
      assert run[..n][..i] == run[..i];
      ClosedGetsNothing(run[..n], i, queue);
      StaysOff(Reach(run[..n]), run[n], queue);
    }
  }

  // ---------------------------------------------------------------- the object

  function DispatchedAll(m: Mux, packets: seq<Bytes>): Mux {
    if packets == [] then m else Dispatched(DispatchedAll(m, packets[..|packets| - 1]), packets[|packets| - 1])
  }

  /** The first queued packet the gateway may have, and the queue after it; packets for peers before it are dropped. */
  function NextForGateway(m: Mux, queued: seq<Bytes>): (seq<Bytes>, Option<Bytes>) {
    if queued == [] then ([], None)
    else if ForPeer(m, queued[0]) then NextForGateway(m, queued[1..])
    else (queued[1..], Some(queued[0]))
  }

  /** What a gateway read takes is the first queued packet that is not for a peer; those before it are dropped, those behind it stay. */
  lemma {:induction false} NextIsFirst(m: Mux, queued: seq<Bytes>)
    ensures var (left, packet) := NextForGateway(m, queued);
            if packet.None? then left == [] && forall i :: 0 <= i < |queued| ==> ForPeer(m, queued[i])
            else |left| < |queued| &&
                 var at := |queued| - 1 - |left|;
                 packet == Some(queued[at]) && left == queued[at + 1..] && !ForPeer(m, queued[at]) &&
                 forall i :: 0 <= i < at ==> ForPeer(m, queued[i])
  {
    if queued != [] && ForPeer(m, queued[0]) {
      NextIsFirst(m, queued[1..]);
      var (left, packet) := NextForGateway(m, queued[1..]);
      assert forall i :: 1 <= i < |queued| ==> queued[i] == queued[1..][i - 1];
      if packet.Some? {
        var at := |queued| - 1 - |left|;
        assert queued[1..][at..] == queued[at + 1..];
      }
    }
  }

  function NotFromPeers(m: Mux, packets: seq<Bytes>): (r: seq<Bytes>)
    ensures forall p :: p in r <==> p in packets && !FromPeer(m, p)
  {
    if packets == [] then []
    else
      var n := |packets| - 1;
      assert packets == packets[..n] + [packets[n]];
      NotFromPeers(m, packets[..n]) + if FromPeer(m, packets[n]) then [] else [packets[n]]
  }

  /** The positions name, in increasing order, exactly the packets that are not from a peer, and those are the ones passed. */
  ghost predicate PassedInOrder(m: Mux, packets: seq<Bytes>, passed: seq<Bytes>, at: seq<nat>) {
    |at| == |passed| && (forall j, k :: 0 <= j < k < |at| ==> at[j] < at[k]) &&
    (forall k :: 0 <= k < |at| ==> at[k] < |packets| && passed[k] == packets[at[k]]) &&
    forall i: nat :: i < |packets| ==> (i in at <==> !FromPeer(m, packets[i]))
  }

  lemma OneMoreDropped(m: Mux, packets: seq<Bytes>, passed: seq<Bytes>, at: seq<nat>)
    requires packets != [] && PassedInOrder(m, packets[..|packets| - 1], passed, at) && FromPeer(m, packets[|packets| - 1])
    ensures PassedInOrder(m, packets, passed, at)
  {
    hide FromPeer;
    var n := |packets| - 1;
    assert forall i: nat :: i < n ==> packets[..n][i] == packets[i];
    assert n !in at;
  }

  lemma OneMorePassed(m: Mux, packets: seq<Bytes>, passed: seq<Bytes>, at: seq<nat>)
    requires packets != [] && PassedInOrder(m, packets[..|packets| - 1], passed, at) && !FromPeer(m, packets[|packets| - 1])
    ensures PassedInOrder(m, packets, passed + [packets[|packets| - 1]], at + [|packets| - 1])
  {
    hide FromPeer;
    var n := |packets| - 1;
    assert forall i: nat :: i < n ==> packets[..n][i] == packets[i];
    assert forall i: nat :: i in at + [n] <==> i in at || i == n;
  }

  lemma {:induction false} NotFromPeersInOrder(m: Mux, packets: seq<Bytes>) returns (at: seq<nat>)
    ensures PassedInOrder(m, packets, NotFromPeers(m, packets), at)
  {
    if packets == [] {
      at := [];
    } else {
      var n := |packets| - 1;
      var rest := NotFromPeersInOrder(m, packets[..n]);
      var passed := NotFromPeers(m, packets[..n]);
      if FromPeer(m, packets[n]) {
        OneMoreDropped(m, packets, passed, rest);
        at := rest;
        assert passed + [] == passed;
      } else {
        OneMorePassed(m, packets, passed, rest);
        at := rest + [n];
      }
    }
  }

  class Adapter {
    var peers: map<Addr, Option<nat>>
    var queues: seq<Queue>
    var gateway: seq<Bytes>
    var closed: bool

    /** The adapter with no gateway call in progress. */
    ghost function Value(): Mux
      reads this
    {
      Mux(peers, queues, gateway, map[], closed, 0)
    }

    constructor ()
      ensures Value() == IDLE_MUX
    {
      peers, queues, gateway, closed := map[], [], [], false;
    }

    method ReservePeer(peer: Addr) returns (ok: bool)
      modifies this
      ensures Value() == Reserved(old(Value()), peer) && ok == CanReserve(old(Value()), peer)
      ensures ok ==> peer in peers
    {
      if closed || !IsPrivate(peer) {
        return false;
      }
      if peer !in peers {
        if |peers| >= MAX_PEERS {
          return false;
        }
        peers := peers[peer := None];
      }
      ok := true;
    }

    method AttachPeer(peer: Addr, bound: Addr) returns (queue: Option<nat>)
      modifies this
      ensures Value() == if CanReserve(old(Value()), peer) then Attached(Reserved(old(Value()), peer), peer, bound) else old(Value())
      ensures queue.Some? ==> queue.value < |queues| && queues[queue.value] == Queue(peer, []) && Lookup(peers, peer) == Some(queue)
    {
      var ok := ReservePeer(peer);
      if !ok || peers[peer].Some? || bound != peer {
        return None;
      }
      queue := Some(|queues|);
      peers := peers[peer := queue];
      queues := queues + [Queue(peer, [])];
    }

    method ClosePeerQueue(queue: nat)
      modifies this
      ensures Value() == Detached(old(Value()), queue) && peers.Keys == old(peers.Keys)
    {
      if queue < |queues| && queues[queue].peer in peers && peers[queues[queue].peer] == Some(queue) {
        peers := peers[queues[queue].peer := None];
      }
    }

    /** One batch from the adapter, packet by packet. */
    method DispatchBatch(packets: seq<Bytes>)
      requires Filed(Value())
      modifies this
      ensures Filed(Value()) && Value() == DispatchedAll(old(Value()), packets)
    {
      for n := 0 to |packets|
        invariant Filed(Value()) && Value() == DispatchedAll(old(Value()), packets[..n])
      {
        assert packets[..n + 1][..n] == packets[..n];
        DispatchOne(packets[n]);
      }
      assert packets[..|packets|] == packets;
    }

    method DispatchOne(packet: Bytes)
      requires Filed(Value())
      modifies this
      ensures Filed(Value()) && Value() == Dispatched(old(Value()), packet)
    {
      var e := PacketAddresses(packet);
      if e.Some? && e.value.destination in peers {
        var q := peers[e.value.destination];
        if q.Some? {
          var items := queues[q.value].items;
          if |items| < QUEUE_SIZE {
            queues := queues[q.value := queues[q.value].(items := items + [packet])];
          }
        }
      } else if |gateway| < QUEUE_SIZE {
        gateway := gateway + [packet];
      }
    }

    method ReadGateway() returns (packet: Option<Bytes>)
      modifies this`gateway
      ensures (gateway, packet) == NextForGateway(old(Value()), old(gateway))
      ensures packet.Some? ==> !ForPeer(Value(), packet.value)
    {
      while gateway != []
        invariant NextForGateway(old(Value()), gateway) == NextForGateway(old(Value()), old(gateway))
        decreases |gateway|
      {
        var p := gateway[0];
        gateway := gateway[1..];
        var e := PacketAddresses(p);
        if e.None? || e.value.destination !in peers {
          return Some(p);
        }
      }
      packet := None;
    }

    method WriteGateway(packets: seq<Bytes>) returns (passed: seq<Bytes>)
      ensures passed == NotFromPeers(Value(), packets)
      ensures exists at :: PassedInOrder(Value(), packets, passed, at)
    {
      passed := [];
      for n := 0 to |packets|
        invariant passed == NotFromPeers(Value(), packets[..n])
      {
        assert packets[..n + 1][..n] == packets[..n];
        var e := PacketAddresses(packets[n]);
        if e.None? || e.value.source !in peers {
          passed := passed + [packets[n]];
        }
      }
      assert packets[..|packets|] == packets;
      ghost var at := NotFromPeersInOrder(Value(), packets);
    }
  }
}
