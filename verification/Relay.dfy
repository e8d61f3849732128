/**
 The relay between two Devices. A room holds the ticket of its first Device;
 each side joins once; packets go to the other side while the ticket is live
 and not revoked. Handlers keep their room after it has left the table, so rooms
 stay in an arena and the table holds their positions.
 */
module Relay {
  import opened Basics
  import opened PolicyStore

  const MAX_ROOMS := 64
  const MAX_TOMBSTONES := 4096

  datatype Side = Initiator | Host

  function Other(side: Side): Side {
    if side == Initiator then Host else Initiator
  }

  /** A verified ticket; the deadline is on the monotonic clock. */
  datatype Lease = Lease(grant: Grant, ticket: Bytes, deadline: int)

  /** An authenticated connection: which Device connection, with which ticket. */
  datatype Peer = Peer(conn: nat, ticket: Bytes)

  datatype Room = Room(lease: Lease, hash: string, peers: map<Side, Peer>, joined: set<Side>, revoked: bool)

  datatype RelayState = RelayState(rooms: seq<Room>, table: map<string, nat>, denied: map<string, int>, denyUntil: Option<int>)

  const EMPTY_RELAY := RelayState([], map[], map[], None)

  predicate Live(l: Lease, now: Time) {
    l.grant.issuedAt <= Unix(now) < l.grant.expiresAt && now.mono < l.deadline
  }

  ghost predicate Valid(s: RelayState) {
    |s.denied| <= MAX_TOMBSTONES &&
    forall id :: id in s.table ==> s.table[id] < |s.rooms| && s.rooms[s.table[id]].lease.grant.sessionId == id
  }

  function Verified(trust: Trust, minRevision: nat, ticket: Bytes, now: Time): Option<Lease> {
    var g := VerifyGrant(trust, ticket, now);
    if g.None? || g.value.revision < minRevision then None
    else Some(Lease(g.value, ticket, Deadline(g.value.expiresAt, now)))
  }

  // ---------------------------------------------------------------- revocation

  function Standing(denied: map<string, int>, now: Time): map<string, int> {
    map id | id in denied && now.mono < denied[id] :: denied[id]
  }

  /** A tombstone for the identifier or, when there is no room for one, a ban on every admission. */
  function Revoke(s: RelayState, id: string, now: Time): RelayState
    requires Valid(s)
  {
    var until := now.mono + MAX_LEASE * SECOND;
    var standing := Standing(s.denied, now);
    var marked := if id in s.table then s.rooms[s.table[id] := s.rooms[s.table[id]].(revoked := true)] else s.rooms;
    if |standing| < MAX_TOMBSTONES then s.(rooms := marked, denied := standing[id := until])
    else s.(rooms := marked, denied := standing, denyUntil := Some(until))
  }

  // ---------------------------------------------------------------- admission

  predicate Banned(s: RelayState, id: string, now: Time) {
    (s.denyUntil.Some? && now.mono < s.denyUntil.value) || (id in s.denied && now.mono < s.denied[id])
  }

  function LiveTable(s: RelayState, now: Time): map<string, nat>
    requires Valid(s)
  {
    map id | id in s.table && Live(s.rooms[s.table[id]].lease, now) :: s.table[id]
  }

  /** The state with a room for the lease, and that room, if there is space. */
  function Find(trust: Trust, s: RelayState, lease: Lease, now: Time): (r: (RelayState, Option<nat>))
    requires Valid(s)
    ensures Valid(r.0) && (r.1.Some? ==> r.1.value < |r.0.rooms|)
  {
    var id := lease.grant.sessionId;
    var table := LiveTable(s, now);
    if id in table then (s.(table := table), Some(table[id]))
    else if |table| >= MAX_ROOMS then (s.(table := table), None)
    else
      (s.(rooms := s.rooms + [Room(lease, trust.hash(lease.ticket), map[], {}, false)], table := table[id := |s.rooms|]),
       Some(|s.rooms|))
  }

  predicate MayJoin(trust: Trust, room: Room, lease: Lease, side: Side) {
    room.hash == trust.hash(lease.ticket) && !room.revoked && side !in room.joined
  }

  function Join(room: Room, side: Side, peer: Peer): Room {
    room.(peers := room.peers[side := peer], joined := room.joined + {side})
  }

  function JoinAt(s: RelayState, k: nat, side: Side, peer: Peer): (r: RelayState)
    requires Valid(s) && k < |s.rooms|
    ensures Valid(r)
  {
    s.(rooms := s.rooms[k := Join(s.rooms[k], side, peer)])
  }

  function Attach(trust: Trust, s: RelayState, lease: Lease, side: Side, conn: nat, now: Time): (r: (RelayState, Option<nat>))
    requires Valid(s)
    ensures Valid(r.0) && (r.1.Some? ==> r.1.value < |r.0.rooms|)
  {
    if Banned(s, lease.grant.sessionId, now) then (s, None)
    else
      var (found, k) := Find(trust, s, lease, now);
      if k.None? || !MayJoin(trust, found.rooms[k.value], lease, side) then (found, None)
      else (JoinAt(found, k.value, side, Peer(conn, lease.ticket)), k)
  }

  /** Where a packet from one side of a room goes, if it goes anywhere. */
  function Target(s: RelayState, room: nat, side: Side, now: Time): Option<Peer>
    requires room < |s.rooms|
  {
    var r := s.rooms[room];
    if r.revoked || !Live(r.lease, now) then None else Lookup(r.peers, Other(side))
  }

  // ---------------------------------------------------------------- the object

  class Server {
    const trust: Trust
    var rooms: seq<Room>
    var table: map<string, nat>
    var denied: map<string, int>
    var denyUntil: Option<int>

    ghost function Value(): RelayState
      reads this
    {
      RelayState(rooms, table, denied, denyUntil)
    }

    constructor (trust: Trust)
      ensures this.trust == trust && Value() == EMPTY_RELAY
    {
      this.trust, rooms, table, denied, denyUntil := trust, [], map[], map[], None;
    }

    method DropExpiredTombstones(now: Time)
      modifies this`denied
      ensures denied == Standing(old(denied), now) && |denied| <= |old(denied)|
    {
      var pending := denied.Keys;
      var start := denied;
      while pending != {}
        invariant pending <= start.Keys && denied.Keys <= start.Keys
        invariant denied == map id | id in start && (id in pending || now.mono < start[id]) :: start[id]
        decreases pending
      {
        var id :| id in pending;
        if now.mono >= start[id] {
          denied := denied - {id};
        }
        pending := pending - {id};
      }
      SmallerKeys(denied, start);
    }

    method RevokeSession(id: string, now: Time)
      requires Valid(Value())
      modifies this
      ensures Valid(Value()) && Value() == Revoke(old(Value()), id, now)
    {
      DropExpiredTombstones(now);
      if |denied| < MAX_TOMBSTONES {
        OneMoreKey(denied, id, now.mono + MAX_LEASE * SECOND);
        denied := denied[id := now.mono + MAX_LEASE * SECOND];
      } else {
        denyUntil := Some(now.mono + MAX_LEASE * SECOND);
      }
      if id in table {
        rooms := rooms[table[id] := rooms[table[id]].(revoked := true)];
      }
    }

    method DropDeadRooms(now: Time)
      requires Valid(Value())
      modifies this`table
      ensures Valid(Value()) && table == LiveTable(old(Value()), now)
    {
      var pending := table.Keys;
      var start := table;
      while pending != {}
        invariant pending <= start.Keys && forall id :: id in start ==> start[id] < |rooms|
        invariant table == map id | id in start && (id in pending || Live(rooms[start[id]].lease, now)) :: start[id]
        decreases pending
      {
        var id :| id in pending;
        if !Live(rooms[start[id]].lease, now) {
          table := table - {id};
        }
        pending := pending - {id};
      }
    }

    method FindRoom(lease: Lease, now: Time) returns (room: Option<nat>)
      requires Valid(Value())
      modifies this
      ensures Valid(Value()) && (Value(), room) == Find(trust, old(Value()), lease, now)
    {
      var id := lease.grant.sessionId;
      DropDeadRooms(now);
      if id in table {
        return Some(table[id]);
      }
      if |table| >= MAX_ROOMS {
        return None;
      }
      room := Some(|rooms|);
      table := table[id := |rooms|];
      rooms := rooms + [Room(lease, trust.hash(lease.ticket), map[], {}, false)];
    }

    method AttachPeer(lease: Lease, side: Side, conn: nat, now: Time) returns (room: Option<nat>)
      requires Valid(Value())
      modifies this
      ensures Valid(Value()) && (Value(), room) == Attach(trust, old(Value()), lease, side, conn, now)
    {
      var id := lease.grant.sessionId;
      if (denyUntil.Some? && now.mono < denyUntil.value) || (id in denied && now.mono < denied[id]) {
        return None;
      }
      room := FindRoom(lease, now);
      if room.None? || !MayJoin(trust, rooms[room.value], lease, side) {
        return None;
      }
      ghost var found := Value();
      rooms := rooms[room.value := Join(rooms[room.value], side, Peer(conn, lease.ticket))];
      assert Value() == JoinAt(found, room.value, side, Peer(conn, lease.ticket));
    }
  }
}
