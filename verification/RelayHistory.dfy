/**
 The relay over every interleaving of admissions and revocations. What needs no
 clock is stated for arbitrary times; the rest says which clocks it is about.
 */
module RelayHistory {
  import opened Basics
  import opened Ipv4
  import opened PolicyStore
  import opened Relay

  /** An admission attempt of a ticket that was verified at an earlier moment, or a revocation. */
  datatype Event = AttachEvent(ticket: Bytes, verifiedAt: Time, side: Side, conn: nat) | RevokeEvent(id: string)

  datatype Step = Step(event: Event, at: Time)

  /** From one moment to the other neither clock has gone back. */
  predicate NotBack(a: Time, b: Time) {
    a.mono <= b.mono && a.wall <= b.wall
  }

  /** The wall clock has not lost time against the monotonic clock. */
  predicate Steady(a: Time, b: Time) {
    0 <= b.mono - a.mono <= b.wall - a.wall
  }

  datatype World = World(trust: Trust, minRevision: nat)

  /** Different tickets have different hashes. */
  ghost predicate Injective(w: World) {
    forall a, b :: w.trust.hash(a) == w.trust.hash(b) ==> a == b
  }

  function LeaseOf(w: World, e: Event): Option<Lease> {
    if e.AttachEvent? then Verified(w.trust, w.minRevision, e.ticket, e.verifiedAt) else None
  }

  lemma RevokeKeepsValid(s: RelayState, id: string, now: Time)
    requires Valid(s)
    ensures Valid(Revoke(s, id, now))
  {
    SmallerKeys(Standing(s.denied, now), s.denied);
    OneMoreKey(Standing(s.denied, now), id, now.mono + MAX_LEASE * SECOND);
  }

  function After(w: World, s: RelayState, step: Step): (r: RelayState)
    requires Valid(s)
    ensures Valid(r)
  {
    match step.event
    case RevokeEvent(id) => RevokeKeepsValid(s, id, step.at); Revoke(s, id, step.at)
    case AttachEvent(_, _, side, conn) =>
      var lease := LeaseOf(w, step.event);
      if lease.None? then s else Attach(w.trust, s, lease.value, side, conn, step.at).0
  }

  function Reach(w: World, run: seq<Step>): (r: RelayState)
    ensures Valid(r)
  {
    if run == [] then EMPTY_RELAY else After(w, Reach(w, run[..|run| - 1]), run[|run| - 1])
  }

  /** The monotonic clock does not go back; the wall clock may read anything. */
  ghost predicate Ticking(run: seq<Step>, now: Time) {
    (forall i, j :: 0 <= i < j < |run| ==> run[i].at.mono <= run[j].at.mono) &&
    forall i :: 0 <= i < |run| ==> run[i].at.mono <= now.mono
  }

  /** Every step, and the verification behind it, lies on clocks that do not go back. */
  ghost predicate Legal(run: seq<Step>, now: Time) {
    (forall i, j :: 0 <= i < j < |run| ==> NotBack(run[i].at, run[j].at)) &&
    (forall i :: 0 <= i < |run| ==> NotBack(run[i].at, now)) &&
    forall i :: 0 <= i < |run| && run[i].event.AttachEvent? ==> NotBack(run[i].event.verifiedAt, run[i].at)
  }

  lemma ReachSteps(w: World, run: seq<Step>, n: nat)
    requires 0 < n <= |run|
    ensures Reach(w, run[..n]) == After(w, Reach(w, run[..n - 1]), run[n - 1])
  {
    assert run[..n][..n - 1] == run[..n - 1];
  }

  // ---------------------------------------------------------------- what one step does to the rooms

  function NewRoom(w: World, lease: Lease): Room {
    Room(lease, w.trust.hash(lease.ticket), map[], {}, false)
  }

  /** What finding a room does to the rooms already there: nothing. */
  lemma FindAppends(w: World, s: RelayState, lease: Lease, now: Time)
    requires Valid(s)
    ensures var (found, k) := Find(w.trust, s, lease, now);
            s.rooms <= found.rooms && |found.rooms| <= |s.rooms| + 1 &&
            (|found.rooms| > |s.rooms| ==> found.rooms[|s.rooms|] == NewRoom(w, lease) && k == Some(|s.rooms|))
  {
  }

  /** What an admission attempt does to the rooms: at most one new room, at most one new peer. */
  lemma AttachChanges(w: World, s: RelayState, lease: Lease, side: Side, conn: nat, now: Time, k: nat)
    requires Valid(s) && k < |Attach(w.trust, s, lease, side, conn, now).0.rooms|
    ensures var (t, room) := Attach(w.trust, s, lease, side, conn, now);
            var before := if k < |s.rooms| then s.rooms[k] else NewRoom(w, lease);
            (t.rooms[k] == before ||
             (room == Some(k) && MayJoin(w.trust, before, lease, side) && t.rooms[k] == Join(before, side, Peer(conn, lease.ticket)))) &&
            (k >= |s.rooms| ==> !Banned(s, lease.grant.sessionId, now))
  {
    FindAppends(w, s, lease, now);
  }

  lemma AttachAppends(w: World, s: RelayState, lease: Lease, side: Side, conn: nat, now: Time)
    requires Valid(s)
    ensures |s.rooms| <= |Attach(w.trust, s, lease, side, conn, now).0.rooms| <= |s.rooms| + 1
  {
    hide Find, MayJoin, Join;
    FindAppends(w, s, lease, now);
  }

  lemma LeaseStaysOnce(w: World, s: RelayState, step: Step, k: nat)
    requires Valid(s) && k < |s.rooms|
    ensures k < |After(w, s, step).rooms| && After(w, s, step).rooms[k].lease == s.rooms[k].lease
    ensures s.rooms[k].revoked ==> After(w, s, step).rooms[k].revoked
  {
    hide Attach;
    if LeaseOf(w, step.event).Some? {
      var lease := LeaseOf(w, step.event).value;
      AttachAppends(w, s, lease, step.event.side, step.event.conn, step.at);
      AttachChanges(w, s, lease, step.event.side, step.event.conn, step.at, k);
    }
  }

  lemma {:induction false} LeaseStays(w: World, run: seq<Step>, i: nat, k: nat)
    requires i <= |run| && k < |Reach(w, run[..i]).rooms|
    ensures k < |Reach(w, run).rooms| && Reach(w, run).rooms[k].lease == Reach(w, run[..i]).rooms[k].lease
  {
    hide After;
    if i < |run| {
      var n := |run| - 1;
      assert run[..n][..i] == run[..i];
      LeaseStays(w, run[..n], i, k);
      LeaseStaysOnce(w, Reach(w, run[..n]), run[n], k);
    } else {
      assert run[..i] == run;
    }
  }

  // ---------------------------------------------------------------- what every state keeps, on any clocks

  /** An admission attempt of the run verified this lease. */
  ghost predicate From(w: World, run: seq<Step>, lease: Lease) {
    exists i: nat :: i < |run| && LeaseOf(w, run[i].event) == Some(lease)
  }

  /** The i-th step is an admission attempt that got to the rooms and found the lease of this one not live. */
  predicate FindsDead(w: World, run: seq<Step>, i: nat, k: nat) {
    i < |run| && LeaseOf(w, run[i].event).Some? &&
    var s := Reach(w, run[..i]);
    !Banned(s, LeaseOf(w, run[i].event).value.grant.sessionId, run[i].at) && k < |s.rooms| && !Live(s.rooms[k].lease, run[i].at)
  }

  ghost predicate FoundDead(w: World, run: seq<Step>, k: nat) {
    exists i: nat :: FindsDead(w, run, i, k)
  }

  /** A room is in the table under its own identifier, or an admission attempt found it dead. */
  ghost predicate Placed(w: World, run: seq<Step>, k: nat)
    requires k < |Reach(w, run).rooms|
  {
    var s := Reach(w, run);
    var id := s.rooms[k].lease.grant.sessionId;
    (id in s.table && s.table[id] == k) || FoundDead(w, run, k)
  }

  predicate RoomSound(w: World, r: Room) {
    r.hash == w.trust.hash(r.lease.ticket) && w.trust.openGrant(r.lease.ticket) == Some(r.lease.grant) &&
    r.peers.Keys == r.joined && forall side :: side in r.peers ==> w.trust.hash(r.peers[side].ticket) == r.hash
  }

  ghost predicate Sound(w: World, run: seq<Step>) {
    forall k :: 0 <= k < |Reach(w, run).rooms| ==>
      From(w, run, Reach(w, run).rooms[k].lease) && Placed(w, run, k) && RoomSound(w, Reach(w, run).rooms[k])
  }

  lemma FromGrows(w: World, run: seq<Step>, n: nat, lease: Lease)
    requires n <= |run| && From(w, run[..n], lease)
    ensures From(w, run, lease)
  {
    var i: nat :| i < n && LeaseOf(w, run[..n][i].event) == Some(lease);
    assert LeaseOf(w, run[i].event) == Some(lease);
  }

  lemma FoundDeadGrows(w: World, run: seq<Step>, n: nat, k: nat)
    requires n <= |run| && FoundDead(w, run[..n], k)
    ensures FoundDead(w, run, k)
  {
    var i: nat :| FindsDead(w, run[..n], i, k);
    assert run[..n][..i] == run[..i];
    assert FindsDead(w, run, i, k);
  }

  /** A room leaves the table only when it is found dead. */
  lemma FindKeepsTabled(w: World, s: RelayState, lease: Lease, now: Time, k: nat)
    requires Valid(s) && k < |s.rooms| && Live(s.rooms[k].lease, now)
    requires var id := s.rooms[k].lease.grant.sessionId; id in s.table && s.table[id] == k
    ensures var t, id := Find(w.trust, s, lease, now).0, s.rooms[k].lease.grant.sessionId;
            id in t.table && t.table[id] == k
  {
  }

  lemma StepKeepsPlaced(w: World, run: seq<Step>, k: nat)
    requires run != [] && k < |Reach(w, run[..|run| - 1]).rooms| && Placed(w, run[..|run| - 1], k)
    ensures k < |Reach(w, run).rooms| && Placed(w, run, k)
  {
    var n := |run| - 1;
    var s := Reach(w, run[..n]);
    LeaseStaysOnce(w, s, run[n], k);
    if FoundDead(w, run[..n], k) {
      FoundDeadGrows(w, run, n, k);
    } else if LeaseOf(w, run[n].event).Some? {
      if Live(s.rooms[k].lease, run[n].at) {
        FindKeepsTabled(w, s, LeaseOf(w, run[n].event).value, run[n].at, k);
      } else if !Banned(s, LeaseOf(w, run[n].event).value.grant.sessionId, run[n].at) {
        assert FindsDead(w, run, n, k);
      }
    }
  }

  lemma JoinKeepsRoomSound(w: World, r: Room, side: Side, peer: Peer)
    requires RoomSound(w, r) && w.trust.hash(peer.ticket) == r.hash
    ensures RoomSound(w, Join(r, side, peer))
  {
  }

  lemma StepKeepsRoomSound(w: World, s: RelayState, step: Step, k: nat)
    requires Valid(s) && k < |After(w, s, step).rooms| && (k < |s.rooms| ==> RoomSound(w, s.rooms[k]))
    ensures RoomSound(w, After(w, s, step).rooms[k])
  {
    hide Attach;
    if LeaseOf(w, step.event).Some? {
      var lease := LeaseOf(w, step.event).value;
      AttachChanges(w, s, lease, step.event.side, step.event.conn, step.at, k);
      var before := if k < |s.rooms| then s.rooms[k] else NewRoom(w, lease);
      if After(w, s, step).rooms[k] != before {
        JoinKeepsRoomSound(w, before, step.event.side, Peer(step.event.conn, lease.ticket));
      }
    }
  }

  lemma FindTablesNewRoom(w: World, s: RelayState, lease: Lease, now: Time)
    requires Valid(s)
    ensures var t := Find(w.trust, s, lease, now).0;
            |t.rooms| > |s.rooms| ==> lease.grant.sessionId in t.table && t.table[lease.grant.sessionId] == |s.rooms|
  {
  }

  lemma AttachTablesNewRoom(w: World, s: RelayState, lease: Lease, side: Side, conn: nat, now: Time)
    requires Valid(s)
    ensures var t := Attach(w.trust, s, lease, side, conn, now).0;
            |t.rooms| > |s.rooms| ==> lease.grant.sessionId in t.table && t.table[lease.grant.sessionId] == |s.rooms|
  {
    hide Find, MayJoin, Join;
    FindTablesNewRoom(w, s, lease, now);
  }

  /** A new room has the lease of the attempt that made it, which no tombstone banned, and is in the table. */
  lemma NewRoomIsPlaced(w: World, s: RelayState, step: Step, k: nat)
    requires Valid(s) && |s.rooms| <= k < |After(w, s, step).rooms|
    ensures LeaseOf(w, step.event) == Some(After(w, s, step).rooms[k].lease)
    ensures var t := After(w, s, step);
            var id := t.rooms[k].lease.grant.sessionId;
            id in t.table && t.table[id] == k && !Banned(s, id, step.at)
  {
    hide Attach;
    if LeaseOf(w, step.event).Some? {
      var lease := LeaseOf(w, step.event).value;
      AttachAppends(w, s, lease, step.event.side, step.event.conn, step.at);
      AttachTablesNewRoom(w, s, lease, step.event.side, step.event.conn, step.at);
      AttachChanges(w, s, lease, step.event.side, step.event.conn, step.at, k);
    }
  }

  lemma {:induction false} EveryRunIsSound(w: World, run: seq<Step>)
    ensures Sound(w, run)
  {
    hide After;
    if run != [] {
      var n := |run| - 1;
      var s := Reach(w, run[..n]);
      EveryRunIsSound(w, run[..n]);
      forall k | 0 <= k < |Reach(w, run).rooms|
        ensures From(w, run, Reach(w, run).rooms[k].lease) && Placed(w, run, k) && RoomSound(w, Reach(w, run).rooms[k])
      {
        StepKeepsRoomSound(w, s, run[n], k);
        if k < |s.rooms| {
          LeaseStaysOnce(w, s, run[n], k);
          FromGrows(w, run, n, s.rooms[k].lease);
          StepKeepsPlaced(w, run, k);
        } else {
          NewRoomIsPlaced(w, s, run[n], k);
        }
      }
    }
  }

  /** A ticket of this relay's cluster, no older than its revision floor, between two Devices of one user with private addresses, within its minute. */
  predicate Genuine(w: World, g: Grant, at: Time) {
    g.clusterId == w.trust.clusterId && w.minRevision <= g.revision && 0 < g.revision &&
    0 < g.issuedAt <= Unix(at) < g.expiresAt <= g.issuedAt + 60 &&
    g.first.deviceId != g.second.deviceId && g.first.userId == g.second.userId && g.first.address != g.second.address &&
    IsPrivate(g.first.address) && IsPrivate(g.second.address)
  }

  /** Every room's ticket was genuine when it was verified, and lives until it ends by the clocks of that moment. */
  lemma RoomsAreGenuine(w: World, run: seq<Step>, k: nat) returns (i: nat)
    requires k < |Reach(w, run).rooms|
    ensures var l := Reach(w, run).rooms[k].lease;
            i < |run| && run[i].event.AttachEvent? && run[i].event.ticket == l.ticket && Genuine(w, l.grant, run[i].event.verifiedAt)
    ensures forall now :: Live(Reach(w, run).rooms[k].lease, now) <==>
      var g, verified := Reach(w, run).rooms[k].lease.grant, run[i].event.verifiedAt;
      g.issuedAt <= Unix(now) < g.expiresAt && now.mono - verified.mono < g.expiresAt * SECOND - verified.wall
  {
    hide Reach;
    EveryRunIsSound(w, run);
    assert From(w, run, Reach(w, run).rooms[k].lease);
    i :| i < |run| && LeaseOf(w, run[i].event) == Some(Reach(w, run).rooms[k].lease);
  }

  lemma StepKeepsTableSmall(w: World, s: RelayState, step: Step)
    requires Valid(s) && |s.table| <= 64
    ensures |After(w, s, step).table| <= 64
  {
    if LeaseOf(w, step.event).Some? {
      var lease := LeaseOf(w, step.event).value;
      SmallerKeys(LiveTable(s, step.at), s.table);
      OneMoreKey(LiveTable(s, step.at), lease.grant.sessionId, |s.rooms|);
    }
  }

  /** Over every run at most 64 rooms are in the table and at most 4096 tombstones are kept. */
  lemma {:induction false} RelayIsBounded(w: World, run: seq<Step>)
    ensures |Reach(w, run).table| <= 64 && |Reach(w, run).denied| <= 4096
  {
    hide After;
    if run != [] {
      RelayIsBounded(w, run[..|run| - 1]);
      StepKeepsTableSmall(w, Reach(w, run[..|run| - 1]), run[|run| - 1]);
    }
  }

  // ---------------------------------------------------------------- dead leases

  predicate Expired(l: Lease, now: Time) {
    l.grant.expiresAt <= Unix(now)
  }

  lemma UnixIsMonotone(a: Time, b: Time)
    requires a.wall <= b.wall
    ensures Unix(a) <= Unix(b)
  {
  }

  /** While the wall clock has lost no time since its verification, a lease that is no longer live has expired. */
  lemma DeadMeansExpired(w: World, e: Event, now: Time)
    requires LeaseOf(w, e).Some? && Steady(e.verifiedAt, now)
    ensures !Live(LeaseOf(w, e).value, now) <==> Expired(LeaseOf(w, e).value, now)
  {
    var l := LeaseOf(w, e).value;
    UnixIsMonotone(e.verifiedAt, now);
    if now.mono >= l.deadline {
      assert now.wall >= l.grant.expiresAt * SECOND;
      assert Unix(now) * SECOND > now.wall - SECOND;
    }
  }

  /** On clocks that do not go back a room that was found dead is dead for good. */
  lemma DeadForGood(w: World, run: seq<Step>, k: nat, now: Time)
    requires Legal(run, now) && FoundDead(w, run, k)
    ensures k < |Reach(w, run).rooms| && !Live(Reach(w, run).rooms[k].lease, now)
  {
    hide After, Reach;
    var i: nat :| FindsDead(w, run, i, k);
    LeaseStays(w, run, i, k);
    EveryRunIsSound(w, run[..i]);
    var lease := Reach(w, run[..i]).rooms[k].lease;
    assert From(w, run[..i], lease);
    var j: nat :| j < i && LeaseOf(w, run[..i][j].event) == Some(lease);
    assert run[..i][j] == run[j];
    UnixIsMonotone(run[j].event.verifiedAt, run[i].at);
    UnixIsMonotone(run[i].at, now);
  }

  // ---------------------------------------------------------------- revocation

  predicate RevokedAt(run: seq<Step>, r: nat, id: string, at: Time) {
    r < |run| && run[r] == Step(RevokeEvent(id), at)
  }

  function TombstoneEnd(revokedAt: Time): int {
    revokedAt.mono + MAX_LEASE * SECOND
  }

  /** Until the longest lease has run out, the identifier cannot be admitted. */
  predicate BannedUntil(s: RelayState, id: string, until: int) {
    (s.denyUntil.Some? && until <= s.denyUntil.value) || (id in s.denied && until <= s.denied[id])
  }

  /** Every room under the identifier is revoked, or was found dead before the revocation. */
  ghost predicate Silenced(w: World, run: seq<Step>, r: nat, id: string)
    requires r <= |run|
  {
    forall k :: 0 <= k < |Reach(w, run).rooms| && Reach(w, run).rooms[k].lease.grant.sessionId == id ==>
      Reach(w, run).rooms[k].revoked || FoundDead(w, run[..r], k)
  }

  lemma RevokeSilences(w: World, run: seq<Step>, id: string, at: Time)
    requires run != [] && RevokedAt(run, |run| - 1, id, at)
    ensures BannedUntil(Reach(w, run), id, TombstoneEnd(at)) && Silenced(w, run, |run| - 1, id)
  {
    var n := |run| - 1;
    EveryRunIsSound(w, run[..n]);
    forall k | 0 <= k < |Reach(w, run).rooms| && Reach(w, run).rooms[k].lease.grant.sessionId == id
      ensures Reach(w, run).rooms[k].revoked || FoundDead(w, run[..n], k)
    {
      assert Placed(w, run[..n], k);
    }
  }

  lemma FindKeepsTombstones(w: World, s: RelayState, lease: Lease, now: Time)
    requires Valid(s)
    ensures var t := Find(w.trust, s, lease, now).0;
            t.denied == s.denied && t.denyUntil == s.denyUntil
  {
  }

  lemma AttachKeepsTombstones(w: World, s: RelayState, lease: Lease, side: Side, conn: nat, now: Time)
    requires Valid(s)
    ensures var t := Attach(w.trust, s, lease, side, conn, now).0;
            t.denied == s.denied && t.denyUntil == s.denyUntil
  {
    hide Find, MayJoin, Join;
    FindKeepsTombstones(w, s, lease, now);
  }

  lemma StepKeepsBan(w: World, s: RelayState, step: Step, id: string, revokedAt: Time)
    requires Valid(s) && BannedUntil(s, id, TombstoneEnd(revokedAt))
    requires revokedAt.mono <= step.at.mono < TombstoneEnd(revokedAt)
    ensures BannedUntil(After(w, s, step), id, TombstoneEnd(revokedAt))
  {
    hide Attach;
    if LeaseOf(w, step.event).Some? {
      AttachKeepsTombstones(w, s, LeaseOf(w, step.event).value, step.event.side, step.event.conn, step.at);
    }
  }

  lemma StepKeepsSilenced(w: World, run: seq<Step>, r: nat, id: string, until: int)
    requires r < |run| - 1 && Silenced(w, run[..|run| - 1], r, id)
    requires BannedUntil(Reach(w, run[..|run| - 1]), id, until) && run[|run| - 1].at.mono < until
    ensures Silenced(w, run, r, id)
  {
    hide After;
    var n := |run| - 1;
    var s := Reach(w, run[..n]);
    assert run[..n][..r] == run[..r];
    forall k | 0 <= k < |Reach(w, run).rooms| && Reach(w, run).rooms[k].lease.grant.sessionId == id
      ensures Reach(w, run).rooms[k].revoked || FoundDead(w, run[..r], k)
    {
      if k < |s.rooms| {
        LeaseStaysOnce(w, s, run[n], k);
      } else {
        NewRoomIsPlaced(w, s, run[n], k);
        assert false;
      }
    }
  }

  /** While the tombstone stands, nothing under the identifier is admitted and its rooms are silenced. */
  lemma {:induction false} RevocationSilences(w: World, run: seq<Step>, r: nat, id: string, at: Time, now: Time)
    requires RevokedAt(run, r, id, at) && Ticking(run, now) && now.mono < TombstoneEnd(at)
    ensures BannedUntil(Reach(w, run), id, TombstoneEnd(at)) && Silenced(w, run, r, id)
  {
    hide After;
    var n := |run| - 1;
    if r == n {
      RevokeSilences(w, run, id, at);
    } else {
      RevocationSilences(w, run[..n], r, id, at, run[n].at);
      StepKeepsBan(w, Reach(w, run[..n]), run[n], id, at);
      StepKeepsSilenced(w, run, r, id, TombstoneEnd(at));
    }
  }

  /**
   Whatever the wall clock reads: a packet forwarded after Revoke(id) under a
   ticket for id means that the tombstone has run out, or that an admission
   attempt before the revocation had found the room dead.
   */
  lemma ForwardedAfterRevoke(w: World, run: seq<Step>, r: nat, id: string, at: Time, now: Time, room: nat, side: Side)
    requires RevokedAt(run, r, id, at) && Ticking(run, now)
    requires room < |Reach(w, run).rooms| && Reach(w, run).rooms[room].lease.grant.sessionId == id
    requires Target(Reach(w, run), room, side, now).Some?
    ensures TombstoneEnd(at) <= now.mono || FoundDead(w, run[..r], room)
  {
    if now.mono < TombstoneEnd(at) {
      RevocationSilences(w, run, r, id, at, now);
    }
  }

  /** On clocks that do not go back the tombstone has run out, and the ticket has not expired. */
  lemma ForwardedPastTombstone(w: World, run: seq<Step>, r: nat, id: string, at: Time, now: Time, room: nat, side: Side)
    requires RevokedAt(run, r, id, at) && Legal(run, now)
    requires room < |Reach(w, run).rooms| && Reach(w, run).rooms[room].lease.grant.sessionId == id
    requires Target(Reach(w, run), room, side, now).Some?
    ensures TombstoneEnd(at) <= now.mono && Unix(now) < Reach(w, run).rooms[room].lease.grant.expiresAt
  {
    ForwardedAfterRevoke(w, run, r, id, at, now, room, side);
    if FoundDead(w, run[..r], room) {
      FoundDeadGrows(w, run, r, room);
      DeadForGood(w, run, room, now);
    }
  }

  lemma LeasesAreShort(w: World, run: seq<Step>, room: nat)
    requires room < |Reach(w, run).rooms|
    ensures var g := Reach(w, run).rooms[room].lease.grant; g.expiresAt - g.issuedAt <= MAX_LEASE
  {
    hide Reach;
    EveryRunIsSound(w, run);
    assert From(w, run, Reach(w, run).rooms[room].lease);
  }

  /** A ticket issued by the revocation has expired once a steady clock has run out its tombstone. */
  lemma OldTicketsExpire(l: Lease, revokedAt: Time, now: Time)
    requires l.grant.issuedAt <= Unix(revokedAt) && l.grant.expiresAt - l.grant.issuedAt <= MAX_LEASE
    requires Steady(revokedAt, now) && TombstoneEnd(revokedAt) <= now.mono
    ensures Expired(l, now)
  {
    assert Unix(Time(revokedAt.wall + MAX_LEASE * SECOND, 0)) == Unix(revokedAt) + MAX_LEASE;
    UnixIsMonotone(Time(revokedAt.wall + MAX_LEASE * SECOND, 0), now);
  }

  /**
   When the wall clock loses no time after Revoke(id), no packet is forwarded
   under a ticket for id that was issued at or before it: in no room, old or new,
   and also when the tombstones had overflowed.
   */
  lemma NothingForwardedAfterRevoke(w: World, run: seq<Step>, r: nat, id: string, at: Time, now: Time, room: nat, side: Side)
    requires RevokedAt(run, r, id, at) && Legal(run, now) && Steady(at, now)
    requires room < |Reach(w, run).rooms|
    requires var g := Reach(w, run).rooms[room].lease.grant; g.sessionId == id && g.issuedAt <= Unix(at)
    ensures Target(Reach(w, run), room, side, now).None?
  {
    hide Reach;
    LeasesAreShort(w, run, room);
    if TombstoneEnd(at) <= now.mono {
      OldTicketsExpire(Reach(w, run).rooms[room].lease, at, now);
    } else if Target(Reach(w, run), room, side, now).Some? {
      ForwardedPastTombstone(w, run, r, id, at, now, room, side);
    }
  }

  // ---------------------------------------------------------------- admission

  /** The i-th step admitted its Device into the room. */
  predicate AdmittedAt(w: World, run: seq<Step>, i: nat, room: nat) {
    i < |run| && LeaseOf(w, run[i].event).Some? &&
    var e := run[i].event;
    Attach(w.trust, Reach(w, run[..i]), LeaseOf(w, e).value, e.side, e.conn, run[i].at).1 == Some(room)
  }

  predicate HasJoined(s: RelayState, room: nat, side: Side, hash: string, id: string) {
    room < |s.rooms| && side in s.rooms[room].joined && s.rooms[room].hash == hash && s.rooms[room].lease.grant.sessionId == id
  }

  lemma AttachKeepsJoined(w: World, s: RelayState, lease: Lease, x: Side, conn: nat, now: Time,
                          room: nat, side: Side, hash: string, id: string)
    requires Valid(s) && HasJoined(s, room, side, hash, id)
    ensures HasJoined(Attach(w.trust, s, lease, x, conn, now).0, room, side, hash, id)
  {
    FindAppends(w, s, lease, now);
    AttachChanges(w, s, lease, x, conn, now, room);
  }

  lemma JoinedStays(w: World, s: RelayState, step: Step, room: nat, side: Side, hash: string, id: string)
    requires Valid(s) && HasJoined(s, room, side, hash, id)
    ensures HasJoined(After(w, s, step), room, side, hash, id)
  {
    if LeaseOf(w, step.event).Some? {
      AttachKeepsJoined(w, s, LeaseOf(w, step.event).value, step.event.side, step.event.conn, step.at, room, side, hash, id);
    }
  }

  lemma {:induction false} JoinedForever(w: World, run: seq<Step>, i: nat, room: nat, side: Side, hash: string, id: string)
    requires i <= |run| && HasJoined(Reach(w, run[..i]), room, side, hash, id)
    ensures HasJoined(Reach(w, run), room, side, hash, id)
  {
    if i < |run| {
      assert run[..|run| - 1][..i] == run[..i];
      JoinedForever(w, run[..|run| - 1], i, room, side, hash, id);
      JoinedStays(w, Reach(w, run[..|run| - 1]), run[|run| - 1], room, side, hash, id);
    } else {
      assert run[..i] == run;
    }
  }

  lemma AdmissionJoins(w: World, run: seq<Step>, i: nat, room: nat)
    requires AdmittedAt(w, run, i, room)
    ensures HasJoined(After(w, Reach(w, run[..i]), run[i]), room, run[i].event.side, w.trust.hash(run[i].event.ticket),
                      LeaseOf(w, run[i].event).value.grant.sessionId)
  {
    EveryRunIsSound(w, run[..i]);
  }

  lemma AdmissionIsKept(w: World, run: seq<Step>, i: nat, room: nat, n: nat)
    requires i < n <= |run| && AdmittedAt(w, run, i, room)
    ensures HasJoined(Reach(w, run[..n]), room, run[i].event.side, w.trust.hash(run[i].event.ticket),
                      LeaseOf(w, run[i].event).value.grant.sessionId)
  {
    AdmissionJoins(w, run, i, room);
    ReachSteps(w, run, i + 1);
    assert run[..n][..i + 1] == run[..i + 1];
    JoinedForever(w, run[..n], i + 1, room, run[i].event.side, w.trust.hash(run[i].event.ticket),
                  LeaseOf(w, run[i].event).value.grant.sessionId);
  }

  /** A live room in the table that a side has joined admits that side no more. */
  lemma FullRoomRefuses(w: World, s: RelayState, lease: Lease, side: Side, conn: nat, room: nat, now: Time)
    requires Valid(s) && HasJoined(s, room, side, w.trust.hash(lease.ticket), lease.grant.sessionId)
    requires lease.grant.sessionId in s.table && s.table[lease.grant.sessionId] == room
    requires Attach(w.trust, s, lease, side, conn, now).1.Some?
    ensures !Banned(s, lease.grant.sessionId, now) && !Live(s.rooms[room].lease, now)
  {
  }

  lemma SameTicketSameGrant(w: World, a: Event, b: Event)
    requires LeaseOf(w, a).Some? && LeaseOf(w, b).Some? && a.ticket == b.ticket
    ensures LeaseOf(w, a).value.grant == LeaseOf(w, b).value.grant
  {
  }

  /** The run ends by admitting a side to a room that it was admitted to before, with the same ticket, at the i-th step. */
  predicate AdmittedAgain(w: World, run: seq<Step>, i: nat, first: nat, second: nat) {
    i < |run| - 1 && AdmittedAt(w, run, i, first) && AdmittedAt(w, run, |run| - 1, second) &&
    run[i].event.ticket == run[|run| - 1].event.ticket && run[i].event.side == run[|run| - 1].event.side
  }

  /** On any clocks: a side is admitted again with the same ticket only after its first room was found dead. */
  lemma SecondAdmissionFoundDead(w: World, run: seq<Step>, i: nat, first: nat, second: nat)
    requires AdmittedAgain(w, run, i, first, second)
    ensures FoundDead(w, run, first)
  {
    hide Attach, After, Reach;
    var n := |run| - 1;
    var s, lease := Reach(w, run[..n]), LeaseOf(w, run[n].event).value;
    AdmissionIsKept(w, run, i, first, n);
    SameTicketSameGrant(w, run[i].event, run[n].event);
    EveryRunIsSound(w, run[..n]);
    assert Placed(w, run[..n], first);
    if FoundDead(w, run[..n], first) {
      FoundDeadGrows(w, run, n, first);
    } else {
      FullRoomRefuses(w, s, lease, run[n].event.side, run[n].event.conn, first, run[n].at);
      assert FindsDead(w, run, n, first);
    }
  }

  /** On clocks that do not go back, a side is admitted again with the same ticket only when its first room is dead. */
  lemma AdmittedOncePerSide(w: World, run: seq<Step>, i: nat, first: nat, second: nat, now: Time)
    requires AdmittedAgain(w, run, i, first, second) && Legal(run, now)
    ensures first < |Reach(w, run).rooms| && !Live(Reach(w, run).rooms[first].lease, now)
  {
    SecondAdmissionFoundDead(w, run, i, first, second);
    DeadForGood(w, run, first, now);
  }

  /** The wall clock has lost no time since any verification of the run. */
  ghost predicate SteadySince(run: seq<Step>, now: Time) {
    forall k :: 0 <= k < |run| && run[k].event.AttachEvent? ==> Steady(run[k].event.verifiedAt, now)
  }

  lemma DeadLeaseExpired(w: World, run: seq<Step>, lease: Lease, now: Time)
    requires From(w, run, lease) && SteadySince(run, now) && !Live(lease, now)
    ensures Expired(lease, now)
  {
    var k: nat :| k < |run| && LeaseOf(w, run[k].event) == Some(lease);
    DeadMeansExpired(w, run[k].event, now);
  }

  /** When the wall clock has lost no time either, the ticket of that room has expired. */
  lemma AdmittedAgainOnlyExpired(w: World, run: seq<Step>, i: nat, first: nat, second: nat, now: Time)
    requires AdmittedAgain(w, run, i, first, second) && Legal(run, now) && SteadySince(run, now)
    ensures first < |Reach(w, run).rooms| && Expired(Reach(w, run).rooms[first].lease, now)
  {
    AdmittedOncePerSide(w, run, i, first, second, now);
    EveryRunIsSound(w, run);
    DeadLeaseExpired(w, run, Reach(w, run).rooms[first].lease, now);
  }

  /** With a hash without collisions that ticket is the one of the admission. */
  lemma JoinedLease(w: World, run: seq<Step>, i: nat, room: nat)
    requires Injective(w) && AdmittedAt(w, run, i, room)
    ensures room < |Reach(w, run).rooms| && Reach(w, run).rooms[room].lease.ticket == run[i].event.ticket
    ensures Reach(w, run).rooms[room].lease.grant == LeaseOf(w, run[i].event).value.grant
  {
    assert run[..|run|] == run;
    AdmissionIsKept(w, run, i, room, |run|);
    EveryRunIsSound(w, run);
    assert RoomSound(w, Reach(w, run).rooms[room]);
  }

  // ---------------------------------------------------------------- forwarding

  /** The peer on a side of a room got there by an admission with that side and ticket. */
  ghost predicate CameBy(w: World, run: seq<Step>, room: nat, side: Side, peer: Peer) {
    exists i: nat :: AdmittedAt(w, run, i, room) && run[i].event.side == side && run[i].event.ticket == peer.ticket &&
      run[i].event.conn == peer.conn
  }

  lemma CameByGrows(w: World, run: seq<Step>, room: nat, side: Side, peer: Peer)
    requires run != [] && CameBy(w, run[..|run| - 1], room, side, peer)
    ensures CameBy(w, run, room, side, peer)
  {
    hide Attach, After, Reach;
    var n := |run| - 1;
    var i: nat :| AdmittedAt(w, run[..n], i, room) && run[..n][i].event.side == side &&
      run[..n][i].event.ticket == peer.ticket && run[..n][i].event.conn == peer.conn;
    assert run[..n][..i] == run[..i];
    assert AdmittedAt(w, run, i, room);
  }

  lemma NewPeerIsAdmitted(w: World, s: RelayState, step: Step, room: nat, side: Side)
    requires Valid(s) && room < |After(w, s, step).rooms| && side in After(w, s, step).rooms[room].peers
    requires room < |s.rooms| ==> Lookup(s.rooms[room].peers, side) != Some(After(w, s, step).rooms[room].peers[side])
    ensures LeaseOf(w, step.event).Some? && step.event.side == side
    ensures After(w, s, step).rooms[room].peers[side] == Peer(step.event.conn, step.event.ticket)
    ensures Attach(w.trust, s, LeaseOf(w, step.event).value, side, step.event.conn, step.at).1 == Some(room)
  {
    hide Attach, Standing, MayJoin;
    if LeaseOf(w, step.event).Some? {
      var lease := LeaseOf(w, step.event).value;
      AttachChanges(w, s, lease, step.event.side, step.event.conn, step.at, room);
    }
  }

  lemma {:induction false} PeersWereAdmitted(w: World, run: seq<Step>, room: nat, side: Side)
    requires room < |Reach(w, run).rooms| && side in Reach(w, run).rooms[room].peers
    ensures CameBy(w, run, room, side, Reach(w, run).rooms[room].peers[side])
  {
    if run != [] {
      var n := |run| - 1;
      var before, peer := Reach(w, run[..n]), Reach(w, run).rooms[room].peers[side];
      if room < |before.rooms| && side in before.rooms[room].peers && before.rooms[room].peers[side] == peer {
        PeersWereAdmitted(w, run[..n], room, side);
        CameByGrows(w, run, room, side, peer);
      } else {
        NewPeerIsAdmitted(w, before, run[n], room, side);
        assert AdmittedAt(w, run, n, room);
      }
    }
  }

  /**
   A packet from a Device goes only to the connection that was admitted to the
   same room for the other side, with a byte-identical ticket.
   */
  lemma ForwardsToOtherSideOfTicket(w: World, run: seq<Step>, i: nat, room: nat, now: Time)
    requires AdmittedAt(w, run, i, room) && Injective(w)
    requires room < |Reach(w, run).rooms| && Target(Reach(w, run), room, run[i].event.side, now).Some?
    ensures var to := Target(Reach(w, run), room, run[i].event.side, now).value;
            to.ticket == run[i].event.ticket && CameBy(w, run, room, Other(run[i].event.side), to)
  {
    hide Reach, Attach;
    JoinedLease(w, run, i, room);
    EveryRunIsSound(w, run);
    PeersWereAdmitted(w, run, room, Other(run[i].event.side));
    assert RoomSound(w, Reach(w, run).rooms[room]);
  }
}
