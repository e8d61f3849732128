/**
 When a revoked ticket is forwarded again: once its tombstone has run out and the
 wall clock is within its lifetime, or, under the tombstone, when a set-back wall
 clock revives a room that had been found dead before the revocation.
 */
module RelayReadmission {
  import opened Basics
  import opened PolicyStore
  import opened Relay
  import opened RelayHistory

  /** After a revocation, everything happens at one later moment. */
  ghost predicate RevokedThen(run: seq<Step>, id: string, revokedAt: Time, later: Time) {
    run != [] && run[0] == Step(RevokeEvent(id), revokedAt) &&
    forall i :: 1 <= i < |run| ==> run[i].at == later && (run[i].event.AttachEvent? ==> run[i].event.verifiedAt == later)
  }

  /** The room has the ticket, and forwards what a side of it sends. */
  predicate ForwardsAt(w: World, run: seq<Step>, ticket: Bytes, now: Time, room: nat, side: Side) {
    room < |Reach(w, run).rooms| && Reach(w, run).rooms[room].lease.ticket == ticket &&
    Target(Reach(w, run), room, side, now).Some?
  }

  /** Some room with the ticket forwards. */
  ghost predicate Forwards(w: World, run: seq<Step>, ticket: Bytes, now: Time) {
    exists room: nat, side :: ForwardsAt(w, run, ticket, now, room, side)
  }

  // ---------------------------------------------------------------- readmission

  /** A ticket of this relay's cluster that is good at the moment. */
  predicate GoodTicket(w: World, ticket: Bytes, g: Grant, at: Time) {
    w.trust.openGrant(ticket) == Some(g) && GrantValid(g, at) && w.minRevision <= g.revision && g.clusterId == w.trust.clusterId
  }

  function FreshLease(g: Grant, ticket: Bytes, at: Time): Lease {
    Lease(g, ticket, Deadline(g.expiresAt, at))
  }

  /** The relay after the revocation, with at most one room, for the ticket. */
  ghost predicate Opening(w: World, s: RelayState, ticket: Bytes, g: Grant, at: Time) {
    Valid(s) && !Banned(s, g.sessionId, at) &&
    ((s.rooms == [] && s.table == map[]) ||
     (s.table == map[g.sessionId := 0] && |s.rooms| == 1 && s.rooms[0].lease == FreshLease(g, ticket, at) &&
      s.rooms[0].hash == w.trust.hash(ticket) && !s.rooms[0].revoked))
  }

  function RoomOf(w: World, s: RelayState, ticket: Bytes, g: Grant, at: Time): Room {
    if s.rooms == [] then Room(FreshLease(g, ticket, at), w.trust.hash(ticket), map[], {}, false) else s.rooms[0]
  }

  lemma FindsOnly(w: World, s: RelayState, ticket: Bytes, g: Grant, at: Time)
    requires Opening(w, s, ticket, g, at) && Live(FreshLease(g, ticket, at), at)
    ensures Find(w.trust, s, FreshLease(g, ticket, at), at) ==
      (s.(rooms := [RoomOf(w, s, ticket, g, at)], table := map[g.sessionId := 0]), Some(0))
  {
    assert LiveTable(s, at) == s.table;
    var r := RoomOf(w, s, ticket, g, at);
    if s.rooms == [] {
      assert s.rooms + [r] == [r];
    } else {
      assert s.rooms == [r];
    }
  }

  lemma LeasesFresh(w: World, ticket: Bytes, g: Grant, side: Side, conn: nat, at: Time)
    requires GoodTicket(w, ticket, g, at)
    ensures LeaseOf(w, AttachEvent(ticket, at, side, conn)) == Some(FreshLease(g, ticket, at))
    ensures Live(FreshLease(g, ticket, at), at)
  {
    DeadlineIsAhead(g.expiresAt, at);
  }

  lemma Joins(w: World, s: RelayState, ticket: Bytes, g: Grant, side: Side, conn: nat, at: Time)
    requires GoodTicket(w, ticket, g, at) && Opening(w, s, ticket, g, at) && side !in RoomOf(w, s, ticket, g, at).joined
    ensures After(w, s, Step(AttachEvent(ticket, at, side, conn), at)) ==
      s.(rooms := [Join(RoomOf(w, s, ticket, g, at), side, Peer(conn, ticket))], table := map[g.sessionId := 0])
  {
    LeasesFresh(w, ticket, g, side, conn, at);
    FindsOnly(w, s, ticket, g, at);
  }

  /** Both sides of a good ticket join one room, which then forwards as long as it is live and not revoked. */
  lemma BothJoin(w: World, s: RelayState, ticket: Bytes, g: Grant, at: Time)
    requires GoodTicket(w, ticket, g, at) && Opening(w, s, ticket, g, at) && s.rooms == []
    ensures var t := After(w, After(w, s, Step(AttachEvent(ticket, at, Initiator, 1), at)), Step(AttachEvent(ticket, at, Host, 2), at));
            |t.rooms| == 1 && t.rooms[0].lease == FreshLease(g, ticket, at) && !t.rooms[0].revoked &&
            Lookup(t.rooms[0].peers, Host) == Some(Peer(2, ticket)) &&
            t == s.(rooms := t.rooms, table := map[g.sessionId := 0])
  {
    Joins(w, s, ticket, g, Initiator, 1, at);
    Joins(w, After(w, s, Step(AttachEvent(ticket, at, Initiator, 1), at)), ticket, g, Host, 2, at);
  }

  lemma FirstRevocation(w: World, id: string, at: Time)
    ensures After(w, EMPTY_RELAY, Step(RevokeEvent(id), at)) == EMPTY_RELAY.(denied := map[id := TombstoneEnd(at)])
  {
    assert Standing(map[], at) == map[];
  }

  lemma ReachThree(w: World, a: Step, b: Step, c: Step)
    ensures Reach(w, [a, b, c]) == After(w, After(w, After(w, EMPTY_RELAY, a), b), c)
  {
    assert [a, b, c][..2] == [a, b] && [a, b][..1] == [a] && [a][..0] == [];
    assert Reach(w, [a]) == After(w, EMPTY_RELAY, a);
    assert Reach(w, [a, b]) == After(w, Reach(w, [a]), b);
  }

  lemma ForwardsIn(w: World, run: seq<Step>, ticket: Bytes, at: Time)
    requires var t := Reach(w, run);
             |t.rooms| == 1 && t.rooms[0].lease.ticket == ticket && Target(t, 0, Initiator, at).Some?
    ensures Forwards(w, run, ticket, at)
  {
    assert ForwardsAt(w, run, ticket, at, 0, Initiator);
  }

  /** The two sides of a ticket that is good on a set-back clock are admitted and forward. */
  lemma SetBackClockForwards(w: World, ticket: Bytes, g: Grant, revokedAt: Time, later: Time) returns (run: seq<Step>)
    requires GoodTicket(w, ticket, g, later) && TombstoneEnd(revokedAt) <= later.mono
    ensures RevokedThen(run, g.sessionId, revokedAt, later) && Forwards(w, run, ticket, later)
  {
    hide After;
    var revoke := Step(RevokeEvent(g.sessionId), revokedAt);
    var first := Step(AttachEvent(ticket, later, Initiator, 1), later);
    var second := Step(AttachEvent(ticket, later, Host, 2), later);
    run := [revoke, first, second];
    ReachThree(w, revoke, first, second);
    FirstRevocation(w, g.sessionId, revokedAt);
    BothJoin(w, EMPTY_RELAY.(denied := map[g.sessionId := TombstoneEnd(revokedAt)]), ticket, g, later);
    LeasesFresh(w, ticket, g, Initiator, 1, later);
    ForwardsIn(w, run, ticket, later);
  }

  lemma ForwardingRoomIsLive(w: World, run: seq<Step>, ticket: Bytes, g: Grant, now: Time, room: nat, side: Side)
    requires w.trust.openGrant(ticket) == Some(g) && ForwardsAt(w, run, ticket, now, room, side)
    ensures Reach(w, run).rooms[room].lease.grant == g && g.issuedAt <= Unix(now) < g.expiresAt
  {
    hide Reach;
    EveryRunIsSound(w, run);
    assert RoomSound(w, Reach(w, run).rooms[room]);
  }

  /**
   When everything after the revocation happens at one later moment, a ticket
   from before it can be forwarded if and only if the tombstone has run out and
   the wall clock is within the ticket's lifetime.
   */
  lemma ReadmittedIffSetBack(w: World, ticket: Bytes, g: Grant, revokedAt: Time, later: Time)
    requires GoodTicket(w, ticket, g, revokedAt) && revokedAt.mono <= later.mono
    ensures (exists run :: RevokedThen(run, g.sessionId, revokedAt, later) && Forwards(w, run, ticket, later)) <==>
            TombstoneEnd(revokedAt) <= later.mono && g.issuedAt <= Unix(later) < g.expiresAt
  {
    if TombstoneEnd(revokedAt) <= later.mono && g.issuedAt <= Unix(later) < g.expiresAt {
      var run := SetBackClockForwards(w, ticket, g, revokedAt, later);
    }
    forall run | RevokedThen(run, g.sessionId, revokedAt, later) && Forwards(w, run, ticket, later)
      ensures TombstoneEnd(revokedAt) <= later.mono && g.issuedAt <= Unix(later) < g.expiresAt
    {
      hide Reach;
      var room: nat, side :| ForwardsAt(w, run, ticket, later, room, side);
      ForwardingRoomIsLive(w, run, ticket, g, later, room, side);
      ForwardedAfterRevoke(w, run, 0, g.sessionId, revokedAt, later, room, side);
    }
  }

  /** The run has the revocation, lies on clocks that do not go back, and forwards the ticket afterwards. */
  ghost predicate ForwardedLater(w: World, run: seq<Step>, r: nat, ticket: Bytes, id: string, revokedAt: Time, later: Time) {
    RevokedAt(run, r, id, revokedAt) && Legal(run, later) && Forwards(w, run, ticket, later)
  }

  /**
   On clocks that do not go back, a ticket that was good at the revocation can be
   forwarded afterwards if and only if the tombstone has run out and the ticket
   has not expired.
   */
  lemma ForwardedIffTombstoneOver(w: World, ticket: Bytes, g: Grant, revokedAt: Time, later: Time)
    requires GoodTicket(w, ticket, g, revokedAt) && NotBack(revokedAt, later)
    ensures (exists run, r: nat :: ForwardedLater(w, run, r, ticket, g.sessionId, revokedAt, later)) <==>
            TombstoneEnd(revokedAt) <= later.mono && Unix(later) < g.expiresAt
  {
    UnixIsMonotone(revokedAt, later);
    if TombstoneEnd(revokedAt) <= later.mono && Unix(later) < g.expiresAt {
      var run := SetBackClockForwards(w, ticket, g, revokedAt, later);
      assert ForwardedLater(w, run, 0, ticket, g.sessionId, revokedAt, later);
    }
    forall run, r: nat | ForwardedLater(w, run, r, ticket, g.sessionId, revokedAt, later)
      ensures TombstoneEnd(revokedAt) <= later.mono && Unix(later) < g.expiresAt
    {
      hide Reach;
      var room: nat, side :| ForwardsAt(w, run, ticket, later, room, side);
      ForwardingRoomIsLive(w, run, ticket, g, later, room, side);
      ForwardedPastTombstone(w, run, r, g.sessionId, revokedAt, later, room, side);
    }
  }

  // ---------------------------------------------------------------- under the tombstone

  lemma FindDropsDead(w: World, s: RelayState, lease: Lease, now: Time, id: string)
    requires Valid(s) && |s.rooms| == 1 && s.table == map[id := 0] && !Live(s.rooms[0].lease, now)
    ensures Find(w.trust, s, lease, now) ==
      (s.(rooms := s.rooms + [NewRoom(w, lease)], table := map[lease.grant.sessionId := 1]), Some(1))
  {
    assert LiveTable(s, now) == map[];
  }

  /** An attempt that finds the only room dead drops it from the table, and leaves it as it is. */
  lemma AttachDropsDead(w: World, s: RelayState, lease: Lease, side: Side, conn: nat, now: Time, id: string)
    requires Valid(s) && |s.rooms| == 1 && s.table == map[id := 0] && !Live(s.rooms[0].lease, now)
    requires !Banned(s, lease.grant.sessionId, now)
    ensures var (t, room) := Attach(w.trust, s, lease, side, conn, now);
            |t.rooms| == 2 && t.rooms[0] == s.rooms[0] && t.table == map[lease.grant.sessionId := 1] && room == Some(1)
  {
    hide Find;
    FindDropsDead(w, s, lease, now, id);
  }

  lemma RevokeMissesDropped(s: RelayState, id: string, at: Time)
    requires Valid(s) && s.rooms != [] && (id in s.table ==> s.table[id] != 0)
    ensures |Revoke(s, id, at).rooms| == |s.rooms| && Revoke(s, id, at).rooms[0] == s.rooms[0]
  {
  }

  /** Any verified ticket, also the revoked one itself, whose admission attempt drops the dead room before the revocation. */
  function DroppingRun(ticket: Bytes, id: string, other: Event, t0: Time, t1: Time): seq<Step> {
    [Step(AttachEvent(ticket, t0, Initiator, 1), t0), Step(AttachEvent(ticket, t0, Host, 2), t0), Step(other, t1),
     Step(RevokeEvent(id), t1)]
  }

  lemma ReachDropping(w: World, ticket: Bytes, id: string, other: Event, t0: Time, t1: Time)
    ensures var run := DroppingRun(ticket, id, other, t0, t1);
            Reach(w, run) == After(w, After(w, After(w, After(w, EMPTY_RELAY, run[0]), run[1]), run[2]), run[3])
  {
    hide After;
    var run := DroppingRun(ticket, id, other, t0, t1);
    ReachThree(w, run[0], run[1], run[2]);
    assert run[..3] == [run[0], run[1], run[2]];
  }

  lemma DropThenRevoke(w: World, s: RelayState, other: Event, id: string, t1: Time)
    requires Valid(s) && |s.rooms| == 1 && s == EMPTY_RELAY.(rooms := s.rooms, table := map[id := 0])
    requires LeaseOf(w, other).Some? && !Live(s.rooms[0].lease, t1)
    ensures var t := After(w, After(w, s, Step(other, t1)), Step(RevokeEvent(id), t1));
            |t.rooms| == 2 && t.rooms[0] == s.rooms[0]
  {
    hide Attach, Revoke;
    AttachDropsDead(w, s, LeaseOf(w, other).value, other.side, other.conn, t1, id);
    RevokeMissesDropped(After(w, s, Step(other, t1)), id, t1);
  }

  /**
   A ticket that is dead on the wall clock when it is revoked, after its room was
   dropped from the table, is forwarded under its tombstone at every later moment
   at which the set-back clock makes its lease live again.
   */
  lemma DroppedRoomForwards(w: World, ticket: Bytes, g: Grant, other: Event, t0: Time, t1: Time, t2: Time)
    requires GoodTicket(w, ticket, g, t0) && LeaseOf(w, other).Some?
    requires !Live(FreshLease(g, ticket, t0), t1) && Live(FreshLease(g, ticket, t0), t2)
    ensures var s := Reach(w, DroppingRun(ticket, g.sessionId, other, t0, t1));
            |s.rooms| == 2 && s.rooms[0].lease == FreshLease(g, ticket, t0) && Target(s, 0, Initiator, t2) == Some(Peer(2, ticket))
  {
    hide After;
    var run := DroppingRun(ticket, g.sessionId, other, t0, t1);
    ReachDropping(w, ticket, g.sessionId, other, t0, t1);
    BothJoin(w, EMPTY_RELAY, ticket, g, t0);
    DropThenRevoke(w, After(w, After(w, EMPTY_RELAY, run[0]), run[1]), other, g.sessionId, t1);
  }

  /** Two moments: the ticket is verified only at the first, and the run ends with its revocation at the second. */
  ghost predicate RevokedAtSecond(run: seq<Step>, ticket: Bytes, id: string, t0: Time, t1: Time) {
    run != [] && run[|run| - 1] == Step(RevokeEvent(id), t1) && (forall i :: 0 <= i < |run| ==> run[i].at in {t0, t1}) &&
    forall i :: 0 <= i < |run| && run[i].event.AttachEvent? && run[i].event.ticket == ticket ==> run[i].event.verifiedAt == t0
  }

  lemma LeaseIsFresh(w: World, run: seq<Step>, ticket: Bytes, g: Grant, t0: Time, t1: Time, room: nat)
    requires GoodTicket(w, ticket, g, t0) && RevokedAtSecond(run, ticket, g.sessionId, t0, t1)
    requires room < |Reach(w, run).rooms| && Reach(w, run).rooms[room].lease.ticket == ticket
    ensures Reach(w, run).rooms[room].lease == FreshLease(g, ticket, t0)
  {
    hide Reach;
    EveryRunIsSound(w, run);
    var lease := Reach(w, run).rooms[room].lease;
    var i: nat :| i < |run| && LeaseOf(w, run[i].event) == Some(lease);
    LeasesFresh(w, ticket, g, run[i].event.side, run[i].event.conn, t0);
  }

  lemma DeadAtSecond(w: World, run: seq<Step>, ticket: Bytes, g: Grant, t0: Time, t1: Time, room: nat)
    requires GoodTicket(w, ticket, g, t0) && RevokedAtSecond(run, ticket, g.sessionId, t0, t1)
    requires room < |Reach(w, run).rooms| && Reach(w, run).rooms[room].lease.ticket == ticket
    requires FoundDead(w, run[..|run| - 1], room)
    ensures !Live(FreshLease(g, ticket, t0), t1)
  {
    hide After, Reach;
    FoundDeadGrows(w, run, |run| - 1, room);
    var i: nat :| FindsDead(w, run, i, room);
    LeaseStays(w, run, i, room);
    LeaseIsFresh(w, run, ticket, g, t0, t1, room);
    LeasesFresh(w, ticket, g, Initiator, 1, t0);
    assert run[i].at in {t0, t1};
  }

  lemma ForwardedMeansDied(w: World, run: seq<Step>, ticket: Bytes, g: Grant, t0: Time, t1: Time, t2: Time)
    requires GoodTicket(w, ticket, g, t0) && RevokedAtSecond(run, ticket, g.sessionId, t0, t1) && Ticking(run, t2)
    requires t2.mono < TombstoneEnd(t1) && Forwards(w, run, ticket, t2)
    ensures !Live(FreshLease(g, ticket, t0), t1) && Live(FreshLease(g, ticket, t0), t2)
  {
    hide After, Reach;
    var room: nat, side :| ForwardsAt(w, run, ticket, t2, room, side);
    LeaseIsFresh(w, run, ticket, g, t0, t1, room);
    ForwardedAfterRevoke(w, run, |run| - 1, g.sessionId, t1, t2, room, side);
    DeadAtSecond(w, run, ticket, g, t0, t1, room);
  }

  lemma DyingForwards(w: World, ticket: Bytes, g: Grant, t0: Time, t1: Time, t2: Time) returns (run: seq<Step>)
    requires GoodTicket(w, ticket, g, t0) && t0.mono <= t1.mono <= t2.mono
    requires !Live(FreshLease(g, ticket, t0), t1) && Live(FreshLease(g, ticket, t0), t2)
    ensures RevokedAtSecond(run, ticket, g.sessionId, t0, t1) && Ticking(run, t2) && Forwards(w, run, ticket, t2)
  {
    hide After, Reach;
    var again := AttachEvent(ticket, t0, Host, 3);
    LeasesFresh(w, ticket, g, Host, 3, t0);
    DroppedRoomForwards(w, ticket, g, again, t0, t1, t2);
    run := DroppingRun(ticket, g.sessionId, again, t0, t1);
    assert ForwardsAt(w, run, ticket, t2, 0, Initiator);
  }

  /**
   Under the tombstone, whatever the wall clock reads: a ticket verified at one
   moment and revoked at a second can be forwarded at a third if and only if its
   lease was dead at the revocation and is live again.
   */
  lemma ForwardedUnderTombstoneIff(w: World, ticket: Bytes, g: Grant, t0: Time, t1: Time, t2: Time)
    requires GoodTicket(w, ticket, g, t0) && t0.mono <= t1.mono <= t2.mono < TombstoneEnd(t1)
    ensures (exists run :: RevokedAtSecond(run, ticket, g.sessionId, t0, t1) && Ticking(run, t2) && Forwards(w, run, ticket, t2)) <==>
            !Live(FreshLease(g, ticket, t0), t1) && Live(FreshLease(g, ticket, t0), t2)
  {
    hide Forwards;
    if !Live(FreshLease(g, ticket, t0), t1) && Live(FreshLease(g, ticket, t0), t2) {
      var run := DyingForwards(w, ticket, g, t0, t1, t2);
    }
    forall run | RevokedAtSecond(run, ticket, g.sessionId, t0, t1) && Ticking(run, t2) && Forwards(w, run, ticket, t2)
      ensures !Live(FreshLease(g, ticket, t0), t1) && Live(FreshLease(g, ticket, t0), t2)
    {
      ForwardedMeansDied(w, run, ticket, g, t0, t1, t2);
    }
  }

  // ---------------------------------------------------------------- a second admission

  /** After a first admission, the same side is admitted with the same ticket again if and only if the first lease is dead. */
  lemma AdmittedAgainIffDead(w: World, ticket: Bytes, g: Grant, side: Side, t0: Time, verified: Time, t1: Time)
    requires GoodTicket(w, ticket, g, t0) && GoodTicket(w, ticket, g, verified)
    ensures var run := [Step(AttachEvent(ticket, t0, side, 1), t0), Step(AttachEvent(ticket, verified, side, 2), t1)];
            (exists room: nat :: AdmittedAt(w, run, 1, room)) <==> !Live(FreshLease(g, ticket, t0), t1)
  {
    var first, second := Step(AttachEvent(ticket, t0, side, 1), t0), Step(AttachEvent(ticket, verified, side, 2), t1);
    var s := After(w, EMPTY_RELAY, first);
    assert [first, second][..1] == [first] && [first][..0] == [];
    assert Reach(w, [first]) == s;
    Joins(w, EMPTY_RELAY, ticket, g, side, 1, t0);
    LeasesFresh(w, ticket, g, side, 2, verified);
    var lease := FreshLease(g, ticket, verified);
    if Live(FreshLease(g, ticket, t0), t1) {
      assert LiveTable(s, t1) == s.table;
    } else {
      AttachDropsDead(w, s, lease, side, 2, t1, g.sessionId);
      assert AdmittedAt(w, [first, second], 1, 1);
    }
  }
}
