/**
 A Device's authority over its peer-to-peer sessions. What is on disk (revision
 and time floors, denials, reserved addresses) survives a restart; sessions and
 their authorizations do not. A call reads the clocks once.
 */
module PolicyStore {
  import opened Basics
  import opened Ipv4

  const MAX_MANAGED_SESSIONS := 16
  const MAX_DENIED := 4096
  const MAX_LEASE := 60
  const MAX_POLICY := 30

  /** A reading of the wall clock and of the monotonic clock, in nanoseconds. */
  datatype Time = Time(wall: int, mono: int)

  function Unix(t: Time): int {
    t.wall / SECOND
  }

  datatype Party = Party(deviceId: string, userId: string, address: Addr)

  datatype Grant = Grant(
    clusterId: string, sessionId: string, revision: nat, issuedAt: int, expiresAt: int, first: Party, second: Party)

  datatype Entry = Entry(sessionId: string, ticketHash: string)

  datatype Checkpoint = Checkpoint(
    clusterId: string, deviceId: string, revision: nat, issuedAt: int, expiresAt: int, allowed: seq<Entry>)

  /** The pinned Controller: what its signed tickets and checkpoints say, and the ticket hash. */
  datatype Trust = Trust(
    clusterId: string,
    deviceId: string,
    openGrant: Bytes -> Option<Grant>,
    openPolicy: Bytes -> Option<Checkpoint>,
    hash: Bytes -> string)

  predicate GrantValid(g: Grant, now: Time) {
    g.revision > 0 && 0 < g.issuedAt <= Unix(now) < g.expiresAt && g.expiresAt - g.issuedAt <= MAX_LEASE &&
    IsPrivate(g.first.address) && IsPrivate(g.second.address) && g.first.userId == g.second.userId &&
    g.first.deviceId != g.second.deviceId && g.first.address != g.second.address
  }

  function VerifyGrant(trust: Trust, ticket: Bytes, now: Time): Option<Grant> {
    var g := trust.openGrant(ticket);
    if g.Some? && GrantValid(g.value, now) && g.value.clusterId == trust.clusterId then g else None
  }

  datatype Authorization = Authorization(deadline: int, expiresAt: int)

  datatype Session = Session(grant: Grant, ticket: Bytes, deadline: int, authorization: Option<Authorization>)

  predicate Active(s: Session, now: Time) {
    s.authorization.Some? && Unix(now) < s.authorization.value.expiresAt && now.mono < s.authorization.value.deadline &&
    s.grant.issuedAt <= Unix(now) < s.grant.expiresAt && now.mono < s.deadline
  }

  datatype Disk = Disk(revision: nat, issuedAt: int, denied: map<string, int>, reserved: seq<Addr>)

  const EMPTY_DISK := Disk(0, 0, map[], [])

  /** What opening the store checks of its persistent state. */
  predicate DiskValid(d: Disk) {
    |d.denied| <= MAX_DENIED && |d.reserved| <= MAX_MANAGED_SESSIONS &&
    (forall i :: 0 <= i < |d.reserved| ==> IsPrivate(d.reserved[i])) &&
    forall i, j :: 0 <= i < j < |d.reserved| ==> d.reserved[i] != d.reserved[j]
  }

  type Sessions = map<string, Session>

  datatype State = State(isOpen: bool, disk: Disk, sessions: Sessions)

  function DeniedUntil(d: Disk, id: string): int {
    if id in d.denied then d.denied[id] else 0
  }

  /** The monotonic deadline of something that ends at a Unix second. */
  function Deadline(expiresAt: int, now: Time): int {
    now.mono + (expiresAt * SECOND - now.wall)
  }

  lemma DeadlineIsAhead(expiresAt: int, at: Time)
    requires Unix(at) < expiresAt
    ensures at.mono < Deadline(expiresAt, at)
  {
    assert at.wall < (Unix(at) + 1) * SECOND;
  }

  // ---------------------------------------------------------------- the operations as functions

  function Unauthorized(ss: Sessions): Sessions {
    map id | id in ss :: ss[id].(authorization := None)
  }

  function FailClosed(s: State): State {
    s.(sessions := Unauthorized(s.sessions))
  }

  function Unexpired(ss: Sessions, now: Time): Sessions {
    map id | id in ss && Unix(now) < ss[id].grant.expiresAt :: ss[id]
  }

  predicate Names(trust: Trust, g: Grant) {
    g.first.deviceId == trust.deviceId || g.second.deviceId == trust.deviceId
  }

  function Remote(trust: Trust, g: Grant): Addr {
    if g.first.deviceId == trust.deviceId then g.second.address else g.first.address
  }

  /** The disk with the peer's address reserved, or None when the reservations are full. */
  function Reserve(d: Disk, remote: Addr): Option<Disk> {
    if remote in d.reserved then Some(d)
    else if |d.reserved| >= MAX_MANAGED_SESSIONS then None
    else Some(d.(reserved := d.reserved + [remote]))
  }

  predicate Trackable(trust: Trust, s: State, ticket: Bytes, now: Time) {
    s.isOpen && VerifyGrant(trust, ticket, now).Some? &&
    var g := VerifyGrant(trust, ticket, now).value;
    Names(trust, g) && DeniedUntil(s.disk, g.sessionId) <= Unix(now) && Reserve(s.disk, Remote(trust, g)).Some?
  }

  function Track(trust: Trust, s: State, ticket: Bytes, now: Time): State {
    if !Trackable(trust, s, ticket, now) then s
    else
      var g := VerifyGrant(trust, ticket, now).value;
      var ss := Unexpired(s.sessions, now);
      s.(disk := Reserve(s.disk, Remote(trust, g)).value,
         sessions := if g.sessionId in ss || |ss| >= MAX_MANAGED_SESSIONS then ss
                     else ss[g.sessionId := Session(g, ticket, Deadline(g.expiresAt, now), None)])
  }

  /** The session that the store holds for the ticket, if it holds one with exactly that ticket. */
  function HeldSession(trust: Trust, s: State, ticket: Bytes, now: Time): Option<Session>
    requires VerifyGrant(trust, ticket, now).Some?
  {
    var held := Lookup(s.sessions, VerifyGrant(trust, ticket, now).value.sessionId);
    if held.Some? && held.value.ticket == ticket then held else None
  }

  function Pruned(denied: map<string, int>, now: Time): map<string, int> {
    map id | id in denied && denied[id] > Unix(now) :: denied[id]
  }

  predicate CanStop(s: State, id: string, now: Time) {
    s.isOpen && id in s.sessions && |Pruned(s.disk.denied, now)| < MAX_DENIED
  }

  function Stop(s: State, id: string, now: Time): State {
    var closed := FailClosed(s);
    if !CanStop(s, id, now) then closed
    else closed.(disk := s.disk.(denied := Pruned(s.disk.denied, now)[id := s.sessions[id].grant.expiresAt]))
  }

  predicate InScope(trust: Trust, p: Checkpoint, now: Time) {
    p.clusterId == trust.clusterId && p.deviceId == trust.deviceId && p.revision > 0 &&
    0 < p.issuedAt <= Unix(now) < p.expiresAt && p.expiresAt - p.issuedAt <= MAX_POLICY && |p.allowed| <= MAX_MANAGED_SESSIONS
  }

  function Listed(allowed: seq<Entry>): set<string> {
    set e | e in allowed :: e.sessionId
  }

  /** Every listed session is tracked, listed once, and named with the hash of its own ticket. */
  predicate EntriesMatch(trust: Trust, ss: Sessions, p: Checkpoint) {
    (forall i :: 0 <= i < |p.allowed| ==>
      p.allowed[i].sessionId in ss && ss[p.allowed[i].sessionId].grant.revision <= p.revision &&
      p.allowed[i].ticketHash == trust.hash(ss[p.allowed[i].sessionId].ticket)) &&
    forall i, j :: 0 <= i < j < |p.allowed| ==> p.allowed[i].sessionId != p.allowed[j].sessionId
  }

  /** The denials after a checkpoint: expired ones go, unlisted sessions come in. */
  function DeniedAfter(denied: map<string, int>, ss: Sessions, listed: set<string>, now: Time): map<string, int> {
    Pruned(denied, now) + map id | id in ss && id !in listed :: ss[id].grant.expiresAt
  }

  predicate Accepts(trust: Trust, s: State, raw: Bytes, now: Time) {
    s.isOpen && trust.openPolicy(raw).Some? &&
    var p := trust.openPolicy(raw).value;
    InScope(trust, p, now) && EntriesMatch(trust, s.sessions, p) &&
    s.disk.revision < p.revision && s.disk.issuedAt <= p.issuedAt &&
    (forall id :: id in s.sessions && id in Listed(p.allowed) ==> DeniedUntil(s.disk, id) <= Unix(now)) &&
    |DeniedAfter(s.disk.denied, s.sessions, Listed(p.allowed), now)| <= MAX_DENIED
  }

  function Authorized(ss: Sessions, p: Checkpoint, now: Time): Sessions {
    map id | id in ss ::
      ss[id].(authorization :=
        if id in Listed(p.allowed) then Some(Authorization(Min(Deadline(p.expiresAt, now), ss[id].deadline), p.expiresAt))
        else None)
  }

  function Apply(trust: Trust, s: State, raw: Bytes, now: Time): State {
    if !Accepts(trust, s, raw, now) then FailClosed(s)
    else
      var p := trust.openPolicy(raw).value;
      State(true,
            s.disk.(revision := p.revision, issuedAt := p.issuedAt,
                    denied := DeniedAfter(s.disk.denied, s.sessions, Listed(p.allowed), now)),
            Authorized(s.sessions, p, now))
  }

  function Closed(s: State): State {
    FailClosed(s).(isOpen := false)
  }

  /** A new process: the disk is read back, and no session or authorization is. */
  function Reopened(s: State): State {
    State(true, s.disk, map[])
  }

  // ---------------------------------------------------------------- the object

  class Store {
    const trust: Trust
    var isOpen: bool
    var disk: Disk
    var sessions: Sessions

    ghost predicate Valid()
      reads this
    {
      DiskValid(disk) && forall id :: id in sessions ==> sessions[id].grant.sessionId == id
    }

    ghost function Value(): State
      reads this
    {
      State(isOpen, disk, sessions)
    }

    constructor Create(trust: Trust)
      ensures this.trust == trust && Value() == State(true, EMPTY_DISK, map[]) && Valid()
    {
      this.trust, isOpen, disk, sessions := trust, true, EMPTY_DISK, map[];
    }

    constructor Open(trust: Trust, disk: Disk)
      requires DiskValid(disk)
      ensures this.trust == trust && Value() == State(true, disk, map[]) && Valid()
    {
      this.trust, isOpen, this.disk, sessions := trust, true, disk, map[];
    }

    method CloseAuthorizations()
      modifies this`sessions
      ensures sessions == Unauthorized(old(sessions))
    {
      var pending := sessions.Keys;
      var start := sessions;
      while pending != {}
        invariant pending <= start.Keys && sessions.Keys == start.Keys
        invariant forall id :: id in start ==> sessions[id] == if id in pending then start[id] else start[id].(authorization := None)
        decreases pending
      {
        var id :| id in pending;
        sessions := sessions[id := sessions[id].(authorization := None)];
        pending := pending - {id};
      }
    }

    method DropExpired(now: Time)
      modifies this`sessions
      ensures sessions == Unexpired(old(sessions), now)
    {
      var pending := sessions.Keys;
      var start := sessions;
      while pending != {}
        invariant pending <= start.Keys
        invariant sessions == map id | id in start && (id in pending || Unix(now) < start[id].grant.expiresAt) :: start[id]
        decreases pending
      {
        var id :| id in pending;
        if Unix(now) >= start[id].grant.expiresAt {
          sessions := sessions - {id};
        }
        pending := pending - {id};
      }
    }

    method TrackTicket(ticket: Bytes, now: Time) returns (session: Option<Session>)
      requires Valid()
      modifies this
      ensures Valid() && Value() == Track(trust, old(Value()), ticket, now)
      ensures session == if Trackable(trust, old(Value()), ticket, now) then HeldSession(trust, Value(), ticket, now) else None
    {
      if !isOpen {
        return None;
      }
      var verified := VerifyGrant(trust, ticket, now);
      if verified.None? || !Names(trust, verified.value) {
        return None;
      }
      var g := verified.value;
      if DeniedUntil(disk, g.sessionId) > Unix(now) {
        return None;
      }
      var reserved := Reserve(disk, Remote(trust, g));
      if reserved.None? {
        return None;
      }
      disk := reserved.value;
      DropExpired(now);
      if g.sessionId in sessions {
        var held := sessions[g.sessionId];
        return if held.ticket == ticket then Some(held) else None;
      }
      if |sessions| >= MAX_MANAGED_SESSIONS {
        return None;
      }
      var s := Session(g, ticket, Deadline(g.expiresAt, now), None);
      sessions := sessions[g.sessionId := s];
      session := Some(s);
    }

    method PruneDenied(now: Time) returns (denied: map<string, int>)
      requires Valid()
      ensures denied == Pruned(disk.denied, now) && |denied| <= |disk.denied|
    {
      denied := disk.denied;
      var pending := denied.Keys;
      while pending != {}
        invariant pending <= disk.denied.Keys && denied.Keys <= disk.denied.Keys
        invariant denied == map id | id in disk.denied && (id in pending || disk.denied[id] > Unix(now)) :: disk.denied[id]
        decreases pending
      {
        var id :| id in pending;
        if disk.denied[id] <= Unix(now) {
          denied := denied - {id};
        }
        pending := pending - {id};
      }
      SmallerKeys(denied, disk.denied);
    }

    method StopSession(id: string, now: Time) returns (ok: bool)
      requires Valid()
      modifies this
      ensures Valid() && Value() == Stop(old(Value()), id, now) && ok == CanStop(old(Value()), id, now)
    {
      var held := sessions;
      CloseAuthorizations();
      if !isOpen || id !in held {
        return false;
      }
      var denied := PruneDenied(now);
      if |denied| >= MAX_DENIED {
        return false;
      }
      disk := disk.(denied := denied[id := held[id].grant.expiresAt]);
      OneMoreKey(denied, id, held[id].grant.expiresAt);
      ok := true;
    }

    /** The entry check of a checkpoint; the listed identifiers if it passes. */
    method CheckEntries(p: Checkpoint) returns (listed: Option<set<string>>)
      ensures listed.Some? <==> EntriesMatch(trust, sessions, p)
      ensures listed.Some? ==> listed.value == Listed(p.allowed)
    {
      var seen: set<string> := {};
      for n := 0 to |p.allowed|
        invariant seen == Listed(p.allowed[..n])
        invariant EntriesMatch(trust, sessions, p.(allowed := p.allowed[..n]))
      {
        var e := p.allowed[n];
        assert p.allowed[..n + 1] == p.allowed[..n] + [e];
        if e.sessionId !in sessions || e.sessionId in seen || p.revision < sessions[e.sessionId].grant.revision ||
           e.ticketHash != trust.hash(sessions[e.sessionId].ticket) {
          assert p.allowed[n] == e;
          assert e.sessionId in seen ==> exists i :: 0 <= i < n && p.allowed[i].sessionId == e.sessionId;
          return None;
        }
        seen := seen + {e.sessionId};
      }
      assert p.allowed[..|p.allowed|] == p.allowed;
      listed := Some(seen);
    }

    /** A listed session that is still denied stops the checkpoint. */
    method AnyListedDenied(listed: set<string>, now: Time) returns (found: bool)
      ensures found <==> exists id :: id in sessions && id in listed && DeniedUntil(disk, id) > Unix(now)
    {
      var pending := sessions.Keys;
      while pending != {}
        invariant pending <= sessions.Keys
        invariant forall id :: id in sessions && id in listed && id !in pending ==> DeniedUntil(disk, id) <= Unix(now)
        decreases pending
      {
        var id :| id in pending;
        if id in listed && DeniedUntil(disk, id) > Unix(now) {
          return true;
        }
        pending := pending - {id};
      }
      found := false;
    }

    static method AddAll(base: map<string, int>, extra: map<string, int>) returns (r: map<string, int>)
      ensures r == base + extra
    {
      r := base;
      var pending := extra.Keys;
      while pending != {}
        invariant pending <= extra.Keys && r == base + map id | id in extra && id !in pending :: extra[id]
        decreases pending
      {
        var id :| id in pending;
        r := r[id := extra[id]];
        pending := pending - {id};
      }
    }

    /** The unexpired denials with the unlisted sessions added. */
    method DenyUnlisted(listed: set<string>, now: Time) returns (denied: map<string, int>)
      requires Valid()
      ensures denied == DeniedAfter(disk.denied, sessions, listed, now)
    {
      denied := PruneDenied(now);
      denied := AddAll(denied, map id | id in sessions && id !in listed :: sessions[id].grant.expiresAt);
    }

    method Authorize(p: Checkpoint, listed: set<string>, now: Time)
      requires listed == Listed(p.allowed)
      modifies this`sessions
      ensures sessions == Authorized(old(sessions), p, now)
    {
      var pending := sessions.Keys;
      var start := sessions;
      ghost var goal := Authorized(start, p, now);
      while pending != {}
        invariant pending <= start.Keys && sessions.Keys == start.Keys
        invariant forall id :: id in start ==> sessions[id] == if id in pending then start[id] else goal[id]
        decreases pending
      {
        var id :| id in pending;
        var s := start[id];
        var a := if id in listed then Some(Authorization(Min(Deadline(p.expiresAt, now), s.deadline), p.expiresAt)) else None;
        sessions := sessions[id := s.(authorization := a)];
        pending := pending - {id};
      }
    }

    method ApplyCheckpoint(raw: Bytes, now: Time) returns (ok: bool)
      requires Valid()
      modifies this
      ensures Valid() && Value() == Apply(trust, old(Value()), raw, now) && ok == Accepts(trust, old(Value()), raw, now)
    {
      ok := false;
      var policy := trust.openPolicy(raw);
      if !isOpen || policy.None? || !InScope(trust, policy.value, now) {
        CloseAuthorizations();
        return;
      }
      var p := policy.value;
      var listed := CheckEntries(p);
      if listed.None? || p.revision <= disk.revision || p.issuedAt < disk.issuedAt {
        CloseAuthorizations();
        return;
      }
      var blocked := AnyListedDenied(listed.value, now);
      var denied := DenyUnlisted(listed.value, now);
      if blocked || |denied| > MAX_DENIED {
        CloseAuthorizations();
        return;
      }
      disk := disk.(revision := p.revision, issuedAt := p.issuedAt, denied := denied);
      Authorize(p, listed.value, now);
      ok := true;
    }

    method FailAll()
      requires Valid()
      modifies this
      ensures Valid() && Value() == FailClosed(old(Value()))
    {
      CloseAuthorizations();
    }

    method Close()
      requires Valid()
      modifies this
      ensures Valid() && Value() == Closed(old(Value()))
    {
      CloseAuthorizations();
      isOpen := false;
    }
  }
}
