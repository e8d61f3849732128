/** What a Device's peer-to-peer authority keeps over every run of its operations, restarts included. */
module PolicyHistory {
  import opened Basics
  import opened PolicyStore
  import opened Ipv4

  datatype Call = TrackCall(ticket: Bytes) | ApplyCall(raw: Bytes) | StopCall(id: string) | FailCall | CloseCall | ReopenCall

  datatype Step = Step(call: Call, at: Time)

  function After(trust: Trust, s: State, step: Step): State {
    match step.call
    case TrackCall(ticket) => Track(trust, s, ticket, step.at)
    case ApplyCall(raw) => Apply(trust, s, raw, step.at)
    case StopCall(id) => Stop(s, id, step.at)
    case FailCall => FailClosed(s)
    case CloseCall => Closed(s)
    case ReopenCall => Reopened(s)
  }

  function Reach(trust: Trust, run: seq<Step>): State {
    if run == [] then State(true, EMPTY_DISK, map[]) else After(trust, Reach(trust, run[..|run| - 1]), run[|run| - 1])
  }

  /** The i-th call is a checkpoint that the store accepted. */
  predicate AcceptedAt(trust: Trust, run: seq<Step>, i: nat) {
    i < |run| && run[i].call.ApplyCall? && Accepts(trust, Reach(trust, run[..i]), run[i].call.raw, run[i].at)
  }

  function PolicyAt(trust: Trust, run: seq<Step>, i: nat): Checkpoint
    requires AcceptedAt(trust, run, i)
  {
    trust.openPolicy(run[i].call.raw).value
  }

  // ---------------------------------------------------------------- revisions

  lemma {:induction false} RevisionFloorGrows(trust: Trust, run: seq<Step>, i: nat)
    requires i <= |run|
    ensures Reach(trust, run[..i]).disk.revision <= Reach(trust, run).disk.revision
  {
    if i == |run| {
      assert run[..i] == run;
    } else {
      assert run[..|run| - 1][..i] == run[..i];
      RevisionFloorGrows(trust, run[..|run| - 1], i);
    }
  }

  /** Accepted checkpoint revisions strictly increase, across restarts too. */
  lemma RevisionsStrictlyIncrease(trust: Trust, run: seq<Step>, i: nat, j: nat)
    requires i < j && AcceptedAt(trust, run, i) && AcceptedAt(trust, run, j)
    ensures PolicyAt(trust, run, i).revision < PolicyAt(trust, run, j).revision
  {
    assert run[..i + 1][..i] == run[..i];
    assert Reach(trust, run[..i + 1]).disk.revision == PolicyAt(trust, run, i).revision;
    assert run[..j][..i + 1] == run[..i + 1];
    RevisionFloorGrows(trust, run[..j], i + 1);
  }

  // ---------------------------------------------------------------- recent authority

  /** The checkpoint p, accepted at that time, lists the session by the hash of its ticket. */
  predicate Justifies(trust: Trust, p: Checkpoint, at: Time, id: string, s: Session) {
    Entry(id, trust.hash(s.ticket)) in p.allowed &&
    s.authorization.Some? && s.authorization.value.deadline <= at.mono + MAX_POLICY * SECOND
  }

  /** Every authorization in the state goes back to one accepted checkpoint. */
  ghost predicate AllJustified(trust: Trust, s: State, p: Checkpoint, at: Time) {
    forall id :: id in s.sessions && s.sessions[id].authorization.Some? ==> Justifies(trust, p, at, id, s.sessions[id])
  }

  lemma LeaseIsShort(p: Checkpoint, at: Time)
    requires p.issuedAt <= Unix(at) && p.expiresAt - p.issuedAt <= MAX_POLICY
    ensures Deadline(p.expiresAt, at) <= at.mono + MAX_POLICY * SECOND
  {
    assert Unix(at) * SECOND <= at.wall;
  }

  lemma AcceptedJustifies(trust: Trust, s: State, raw: Bytes, at: Time)
    requires Accepts(trust, s, raw, at)
    ensures AllJustified(trust, Apply(trust, s, raw, at), trust.openPolicy(raw).value, at)
  {
    var p := trust.openPolicy(raw).value;
    var after := Apply(trust, s, raw, at);
    forall id | id in after.sessions && after.sessions[id].authorization.Some?
      ensures Justifies(trust, p, at, id, after.sessions[id])
    {
      var e :| e in p.allowed && e.sessionId == id;
      var i :| 0 <= i < |p.allowed| && p.allowed[i] == e;
      assert e == Entry(id, trust.hash(s.sessions[id].ticket));
      LeaseIsShort(p, at);
    }
  }

  /** Any other call keeps or withdraws authorizations; it creates none. */
  lemma OtherCallsKeepJustified(trust: Trust, s: State, step: Step, p: Checkpoint, at: Time)
    requires AllJustified(trust, s, p, at)
    requires step.call.ApplyCall? ==> !Accepts(trust, s, step.call.raw, step.at)
    ensures AllJustified(trust, After(trust, s, step), p, at)
  {
  }

  datatype Acceptance = Acceptance(policy: Checkpoint, at: Time)

  predicate AcceptsNow(trust: Trust, s: State, step: Step) {
    step.call.ApplyCall? && Accepts(trust, s, step.call.raw, step.at)
  }

  /** The last checkpoint that the run accepted, and when. */
  function LastAccepted(trust: Trust, run: seq<Step>): Option<Acceptance> {
    if run == [] then None
    else
      var n := |run| - 1;
      if AcceptsNow(trust, Reach(trust, run[..n]), run[n])
      then Some(Acceptance(trust.openPolicy(run[n].call.raw).value, run[n].at)) else LastAccepted(trust, run[..n])
  }

  ghost predicate NoneAuthorized(s: State) {
    forall id :: id in s.sessions ==> s.sessions[id].authorization.None?
  }

  lemma NothingAuthorizes(trust: Trust, s: State, step: Step)
    requires NoneAuthorized(s) && (step.call.ApplyCall? ==> !Accepts(trust, s, step.call.raw, step.at))
    ensures NoneAuthorized(After(trust, s, step))
  {
  }

  ghost predicate Traced(trust: Trust, s: State, last: Option<Acceptance>) {
    NoneAuthorized(s) || (last.Some? && AllJustified(trust, s, last.value.policy, last.value.at))
  }

  lemma TraceOneMore(trust: Trust, s: State, last: Option<Acceptance>, step: Step)
    requires Traced(trust, s, last)
    ensures Traced(trust, After(trust, s, step),
                   if AcceptsNow(trust, s, step) then Some(Acceptance(trust.openPolicy(step.call.raw).value, step.at)) else last)
  {
    if AcceptsNow(trust, s, step) {
      AcceptedJustifies(trust, s, step.call.raw, step.at);
    } else if NoneAuthorized(s) {
      NothingAuthorizes(trust, s, step);
    } else {
      OtherCallsKeepJustified(trust, s, step, last.value.policy, last.value.at);
    }
  }

  /** In every reachable state every authorization goes back to the last accepted checkpoint. */
  lemma {:induction false} AuthorityIsTraced(trust: Trust, run: seq<Step>)
    ensures Traced(trust, Reach(trust, run), LastAccepted(trust, run))
  {
    if run != [] {
      var n := |run| - 1;
      AuthorityIsTraced(trust, run[..n]);
      TraceOneMore(trust, Reach(trust, run[..n]), LastAccepted(trust, run[..n]), run[n]);
    }
  }

  lemma JustifiedIsRecent(trust: Trust, s: State, last: Option<Acceptance>, id: string, now: Time)
    requires Traced(trust, s, last) && id in s.sessions && Active(s.sessions[id], now)
    ensures last.Some? && now.mono - last.value.at.mono < MAX_POLICY * SECOND
    ensures Entry(id, trust.hash(s.sessions[id].ticket)) in last.value.policy.allowed
  {
    assert Justifies(trust, last.value.policy, last.value.at, id, s.sessions[id]);
  }

  /**
   A session that is active was listed, by the hash of its own ticket, in the
   last accepted checkpoint, and that was accepted less than 30 seconds ago on
   the monotonic clock, whatever the wall clock did.
   */
  lemma ActiveMeansRecentlyAllowed(trust: Trust, run: seq<Step>, id: string, now: Time)
    requires id in Reach(trust, run).sessions && Active(Reach(trust, run).sessions[id], now)
    ensures LastAccepted(trust, run).Some? && now.mono - LastAccepted(trust, run).value.at.mono < MAX_POLICY * SECOND
    ensures Entry(id, trust.hash(Reach(trust, run).sessions[id].ticket)) in LastAccepted(trust, run).value.policy.allowed
  {
    AuthorityIsTraced(trust, run);
    JustifiedIsRecent(trust, Reach(trust, run), LastAccepted(trust, run), id, now);
  }

  // ---------------------------------------------------------------- lasting authority

  /** The step tracked the session: it had the ticket, and the deadline is when the ticket ends by the clocks of that moment. */
  predicate TrackedBy(trust: Trust, step: Step, id: string, s: Session) {
    step.call == TrackCall(s.ticket) && trust.openGrant(s.ticket) == Some(s.grant) && s.grant.sessionId == id &&
    s.deadline - step.at.mono == s.grant.expiresAt * SECOND - step.at.wall
  }

  ghost predicate WasTracked(trust: Trust, run: seq<Step>, id: string, s: Session) {
    exists i :: 0 <= i < |run| && TrackedBy(trust, run[i], id, s)
  }

  lemma StepTracks(trust: Trust, s: State, step: Step, id: string)
    requires id in After(trust, s, step).sessions
    ensures var x := After(trust, s, step).sessions[id];
            TrackedBy(trust, step, id, x) ||
            (id in s.sessions && x.(authorization := None) == s.sessions[id].(authorization := None))
  {
  }

  lemma SameTracking(trust: Trust, step: Step, id: string, x: Session, y: Session)
    requires x.(authorization := None) == y.(authorization := None) && TrackedBy(trust, step, id, y)
    ensures TrackedBy(trust, step, id, x)
  {
  }

  /** In every reachable state every session was tracked by a call with its ticket, and ends by the clocks of that call. */
  lemma {:induction false} SessionsWereTracked(trust: Trust, run: seq<Step>, id: string)
    requires id in Reach(trust, run).sessions
    ensures WasTracked(trust, run, id, Reach(trust, run).sessions[id])
  {
    hide After, TrackedBy;
    var n := |run| - 1;
    var x := Reach(trust, run).sessions[id];
    StepTracks(trust, Reach(trust, run[..n]), run[n], id);
    if !TrackedBy(trust, run[n], id, x) {
      SessionsWereTracked(trust, run[..n], id);
      var y := Reach(trust, run[..n]).sessions[id];
      var i :| 0 <= i < n && TrackedBy(trust, run[..n][i], id, y);
      SameTracking(trust, run[i], id, x, y);
    }
  }

  // ---------------------------------------------------------------- genuine sessions and checkpoints

  /** A ticket of this cluster for this Device and another one of the same user, both with private addresses, within its minute. */
  predicate GenuineTicket(trust: Trust, g: Grant, at: Time) {
    g.clusterId == trust.clusterId && (g.first.deviceId == trust.deviceId || g.second.deviceId == trust.deviceId) &&
    g.first.deviceId != g.second.deviceId && g.first.userId == g.second.userId && g.first.address != g.second.address &&
    IsPrivate(g.first.address) && IsPrivate(g.second.address) &&
    0 < g.issuedAt <= Unix(at) < g.expiresAt <= g.issuedAt + 60 && g.revision > 0
  }

  ghost predicate WasGenuine(trust: Trust, run: seq<Step>, s: Session) {
    exists i :: 0 <= i < |run| && run[i].call == TrackCall(s.ticket) && GenuineTicket(trust, s.grant, run[i].at)
  }

  lemma StepIsGenuine(trust: Trust, s: State, step: Step, id: string)
    requires id in After(trust, s, step).sessions
    ensures var x := After(trust, s, step).sessions[id];
            (step.call == TrackCall(x.ticket) && GenuineTicket(trust, x.grant, step.at)) ||
            (id in s.sessions && x.ticket == s.sessions[id].ticket && x.grant == s.sessions[id].grant)
  {
  }

  /** In every reachable state every session has a ticket that was genuine when it was tracked. */
  lemma {:induction false} SessionsAreGenuine(trust: Trust, run: seq<Step>, id: string)
    requires id in Reach(trust, run).sessions
    ensures WasGenuine(trust, run, Reach(trust, run).sessions[id])
  {
    hide After, GenuineTicket;
    var n := |run| - 1;
    var x := Reach(trust, run).sessions[id];
    StepIsGenuine(trust, Reach(trust, run[..n]), run[n], id);
    if !(run[n].call == TrackCall(x.ticket) && GenuineTicket(trust, x.grant, run[n].at)) {
      SessionsAreGenuine(trust, run[..n], id);
      var i :| 0 <= i < n && run[..n][i].call == TrackCall(x.ticket) && GenuineTicket(trust, x.grant, run[..n][i].at);
      assert run[i] == run[..n][i];
    }
  }

  /** An accepted checkpoint is for this cluster and Device, within its half minute, and newer than every ticket it lists. */
  lemma AcceptedIsGenuine(trust: Trust, run: seq<Step>, i: nat)
    requires AcceptedAt(trust, run, i)
    ensures var p, at, ss := PolicyAt(trust, run, i), run[i].at, Reach(trust, run[..i]).sessions;
            p.clusterId == trust.clusterId && p.deviceId == trust.deviceId && 0 < p.issuedAt <= Unix(at) < p.expiresAt <= p.issuedAt + 30 &&
            |p.allowed| <= 16 && forall e :: e in p.allowed ==> e.sessionId in ss && ss[e.sessionId].grant.revision <= p.revision
  {
    hide Reach;
  }

  // ---------------------------------------------------------------- bounds

  ghost predicate WithinBounds(s: State) {
    |s.sessions| <= 16 && |s.disk.reserved| <= 16
  }

  lemma StepStaysWithinBounds(trust: Trust, s: State, step: Step)
    requires WithinBounds(s)
    ensures WithinBounds(After(trust, s, step))
  {
    SmallerKeys(Unexpired(s.sessions, step.at), s.sessions);
    SmallerKeys(Unauthorized(s.sessions), s.sessions);
    if AcceptsNow(trust, s, step) {
      SmallerKeys(After(trust, s, step).sessions, s.sessions);
    }
    if step.call.TrackCall? && Trackable(trust, s, step.call.ticket, step.at) {
      var g := VerifyGrant(trust, step.call.ticket, step.at).value;
      OneMoreKey(Unexpired(s.sessions, step.at), g.sessionId, Session(g, step.call.ticket, Deadline(g.expiresAt, step.at), None));
    }
  }

  /** Over every run at most 16 sessions are tracked and at most 16 addresses reserved. */
  lemma {:induction false} StoreIsBounded(trust: Trust, run: seq<Step>)
    ensures WithinBounds(Reach(trust, run))
  {
    hide After;
    if run != [] {
      StoreIsBounded(trust, run[..|run| - 1]);
      StepStaysWithinBounds(trust, Reach(trust, run[..|run| - 1]), run[|run| - 1]);
    }
  }

  function PeerAddress(trust: Trust, g: Grant): Addr {
    if g.first.deviceId == trust.deviceId then g.second.address else g.first.address
  }

  /** Every tracked session's peer has its address reserved on disk. */
  ghost predicate PeersReserved(trust: Trust, s: State) {
    forall id :: id in s.sessions ==> PeerAddress(trust, s.sessions[id].grant) in s.disk.reserved
  }

  lemma ReservationsStay(trust: Trust, s: State, step: Step)
    ensures s.disk.reserved <= After(trust, s, step).disk.reserved
  {
  }

  lemma TrackedIsReserved(trust: Trust, s: State, step: Step, id: string)
    requires id in After(trust, s, step).sessions
    ensures var x := After(trust, s, step).sessions[id].grant;
            PeerAddress(trust, x) in After(trust, s, step).disk.reserved || (id in s.sessions && x == s.sessions[id].grant)
  {
  }

  lemma StepKeepsReserved(trust: Trust, s: State, step: Step)
    requires PeersReserved(trust, s)
    ensures PeersReserved(trust, After(trust, s, step))
  {
    hide After, PeerAddress;
    ReservationsStay(trust, s, step);
    forall id | id in After(trust, s, step).sessions
      ensures PeerAddress(trust, After(trust, s, step).sessions[id].grant) in After(trust, s, step).disk.reserved
    {
      TrackedIsReserved(trust, s, step, id);
    }
  }

  lemma NothingToReserve(trust: Trust)
    ensures PeersReserved(trust, Reach(trust, []))
  {
  }

  lemma {:induction false} PeersAreReserved(trust: Trust, run: seq<Step>)
    ensures PeersReserved(trust, Reach(trust, run))
  {
    hide After, PeersReserved;
    if run != [] {
      PeersAreReserved(trust, run[..|run| - 1]);
      StepKeepsReserved(trust, Reach(trust, run[..|run| - 1]), run[|run| - 1]);
    } else {
      NothingToReserve(trust);
    }
  }
}
