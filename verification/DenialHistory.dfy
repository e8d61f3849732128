/**
 Denials. A denial is kept on disk until its ticket has expired, and is pruned by
 the next call that rewrites the denials after that. A ticket can come back only
 if such a call ran and the wall clock was then set back before the expiry.
 */
module DenialHistory {
  import opened Basics
  import opened PolicyStore
  import opened PolicyHistory

  /** The call ends with a denial of the tracked ticket on disk. */
  predicate Denies(trust: Trust, s: State, step: Step, id: string, ticket: Bytes) {
    id in s.sessions && s.sessions[id].ticket == ticket &&
    match step.call
    case StopCall(x) => x == id && CanStop(s, id, step.at)
    case ApplyCall(raw) => Accepts(trust, s, raw, step.at) && id !in Listed(trust.openPolicy(raw).value.allowed)
    case _ => false
  }

  /** The call rewrites the denials on disk and leaves expired ones out. */
  predicate Prunes(trust: Trust, s: State, step: Step) {
    match step.call
    case StopCall(id) => CanStop(s, id, step.at)
    case ApplyCall(raw) => Accepts(trust, s, raw, step.at)
    case _ => false
  }

  /** Some call after the j-th pruned the denials at or past the second. */
  predicate PrunedPast(trust: Trust, run: seq<Step>, j: nat, second: int) {
    |run| > j + 1 &&
    var n := |run| - 1;
    (PrunedPast(trust, run[..n], j, second) ||
     (Prunes(trust, Reach(trust, run[..n]), run[n]) && second <= Unix(run[n].at)))
  }

  /**
   The ticket's denial stands, whatever is tracked under its identifier lives at
   least as long, and the ticket itself has no power.
   */
  predicate Shut(s: State, id: string, ticket: Bytes, expiry: int) {
    expiry <= DeniedUntil(s.disk, id) &&
    (id in s.sessions ==> expiry <= s.sessions[id].grant.expiresAt &&
                          (s.sessions[id].ticket == ticket ==> s.sessions[id].authorization.None?))
  }

  lemma DenialShuts(trust: Trust, s: State, step: Step, id: string, ticket: Bytes)
    requires Denies(trust, s, step, id, ticket)
    ensures Shut(After(trust, s, step), id, ticket, s.sessions[id].grant.expiresAt)
  {
  }

  lemma ApplyKeepsShut(trust: Trust, s: State, raw: Bytes, at: Time, id: string, ticket: Bytes, expiry: int)
    requires Shut(s, id, ticket, expiry) && (Accepts(trust, s, raw, at) ==> Unix(at) < expiry)
    ensures Shut(Apply(trust, s, raw, at), id, ticket, expiry)
  {
  }

  lemma TrackKeepsShut(trust: Trust, s: State, other: Bytes, at: Time, id: string, ticket: Bytes, expiry: int)
    requires Shut(s, id, ticket, expiry)
    ensures Shut(Track(trust, s, other, at), id, ticket, expiry)
  {
  }

  /** Whatever the clock says, only pruning past the expiry can reopen a denied ticket. */
  lemma ShutStaysShut(trust: Trust, s: State, step: Step, id: string, ticket: Bytes, expiry: int)
    requires Shut(s, id, ticket, expiry) && (Prunes(trust, s, step) ==> Unix(step.at) < expiry)
    ensures Shut(After(trust, s, step), id, ticket, expiry)
  {
    match step.call
    case ApplyCall(raw) => ApplyKeepsShut(trust, s, raw, step.at, id, ticket, expiry);
    case TrackCall(other) => TrackKeepsShut(trust, s, other, step.at, id, ticket, expiry);
    case _ =>
  }

  lemma {:induction false} DenialLasts(trust: Trust, run: seq<Step>, j: nat, id: string, ticket: Bytes)
    requires j < |run| && Denies(trust, Reach(trust, run[..j]), run[j], id, ticket)
    ensures var e := Reach(trust, run[..j]).sessions[id].grant.expiresAt;
            PrunedPast(trust, run, j, e) || Shut(Reach(trust, run), id, ticket, e)
  {
    var n := |run| - 1;
    var e := Reach(trust, run[..j]).sessions[id].grant.expiresAt;
    if j == n {
      DenialShuts(trust, Reach(trust, run[..j]), run[j], id, ticket);
    } else {
      assert run[..n][..j] == run[..j];
      DenialLasts(trust, run[..n], j, id, ticket);
      if !PrunedPast(trust, run, j, e) {
        ShutStaysShut(trust, Reach(trust, run[..n]), run[n], id, ticket, e);
      }
    }
  }

  ghost predicate TicketsSayTheirGrant(trust: Trust, s: State) {
    forall id :: id in s.sessions ==>
      trust.openGrant(s.sessions[id].ticket) == Some(s.sessions[id].grant) && s.sessions[id].grant.sessionId == id
  }

  lemma StepKeepsGrants(trust: Trust, s: State, step: Step)
    requires TicketsSayTheirGrant(trust, s)
    ensures TicketsSayTheirGrant(trust, After(trust, s, step))
  {
  }

  lemma {:induction false} TrackedTicketsSayTheirGrant(trust: Trust, run: seq<Step>)
    ensures TicketsSayTheirGrant(trust, Reach(trust, run))
  {
    if run != [] {
      TrackedTicketsSayTheirGrant(trust, run[..|run| - 1]);
      StepKeepsGrants(trust, Reach(trust, run[..|run| - 1]), run[|run| - 1]);
    }
  }

  ghost predicate ActiveAt(trust: Trust, run: seq<Step>, ticket: Bytes, now: Time) {
    exists id :: id in Reach(trust, run).sessions && Reach(trust, run).sessions[id].ticket == ticket &&
      Active(Reach(trust, run).sessions[id], now)
  }

  /**
   A ticket whose denial was persisted is never active again, not after a
   restart and not after the denial has been pruned, unless a call pruned it at
   or past its expiry and the wall clock was then set back to before that.
   */
  lemma DenialIsPermanent(trust: Trust, run: seq<Step>, j: nat, id: string, ticket: Bytes, now: Time)
    requires j < |run| && Denies(trust, Reach(trust, run[..j]), run[j], id, ticket) && ActiveAt(trust, run, ticket, now)
    ensures var g := Reach(trust, run[..j]).sessions[id].grant;
            PrunedPast(trust, run, j, g.expiresAt) && g.issuedAt <= Unix(now) < g.expiresAt
  {
    DenialLasts(trust, run, j, id, ticket);
    TrackedTicketsSayTheirGrant(trust, run);
    TrackedTicketsSayTheirGrant(trust, run[..j]);
  }

  // ---------------------------------------------------------------- every such clock revives a ticket

  /** After the j-th call, only calls at these two seconds prune. */
  predicate PrunesOnlyAt(trust: Trust, run: seq<Step>, j: nat, one: int, two: int) {
    |run| <= j + 1 ||
    (PrunesOnlyAt(trust, run[..|run| - 1], j, one, two) &&
     (Prunes(trust, Reach(trust, run[..|run| - 1]), run[|run| - 1]) ==>
        Unix(run[|run| - 1].at) == one || Unix(run[|run| - 1].at) == two))
  }

  lemma {:induction false} PrunedAtOneOf(trust: Trust, run: seq<Step>, j: nat, one: int, two: int, second: int)
    requires PrunesOnlyAt(trust, run, j, one, two) && PrunedPast(trust, run, j, second)
    ensures second <= one || second <= two
  {
    if PrunedPast(trust, run[..|run| - 1], j, second) {
      PrunedAtOneOf(trust, run[..|run| - 1], j, one, two, second);
    }
  }

  /** The run denies the ticket in its j-th call, prunes only at the two moments, and ends with the ticket active at the second. */
  ghost predicate Revival(trust: Trust, run: seq<Step>, j: nat, id: string, ticket: Bytes, pruned: Time, back: Time) {
    j < |run| && Denies(trust, Reach(trust, run[..j]), run[j], id, ticket) &&
    PrunesOnlyAt(trust, run, j, Unix(pruned), Unix(back)) && ActiveAt(trust, run, ticket, back)
  }

  /** A ticket that is good at one moment, another session good at a second, and a checkpoint for the ticket good at a third. */
  datatype Papers = Papers(ticket: Bytes, grant: Grant, other: Bytes, otherGrant: Grant, raw: Bytes, policy: Checkpoint)

  predicate GoodTicket(trust: Trust, ticket: Bytes, g: Grant, at: Time) {
    trust.openGrant(ticket) == Some(g) && GrantValid(g, at) && g.clusterId == trust.clusterId && Names(trust, g)
  }

  /** A checkpoint that lists the only tracked session, by its hash. */
  predicate ListsOnly(trust: Trust, p: Papers, at: Time) {
    trust.openPolicy(p.raw) == Some(p.policy) && InScope(trust, p.policy, at) &&
    p.policy.allowed == [Entry(p.grant.sessionId, trust.hash(p.ticket))] && p.grant.revision <= p.policy.revision
  }

  predicate InHand(trust: Trust, p: Papers, denied: Time, pruned: Time, back: Time) {
    GoodTicket(trust, p.ticket, p.grant, denied) && GoodTicket(trust, p.other, p.otherGrant, pruned) &&
    p.grant.sessionId != p.otherGrant.sessionId && ListsOnly(trust, p, back)
  }

  /** A store that was just opened, with little on disk. */
  predicate Sparse(s: State) {
    s.isOpen && s.sessions == map[] && |s.disk.reserved| < 4 && |s.disk.denied| < 4
  }

  lemma TracksFirst(trust: Trust, s: State, ticket: Bytes, g: Grant, at: Time)
    requires Sparse(s) && GoodTicket(trust, ticket, g, at) && DeniedUntil(s.disk, g.sessionId) <= Unix(at)
    ensures var t := Track(trust, s, ticket, at);
            t.isOpen && t.sessions == map[g.sessionId := Session(g, ticket, Deadline(g.expiresAt, at), None)] &&
            t.disk == s.disk.(reserved := t.disk.reserved) && |t.disk.reserved| <= |s.disk.reserved| + 1
  {
    assert Unexpired(map[], at) == map[];
  }

  lemma StopsOnly(s: State, id: string, at: Time)
    requires s.isOpen && s.sessions.Keys == {id} && |s.disk.denied| < 4
    ensures CanStop(s, id, at)
    ensures Reopened(Stop(s, id, at)) ==
      State(true, s.disk.(denied := Pruned(s.disk.denied, at)[id := s.sessions[id].grant.expiresAt]), map[])
    ensures |Pruned(s.disk.denied, at)[id := s.sessions[id].grant.expiresAt]| <= |s.disk.denied| + 1
  {
    SmallerKeys(Pruned(s.disk.denied, at), s.disk.denied);
    OneMoreKey(Pruned(s.disk.denied, at), id, s.sessions[id].grant.expiresAt);
  }

  function Only(p: Papers, at: Time): Sessions {
    map[p.grant.sessionId := Session(p.grant, p.ticket, Deadline(p.grant.expiresAt, at), None)]
  }

  lemma ListsOneEntry(trust: Trust, p: Papers, at: Time)
    requires ListsOnly(trust, p, at)
    ensures Listed(p.policy.allowed) == {p.grant.sessionId} && EntriesMatch(trust, Only(p, at), p.policy)
  {
    assert p.policy.allowed[0] in p.policy.allowed;
  }

  lemma NothingNewlyDenied(p: Papers, denied: map<string, int>, at: Time)
    requires |denied| < 4
    ensures |DeniedAfter(denied, Only(p, at), {p.grant.sessionId}, at)| < 4
  {
    assert DeniedAfter(denied, Only(p, at), {p.grant.sessionId}, at) == Pruned(denied, at);
    SmallerKeys(Pruned(denied, at), denied);
  }

  lemma AcceptsFirst(trust: Trust, s: State, p: Papers, at: Time)
    requires s.isOpen && s.disk.revision == 0 && s.disk.issuedAt == 0 && |s.disk.denied| < 4
    requires s.sessions == Only(p, at) && ListsOnly(trust, p, at) && DeniedUntil(s.disk, p.grant.sessionId) <= Unix(at)
    ensures Accepts(trust, s, p.raw, at) && Listed(p.policy.allowed) == {p.grant.sessionId}
  {
    ListsOneEntry(trust, p, at);
    NothingNewlyDenied(p, s.disk.denied, at);
  }

  lemma AuthorizedIsActive(p: Papers, at: Time)
    requires Listed(p.policy.allowed) == {p.grant.sessionId} && Unix(at) < p.policy.expiresAt
    requires p.grant.issuedAt <= Unix(at) < p.grant.expiresAt
    ensures var ss := Authorized(Only(p, at), p.policy, at);
            p.grant.sessionId in ss && ss[p.grant.sessionId].ticket == p.ticket && Active(ss[p.grant.sessionId], at)
  {
    DeadlineIsAhead(p.policy.expiresAt, at);
    DeadlineIsAhead(p.grant.expiresAt, at);
  }

  /** Such a checkpoint makes the session active. */
  lemma AppliesFirst(trust: Trust, s: State, p: Papers, at: Time)
    requires s.isOpen && s.disk.revision == 0 && s.disk.issuedAt == 0 && |s.disk.denied| < 4
    requires s.sessions == Only(p, at) && ListsOnly(trust, p, at) && DeniedUntil(s.disk, p.grant.sessionId) <= Unix(at)
    requires p.grant.issuedAt <= Unix(at) < p.grant.expiresAt
    ensures Accepts(trust, s, p.raw, at)
    ensures var t := Apply(trust, s, p.raw, at);
            p.grant.sessionId in t.sessions && t.sessions[p.grant.sessionId].ticket == p.ticket &&
            Active(t.sessions[p.grant.sessionId], at)
  {
    AcceptsFirst(trust, s, p, at);
    AuthorizedIsActive(p, at);
  }

  lemma OneMore(trust: Trust, run: seq<Step>, step: Step, j: nat, one: int, two: int)
    ensures Reach(trust, run + [step]) == After(trust, Reach(trust, run), step)
    ensures |run| <= j ==> PrunesOnlyAt(trust, run + [step], j, one, two)
    ensures PrunesOnlyAt(trust, run, j, one, two) &&
            (!Prunes(trust, Reach(trust, run), step) || Unix(step.at) == one || Unix(step.at) == two) ==>
              PrunesOnlyAt(trust, run + [step], j, one, two)
  {
    assert (run + [step])[..|run|] == run;
  }

  /** Track, Stop and restart: the store with one more denial. */
  lemma DeniesAndRestarts(trust: Trust, run: seq<Step>, ticket: Bytes, g: Grant, at: Time, j: nat, one: int, two: int)
    returns (more: seq<Step>)
    requires Sparse(Reach(trust, run)) && GoodTicket(trust, ticket, g, at)
    requires DeniedUntil(Reach(trust, run).disk, g.sessionId) <= Unix(at)
    requires PrunesOnlyAt(trust, run, j, one, two) && (Unix(at) == one || Unix(at) == two || |run| + 1 <= j)
    ensures more == run + [Step(TrackCall(ticket), at)] + [Step(StopCall(g.sessionId), at)] + [Step(ReopenCall, at)]
    ensures PrunesOnlyAt(trust, more, j, one, two)
    ensures Denies(trust, Reach(trust, run + [Step(TrackCall(ticket), at)]), Step(StopCall(g.sessionId), at), g.sessionId, ticket)
    ensures var d, e := Reach(trust, run).disk, Reach(trust, more).disk;
            Reach(trust, more) == State(true, e, map[]) && |e.reserved| <= |d.reserved| + 1 && |e.denied| <= |d.denied| + 1 &&
            e == Disk(d.revision, d.issuedAt, Pruned(d.denied, at)[g.sessionId := g.expiresAt], e.reserved)
  {
    var track, stop, reopen := Step(TrackCall(ticket), at), Step(StopCall(g.sessionId), at), Step(ReopenCall, at);
    TracksFirst(trust, Reach(trust, run), ticket, g, at);
    OneMore(trust, run, track, j, one, two);
    StopsOnly(Reach(trust, run + [track]), g.sessionId, at);
    OneMore(trust, run + [track], stop, j, one, two);
    OneMore(trust, run + [track] + [stop], reopen, j, one, two);
    more := run + [track] + [stop] + [reopen];
  }

  lemma RevivesAt(trust: Trust, run: seq<Step>, p: Papers, back: Time, one: int) returns (more: seq<Step>)
    requires Sparse(Reach(trust, run)) && Reach(trust, run).disk.revision == 0 && Reach(trust, run).disk.issuedAt == 0
    requires DeniedUntil(Reach(trust, run).disk, p.grant.sessionId) == 0 && PrunesOnlyAt(trust, run, 1, one, Unix(back))
    requires GoodTicket(trust, p.ticket, p.grant, back) && ListsOnly(trust, p, back)
    ensures more == run + [Step(TrackCall(p.ticket), back)] + [Step(ApplyCall(p.raw), back)]
    ensures PrunesOnlyAt(trust, more, 1, one, Unix(back)) && ActiveAt(trust, more, p.ticket, back)
  {
    var track, apply := Step(TrackCall(p.ticket), back), Step(ApplyCall(p.raw), back);
    TracksFirst(trust, Reach(trust, run), p.ticket, p.grant, back);
    OneMore(trust, run, track, 1, one, Unix(back));
    AppliesFirst(trust, Reach(trust, run + [track]), p, back);
    OneMore(trust, run + [track], apply, 1, one, Unix(back));
    more := run + [track] + [apply];
  }

  /** A young store after its first denial and a restart. */
  ghost predicate DeniedOnce(trust: Trust, run: seq<Step>, p: Papers, one: int, two: int) {
    Reach(trust, run).disk.denied == map[p.grant.sessionId := p.grant.expiresAt] && Sparse(Reach(trust, run)) &&
    |Reach(trust, run).disk.reserved| <= 1 && Reach(trust, run).disk.revision == 0 && Reach(trust, run).disk.issuedAt == 0 &&
    PrunesOnlyAt(trust, run, 1, one, two)
  }

  lemma FirstDenial(trust: Trust, p: Papers, denied: Time, one: int, two: int) returns (run: seq<Step>)
    requires GoodTicket(trust, p.ticket, p.grant, denied)
    ensures var track, stop := Step(TrackCall(p.ticket), denied), Step(StopCall(p.grant.sessionId), denied);
            run == [track, stop, Step(ReopenCall, denied)] && Denies(trust, Reach(trust, [track]), stop, p.grant.sessionId, p.ticket)
    ensures DeniedOnce(trust, run, p, one, two)
  {
    var none: seq<Step> := [];
    assert Reach(trust, none) == State(true, EMPTY_DISK, map[]);
    hide Reach, Prunes, Denies, GrantValid;
    assert Pruned(map[], denied) == map[];
    run := DeniesAndRestarts(trust, none, p.ticket, p.grant, denied, 1, one, two);
    assert none + [Step(TrackCall(p.ticket), denied)] == [Step(TrackCall(p.ticket), denied)];
  }

  /** Stopping another session past the expiry prunes the denial. */
  lemma SecondDenial(trust: Trust, run: seq<Step>, p: Papers, pruned: Time, two: int) returns (more: seq<Step>)
    requires DeniedOnce(trust, run, p, Unix(pruned), two) && GoodTicket(trust, p.other, p.otherGrant, pruned)
    requires p.grant.sessionId != p.otherGrant.sessionId && p.grant.expiresAt <= Unix(pruned)
    ensures run <= more && Sparse(Reach(trust, more)) && PrunesOnlyAt(trust, more, 1, Unix(pruned), two)
    ensures var d := Reach(trust, more).disk; d.revision == 0 && d.issuedAt == 0 && DeniedUntil(d, p.grant.sessionId) == 0
  {
    hide Reach, Prunes, Denies, PrunesOnlyAt;
    assert Pruned(Reach(trust, run).disk.denied, pruned) == map[];
    more := DeniesAndRestarts(trust, run, p.other, p.otherGrant, pruned, 1, Unix(pruned), two);
  }

  /** A denial pruned past the expiry, and a clock set back before it: the ticket is active again. */
  lemma SetBackClockRevives(trust: Trust, p: Papers, denied: Time, pruned: Time, back: Time) returns (run: seq<Step>)
    requires InHand(trust, p, denied, pruned, back)
    requires p.grant.expiresAt <= Unix(pruned) && p.grant.issuedAt <= Unix(back) < p.grant.expiresAt
    ensures Revival(trust, run, 1, p.grant.sessionId, p.ticket, pruned, back)
  {
    hide Reach, Prunes, Denies, PrunesOnlyAt, ActiveAt, Sparse, DeniedOnce, ListsOnly;
    var first := FirstDenial(trust, p, denied, Unix(pruned), Unix(back));
    var second := SecondDenial(trust, first, p, pruned, Unix(back));
    run := RevivesAt(trust, second, p, back, Unix(pruned));
    assert run[..1] == [first[0]] && run[1] == first[1];
  }

  /**
   A denied ticket can be active at one moment, after a run that prunes only at
   that moment and another, if and only if the other is at or past the ticket's
   expiry and the clock is back within its lifetime.
   */
  lemma RevivedIffSetBack(trust: Trust, p: Papers, denied: Time, pruned: Time, back: Time)
    requires InHand(trust, p, denied, pruned, back)
    ensures (exists run, j: nat :: Revival(trust, run, j, p.grant.sessionId, p.ticket, pruned, back)) <==>
            p.grant.expiresAt <= Unix(pruned) && p.grant.issuedAt <= Unix(back) < p.grant.expiresAt
  {
    if p.grant.expiresAt <= Unix(pruned) && p.grant.issuedAt <= Unix(back) < p.grant.expiresAt {
      var run := SetBackClockRevives(trust, p, denied, pruned, back);
    }
    forall run, j: nat | Revival(trust, run, j, p.grant.sessionId, p.ticket, pruned, back)
      ensures p.grant.expiresAt <= Unix(pruned) && p.grant.issuedAt <= Unix(back) < p.grant.expiresAt
    {
      DenialIsPermanent(trust, run, j, p.grant.sessionId, p.ticket, back);
      TrackedTicketsSayTheirGrant(trust, run[..j]);
      PrunedAtOneOf(trust, run, j, Unix(pruned), Unix(back), p.grant.expiresAt);
    }
  }
}
