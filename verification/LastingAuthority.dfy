/**
 How long an accepted checkpoint authorizes. A session that it lists is active
 until the checkpoint or the ticket ends on either clock, and until a call ends
 all authority; nothing else makes it inactive.
 */
module LastingAuthority {
  import opened Basics
  import opened PolicyStore
  import opened PolicyHistory

  /** The moment lies within the ticket and the checkpoint, by the wall clock and by what was left of both on the monotonic clock. */
  predicate InTime(p: Checkpoint, accepted: Time, s: Session, now: Time) {
    s.grant.issuedAt <= Unix(now) < s.grant.expiresAt && Unix(now) < p.expiresAt &&
    now.mono - accepted.mono < p.expiresAt * SECOND - accepted.wall && now.mono < s.deadline
  }

  /** Right after an accepted checkpoint, a session is active at a moment if and only if it is listed and the moment is in time. */
  lemma AcceptedIsActiveIff(trust: Trust, s: State, raw: Bytes, at: Time, id: string, now: Time)
    requires Accepts(trust, s, raw, at) && id in s.sessions
    ensures var after, p := Apply(trust, s, raw, at), trust.openPolicy(raw).value;
            id in after.sessions &&
            (Active(after.sessions[id], now) <==>
             Entry(id, trust.hash(s.sessions[id].ticket)) in p.allowed && InTime(p, at, s.sessions[id], now))
  {
    var p := trust.openPolicy(raw).value;
    var named := Entry(id, trust.hash(s.sessions[id].ticket));
    assert id in Listed(p.allowed) <==> named in p.allowed by {
      if e :| e in p.allowed && e.sessionId == id {
        var i :| 0 <= i < |p.allowed| && p.allowed[i] == e;
        assert e == named;
      }
    }
  }

  // ---------------------------------------------------------------- later calls

  /** The call leaves the session's authority alone: it tracks a ticket, and if it takes that one the session's own has not expired. */
  predicate Spares(trust: Trust, s: State, step: Step, x: Session) {
    step.call.TrackCall? && (Trackable(trust, s, step.call.ticket, step.at) ==> Unix(step.at) < x.grant.expiresAt)
  }

  lemma SparingKeeps(trust: Trust, s: State, step: Step, id: string)
    requires id in s.sessions && Spares(trust, s, step, s.sessions[id])
    ensures id in After(trust, s, step).sessions && After(trust, s, step).sessions[id] == s.sessions[id]
  {
  }

  /** The session is gone or has no authority. */
  predicate Powerless(s: State, id: string) {
    id in s.sessions ==> s.sessions[id].authorization.None?
  }

  /** Any other call but an accepted checkpoint ends the session's authority. */
  lemma OtherCallEnds(trust: Trust, s: State, step: Step, id: string)
    requires id in s.sessions && !Spares(trust, s, step, s.sessions[id]) && !AcceptsNow(trust, s, step)
    ensures Powerless(After(trust, s, step), id)
  {
  }

  lemma StaysPowerless(trust: Trust, s: State, step: Step, id: string)
    requires Powerless(s, id) && !AcceptsNow(trust, s, step)
    ensures Powerless(After(trust, s, step), id)
  {
  }

  predicate NoneAccepted(trust: Trust, run: seq<Step>, i: nat) {
    forall k: nat :: i < k < |run| ==> !AcceptsNow(trust, Reach(trust, run[..k]), run[k])
  }

  predicate AllSpare(trust: Trust, run: seq<Step>, i: nat, x: Session) {
    forall k: nat :: i < k < |run| ==> Spares(trust, Reach(trust, run[..k]), run[k], x)
  }

  /** From the i-th call on without another acceptance, a session stays as it was while every call spares it, and is powerless otherwise. */
  lemma {:induction false} SparedOrPowerless(trust: Trust, run: seq<Step>, i: nat, id: string)
    requires i < |run| && NoneAccepted(trust, run, i) && id in Reach(trust, run[..i + 1]).sessions
    ensures var x := Reach(trust, run[..i + 1]).sessions[id];
            if AllSpare(trust, run, i, x) then Lookup(Reach(trust, run).sessions, id) == Some(x)
            else Powerless(Reach(trust, run), id)
  {
    hide After, Spares, AcceptsNow;
    var n := |run| - 1;
    if i == n {
      assert run[..i + 1] == run;
    } else {
      var x := Reach(trust, run[..i + 1]).sessions[id];
      var rest := run[..n];
      assert rest[..i + 1] == run[..i + 1];
      assert forall k :: 0 <= k < n ==> rest[..k] == run[..k];
      SparedOrPowerless(trust, rest, i, id);
      assert !AcceptsNow(trust, Reach(trust, rest), run[n]);
      assert AllSpare(trust, run, i, x) <==> AllSpare(trust, rest, i, x) && Spares(trust, Reach(trust, rest), run[n], x);
      if AllSpare(trust, rest, i, x) {
        if Spares(trust, Reach(trust, rest), run[n], x) {
          SparingKeeps(trust, Reach(trust, rest), run[n], id);
        } else {
          OtherCallEnds(trust, Reach(trust, rest), run[n], id);
        }
      } else {
        StaysPowerless(trust, Reach(trust, rest), run[n], id);
      }
    }
  }

  predicate ActiveIn(trust: Trust, run: seq<Step>, id: string, now: Time) {
    id in Reach(trust, run).sessions && Active(Reach(trust, run).sessions[id], now)
  }

  lemma ReachOneMore(trust: Trust, run: seq<Step>, i: nat)
    requires i < |run|
    ensures Reach(trust, run[..i + 1]) == After(trust, Reach(trust, run[..i]), run[i])
  {
    assert run[..i + 1][..i] == run[..i];
  }

  lemma SameGrant(trust: Trust, s: State, step: Step, id: string)
    requires AcceptsNow(trust, s, step) && id in s.sessions
    ensures id in After(trust, s, step).sessions && After(trust, s, step).sessions[id].grant == s.sessions[id].grant
  {
  }

  lemma SameSpared(trust: Trust, run: seq<Step>, i: nat, x: Session, y: Session)
    requires x.grant == y.grant
    ensures AllSpare(trust, run, i, x) <==> AllSpare(trust, run, i, y)
  {
  }

  /**
   Over every run, a session known when the last checkpoint was accepted is
   active if and only if that checkpoint lists it by hash, every later call spares
   it, and the moment is within ticket and checkpoint on both clocks.
   */
  lemma ActiveIff(trust: Trust, run: seq<Step>, i: nat, id: string, now: Time)
    requires AcceptedAt(trust, run, i) && NoneAccepted(trust, run, i) && id in Reach(trust, run[..i]).sessions
    ensures var x, p := Reach(trust, run[..i]).sessions[id], PolicyAt(trust, run, i);
            ActiveIn(trust, run, id, now) <==>
            Entry(id, trust.hash(x.ticket)) in p.allowed && AllSpare(trust, run, i, x) && InTime(p, run[i].at, x, now)
  {
    hide Reach, Accepts, Apply, NoneAccepted, InTime, Spares;
    var s := Reach(trust, run[..i]);
    ReachOneMore(trust, run, i);
    AcceptedIsActiveIff(trust, s, run[i].call.raw, run[i].at, id, now);
    SparedOrPowerless(trust, run, i, id);
    var x, y := s.sessions[id], Reach(trust, run[..i + 1]).sessions[id];
    SameGrant(trust, s, run[i], id);
    SameSpared(trust, run, i, x, y);
  }
}
