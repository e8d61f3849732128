/**
 When path selection switches. For a call that finds the current path viable,
 the switch is decided by the offers and times of the history alone: how long the
 best path has led, when the last switch was and when the best path recovered.
 */
module SwitchTiming {
  import opened Basics
  import opened PathSelection
  import opened SelectionHistory

  // ---------------------------------------------------------------- what the bookkeeping stands for

  /** While a path is current, the recorded switch time is that of some switch. */
  lemma {:induction false} LastSwitchHappened(h: seq<Event>, ss: seq<Selection>, n: nat)
    requires Summarized(h, ss) && n <= |h| && ss[n].currentId != ""
    ensures exists m: nat :: m < n && Switch(h, ss, m) && h[m].now == ss[n].lastSwitch
  {
    assert Summary(ss[n - 1], h[n - 1], ss[n]);
    if Switch(h, ss, n - 1) {
      assert h[n - 1].now == ss[n].lastSwitch;
    } else {
      LastSwitchHappened(h, ss, n - 1);
    }
  }

  /** A recovery on record happened, and no update since took it away. */
  lemma {:induction false} RecordedRecoveryHappened(h: seq<Event>, ss: seq<Selection>, n: nat, id: string)
    requires Summarized(h, ss) && n <= |h| && RecoveredAt(ss[n], id) != 0
    ensures exists m: nat :: m < n && RecoveredIn(h, ss, m, id) && Retained(h, ss, m, n, id) && h[m].now == RecoveredAt(ss[n], id)
  {
    var k := n - 1;
    assert Summary(ss[k], h[k], ss[n]);
    if h[k].Call? && Recovers(SeenIn(ss[k], id), Flags(h[k].offers, id)) {
      AvailabilityIsLastSeen(h, ss, k, id);
      assert RecoveredIn(h, ss, k, id) && Retained(h, ss, k, n, id);
    } else {
      RecordedRecoveryHappened(h, ss, k, id);
      var m: nat :| m < k && RecoveredIn(h, ss, m, id) && Retained(h, ss, m, k, id) && h[m].now == RecoveredAt(ss[k], id);
      assert Retained(h, ss, m, n, id);
    }
  }

  // ---------------------------------------------------------------- when a switch is due

  /** Call c came after the cooldown of every earlier switch. */
  predicate Cooled(h: seq<Event>, ss: seq<Selection>, c: nat)
    requires |ss| == |h| + 1 && c < |h| && h[c].Call?
  {
    forall m :: 0 <= m < c && Switch(h, ss, m) ==> h[c].now - h[m].now >= COOLDOWN
  }

  /** Nothing ended or changed the choice from c to n, and the path led the current one in every call. */
  predicate LedFrom(h: seq<Event>, ss: seq<Selection>, c: nat, n: nat, id: string)
    requires |ss| == |h| + 1
  {
    c < n < |h| && (forall k :: c <= k < n ==> !Switch(h, ss, k) && !Reset(h, ss, k)) &&
    forall k :: c <= k <= n && h[k].Call? ==> Leads(ss[k], h[k], id)
  }

  /** The path has led for 5 s from a call that was past the cooldown. */
  ghost predicate LongLed(h: seq<Event>, ss: seq<Selection>, n: nat, id: string)
    requires |ss| == |h| + 1 && n < |h| && h[n].Call?
  {
    exists c: nat :: LedFrom(h, ss, c, n, id) && h[c].Call? && Cooled(h, ss, c) && h[n].now - h[c].now >= STABLE
  }

  /** Every recovery of the path that no update took away is 10 s old. */
  ghost predicate Settled(h: seq<Event>, ss: seq<Selection>, n: nat, id: string)
    requires |ss| == |h| + 1 && n < |h| && h[n].Call?
  {
    forall m: nat :: m <= n && RecoveredIn(h, ss, m, id) && Retained(h, ss, m, n, id) ==> h[n].now - h[m].now >= COOLDOWN
  }

  // ---------------------------------------------------------------- the guard of the switch

  /** One call: with a viable current path it switches to a path exactly when that one is a stable candidate past every delay. */
  lemma SwitchesWhen(s: Selection, ev: Event, id: string)
    requires CurrentViable(s, ev) && s.currentId != id
    ensures After(s, ev).currentId == id <==>
      Leads(s, ev, id) && ev.now - s.lastSwitch >= COOLDOWN && s.candidateId == id && ev.now - s.candidateSince >= STABLE &&
      !Recovering(s.(availability := Observe(s.availability, ev.offers, ev.now)), id, ev.now)
  {
  }

  /** A call in which a path leads past the cooldown makes it the candidate, or keeps it one, or switches to it. */
  lemma LeaderStands(s: Selection, ev: Event, id: string)
    requires Leads(s, ev, id) && id != s.currentId && ev.now - s.lastSwitch >= COOLDOWN && After(s, ev).currentId == s.currentId
    ensures After(s, ev).candidateId == id
    ensures After(s, ev).candidateSince == if s.candidateId == id then s.candidateSince else ev.now
  {
  }

  lemma BestIsNoWorse(offers: seq<Offer>, id: string)
    requires Pick(offers, None).Some? && Pick(offers, Some(id)).Some?
    ensures Pick(offers, None).value.id == id ==> Pick(offers, Some(id)).value.score.value <= Pick(offers, None).value.score.value
  {
    var best := Pick(offers, None).value;
    var i :| 0 <= i < |offers| && offers[i] == best;
    assert best.id == id ==> Considered(offers[i], Some(id));
  }

  lemma LeaderIsOther(s: Selection, ev: Event, id: string)
    requires Leads(s, ev, id)
    ensures id != s.currentId && CurrentViable(s, ev)
  {
    BestIsNoWorse(ev.offers, s.currentId);
  }

  lemma CandidateIsPast(h: seq<Event>, ss: seq<Selection>, n: nat)
    requires Summarized(h, ss) && Timely(h) && n < |h| && h[n].Call? && ss[n].candidateId != ""
    ensures ss[n].candidateSince <= h[n].now
  {
    var c := CandidateHasLed(h, ss, n);
  }

  lemma LeaderIsNamed(s: Selection, ev: Event, id: string)
    requires Leads(s, ev, id) && forall k :: 0 <= k < |ev.offers| ==> ev.offers[k].id != ""
    ensures id != "" && s.currentId != ""
  {
    ViableIsNamed(s, ev);
    var i :| 0 <= i < |ev.offers| && ev.offers[i] == Pick(ev.offers, None).value;
  }

  lemma LedOneMore(h: seq<Event>, ss: seq<Selection>, k: nat, id: string)
    requires History(h, ss) && Summarized(h, ss) && k < |h| && !Switch(h, ss, k) && !Reset(h, ss, k)
    requires h[k].Call? ==> Leads(ss[k], h[k], id) && h[k].now - ss[k].lastSwitch >= COOLDOWN
    ensures ss[k + 1].lastSwitch == ss[k].lastSwitch
    ensures h[k].Update? ==> SameCandidate(ss[k], ss[k + 1])
    ensures h[k].Call? ==> ss[k + 1].candidateId == id &&
                           ss[k + 1].candidateSince == if ss[k].candidateId == id then ss[k].candidateSince else h[k].now
  {
    assert Summary(ss[k], h[k], ss[k + 1]);
    if h[k].Call? {
      hide Leads;
      LeaderIsOther(ss[k], h[k], id);
      LeaderStands(ss[k], h[k], id);
    }
  }

  /** A path that has led from call c on, past the cooldown, is the candidate from then or before. */
  lemma {:induction false} LedMeansStanding(h: seq<Event>, ss: seq<Selection>, c: nat, n: nat, id: string)
    requires History(h, ss) && Timely(h) && Summarized(h, ss) && LedFrom(h, ss, c, n, id) && h[c].Call?
    requires h[c].now - ss[c].lastSwitch >= COOLDOWN
    ensures ss[n].candidateId == id && ss[n].candidateSince <= h[c].now && ss[n].lastSwitch == ss[c].lastSwitch
    decreases n
  {
    hide Leads, Switch, Reset;
    var k := n - 1;
    if k > c {
      LedMeansStanding(h, ss, c, k, id);
    } else {
      LeaderIsNamed(ss[c], h[c], id);
      if ss[c].candidateId == id {
        CandidateIsPast(h, ss, c);
      }
    }
    LedOneMore(h, ss, k, id);
  }

  lemma AvailabilityAfter(s: Selection, ev: Event)
    requires ev.Call?
    ensures After(s, ev).availability == Observe(s.availability, ev.offers, ev.now)
  {
  }

  /** Past the delay of its recoveries a path is not recovering. */
  lemma SettledIsNotRecovering(h: seq<Event>, ss: seq<Selection>, n: nat, id: string)
    requires History(h, ss) && Summarized(h, ss) && n < |h| && h[n].Call? && Settled(h, ss, n, id)
    ensures !Recovering(ss[n].(availability := Observe(ss[n].availability, h[n].offers, h[n].now)), id, h[n].now)
  {
    hide Observe, Recovers, Summarized, After;
    AvailabilityAfter(ss[n], h[n]);
    assert ss[n + 1] == After(ss[n], h[n]);
    if RecoveredAt(ss[n + 1], id) != 0 {
      RecordedRecoveryHappened(h, ss, n + 1, id);
      var m: nat :| m < n + 1 && RecoveredIn(h, ss, m, id) && Retained(h, ss, m, n + 1, id) && h[m].now == RecoveredAt(ss[n + 1], id);
      assert Retained(h, ss, m, n, id);
    }
  }

  lemma CooledIsPastSwitch(h: seq<Event>, ss: seq<Selection>, c: nat, id: string)
    requires Summarized(h, ss) && Timely(h) && c < |h| && h[c].Call? && Cooled(h, ss, c) && Leads(ss[c], h[c], id)
    ensures h[c].now - ss[c].lastSwitch >= COOLDOWN
  {
    hide Leads, Switch;
    LeaderIsNamed(ss[c], h[c], id);
    LastSwitchHappened(h, ss, c);
  }

  /** A switch that is due is made. */
  lemma DueIsMade(h: seq<Event>, ss: seq<Selection>, n: nat, id: string)
    requires History(h, ss) && Timely(h) && n < |h| && h[n].Call? && LongLed(h, ss, n, id) && Settled(h, ss, n, id)
    ensures Switch(h, ss, n) && ss[n + 1].currentId == id
  {
    HistoryIsSummarized(h, ss);
    var c: nat :| LedFrom(h, ss, c, n, id) && h[c].Call? && Cooled(h, ss, c) && h[n].now - h[c].now >= STABLE;
    CooledIsPastSwitch(h, ss, c, id);
    LedMeansStanding(h, ss, c, n, id);
    SettledIsNotRecovering(h, ss, n, id);
    hide Leads, Recovering;
    LeaderIsOther(ss[n], h[n], id);
    SwitchesWhen(ss[n], h[n], id);
  }

  lemma StandingIsLed(h: seq<Event>, ss: seq<Selection>, n: nat, c: nat)
    requires Summarized(h, ss) && Timely(h) && n < |h| && h[n].Call? && Standing(h, ss, n, c) && ss[n].currentId != ""
    requires Leads(ss[n], h[n], ss[n].candidateId)
    ensures LedFrom(h, ss, c, n, ss[n].candidateId) && Cooled(h, ss, c)
  {
    hide Leads;
    LastSwitchIsLast(h, ss, n);
    forall k | c <= k < n
      ensures !Switch(h, ss, k) && !Reset(h, ss, k)
    {
      assert Summary(ss[k], h[k], ss[k + 1]);
      assert ss[k].currentId == ss[n].currentId && ss[k + 1].currentId == ss[n].currentId;
    }
  }

  lemma ViableIsNamedAt(h: seq<Event>, ss: seq<Selection>, n: nat)
    requires Timely(h) && n < |h| && n < |ss| && CurrentViable(ss[n], h[n])
    ensures ss[n].currentId != ""
  {
    ViableIsNamed(ss[n], h[n]);
  }

  /** A switch that is made away from a viable path was due. */
  lemma MadeIsDue(h: seq<Event>, ss: seq<Selection>, n: nat)
    requires History(h, ss) && Timely(h) && Switch(h, ss, n) && CurrentViable(ss[n], h[n])
    ensures LongLed(h, ss, n, ss[n + 1].currentId) && Settled(h, ss, n, ss[n + 1].currentId)
  {
    HistoryIsSummarized(h, ss);
    hide History, Summarized, Timely;
    var c := SwitchAfterLead(h, ss, n);
    ViableIsNamedAt(h, ss, n);
    StandingIsLed(h, ss, n, c);
    forall m: nat | m <= n && RecoveredIn(h, ss, m, ss[n + 1].currentId) && Retained(h, ss, m, n, ss[n + 1].currentId)
      ensures h[n].now - h[m].now >= COOLDOWN
    {
      RetainedRecoveryDelays(h, ss, n, m);
    }
  }

  /** Over every history a call answers with the path that is current after it, and with none exactly when nothing is viable. */
  lemma AnswersCurrent(h: seq<Event>, ss: seq<Selection>, n: nat)
    requires History(h, ss) && n < |h| && h[n].Call?
    ensures Choose(ss[n], h[n].offers, h[n].now).chosen ==
      if AnyViable(h[n].offers) then Some(ss[n + 1].currentId) else None
    ensures CurrentViable(ss[n], h[n]) ==> AnyViable(h[n].offers)
  {
    hide Choose;
    ChosenIsCurrent(ss[n], h[n].offers, h[n].now);
    assert ss[n + 1] == After(ss[n], h[n]);
    if CurrentViable(ss[n], h[n]) {
      var i :| 0 <= i < |h[n].offers| && h[n].offers[i] == Pick(h[n].offers, Some(ss[n].currentId)).value;
    }
  }

  /** A call that finds the current path unusable moves to the best one at once, and keeps its choice when there is none. */
  lemma FailsOverAtOnce(h: seq<Event>, ss: seq<Selection>, n: nat)
    requires History(h, ss) && n < |h| && h[n].Call? && !CurrentViable(ss[n], h[n])
    ensures AnyViable(h[n].offers) ==>
      exists i :: 0 <= i < |h[n].offers| && h[n].offers[i].id == ss[n + 1].currentId && h[n].offers[i].score.Some? &&
        forall j :: 0 <= j < |h[n].offers| && h[n].offers[j].score.Some? ==> h[n].offers[i].score.value <= h[n].offers[j].score.value
    ensures !AnyViable(h[n].offers) ==> ss[n + 1].currentId == ss[n].currentId
  {
    assert ss[n + 1] == After(ss[n], h[n]);
    var best := Pick(h[n].offers, None);
    if best.Some? {
      var i :| 0 <= i < |h[n].offers| && h[n].offers[i] == best.value;
      assert forall j :: 0 <= j < |h[n].offers| && h[n].offers[j].score.Some? ==> Considered(h[n].offers[j], None);
    }
    assert forall j :: 0 <= j < |h[n].offers| ==> (Considered(h[n].offers[j], None) <==> h[n].offers[j].score.Some?);
  }

  /**
   Over every history, a call that finds the current path viable switches if and
   only if some path has led the current one by 15 or more in every call for 5 s
   or longer, from a call on that came 10 s or more after the last switch, and
   every recovery of it that no update took away is 10 s old. That path becomes
   current, and it is what the call answers with.
   */
  lemma SwitchesIff(h: seq<Event>, ss: seq<Selection>, n: nat)
    requires History(h, ss) && Timely(h) && n < |h| && CurrentViable(ss[n], h[n])
    ensures Switch(h, ss, n) <==> exists id :: LongLed(h, ss, n, id) && Settled(h, ss, n, id)
    ensures forall id :: LongLed(h, ss, n, id) && Settled(h, ss, n, id) ==>
      ss[n + 1].currentId == id && Choose(ss[n], h[n].offers, h[n].now).chosen == Some(id)
    ensures !Switch(h, ss, n) ==> Choose(ss[n], h[n].offers, h[n].now).chosen == Some(ss[n].currentId)
  {
    hide LongLed, Settled, Choose, Timely;
    AnswersCurrent(h, ss, n);
    if Switch(h, ss, n) {
      MadeIsDue(h, ss, n);
    }
    forall id | LongLed(h, ss, n, id) && Settled(h, ss, n, id)
      ensures Switch(h, ss, n) && ss[n + 1].currentId == id
    {
      DueIsMade(h, ss, n, id);
    }
  }
}
