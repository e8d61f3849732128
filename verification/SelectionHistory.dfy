/**
 What path selection guarantees over whole histories of calls and configuration
 updates for one route: a switch away from a path that still works is late,
 stable and never to a path that has just recovered.
 */
module SelectionHistory {
  import opened Basics
  import opened PathSelection

  datatype Event = Call(offers: seq<Offer>, now: int) | Update(valid: set<string>)

  function After(s: Selection, ev: Event): Selection {
    match ev
    case Call(offers, now) => Choose(s, offers, now).selection
    case Update(valid) => Updated(s, valid)
  }

  /** A history: ss[n] is the selection after the first n events. */
  predicate History(h: seq<Event>, ss: seq<Selection>) {
    |ss| == |h| + 1 && ss[0] == NEW_SELECTION && forall i :: 0 <= i < |h| ==> ss[i + 1] == After(ss[i], h[i])
  }

  /** Clocks do not run backwards and identifiers are not empty, as a validated configuration ensures. */
  predicate Timely(h: seq<Event>) {
    (forall i :: 0 <= i < |h| && h[i].Call? ==> h[i].now >= 0 && forall k :: 0 <= k < |h[i].offers| ==> h[i].offers[k].id != "") &&
    (forall i, j :: 0 <= i <= j < |h| && h[i].Call? && h[j].Call? ==> h[i].now <= h[j].now)
  }

  // ---------------------------------------------------------------- what happened, without the selection's own bookkeeping

  /** The selection moved to another path at event n. */
  predicate Switch(h: seq<Event>, ss: seq<Selection>, n: nat)
    requires |ss| == |h| + 1
  {
    n < |h| && h[n].Call? && ss[n + 1].currentId != ss[n].currentId
  }

  predicate CurrentViable(s: Selection, ev: Event) {
    ev.Call? && Pick(ev.offers, Some(s.currentId)).Some?
  }

  /** A configuration update ended the selection. */
  predicate Reset(h: seq<Event>, ss: seq<Selection>, k: nat)
    requires |ss| == |h| + 1
  {
    k < |h| && h[k].Update? && Withdrawn(ss[k], h[k].valid)
  }

  /** No configuration update between m and n withdrew the path or ended the selection. */
  predicate Retained(h: seq<Event>, ss: seq<Selection>, m: nat, n: nat, id: string)
    requires |ss| == |h| + 1
  {
    n <= |h| && forall k :: m <= k < n && h[k].Update? ==> id in h[k].valid && !Reset(h, ss, k)
  }

  /** An update that keeps the current path and drops the other one; it takes the other's recovery record away. */
  predicate Erases(ev: Event, current: string, other: string) {
    ev.Update? && current in ev.valid && other !in ev.valid
  }

  predicate NoneErases(h: seq<Event>, m: nat, n: nat, current: string, other: string) {
    n <= |h| && forall k :: m <= k < n ==> !Erases(h[k], current, other)
  }

  /** The call saw the path lead the viable current one by the required margin. */
  predicate Leads(s: Selection, ev: Event, id: string) {
    ev.Call? &&
    var best := Pick(ev.offers, None);
    var current := Pick(ev.offers, Some(s.currentId));
    best.Some? && best.value.id == id && current.Some? &&
    current.value.score.value - best.value.score.value >= IMPROVEMENT
  }

  /** The usable/unusable observations of one path in a call, in order. */
  function Flags(offers: seq<Offer>, id: string): seq<bool> {
    if offers == [] then []
    else
      var o := offers[|offers| - 1];
      Flags(offers[..|offers| - 1], id) + (if o.id == id then [o.score.Some?] else [])
  }

  function LastFlag(prior: Option<bool>, flags: seq<bool>): Option<bool> {
    if flags == [] then prior else Some(flags[|flags| - 1])
  }

  /** Somewhere in the observations a usable state follows an unusable one. */
  predicate Recovers(prior: Option<bool>, flags: seq<bool>) {
    flags != [] &&
    var n := |flags| - 1;
    Recovers(prior, flags[..n]) || (flags[n] && LastFlag(prior, flags[..n]) == Some(false))
  }

  /** A known path that a call does not offer counts as unusable. */
  function NextSeen(prior: Option<bool>, flags: seq<bool>): Option<bool> {
    if flags == [] && prior.Some? then Some(false) else LastFlag(prior, flags)
  }

  /** The last that was seen of a path: usable, unusable, or nothing since it was last approved. */
  function LastSeen(h: seq<Event>, ss: seq<Selection>, n: nat, id: string): Option<bool>
    requires |ss| == |h| + 1 && n <= |h|
  {
    if n == 0 then None
    else
      var prior := LastSeen(h, ss, n - 1, id);
      match h[n - 1]
      case Update(valid) => if Reset(h, ss, n - 1) || id !in valid then None else prior
      case Call(offers, _) => NextSeen(prior, Flags(offers, id))
  }

  /** The path was seen to recover during call m. */
  predicate RecoveredIn(h: seq<Event>, ss: seq<Selection>, m: nat, id: string)
    requires |ss| == |h| + 1
  {
    m < |h| && h[m].Call? && Recovers(LastSeen(h, ss, m, id), Flags(h[m].offers, id))
  }

  /** The path that event n switches to recovered in call m, and no update since took the record away. */
  predicate RecoveredBefore(h: seq<Event>, ss: seq<Selection>, m: nat, n: nat)
    requires |ss| == |h| + 1 && n < |h|
  {
    m <= n && RecoveredIn(h, ss, m, ss[n + 1].currentId) && NoneErases(h, m, n, ss[n].currentId, ss[n + 1].currentId)
  }

  // ---------------------------------------------------------------- what one event does to the bookkeeping

  function SeenIn(s: Selection, id: string): Option<bool> {
    if id in s.availability then Some(s.availability[id].viable) else None
  }

  function RecoveredAt(s: Selection, id: string): int {
    if id in s.availability then s.availability[id].recoveredAt else 0
  }

  predicate SameChoice(s: Selection, s': Selection) {
    s'.currentId == s.currentId && s'.lastSwitch == s.lastSwitch
  }

  predicate SameCandidate(s: Selection, s': Selection) {
    s'.candidateId == s.candidateId && s'.candidateSince == s.candidateSince
  }

  ghost predicate UpdateSummary(s: Selection, valid: set<string>, s': Selection) {
    if Withdrawn(s, valid) then
      s' == NEW_SELECTION
    else
      SameChoice(s, s') && SameCandidate(s, s') &&
      forall id :: SeenIn(s', id) == (if id in valid then SeenIn(s, id) else None) &&
                   (id in valid ==> RecoveredAt(s', id) == RecoveredAt(s, id))
  }

  ghost predicate ObservationSummary(s: Selection, ev: Event, s': Selection)
    requires ev.Call?
  {
    forall id :: SeenIn(s', id) == NextSeen(SeenIn(s, id), Flags(ev.offers, id)) &&
                 RecoveredAt(s', id) == if Recovers(SeenIn(s, id), Flags(ev.offers, id)) then ev.now else RecoveredAt(s, id)
  }

  predicate CandidateSummary(s: Selection, ev: Event, s': Selection)
    requires ev.Call?
  {
    s'.candidateId != "" ==>
      SameChoice(s, s') &&
      ((SameCandidate(s, s') && (Leads(s, ev, s'.candidateId) || ev.now - s.lastSwitch < COOLDOWN)) ||
       (s'.candidateSince == ev.now && Leads(s, ev, s'.candidateId) && ev.now - s.lastSwitch >= COOLDOWN))
  }

  predicate SwitchSummary(s: Selection, ev: Event, s': Selection)
    requires ev.Call?
  {
    if s'.currentId == s.currentId then s'.lastSwitch == s.lastSwitch
    else
      s'.lastSwitch == ev.now && s'.currentId != "" &&
      (CurrentViable(s, ev) ==>
         Leads(s, ev, s'.currentId) && s.candidateId == s'.currentId && ev.now - s.candidateSince >= STABLE &&
         (RecoveredAt(s', s'.currentId) == 0 || ev.now - RecoveredAt(s', s'.currentId) >= COOLDOWN))
  }

  ghost predicate Summary(s: Selection, ev: Event, s': Selection) {
    match ev
    case Update(valid) => UpdateSummary(s, valid, s')
    case Call(_, _) => ObservationSummary(s, ev, s') && CandidateSummary(s, ev, s') && SwitchSummary(s, ev, s')
  }

  lemma {:induction false} OfferedHasFlags(offers: seq<Offer>, id: string)
    ensures Offered(offers, id) <==> Flags(offers, id) != []
  {
    if offers != [] {
      var n := |offers| - 1;
      OfferedHasFlags(offers[..n], id);
      if Offered(offers[..n], id) {
        var i :| 0 <= i < n && offers[..n][i].id == id;
        assert offers[i].id == id;
      }
      if Offered(offers, id) && offers[n].id != id {
        var i :| 0 <= i < |offers| && offers[i].id == id;
        assert offers[..n][i].id == id;
      }
    }
  }

  lemma {:induction false} NotedFollowsFlags(s: Selection, offers: seq<Offer>, now: int, id: string)
    ensures var noted := s.(availability := Noted(s.availability, offers, now)); var flags := Flags(offers, id);
            SeenIn(noted, id) == LastFlag(SeenIn(s, id), flags) &&
            RecoveredAt(noted, id) == if Recovers(SeenIn(s, id), flags) then now else RecoveredAt(s, id)
  {
    if offers != [] {
      var n := |offers| - 1;
      NotedFollowsFlags(s, offers[..n], now, id);
      var flags := Flags(offers[..n], id);
      if offers[n].id == id {
        assert (flags + [offers[n].score.Some?])[..|flags|] == flags;
      } else {
        assert flags + [] == flags;
      }
    }
  }

  lemma ObserveFollowsFlags(s: Selection, ev: Event)
    requires ev.Call?
    ensures ObservationSummary(s, ev, s.(availability := Observe(s.availability, ev.offers, ev.now)))
  {
    forall id
      ensures var s' := s.(availability := Observe(s.availability, ev.offers, ev.now));
              SeenIn(s', id) == NextSeen(SeenIn(s, id), Flags(ev.offers, id)) &&
              RecoveredAt(s', id) == if Recovers(SeenIn(s, id), Flags(ev.offers, id)) then ev.now else RecoveredAt(s, id)
    {
      NotedFollowsFlags(s, ev.offers, ev.now, id);
      OfferedHasFlags(ev.offers, id);
    }
  }

  /** The summary is what an event really does, provided identifiers are not empty. */
  lemma AfterIsSummarized(s: Selection, ev: Event)
    requires ev.Call? ==> forall k :: 0 <= k < |ev.offers| ==> ev.offers[k].id != ""
    ensures Summary(s, ev, After(s, ev))
  {
    if ev.Call? {
      ObserveFollowsFlags(s, ev);
      var observed, s' := s.(availability := Observe(s.availability, ev.offers, ev.now)), After(s, ev);
      assert s'.availability == observed.availability;
      assert forall id :: SeenIn(s', id) == SeenIn(observed, id) && RecoveredAt(s', id) == RecoveredAt(observed, id);
      var best := Pick(ev.offers, None);
      if best.Some? {
        var i :| 0 <= i < |ev.offers| && ev.offers[i] == best.value;
      }
    }
  }

  ghost predicate Summarized(h: seq<Event>, ss: seq<Selection>) {
    |ss| == |h| + 1 && ss[0] == NEW_SELECTION && forall i :: 0 <= i < |h| ==> Summary(ss[i], h[i], ss[i + 1])
  }

  // ---------------------------------------------------------------- bookkeeping agrees with the history

  lemma {:induction false} AvailabilityIsLastSeen(h: seq<Event>, ss: seq<Selection>, n: nat, id: string)
    requires Summarized(h, ss) && n <= |h|
    ensures SeenIn(ss[n], id) == LastSeen(h, ss, n, id)
  {
    if n > 0 {
      AvailabilityIsLastSeen(h, ss, n - 1, id);
      assert Summary(ss[n - 1], h[n - 1], ss[n]);
    }
  }

  /** A recovery that was not forgotten is on record, no earlier than it happened. */
  lemma {:induction false} RecoveryIsOnRecord(h: seq<Event>, ss: seq<Selection>, m: nat, n: nat, id: string)
    requires Summarized(h, ss) && Timely(h) && m < n <= |h|
    requires RecoveredIn(h, ss, m, id) && Retained(h, ss, m, n, id)
    ensures RecoveredAt(ss[n], id) >= h[m].now
  {
    assert Summary(ss[n - 1], h[n - 1], ss[n]);
    if m == n - 1 {
      AvailabilityIsLastSeen(h, ss, m, id);
    } else {
      RecoveryIsOnRecord(h, ss, m, n - 1, id);
    }
  }

  /** While a path is current, the recorded switch time is at or after every switch so far, and in the past. */
  lemma {:induction false} LastSwitchIsLast(h: seq<Event>, ss: seq<Selection>, n: nat)
    requires Summarized(h, ss) && Timely(h) && n <= |h|
    ensures 0 <= ss[n].lastSwitch
    ensures forall j :: n <= j < |h| && h[j].Call? ==> ss[n].lastSwitch <= h[j].now
    ensures ss[n].currentId != "" ==> forall m :: 0 <= m < n && Switch(h, ss, m) ==> h[m].now <= ss[n].lastSwitch
  {
    if n > 0 {
      LastSwitchIsLast(h, ss, n - 1);
      assert Summary(ss[n - 1], h[n - 1], ss[n]);
    }
  }

  /** Without a switch in between, a current path has been current all along. */
  lemma {:induction false} CurrentWithoutSwitch(h: seq<Event>, ss: seq<Selection>, m: nat, n: nat)
    requires Summarized(h, ss) && m <= n <= |h| && ss[n].currentId != "" && forall k :: m <= k < n ==> !Switch(h, ss, k)
    ensures forall k :: m <= k <= n ==> ss[k].currentId == ss[n].currentId
    ensures forall k :: m <= k < n ==> !Reset(h, ss, k)
    decreases n - m
  {
    if m < n {
      assert Summary(ss[n - 1], h[n - 1], ss[n]);
      assert !Switch(h, ss, n - 1);
      CurrentWithoutSwitch(h, ss, m, n - 1);
    }
  }

  /** A standing candidate became one at call c, after the cooldown, and has led in every call since. */
  ghost predicate Standing(h: seq<Event>, ss: seq<Selection>, n: nat, c: nat)
    requires |ss| == |h| + 1 && n <= |h|
  {
    var s := ss[n];
    c < n && h[c].Call? && h[c].now == s.candidateSince && s.lastSwitch + COOLDOWN <= s.candidateSince &&
    forall k :: c <= k < n ==> ss[k].currentId == s.currentId && (h[k].Call? ==> Leads(ss[k], h[k], s.candidateId))
  }

  lemma {:induction false} CandidateHasLed(h: seq<Event>, ss: seq<Selection>, n: nat) returns (c: nat)
    requires Summarized(h, ss) && Timely(h) && n <= |h| && ss[n].candidateId != ""
    ensures Standing(h, ss, n, c)
  {
    assert Summary(ss[n - 1], h[n - 1], ss[n]);
    if SameCandidate(ss[n - 1], ss[n]) && !(h[n - 1].Call? && ss[n].candidateSince == h[n - 1].now && ss[n - 1].candidateId == "") {
      c := CandidateHasLed(h, ss, n - 1);
    } else {
      c := n - 1;
    }
  }

  // ---------------------------------------------------------------- the guarantee

  lemma HistoryIsSummarized(h: seq<Event>, ss: seq<Selection>)
    requires History(h, ss) && Timely(h)
    ensures Summarized(h, ss)
  {
    forall i | 0 <= i < |h|
      ensures Summary(ss[i], h[i], ss[i + 1])
    {
      AfterIsSummarized(ss[i], h[i]);
    }
  }

  /** The new path had been the candidate, in the lead since call c, when the switch was made. */
  lemma SwitchAfterLead(h: seq<Event>, ss: seq<Selection>, n: nat) returns (c: nat)
    requires Summarized(h, ss) && Timely(h) && Switch(h, ss, n) && CurrentViable(ss[n], h[n])
    ensures Standing(h, ss, n, c) && h[n].now - h[c].now >= STABLE
    ensures ss[n].candidateId == ss[n + 1].currentId && Leads(ss[n], h[n], ss[n + 1].currentId)
  {
    assert Summary(ss[n], h[n], ss[n + 1]);
    c := CandidateHasLed(h, ss, n);
  }

  lemma RetainedRecoveryDelays(h: seq<Event>, ss: seq<Selection>, n: nat, m: nat)
    requires Summarized(h, ss) && Timely(h) && Switch(h, ss, n) && CurrentViable(ss[n], h[n]) && m <= n
    requires RecoveredIn(h, ss, m, ss[n + 1].currentId) && Retained(h, ss, m, n, ss[n + 1].currentId)
    ensures h[n].now - h[m].now >= COOLDOWN
  {
    LastSwitchIsLast(h, ss, n);
    var c := SwitchAfterLead(h, ss, n);
    assert Summary(ss[n], h[n], ss[n + 1]);
    assert Retained(h, ss, m, n + 1, ss[n + 1].currentId);
    RecoveryIsOnRecord(h, ss, m, n + 1, ss[n + 1].currentId);
  }

  lemma ViableIsNamed(s: Selection, ev: Event)
    requires CurrentViable(s, ev) && forall k :: 0 <= k < |ev.offers| ==> ev.offers[k].id != ""
    ensures s.currentId != ""
  {
    var o := Pick(ev.offers, Some(s.currentId)).value;
    var i :| 0 <= i < |ev.offers| && ev.offers[i] == o;
  }

  lemma SwitchesAreSpaced(h: seq<Event>, ss: seq<Selection>, n: nat)
    requires Summarized(h, ss) && Timely(h) && Switch(h, ss, n) && CurrentViable(ss[n], h[n])
    ensures forall m :: 0 <= m < n && Switch(h, ss, m) ==> h[n].now - h[m].now >= COOLDOWN + STABLE
  {
    var c := SwitchAfterLead(h, ss, n);
    ViableIsNamed(ss[n], h[n]);
    LastSwitchIsLast(h, ss, n);
  }

  /** A recovery delays the switch, on its own record or because a switch or a reset came after it. */
  lemma RecoveryDelays(h: seq<Event>, ss: seq<Selection>, n: nat, m: nat)
    requires Summarized(h, ss) && Timely(h) && Switch(h, ss, n) && CurrentViable(ss[n], h[n]) && RecoveredBefore(h, ss, m, n)
    ensures h[n].now - h[m].now >= COOLDOWN
  {
    if j :| m <= j < n && Switch(h, ss, j) {
      SwitchesAreSpaced(h, ss, n);
    } else {
      ViableIsNamed(ss[n], h[n]);
      CurrentWithoutSwitch(h, ss, m, n);
      forall k | m <= k < n && h[k].Update?
        ensures ss[n + 1].currentId in h[k].valid && !Reset(h, ss, k)
      {
        assert !Reset(h, ss, k) && ss[k].currentId == ss[n].currentId;
        assert !Erases(h[k], ss[n].currentId, ss[n + 1].currentId);
      }
      RetainedRecoveryDelays(h, ss, n, m);
    }
  }

  lemma SwitchFollowsRecoveries(h: seq<Event>, ss: seq<Selection>, n: nat)
    requires Summarized(h, ss) && Timely(h) && Switch(h, ss, n) && CurrentViable(ss[n], h[n])
    ensures forall m: nat :: RecoveredBefore(h, ss, m, n) ==> h[n].now - h[m].now >= COOLDOWN
  {
    forall m: nat | RecoveredBefore(h, ss, m, n)
      ensures h[n].now - h[m].now >= COOLDOWN
    {
      RecoveryDelays(h, ss, n, m);
    }
  }

  lemma SwitchFollowsLead(h: seq<Event>, ss: seq<Selection>, n: nat)
    requires Summarized(h, ss) && Timely(h) && Switch(h, ss, n) && CurrentViable(ss[n], h[n])
    ensures exists c :: 0 <= c < n && h[c].Call? && h[n].now - h[c].now >= STABLE &&
              forall k :: c <= k <= n && h[k].Call? ==>
                ss[k].currentId == ss[n].currentId && Leads(ss[k], h[k], ss[n + 1].currentId)
  {
    var c := SwitchAfterLead(h, ss, n);
    assert forall k :: c <= k <= n && h[k].Call? ==>
      ss[k].currentId == ss[n].currentId && Leads(ss[k], h[k], ss[n + 1].currentId);
  }

  /**
   Every switch away from a path that is still viable happens at least 15 s after
   every earlier switch, at least 10 s after any recovery of the new path since
   which no update kept the current path and dropped the new one, and at least
   5 s after a call since which the new path led the current one by 15 or more
   in every call.
   */
  lemma SwitchIsDisciplined(h: seq<Event>, ss: seq<Selection>, n: nat)
    requires History(h, ss) && Timely(h) && Switch(h, ss, n) && CurrentViable(ss[n], h[n])
    ensures forall m :: 0 <= m < n && Switch(h, ss, m) ==> h[n].now - h[m].now >= COOLDOWN + STABLE
    ensures forall m: nat :: RecoveredBefore(h, ss, m, n) ==> h[n].now - h[m].now >= COOLDOWN
    ensures exists c :: 0 <= c < n && h[c].Call? && h[n].now - h[c].now >= STABLE &&
              forall k :: c <= k <= n && h[k].Call? ==>
                ss[k].currentId == ss[n].currentId && Leads(ss[k], h[k], ss[n + 1].currentId)
  {
    HistoryIsSummarized(h, ss);
    SwitchesAreSpaced(h, ss, n);
    SwitchFollowsRecoveries(h, ss, n);
    SwitchFollowsLead(h, ss, n);
  }
}
