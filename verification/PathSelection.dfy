/**
 Path selection with hysteresis. A source Node keeps one selection per route and
 moves away from a working path only after a cooldown, a stable lead and a
 settled recovery. Times are nanoseconds since the zero time; scores are reals.
 */
module PathSelection {
  import opened Basics
  import opened MeshConfig

  const COOLDOWN := 10 * SECOND
  const STABLE := 5 * SECOND
  const IMPROVEMENT := 15.0

  datatype LinkStatus = LinkStatus(health: string, rtt: real, loss: real)

  /** What the mesh transport says about its links at one moment. */
  datatype Mesh = Mesh(canSend: string -> bool, linkStatus: string -> Option<LinkStatus>)

  predicate Doubtful(health: string) {
    health == "degraded" || health == "unknown"
  }

  function PathScore(p: Path, status: Option<LinkStatus>): real {
    var base := if p.score != 0.0 then p.score
                else p.cost + p.rtt + p.loss * 10.0 + (if Doubtful(p.health) then 1000.0 else 0.0);
    if status.None? then base
    else base + status.value.rtt + status.value.loss * 10.0 + (if Doubtful(status.value.health) then 100.0 else 0.0)
  }

  /** The score of a path this Node can use right now, or None. */
  function ViablePath(local: string, p: Path, mesh: Mesh): Option<real> {
    if |p.hops| < 2 || p.hops[0] != local || p.health == "failed" || !mesh.canSend(p.hops[1]) then None
    else
      var status := mesh.linkStatus(p.hops[1]);
      if status.Some? && status.value.health == "failed" then None else Some(PathScore(p, status))
  }

  /** No worse in anything that is measured; a path with a score of its own is judged by that alone. */
  predicate NoWorse(p: Path, q: Path) {
    if p.score != 0.0 || q.score != 0.0 then p.score != 0.0 && q.score != 0.0 && p.score <= q.score
    else p.cost <= q.cost && p.rtt <= q.rtt && p.loss <= q.loss && (Doubtful(p.health) ==> Doubtful(q.health))
  }

  predicate LinkNoWorse(a: Option<LinkStatus>, b: Option<LinkStatus>) {
    (a.None? && b.None?) ||
    (a.Some? && b.Some? && a.value.rtt <= b.value.rtt && a.value.loss <= b.value.loss && (Doubtful(a.value.health) ==> Doubtful(b.value.health)))
  }

  /** A path that is no worse has no higher score, and a lower one when its cost, its time or the time of its first link is lower. */
  lemma ScoreFollowsQuality(p: Path, q: Path, a: Option<LinkStatus>, b: Option<LinkStatus>)
    requires NoWorse(p, q) && LinkNoWorse(a, b)
    ensures PathScore(p, a) <= PathScore(q, b)
    ensures (p.score == 0.0 && (p.cost < q.cost || p.rtt < q.rtt || p.loss < q.loss || (!Doubtful(p.health) && Doubtful(q.health)))) ||
            (p.score != 0.0 && p.score < q.score) ||
            (a.Some? && (a.value.rtt < b.value.rtt || a.value.loss < b.value.loss || (!Doubtful(a.value.health) && Doubtful(b.value.health)))) ==>
              PathScore(p, a) < PathScore(q, b)
  {
  }

  /** A path is usable exactly when it starts here, neither it nor its first link is reported failed, and that link can send. */
  lemma ViableIff(local: string, p: Path, mesh: Mesh)
    ensures ViablePath(local, p, mesh).Some? <==>
      |p.hops| >= 2 && p.hops[0] == local && mesh.canSend(p.hops[1]) && p.health != "failed" &&
      forall s :: mesh.linkStatus(p.hops[1]) == Some(s) ==> s.health != "failed"
  {
    if |p.hops| >= 2 && mesh.linkStatus(p.hops[1]).Some? {
      assert mesh.linkStatus(p.hops[1]) == Some(mesh.linkStatus(p.hops[1]).value);
    }
  }

  /** One path as a call sees it: its score if it is viable. */
  datatype Offer = Offer(id: string, score: Option<real>)

  datatype Availability = Availability(viable: bool, recoveredAt: int)

  datatype Selection = Selection(
    availability: map<string, Availability>,
    currentId: string,
    lastSwitch: int,
    candidateId: string,
    candidateSince: int)

  const NEW_SELECTION := Selection(map[], "", 0, "", 0)

  // ---------------------------------------------------------------- observation

  function NoteOne(a: map<string, Availability>, o: Offer, now: int): map<string, Availability> {
    var prior := if o.id in a then a[o.id] else Availability(false, 0);
    var recoveredAt := if o.score.Some? && o.id in a && !prior.viable then now else prior.recoveredAt;
    a[o.id := Availability(o.score.Some?, recoveredAt)]
  }

  function Noted(a: map<string, Availability>, offers: seq<Offer>, now: int): map<string, Availability> {
    if offers == [] then a
    else NoteOne(Noted(a, offers[..|offers| - 1], now), offers[|offers| - 1], now)
  }

  predicate Offered(offers: seq<Offer>, id: string) {
    exists i :: 0 <= i < |offers| && offers[i].id == id
  }

  function Observe(a: map<string, Availability>, offers: seq<Offer>, now: int): map<string, Availability> {
    var noted := Noted(a, offers, now);
    map id | id in noted :: if Offered(offers, id) then noted[id] else noted[id].(viable := false)
  }

  // ---------------------------------------------------------------- ranking

  /** Byte-wise order of identifiers. */
  predicate Before(a: string, b: string) {
    b != "" && (a == "" || a[0] < b[0] || (a[0] == b[0] && Before(a[1..], b[1..])))
  }

  predicate Outranks(a: Offer, b: Offer)
    requires a.score.Some? && b.score.Some?
  {
    a.score.value < b.score.value || (a.score.value == b.score.value && Before(a.id, b.id))
  }

  predicate Considered(o: Offer, only: Option<string>) {
    o.score.Some? && (only.None? || o.id == only.value)
  }

  /** The first viable offer in rank order, among all paths or among those with one identifier. */
  function Pick(offers: seq<Offer>, only: Option<string>): (r: Option<Offer>)
    ensures r.Some? ==> r.value in offers && Considered(r.value, only)
    ensures r.Some? ==> forall i :: 0 <= i < |offers| && Considered(offers[i], only) ==>
      r.value.score.value <= offers[i].score.value
    ensures r.None? ==> forall i :: 0 <= i < |offers| ==> !Considered(offers[i], only)
  {
    if offers == [] then None
    else
      var n := |offers| - 1;
      var best := Pick(offers[..n], only);
      if Considered(offers[n], only) && (best.None? || Outranks(offers[n], best.value)) then Some(offers[n]) else best
  }

  lemma {:induction false} BeforeIsIrreflexive(a: string)
    ensures !Before(a, a)
  {
    if a != "" {
      BeforeIsIrreflexive(a[1..]);
    }
  }

  lemma {:induction false} BeforeIsTransitive(a: string, b: string, c: string)
    requires Before(a, b) && Before(b, c)
    ensures Before(a, c)
  {
    if a != "" && a[0] == b[0] && b[0] == c[0] {
      BeforeIsTransitive(a[1..], b[1..], c[1..]);
    }
  }

  /** No considered offer comes before the picked one, by score and then by identifier. */
  lemma {:induction false} PickIsFirst(offers: seq<Offer>, only: Option<string>)
    ensures Pick(offers, only).Some? ==>
      forall i :: 0 <= i < |offers| && Considered(offers[i], only) ==> !Outranks(offers[i], Pick(offers, only).value)
  {
    if offers != [] {
      var n := |offers| - 1;
      PickIsFirst(offers[..n], only);
      var best, last := Pick(offers[..n], only), offers[n];
      assert !Before(last.id, last.id) by { BeforeIsIrreflexive(last.id); }
      if Considered(last, only) && best.Some? && Outranks(last, best.value) {
        forall i | 0 <= i < n && Considered(offers[i], only)
          ensures !Outranks(offers[i], last)
        {
          assert offers[..n][i] == offers[i];
          if Outranks(offers[i], last) && offers[i].score == last.score == best.value.score {
            BeforeIsTransitive(offers[i].id, last.id, best.value.id);
          }
        }
      } else if best.Some? {
        assert forall i :: 0 <= i < n ==> offers[..n][i] == offers[i];
      }
    }
  }

  // ---------------------------------------------------------------- one call

  datatype Choice = Choice(selection: Selection, chosen: Option<string>)

  function Clear(s: Selection): Selection {
    s.(candidateId := "", candidateSince := 0)
  }

  function SwitchTo(s: Selection, id: string, now: int): Selection {
    Clear(s.(currentId := id, lastSwitch := now))
  }

  predicate Recovering(s: Selection, id: string, now: int) {
    id in s.availability && s.availability[id].recoveredAt != 0 && now - s.availability[id].recoveredAt < COOLDOWN
  }

  function Choose(s0: Selection, offers: seq<Offer>, now: int): Choice {
    var s := s0.(availability := Observe(s0.availability, offers, now));
    var best := Pick(offers, None);
    if best.None? then Choice(Clear(s), None)
    else
      var b := best.value;
      var current := Pick(offers, Some(s.currentId));
      if current.None? then Choice(SwitchTo(s, b.id, now), Some(b.id))
      else if b.id == current.value.id then Choice(Clear(s), Some(b.id))
      else if now - s.lastSwitch < COOLDOWN then Choice(s, Some(s.currentId))
      else if current.value.score.value - b.score.value < IMPROVEMENT then Choice(Clear(s), Some(s.currentId))
      else if s.candidateId != b.id then Choice(s.(candidateId := b.id, candidateSince := now), Some(s.currentId))
      else if Recovering(s, b.id, now) || now - s.candidateSince < STABLE then Choice(s, Some(s.currentId))
      else Choice(SwitchTo(s, b.id, now), Some(b.id))
  }

  predicate AnyViable(offers: seq<Offer>) {
    exists i :: 0 <= i < |offers| && offers[i].score.Some?
  }

  /** A call answers with the path that is current after it, and with none exactly when nothing is viable. */
  lemma ChosenIsCurrent(s: Selection, offers: seq<Offer>, now: int)
    ensures Choose(s, offers, now).chosen.Some? <==> AnyViable(offers)
    ensures Choose(s, offers, now).chosen.Some? ==> Choose(s, offers, now).chosen.value == Choose(s, offers, now).selection.currentId
  {
    hide Observe;
    var best := Pick(offers, None);
    if best.Some? {
      var i :| 0 <= i < |offers| && offers[i] == best.value;
    }
  }

  predicate Withdrawn(s: Selection, valid: set<string>) {
    s.currentId != "" && s.currentId !in valid
  }

  /** A configuration update forgets withdrawn paths, and a selection whose current path was withdrawn. */
  function Updated(s: Selection, valid: set<string>): Selection {
    if Withdrawn(s, valid) then NEW_SELECTION
    else s.(availability := map id | id in s.availability && id in valid :: s.availability[id])
  }

  // ---------------------------------------------------------------- the router's table

  class Selector {
    const local: string
    var selections: map<string, Selection>

    constructor (local: string)
      ensures this.local == local && selections == map[]
    {
      this.local, selections := local, map[];
    }

    function Of(key: string): Selection
      reads this
    {
      if key in selections then selections[key] else NEW_SELECTION
    }

    static function OffersOf(local: string, paths: seq<Path>, mesh: Mesh): (r: seq<Offer>)
      ensures |r| == |paths|
    {
      seq(|paths|, i requires 0 <= i < |paths| => Offer(paths[i].id, ViablePath(local, paths[i], mesh)))
    }

    static method ObserveAll(start: map<string, Availability>, offers: seq<Offer>, now: int)
      returns (a: map<string, Availability>)
      ensures a == Observe(start, offers, now)
    {
      a := start;
      var observed := {};
      for n := 0 to |offers|
        invariant a == Noted(start, offers[..n], now)
        invariant forall id :: id in observed <==> Offered(offers[..n], id)
      {
        assert offers[..n + 1][..n] == offers[..n];
        assert forall id :: Offered(offers[..n + 1], id) <==> Offered(offers[..n], id) || offers[n].id == id by {
          forall id | Offered(offers[..n], id) || offers[n].id == id
            ensures Offered(offers[..n + 1], id)
          {
            if offers[n].id == id {
              assert offers[..n + 1][n].id == id;
            } else {
              var i :| 0 <= i < n && offers[..n][i].id == id;
              assert offers[..n + 1][i].id == id;
            }
          }
        }
        a := NoteOne(a, offers[n], now);
        observed := observed + {offers[n].id};
      }
      assert offers[..|offers|] == offers;
      ghost var noted := a;
      var pending := a.Keys;
      while pending != {}
        invariant pending <= noted.Keys && a.Keys == noted.Keys
        invariant forall id :: id in noted ==>
          a[id] == if id in pending || id in observed then noted[id] else noted[id].(viable := false)
        decreases pending
      {
        var id :| id in pending;
        if id !in observed {
          a := a[id := a[id].(viable := false)];
        }
        pending := pending - {id};
      }
    }

    static method Ranked(offers: seq<Offer>, only: Option<string>) returns (r: Option<Offer>)
      ensures r == Pick(offers, only)
    {
      r := None;
      for n := 0 to |offers|
        invariant r == Pick(offers[..n], only)
      {
        assert offers[..n + 1][..n] == offers[..n];
        if Considered(offers[n], only) && (r.None? || Outranks(offers[n], r.value)) {
          r := Some(offers[n]);
        }
      }
      assert offers[..|offers|] == offers;
    }

    /** Picks the path for a route key; only that key's selection changes, as Choose says. */
    method ChoosePath(key: string, paths: seq<Path>, mesh: Mesh, now: int) returns (chosen: Option<string>)
      modifies this
      ensures var choice := Choose(old(Of(key)), OffersOf(local, paths, mesh), now);
              chosen == choice.chosen && selections == old(selections)[key := choice.selection]
      ensures chosen.Some? ==> exists i :: 0 <= i < |paths| && paths[i].id == chosen.value && ViablePath(local, paths[i], mesh).Some?
      ensures chosen.Some? <==> exists i :: 0 <= i < |paths| && ViablePath(local, paths[i], mesh).Some?
      ensures chosen.Some? ==> chosen.value == Of(key).currentId
    {
      var offers := OffersOf(local, paths, mesh);
      var s := Of(key);
      var availability := ObserveAll(s.availability, offers, now);
      s := s.(availability := availability);
      var best := Ranked(offers, None);
      if best.None? {
        assert forall i :: 0 <= i < |paths| ==> offers[i].score == ViablePath(local, paths[i], mesh) && !Considered(offers[i], None);
        selections := selections[key := Clear(s)];
        return None;
      }
      var b := best.value;
      var current := Ranked(offers, Some(s.currentId));
      if current.None? {
        selections := selections[key := SwitchTo(s, b.id, now)];
        return Some(b.id);
      }
      if b.id == current.value.id {
        selections := selections[key := Clear(s)];
        return Some(b.id);
      }
      chosen := Some(s.currentId);
      if now - s.lastSwitch < COOLDOWN {
        selections := selections[key := s];
      } else if current.value.score.value - b.score.value < IMPROVEMENT {
        selections := selections[key := Clear(s)];
      } else if s.candidateId != b.id {
        selections := selections[key := s.(candidateId := b.id, candidateSince := now)];
      } else if Recovering(s, b.id, now) || now - s.candidateSince < STABLE {
        selections := selections[key := s];
      } else {
        selections := selections[key := SwitchTo(s, b.id, now)];
        chosen := Some(b.id);
      }
    }

    /** Forgets withdrawn paths in every selection. */
    method UpdateConfig(valid: set<string>)
      modifies this
      ensures forall key :: Of(key) == Updated(old(Of(key)), valid)
    {
      var pending := selections.Keys;
      while pending != {}
        invariant pending <= selections.Keys
        invariant forall key :: key in pending ==> key in old(selections) && selections[key] == old(selections)[key]
        invariant forall key :: key !in pending ==> Of(key) == Updated(old(Of(key)), valid)
        decreases pending
      {
        var key :| key in pending;
        var s := selections[key];
        if Withdrawn(s, valid) {
          selections := selections - {key};
        } else {
          selections := selections[key := s.(availability := map id | id in s.availability && id in valid :: s.availability[id])];
        }
        pending := pending - {key};
      }
    }
  }
}
