/**
 When a configuration update lets a switch follow a recovery too soon: exactly
 when it keeps the current path and drops the one that recovered.
 */
module RecoveryErasure {
  import opened Basics
  import opened PathSelection
  import opened SelectionHistory

  /** A switch from one path to another, less than ten seconds after a recovery of the new one during call m. */
  ghost predicate EarlySwitch(h: seq<Event>, ss: seq<Selection>, m: nat, n: nat, current: string, other: string) {
    History(h, ss) && Timely(h) && m <= n && Switch(h, ss, n) && CurrentViable(ss[n], h[n]) &&
    ss[n].currentId == current && ss[n + 1].currentId == other &&
    RecoveredIn(h, ss, m, other) && h[n].now - h[m].now < COOLDOWN
  }

  /** Every update between the two has the given set of paths, or keeps the new path. */
  predicate UpdatesTo(h: seq<Event>, m: nat, n: nat, valid: set<string>, other: string) {
    n <= |h| && forall k :: m <= k < n && h[k].Update? ==> h[k].valid == valid || other in h[k].valid
  }

  // ---------------------------------------------------------------- an early switch for every such set

  function Kept(id: string): Offer {
    Offer(id, Some(100.0))
  }

  function Better(id: string): Offer {
    Offer(id, Some(0.0))
  }

  /** A path that recovers, is dropped, comes back and is taken five seconds after its recovery. */
  function Forgetful(a: string, b: string, valid: set<string>): seq<Event> {
    [Call([Kept(a), Offer(b, None)], SECOND), Call([Kept(a), Better(b)], 20 * SECOND), Update(valid), Update(valid + {b}),
     Call([Kept(a), Better(b)], 25 * SECOND)]
  }

  const UP := Availability(true, 0)

  function First(a: string, b: string): Selection {
    Selection(map[a := UP, b := Availability(false, 0)], a, SECOND, "", 0)
  }

  function Leading(a: string, b: string): Selection {
    Selection(map[a := UP, b := Availability(true, 20 * SECOND)], a, SECOND, b, 20 * SECOND)
  }

  function Forgotten(a: string, b: string): Selection {
    Leading(a, b).(availability := map[a := UP])
  }

  function Moved(a: string, b: string): Selection {
    Selection(map[a := UP, b := UP], b, 25 * SECOND, "", 0)
  }

  function Course(a: string, b: string): seq<Selection> {
    [NEW_SELECTION, First(a, b), Leading(a, b), Forgotten(a, b), Forgotten(a, b), Moved(a, b)]
  }

  function PickOfTwo(x: Offer, y: Offer, only: Option<string>): Option<Offer> {
    if Considered(y, only) && (!Considered(x, only) || Outranks(y, x)) then Some(y)
    else if Considered(x, only) then Some(x) else None
  }

  function FlagOf(o: Offer, id: string): seq<bool> {
    if o.id == id then [o.score.Some?] else []
  }

  lemma TwoOffers(a: map<string, Availability>, x: Offer, y: Offer, now: int)
    ensures Noted(a, [x, y], now) == NoteOne(NoteOne(a, x, now), y, now)
    ensures Offered([x, y], x.id) && Offered([x, y], y.id)
    ensures forall only :: Pick([x, y], only) == PickOfTwo(x, y, only)
    ensures forall id :: Flags([x, y], id) == FlagOf(x, id) + FlagOf(y, id)
  {
    assert [x, y][..1] == [x] && [x][..0] == [];
    assert [x, y][0].id == x.id && [x, y][1].id == y.id;
    assert Noted(a, [x], now) == NoteOne(a, x, now);
    assert forall only :: Pick([x], only) == if Considered(x, only) then Some(x) else None;
    assert forall id :: Flags([x], id) == FlagOf(x, id);
  }

  lemma FirstCall(a: string, b: string)
    requires a != "" && b != "" && a != b
    ensures After(NEW_SELECTION, Call([Kept(a), Offer(b, None)], SECOND)) == First(a, b)
  {
    TwoOffers(map[], Kept(a), Offer(b, None), SECOND);
    assert Observe(map[], [Kept(a), Offer(b, None)], SECOND) == First(a, b).availability;
  }

  lemma SecondCall(a: string, b: string)
    requires a != "" && b != "" && a != b
    ensures After(First(a, b), Call([Kept(a), Better(b)], 20 * SECOND)) == Leading(a, b)
  {
    TwoOffers(First(a, b).availability, Kept(a), Better(b), 20 * SECOND);
    assert Observe(First(a, b).availability, [Kept(a), Better(b)], 20 * SECOND) == Leading(a, b).availability;
  }

  lemma LastCall(a: string, b: string)
    requires a != "" && b != "" && a != b
    ensures After(Forgotten(a, b), Call([Kept(a), Better(b)], 25 * SECOND)) == Moved(a, b)
  {
    TwoOffers(map[a := UP], Kept(a), Better(b), 25 * SECOND);
    assert Observe(map[a := UP], [Kept(a), Better(b)], 25 * SECOND) == Moved(a, b).availability;
  }

  lemma Withdrawal(a: string, b: string, valid: set<string>)
    requires a in valid && b !in valid
    ensures After(Leading(a, b), Update(valid)) == Forgotten(a, b)
    ensures After(Forgotten(a, b), Update(valid + {b})) == Forgotten(a, b)
  {
    assert Updated(Leading(a, b), valid).availability == map[a := UP];
    assert Updated(Forgotten(a, b), valid + {b}).availability == map[a := UP];
  }

  lemma ForgetfulIsHistory(a: string, b: string, valid: set<string>)
    requires a != "" && b != "" && a in valid && b !in valid
    ensures History(Forgetful(a, b, valid), Course(a, b))
  {
    FirstCall(a, b);
    SecondCall(a, b);
    Withdrawal(a, b, valid);
    LastCall(a, b);
  }

  lemma ForgetfulRecovers(a: string, b: string, valid: set<string>)
    requires a != b
    ensures RecoveredIn(Forgetful(a, b, valid), Course(a, b), 1, b)
  {
    var h, ss := Forgetful(a, b, valid), Course(a, b);
    TwoOffers(map[], Kept(a), Offer(b, None), SECOND);
    TwoOffers(map[], Kept(a), Better(b), SECOND);
    assert LastSeen(h, ss, 0, b) == None;
    assert LastSeen(h, ss, 1, b) == Some(false);
    assert Flags([Kept(a), Better(b)], b) == [true] && [true][..0] == [];
  }

  /** Every set that keeps the current path and drops the other one has a history with an early switch. */
  lemma ErasedRecoveryBreaksBound(a: string, b: string, valid: set<string>)
    requires a != "" && b != "" && a in valid && b !in valid
    ensures EarlySwitch(Forgetful(a, b, valid), Course(a, b), 1, 4, a, b)
    ensures UpdatesTo(Forgetful(a, b, valid), 1, 4, valid, b)
  {
    ForgetfulIsHistory(a, b, valid);
    ForgetfulRecovers(a, b, valid);
    TwoOffers(map[a := UP], Kept(a), Better(b), 25 * SECOND);
  }

  /**
   Among histories whose updates after a recovery have one set of paths, or keep
   the path that recovered, some switch comes early if and only if that set
   keeps the current path and drops the other one.
   */
  lemma EarlySwitchIffErased(a: string, b: string, valid: set<string>)
    requires a != "" && b != ""
    ensures (exists h, ss, m: nat, n: nat :: EarlySwitch(h, ss, m, n, a, b) && UpdatesTo(h, m, n, valid, b)) <==>
            a in valid && b !in valid
  {
    if a in valid && b !in valid {
      ErasedRecoveryBreaksBound(a, b, valid);
    } else {
      forall h, ss, m: nat, n: nat | UpdatesTo(h, m, n, valid, b)
        ensures !EarlySwitch(h, ss, m, n, a, b)
      {
        if EarlySwitch(h, ss, m, n, a, b) {
          assert RecoveredBefore(h, ss, m, n);
          SwitchIsDisciplined(h, ss, n);
        }
      }
    }
  }
}
