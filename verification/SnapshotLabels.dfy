/**
 When a snapshot may be taken. The log library labels a snapshot with the last
 index it delivered, while the database may already be ahead of that index after
 a crash. Restoring such a snapshot and replaying the entries after its label
 applies some of them twice. This module shows that the gap exists for every
 position of the two counters, and that recovery is exact precisely when the
 watermark has not passed the label.
 */
module SnapshotLabels {
  import opened Basics
  import opened Canonical
  import opened Replication

  /** Every snapshot of the run is labelled d while the database watermark is a. */
  ghost predicate SnapshotsAt(pf: Platform, run: seq<Event>, d: nat, a: nat)
    requires Legal(pf, run)
  {
    run == [] ||
    (SnapshotsAt(pf, run[..|run| - 1], d, a) &&
     (run[|run| - 1].TakeSnapshot? ==>
        var r := Reach(pf, run[..|run| - 1]).replicas[run[|run| - 1].id];
        r.delivered == d && r.db.applied == a))
  }

  ghost predicate Recovers(pf: Platform, run: seq<Event>)
    requires Legal(pf, run)
  {
    var c := Reach(pf, run);
    forall id :: id in c.replicas && c.replicas[id].delivered == |c.log| ==>
      ViewOf(c.replicas[id].db) == Replay(pf, c.log)
  }

  const WHO := "controller-1"
  const TOUCH := Command(Mutation(1, "touch", "Touch", [], 0))

  /** One effective entry behind n entries that do not decode. */
  function LateEntry(n: nat): seq<LogEntry> {
    seq(n, _ => Malformed) + [TOUCH]
  }

  lemma Extend(pf: Platform, run: seq<Event>, ev: Event, d: nat, a: nat)
    requires Legal(pf, run) && Enabled(Reach(pf, run), ev) && SnapshotsAt(pf, run, d, a)
    requires ev.TakeSnapshot? ==>
      Reach(pf, run).replicas[ev.id].delivered == d && Reach(pf, run).replicas[ev.id].db.applied == a
    ensures Legal(pf, run + [ev]) && Reach(pf, run + [ev]) == After(pf, Reach(pf, run), ev)
    ensures SnapshotsAt(pf, run + [ev], d, a)
  {
    RunExtends(pf, run, ev);
    assert (run + [ev])[..|run|] == run;
  }

  lemma CommitAll(pf: Platform, log: seq<LogEntry>, d: nat, a: nat) returns (run: seq<Event>)
    ensures Legal(pf, run) && SnapshotsAt(pf, run, d, a) && Reach(pf, run) == Cluster(log, map[])
  {
    if log == [] {
      run := [];
    } else {
      run := CommitAll(pf, log[..|log| - 1], d, a);
      Extend(pf, run, Commit(log[|log| - 1]), d, a);
      run := run + [Commit(log[|log| - 1])];
      assert log[..|log| - 1] + [log[|log| - 1]] == log;
    }
  }

  function Solo(log: seq<LogEntry>, r: Replica): Cluster {
    Cluster(log, map[WHO := r])
  }

  /** A step of the only replica, given what it does to that replica. */
  lemma ExtendSolo(pf: Platform, run: seq<Event>, ev: Event, log: seq<LogEntry>, r: Replica, r': Replica, d: nat, a: nat)
    requires Legal(pf, run) && SnapshotsAt(pf, run, d, a) && Reach(pf, run) == Solo(log, r)
    requires Enabled(Solo(log, r), ev) && !ev.Commit? && !ev.Join? && ev.id == WHO
    requires ev.TakeSnapshot? ==> r.delivered == d && r.db.applied == a
    requires After(pf, Solo(log, r), ev).replicas[WHO] == r'
    ensures Legal(pf, run + [ev]) && SnapshotsAt(pf, run + [ev], d, a) && Reach(pf, run + [ev]) == Solo(log, r')
  {
    Extend(pf, run, ev, d, a);
    assert After(pf, Solo(log, r), ev).replicas == map[WHO := r'];
  }

  /** Delivering entries that do not decode moves only the delivery position. */
  lemma DeliverMalformed(pf: Platform, run: seq<Event>, log: seq<LogEntry>, r: Replica, n: nat, d: nat, a: nat)
    returns (out: seq<Event>)
    requires Legal(pf, run) && SnapshotsAt(pf, run, d, a) && Reach(pf, run) == Solo(log, r)
    requires r.delivered <= n <= |log| && forall i :: 0 <= i < n ==> log[i] == Malformed
    ensures Legal(pf, out) && SnapshotsAt(pf, out, d, a) && Reach(pf, out) == Solo(log, r.(delivered := n))
    decreases n - r.delivered
  {
    if r.delivered == n {
      out := run;
    } else {
      var r' := r.(delivered := r.delivered + 1);
      ExtendSolo(pf, run, Deliver(WHO), log, r, r', d, a);
      out := DeliverMalformed(pf, run + [Deliver(WHO)], log, r', n, d, a);
    }
  }

  /** The effective entry, delivered to a database that has not marked it. */
  lemma DeliverTouch(pf: Platform, run: seq<Event>, log: seq<LogEntry>, r: Replica, d: nat, a: nat)
    returns (out: seq<Event>)
    requires Legal(pf, run) && SnapshotsAt(pf, run, d, a) && Reach(pf, run) == Solo(log, r)
    requires r.delivered < |log| && log[r.delivered] == TOUCH && r.db.applied <= r.delivered
    requires r.db.entries == map[] && r.db.revision < MAX_U64
    ensures Legal(pf, out) && SnapshotsAt(pf, out, d, a)
    ensures Reach(pf, out) == Solo(log, r.(
              db := Db(map[], r.db.revision + 1, 1, r.delivered + 1, r.db.floor), delivered := r.delivered + 1))
  {
    assert Admitted(pf, TOUCH) == Some([]);
    var r' := r.(db := Db(map[], r.db.revision + 1, 1, r.delivered + 1, r.db.floor), delivered := r.delivered + 1);
    ExtendSolo(pf, run, Deliver(WHO), log, r, r', d, a);
    out := run + [Deliver(WHO)];
  }

  lemma {:induction false} MalformedReplay(pf: Platform, n: nat)
    ensures Replay(pf, seq(n, _ => Malformed)) == View(map[], 0, 0)
  {
    hide Accepts, NextRevision;
    if n > 0 {
      MalformedReplay(pf, n - 1);
      assert seq(n, _ => Malformed)[..n - 1] == seq(n - 1, _ => Malformed);
    }
  }

  lemma LateEntryReplay(pf: Platform, n: nat)
    ensures Replay(pf, LateEntry(n)) == View(map[], 1, 1)
  {
    MalformedReplay(pf, n);
    assert LateEntry(n)[..n] == seq(n, _ => Malformed);
    assert Admitted(pf, TOUCH) == Some([]);
  }

  lemma JoinsAlone(pf: Platform, run: seq<Event>, log: seq<LogEntry>, d: nat, a: nat)
    requires Legal(pf, run) && SnapshotsAt(pf, run, d, a) && Reach(pf, run) == Cluster(log, map[])
    ensures Legal(pf, run + [Join(WHO)]) && SnapshotsAt(pf, run + [Join(WHO)], d, a)
    ensures Reach(pf, run + [Join(WHO)]) == Solo(log, BLANK_REPLICA)
  {
    hide Legal, SnapshotsAt, Reach;
    Extend(pf, run, Join(WHO), d, a);
  }

  lemma FirstDelivery(pf: Platform, d: nat, a: nat) returns (run: seq<Event>)
    requires 0 < a
    ensures Legal(pf, run) && SnapshotsAt(pf, run, d, a)
    ensures Reach(pf, run) == Solo(LateEntry(a - 1), Replica(Db(map[], 1, 1, a, 0), a, {}))
  {
    hide Legal, SnapshotsAt, Reach, After;
    var log := LateEntry(a - 1);
    run := CommitAll(pf, log, d, a);
    JoinsAlone(pf, run, log, d, a);
    run := DeliverMalformed(pf, run + [Join(WHO)], log, BLANK_REPLICA, a - 1, d, a);
    run := DeliverTouch(pf, run, log, BLANK_REPLICA.(delivered := a - 1), d, a);
  }

  lemma SnapshotWhileRedelivering(pf: Platform, d: nat, a: nat) returns (run: seq<Event>)
    requires 0 < d < a
    ensures Legal(pf, run) && SnapshotsAt(pf, run, d, a)
    ensures Reach(pf, run) ==
            Solo(LateEntry(a - 1), Replica(Db(map[], 1, 1, a, 1), d, {Image(d, View(map[], 1, 1))}))
  {
    var log, db := LateEntry(a - 1), Db(map[], 1, 1, a, 1);
    run := FirstDelivery(pf, d, a);
    ExtendSolo(pf, run, Restart(WHO, None), log, Replica(db.(floor := 0), a, {}), Replica(db, 0, {}), d, a);
    run := DeliverMalformed(pf, run + [Restart(WHO, None)], log, Replica(db, 0, {}), d, d, a);
    ExtendSolo(pf, run, TakeSnapshot(WHO), log, Replica(db, d, {}),
               Replica(db, d, {Image(d, View(map[], 1, 1))}), d, a);
    run := run + [TakeSnapshot(WHO)];
  }

  /**
   For any label d behind any watermark a there is a run whose only snapshot is
   taken there and after which a replica that was delivered the whole log does
   not hold it: the entry at the watermark has been applied twice.
   */
  lemma MislabelledSnapshotDiverges(pf: Platform, d: nat, a: nat) returns (run: seq<Event>)
    requires 0 < d < a
    ensures Legal(pf, run) && SnapshotsAt(pf, run, d, a) && WHO in Reach(pf, run).replicas
    ensures Reach(pf, run).replicas[WHO].delivered == |Reach(pf, run).log| == a
    ensures Replay(pf, Reach(pf, run).log).revision == 1 && Reach(pf, run).replicas[WHO].db.revision == 2
  {
    LateEntryReplay(pf, a - 1);
    run := SnapshotWhileRedelivering(pf, d, a);
    var log, image := LateEntry(a - 1), Image(d, View(map[], 1, 1));
    var r := Replica(Db(map[], 1, 1, 0, 1), d, {image});
    ExtendSolo(pf, run, Restart(WHO, Some(image)), log, r.(db := r.db.(applied := a)), r, d, a);
    run := DeliverMalformed(pf, run + [Restart(WHO, Some(image))], log, r, a - 1, d, a);
    run := DeliverTouch(pf, run, log, r.(delivered := a - 1), d, a);
  }

  lemma {:induction false} LabelsAheadAreClean(pf: Platform, run: seq<Event>, d: nat, a: nat)
    requires Legal(pf, run) && SnapshotsAt(pf, run, d, a) && a <= d
    ensures Clean(pf, run)
  {
    if run != [] {
      LabelsAheadAreClean(pf, run[..|run| - 1], d, a);
    }
  }

  /** Snapshots labelled d over watermark a are recoverable in every run exactly when a <= d. */
  lemma SnapshotSafeIffCaughtUp(pf: Platform, d: nat, a: nat)
    requires 0 < d
    ensures (forall run :: Legal(pf, run) && SnapshotsAt(pf, run, d, a) ==> Recovers(pf, run)) <==> a <= d
  {
    if a <= d {
      forall run | Legal(pf, run) && SnapshotsAt(pf, run, d, a)
        ensures Recovers(pf, run)
      {
        LabelsAheadAreClean(pf, run, d, a);
        var c := Reach(pf, run);
        forall id | id in c.replicas && c.replicas[id].delivered == |c.log|
          ensures ViewOf(c.replicas[id].db) == Replay(pf, c.log)
        {
          DeliveredLogIsHeld(pf, run, id);
        }
      }
    } else {
      var run := MislabelledSnapshotDiverges(pf, d, a);
      assert !Recovers(pf, run);
    }
  }
}
