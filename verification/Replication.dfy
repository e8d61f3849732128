/**
 Whole runs of a Controller cluster over one agreed log: commits, deliveries,
 crashes with redelivery, snapshots, restores and snapshot installation, in any
 order on any number of replicas.

 The log library labels a snapshot with the last index it has delivered in this
 process, restores a local snapshot on start when there is one, and delivers the
 log from the entry after the restored label.
 */
module Replication {
  import opened Basics
  import opened Canonical
  import opened StateMachine

  /** A stored snapshot: its label in the log and the canonical state it holds. */
  datatype Image = Image(index: nat, view: View)

  datatype Replica = Replica(db: Db, delivered: nat, images: set<Image>)

  datatype Cluster = Cluster(log: seq<LogEntry>, replicas: map<string, Replica>)

  datatype Event =
    | Commit(entry: LogEntry)
    | Join(id: string)
    | Deliver(id: string)
    | Restart(id: string, base: Option<Image>)
    | TakeSnapshot(id: string)
    | Install(id: string, donor: string, image: Image)

  const BLANK_REPLICA := Replica(EMPTY_DB, 0, {})

  const EMPTY_CLUSTER := Cluster([], map[])

  /** Loading an image is the state machine's restore of an envelope with that content. */
  function Base(db: Db, image: Image): Db {
    Restored(db, Envelope(1, image.view.schema, image.view.revision, image.view.entries, ""))
  }

  predicate Enabled(c: Cluster, ev: Event) {
    match ev
    case Commit(_) => true
    case Join(id) => id !in c.replicas
    case Deliver(id) => id in c.replicas && c.replicas[id].delivered < |c.log|
    case Restart(id, base) =>
      id in c.replicas && !ReplayUnsafe(c.replicas[id].db, c.replicas[id].images != {}) &&
      (if base.None? then c.replicas[id].images == {} else base.value in c.replicas[id].images)
    case TakeSnapshot(id) =>
      id in c.replicas && 0 < c.replicas[id].delivered && c.replicas[id].db.floor <= c.replicas[id].db.revision
    case Install(id, donor, image) =>
      id in c.replicas && donor in c.replicas && image in c.replicas[donor].images &&
      c.replicas[id].delivered < image.index
  }

  ghost function After(pf: Platform, c: Cluster, ev: Event): Cluster
    requires Enabled(c, ev)
  {
    match ev
    case Commit(entry) => c.(log := c.log + [entry])
    case Join(id) => c.(replicas := c.replicas[id := BLANK_REPLICA])
    case Deliver(id) =>
      var r := c.replicas[id];
      var db := Step(pf, r.db, r.delivered + 1, c.log[r.delivered]);
      c.(replicas := c.replicas[id := r.(db := db, delivered := r.delivered + 1)])
    case Restart(id, base) =>
      var r := c.replicas[id];
      var db := Floored(r.db);
      c.(replicas := c.replicas[id :=
        if base.None? then r.(db := db, delivered := 0)
        else r.(db := Base(db, base.value), delivered := base.value.index)])
    case TakeSnapshot(id) =>
      var r := c.replicas[id];
      c.(replicas := c.replicas[id := r.(images := r.images + {Image(r.delivered, ViewOf(r.db))})])
    case Install(id, donor, image) =>
      var r := c.replicas[id];
      c.(replicas := c.replicas[id :=
        r.(db := Base(r.db, image), delivered := image.index, images := r.images + {image})])
  }

  // ---------------------------------------------------------------- runs

  ghost predicate Legal(pf: Platform, run: seq<Event>)
    decreases |run|, 0
  {
    run == [] ||
    (Legal(pf, run[..|run| - 1]) && Enabled(Reach(pf, run[..|run| - 1]), run[|run| - 1]))
  }

  /** The cluster after a legal run from nothing. */
  ghost function Reach(pf: Platform, run: seq<Event>): Cluster
    requires Legal(pf, run)
    decreases |run|, 1
  {
    if run == [] then EMPTY_CLUSTER
    else After(pf, Reach(pf, run[..|run| - 1]), run[|run| - 1])
  }

  /** Redelivery has caught up with the durable watermark. */
  predicate CaughtUp(r: Replica) {
    r.db.applied <= r.delivered
  }

  /** Every snapshot of the run was taken by a replica that had caught up. */
  ghost predicate Clean(pf: Platform, run: seq<Event>)
    requires Legal(pf, run)
  {
    run == [] ||
    (Clean(pf, run[..|run| - 1]) &&
     (run[|run| - 1].TakeSnapshot? ==> CaughtUp(Reach(pf, run[..|run| - 1]).replicas[run[|run| - 1].id])))
  }

  // ---------------------------------------------------------------- exact recovery

  function Reached(r: Replica): nat {
    Max(r.delivered, r.db.applied)
  }

  ghost predicate ExactReplica(pf: Platform, log: seq<LogEntry>, r: Replica) {
    Reached(r) <= |log| &&
    ViewOf(r.db) == Replay(pf, log[..Reached(r)]) &&
    (r.images == {} ==> ViewOf(r.db) == Replay(pf, log[..r.db.applied])) &&
    forall i :: i in r.images ==> i.index <= |log| && i.view == Replay(pf, log[..i.index])
  }

  ghost predicate Exact(pf: Platform, c: Cluster) {
    forall id :: id in c.replicas ==> ExactReplica(pf, c.log, c.replicas[id])
  }

  lemma DeliverKeepsExact(pf: Platform, log: seq<LogEntry>, r: Replica)
    requires ExactReplica(pf, log, r) && r.delivered < |log|
    ensures ExactReplica(pf, log,
              r.(db := Step(pf, r.db, r.delivered + 1, log[r.delivered]), delivered := r.delivered + 1))
  {
    var index := r.delivered + 1;
    assert log[..index][..r.delivered] == log[..r.delivered];
    if index <= r.db.applied {
      assert Redelivered(r.db, index);
    } else {
      assert Replay(pf, log[..index]) == Once(pf, ViewOf(r.db), log[r.delivered]);
    }
  }

  lemma CommitKeepsExact(pf: Platform, log: seq<LogEntry>, entry: LogEntry, r: Replica)
    requires ExactReplica(pf, log, r)
    ensures ExactReplica(pf, log + [entry], r)
  {
    assert (log + [entry])[..Reached(r)] == log[..Reached(r)];
    assert (log + [entry])[..r.db.applied] == log[..r.db.applied];
    forall i | i in r.images
      ensures i.view == Replay(pf, (log + [entry])[..i.index])
    {
      assert (log + [entry])[..i.index] == log[..i.index];
    }
  }

  lemma RestartKeepsExact(pf: Platform, log: seq<LogEntry>, r: Replica, base: Option<Image>)
    requires ExactReplica(pf, log, r)
    requires if base.None? then r.images == {} else base.value in r.images
    ensures ExactReplica(pf, log,
              if base.None? then r.(db := Floored(r.db), delivered := 0)
              else r.(db := Base(Floored(r.db), base.value), delivered := base.value.index))
  {
  }

  lemma InstallKeepsExact(pf: Platform, log: seq<LogEntry>, r: Replica, image: Image)
    requires ExactReplica(pf, log, r) && image.index <= |log| && image.view == Replay(pf, log[..image.index])
    ensures ExactReplica(pf, log, r.(db := Base(r.db, image), delivered := image.index, images := r.images + {image}))
  {
  }

  lemma SnapshotKeepsExact(pf: Platform, log: seq<LogEntry>, r: Replica)
    requires ExactReplica(pf, log, r) && CaughtUp(r)
    ensures ExactReplica(pf, log, r.(images := r.images + {Image(r.delivered, ViewOf(r.db))}))
  {
  }

  lemma AfterKeepsExact(pf: Platform, c: Cluster, ev: Event)
    requires Exact(pf, c) && Enabled(c, ev)
    requires ev.TakeSnapshot? ==> CaughtUp(c.replicas[ev.id])
    ensures Exact(pf, After(pf, c, ev))
  {
    match ev
    case Commit(entry) =>
      forall id | id in c.replicas
        ensures ExactReplica(pf, c.log + [entry], c.replicas[id])
      {
        CommitKeepsExact(pf, c.log, entry, c.replicas[id]);
      }
    case Join(_) => assert c.log[..0] == [];
    case Deliver(who) => DeliverKeepsExact(pf, c.log, c.replicas[who]);
    case Restart(who, base) => RestartKeepsExact(pf, c.log, c.replicas[who], base);
    case TakeSnapshot(who) => SnapshotKeepsExact(pf, c.log, c.replicas[who]);
    case Install(who, donor, image) =>
      assert ExactReplica(pf, c.log, c.replicas[donor]);
      InstallKeepsExact(pf, c.log, c.replicas[who], image);
  }

  /**
   Whatever the schedule of crashes, redeliveries, restores and installations, a
   replica holds exactly the log prefix it has reached applied once to the empty
   state, provided no snapshot was taken in the middle of a redelivery.
   */
  lemma {:induction false} RecoveryIsExact(pf: Platform, run: seq<Event>)
    requires Legal(pf, run) && Clean(pf, run)
    ensures Exact(pf, Reach(pf, run))
  {
    if run != [] {
      RecoveryIsExact(pf, run[..|run| - 1]);
      AfterKeepsExact(pf, Reach(pf, run[..|run| - 1]), run[|run| - 1]);
    }
  }

  /** A replica that has been delivered the whole log holds the whole log, applied once. */
  lemma DeliveredLogIsHeld(pf: Platform, run: seq<Event>, id: string)
    requires Legal(pf, run) && Clean(pf, run)
    requires id in Reach(pf, run).replicas && Reach(pf, run).replicas[id].delivered == |Reach(pf, run).log|
    ensures ViewOf(Reach(pf, run).replicas[id].db) == Replay(pf, Reach(pf, run).log)
  {
    RecoveryIsExact(pf, run);
    var c := Reach(pf, run);
    assert ExactReplica(pf, c.log, c.replicas[id]);
    assert c.log[..|c.log|] == c.log;
  }

  // ---------------------------------------------------------------- safety of every run, clean or not

  ghost predicate SafeReplica(pf: Platform, r: Replica) {
    RoutesOwned(pf, r.db.entries) &&
    (forall i :: i in r.images ==> RoutesOwned(pf, i.view.entries)) &&
    (r.images == {} && r.db.applied == 0 ==> r.db.revision == 0 && r.db.entries == map[])
  }

  ghost predicate Safe(pf: Platform, c: Cluster) {
    forall id :: id in c.replicas ==> SafeReplica(pf, c.replicas[id])
  }

  /**
   In every reachable state every route on every replica has an existing,
   unrevoked site_router owner whose grants cover it and no two owners' routes
   overlap; and a replica can always be restarted.
   */
  lemma {:induction false} EveryRunIsSafe(pf: Platform, run: seq<Event>)
    requires Legal(pf, run)
    ensures Safe(pf, Reach(pf, run))
    ensures forall id :: id in Reach(pf, run).replicas ==>
      !ReplayUnsafe(Reach(pf, run).replicas[id].db, Reach(pf, run).replicas[id].images != {})
  {
    if run != [] {
      var before, ev := Reach(pf, run[..|run| - 1]), run[|run| - 1];
      EveryRunIsSafe(pf, run[..|run| - 1]);
      var c := After(pf, before, ev);
      forall id | id in c.replicas
        ensures SafeReplica(pf, c.replicas[id])
      {
        if id in before.replicas {
          assert SafeReplica(pf, before.replicas[id]);
        }
      }
    }
  }

  /** The durable revision floor of a replica never decreases from one point of a run to a later one. */
  lemma {:induction false} FloorNeverDecreases(pf: Platform, run: seq<Event>, n: nat, id: string)
    requires Legal(pf, run) && n <= |run| && Legal(pf, run[..n])
    requires id in Reach(pf, run[..n]).replicas
    ensures id in Reach(pf, run).replicas
    ensures Reach(pf, run[..n]).replicas[id].db.floor <= Reach(pf, run).replicas[id].db.floor
  {
    if n < |run| {
      assert run[..|run| - 1][..n] == run[..n];
      FloorNeverDecreases(pf, run[..|run| - 1], n, id);
    } else {
      assert run[..n] == run;
    }
  }

  // ---------------------------------------------------------------- the floor gate reopens

  /** The canonical state after the first n entries of a log. */
  ghost function Canon(pf: Platform, log: seq<LogEntry>, n: nat): View
    requires n <= |log|
  {
    Replay(pf, log[..n])
  }

  lemma {:induction false} RevisionGrows(pf: Platform, log: seq<LogEntry>, n: nat)
    requires n <= |log|
    ensures Replay(pf, log[..n]).revision <= Replay(pf, log).revision
  {
    if n < |log| {
      RevisionGrows(pf, log[..|log| - 1], n);
      assert log[..|log| - 1][..n] == log[..n];
    } else {
      assert log[..n] == log;
    }
  }

  /** A revision names one canonical policy: states of a log at the same revision have the same entries. */
  lemma {:induction false} RevisionNamesEntries(pf: Platform, log: seq<LogEntry>, n: nat)
    requires n <= |log| && Replay(pf, log[..n]).revision == Replay(pf, log).revision
    ensures Replay(pf, log[..n]).entries == Replay(pf, log).entries
  {
    if n == |log| {
      assert log[..n] == log;
    } else {
      var before := log[..|log| - 1];
      assert before[..n] == log[..n];
      RevisionGrows(pf, before, n);
      RevisionGrows(pf, log, |before|);
      RevisionNamesEntries(pf, before, n);
      var ops := Admitted(pf, log[|log| - 1]);
      if ops.Some? && log[|log| - 1].mutation.kind == RECONCILE {
        assert ops.value == [];
      }
    }
  }

  ghost predicate FloorsWithinLog(pf: Platform, c: Cluster) {
    forall id :: id in c.replicas ==> c.replicas[id].db.floor <= Replay(pf, c.log).revision
  }

  lemma AfterKeepsFloors(pf: Platform, c: Cluster, ev: Event)
    requires Exact(pf, c) && Enabled(c, ev) && FloorsWithinLog(pf, c)
    ensures FloorsWithinLog(pf, After(pf, c, ev))
  {
    match ev
    case Commit(entry) =>
      RevisionGrows(pf, c.log + [entry], |c.log|);
      assert (c.log + [entry])[..|c.log|] == c.log;
    case Restart(id, _) =>
      assert ExactReplica(pf, c.log, c.replicas[id]);
      RevisionGrows(pf, c.log, Reached(c.replicas[id]));
    case _ =>
  }

  lemma {:induction false} FloorsStayWithinLog(pf: Platform, run: seq<Event>)
    requires Legal(pf, run) && Clean(pf, run)
    ensures FloorsWithinLog(pf, Reach(pf, run))
  {
    if run != [] {
      FloorsStayWithinLog(pf, run[..|run| - 1]);
      RecoveryIsExact(pf, run[..|run| - 1]);
      AfterKeepsFloors(pf, Reach(pf, run[..|run| - 1]), run[|run| - 1]);
    }
  }

  /** The preserved floor never runs ahead of the committed log, so catching up always satisfies it. */
  lemma CatchingUpSatisfiesFloor(pf: Platform, run: seq<Event>, id: string)
    requires Legal(pf, run) && Clean(pf, run)
    requires id in Reach(pf, run).replicas && Reach(pf, run).replicas[id].delivered == |Reach(pf, run).log|
    ensures Reach(pf, run).replicas[id].db.floor <= Reach(pf, run).replicas[id].db.revision
  {
    FloorsStayWithinLog(pf, run);
    DeliveredLogIsHeld(pf, run, id);
  }

  lemma RunExtends(pf: Platform, run: seq<Event>, ev: Event)
    requires Legal(pf, run) && Enabled(Reach(pf, run), ev)
    ensures Legal(pf, run + [ev]) && Reach(pf, run + [ev]) == After(pf, Reach(pf, run), ev)
  {
    assert (run + [ev])[..|run|] == run;
  }
}
