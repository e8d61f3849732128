/**
 Whether a snapshot that a Controller produced can be restored. A restore cleans
 every stored name again and fails when one is refused, so it depends on the names
 that were put: their cleaned form must be a name that cleaning accepts.
 */
module SnapshotRestore {
  import opened Basics
  import opened Canonical
  import opened StateMachine
  import opened Replication
  import PathNames

  predicate NameSettles(pf: Platform, op: Operation) {
    op.op == "put" && pf.normalizePath(op.path).Some? ==> pf.normalizePath(pf.normalizePath(op.path).value).Some?
  }

  /** Every put of the entry has a cleaned name that cleaning accepts. */
  ghost predicate Settles(pf: Platform, e: LogEntry) {
    e.Command? ==> forall i :: 0 <= i < |e.mutation.operations| ==> NameSettles(pf, e.mutation.operations[i])
  }

  ghost predicate AllSettle(pf: Platform, run: seq<Event>) {
    forall i :: 0 <= i < |run| && run[i].Commit? ==> Settles(pf, run[i].entry)
  }

  /** The state can be restored from: a known schema, and every name is accepted. */
  ghost predicate Accepted(pf: Platform, v: View) {
    v.schema <= 1 && forall p :: p in v.entries ==> pf.normalizePath(p).Some?
  }

  lemma AcceptedIsRestorable(pf: Platform, db: Db)
    ensures Restorable(pf, EnvelopeOf(pf, db)) <==> Accepted(pf, ViewOf(db))
  {
  }

  /** A name in the state afterwards was there before or is the cleaned name of a put. */
  lemma NamesStem(pf: Platform, db: Db, index: nat, e: LogEntry, p: string)
    requires p in Step(pf, db, index, e).entries
    ensures p in db.entries ||
      (e.Command? && exists i :: 0 <= i < |e.mutation.operations| && e.mutation.operations[i].op == "put" && Targets(pf, e.mutation.operations[i], p))
  {
    if Reply(pf, db, index, e).ok && !Redelivered(db, index) {
      AcceptedFixesPaths(pf, db, index, e);
      hide Step, Reply;
      var ops := e.mutation.operations;
      assert FixedAt(pf, ops, p, Lookup(db.entries, p), Lookup(Step(pf, db, index, e).entries, p));
      if i: nat :| i < |ops| && Targets(pf, ops[i], p) {
        var last := SomeLast(pf, ops, p, i);
      }
    }
  }

  lemma SchemaStays(pf: Platform, db: Db, index: nat, e: LogEntry)
    requires db.schema <= 1
    ensures Step(pf, db, index, e).schema <= 1
  {
  }

  lemma StepKeepsAccepted(pf: Platform, db: Db, index: nat, e: LogEntry)
    requires Accepted(pf, ViewOf(db)) && Settles(pf, e)
    ensures Accepted(pf, ViewOf(Step(pf, db, index, e)))
  {
    SchemaStays(pf, db, index, e);
    hide Step;
    forall p | p in Step(pf, db, index, e).entries
      ensures pf.normalizePath(p).Some?
    {
      NamesStem(pf, db, index, e, p);
      if p !in db.entries {
        var i :| 0 <= i < |e.mutation.operations| && e.mutation.operations[i].op == "put" && Targets(pf, e.mutation.operations[i], p);
        assert NameSettles(pf, e.mutation.operations[i]);
      }
    }
  }

  ghost predicate AcceptedReplica(pf: Platform, r: Replica) {
    Accepted(pf, ViewOf(r.db)) && forall i :: i in r.images ==> Accepted(pf, i.view)
  }

  ghost predicate AcceptedCluster(pf: Platform, c: Cluster) {
    (forall i :: 0 <= i < |c.log| ==> Settles(pf, c.log[i])) && forall id :: id in c.replicas ==> AcceptedReplica(pf, c.replicas[id])
  }

  lemma BlankIsAccepted(pf: Platform)
    ensures AcceptedReplica(pf, BLANK_REPLICA)
  {
  }

  lemma AfterKeepsAccepted(pf: Platform, c: Cluster, ev: Event)
    requires AcceptedCluster(pf, c) && Enabled(c, ev) && (ev.Commit? ==> Settles(pf, ev.entry))
    ensures AcceptedCluster(pf, After(pf, c, ev))
  {
    hide Settles, Step, Accepted;
    assert AcceptedReplica(pf, BLANK_REPLICA) by { BlankIsAccepted(pf); }
    if ev.Deliver? {
      var r := c.replicas[ev.id];
      StepKeepsAccepted(pf, r.db, r.delivered + 1, c.log[r.delivered]);
    } else if ev.Install? {
      assert AcceptedReplica(pf, c.replicas[ev.donor]);
    }
    if ev.Deliver? || ev.Restart? || ev.TakeSnapshot? || ev.Install? {
      assert AcceptedReplica(pf, c.replicas[ev.id]);
    }
  }

  lemma NothingIsAccepted(pf: Platform)
    ensures AcceptedCluster(pf, EMPTY_CLUSTER)
  {
  }

  lemma {:induction false} EveryStateIsAccepted(pf: Platform, run: seq<Event>)
    requires Legal(pf, run) && AllSettle(pf, run)
    ensures AcceptedCluster(pf, Reach(pf, run))
  {
    hide After, AcceptedCluster, Settles;
    if run != [] {
      var n := |run| - 1;
      EveryStateIsAccepted(pf, run[..n]);
      AfterKeepsAccepted(pf, Reach(pf, run[..n]), run[n]);
    } else {
      NothingIsAccepted(pf);
    }
  }

  /** The envelope of a database is restorable, and restoring it anywhere gives its state back. */
  ghost predicate RoundTrips(pf: Platform, db: Db) {
    Restorable(pf, EnvelopeOf(pf, db)) && forall other: Db :: ViewOf(Restored(other, EnvelopeOf(pf, db))) == ViewOf(db)
  }

  ghost predicate AllRoundTrip(pf: Platform, c: Cluster) {
    forall id :: id in c.replicas ==> RoundTrips(pf, c.replicas[id].db)
  }

  /** When every put name settles, the envelope of every database that any run reaches restores to its state. */
  lemma SnapshotsRoundTrip(pf: Platform, run: seq<Event>)
    requires Legal(pf, run) && AllSettle(pf, run)
    ensures AllRoundTrip(pf, Reach(pf, run))
  {
    EveryStateIsAccepted(pf, run);
    hide Reach, Legal, AllSettle;
    var c := Reach(pf, run);
    forall id | id in c.replicas
      ensures RoundTrips(pf, c.replicas[id].db)
    {
      assert AcceptedReplica(pf, c.replicas[id]);
      AcceptedIsRestorable(pf, c.replicas[id].db);
    }
  }

  // ---------------------------------------------------------------- a name that does not settle

  const WHO := "controller-1"

  function PutOf(path: string): LogEntry {
    Command(Mutation(1, "put", "PutCanonicalRecord", [Operation("put", path, [], false, false, "")], 0))
  }

  /** The run puts nothing but this name. */
  ghost predicate PutsOnly(run: seq<Event>, path: string) {
    forall i :: 0 <= i < |run| && run[i].Commit? ==> run[i].entry == PutOf(path)
  }

  lemma PutIsApplied(pf: Platform, path: string, name: string)
    requires pf.normalizePath(path) == Some(name) && !IsRoute(name)
    ensures Step(pf, EMPTY_DB, 1, PutOf(path)) == Db(map[name := []], 1, 1, 1, 0)
  {
    var op := Operation("put", path, [], false, false, "");
    assert AllSupported(pf, [op]);
    assert Normalized(pf, [op]) == [op.(path := name)];
    assert [op.(path := name)][..0] == [];
    assert Writes(map[], [op.(path := name)]) == map[name := []];
  }

  lemma PutRun(pf: Platform, path: string, name: string) returns (run: seq<Event>)
    requires pf.normalizePath(path) == Some(name) && !IsRoute(name)
    ensures Legal(pf, run) && PutsOnly(run, path)
    ensures WHO in Reach(pf, run).replicas && Reach(pf, run).replicas[WHO].db.entries == map[name := []]
  {
    PutIsApplied(pf, path, name);
    hide Step;
    assert Legal(pf, []) && Reach(pf, []) == EMPTY_CLUSTER;
    RunExtends(pf, [], Commit(PutOf(path)));
    RunExtends(pf, [] + [Commit(PutOf(path))], Join(WHO));
    RunExtends(pf, [] + [Commit(PutOf(path))] + [Join(WHO)], Deliver(WHO));
    run := [] + [Commit(PutOf(path))] + [Join(WHO)] + [Deliver(WHO)];
  }

  /**
   Every run that puts only one name has snapshots that restore, on every replica
   and at every moment, if and only if cleaning accepts the cleaned name.
   */
  lemma RestoresIffNameSettles(pf: Platform, path: string, name: string)
    requires pf.normalizePath(path) == Some(name) && !IsRoute(name)
    ensures (forall run :: Legal(pf, run) && PutsOnly(run, path) ==> AllRoundTrip(pf, Reach(pf, run))) <==> pf.normalizePath(name).Some?
  {
    hide Reach, Legal;
    if pf.normalizePath(name).Some? {
      forall run | Legal(pf, run) && PutsOnly(run, path)
        ensures AllRoundTrip(pf, Reach(pf, run))
      {
        SnapshotsRoundTrip(pf, run);
      }
    } else {
      var run := PutRun(pf, path, name);
      assert name in Reach(pf, run).replicas[WHO].db.entries;
      assert !RoundTrips(pf, Reach(pf, run).replicas[WHO].db);
    }
  }

  // ---------------------------------------------------------------- with the real names

  /** The platform cleans names as the Controllers do. */
  ghost predicate CleansNames(pf: Platform) {
    forall path :: pf.normalizePath(path) == PathNames.Normalize(path)
  }

  predicate NoTrailingSpace(path: string) {
    var name := PathNames.Normalize(path);
    name.Some? ==> name.value == "" || !IsSpace(name.value[|name.value| - 1])
  }

  /** No put of the run has a name that is cleaned to one with a space at its end. */
  ghost predicate NoTrailingSpaces(run: seq<Event>) {
    forall i :: 0 <= i < |run| && run[i].Commit? && run[i].entry.Command? ==>
      forall k :: 0 <= k < |run[i].entry.mutation.operations| ==> NoTrailingSpace(run[i].entry.mutation.operations[k].path)
  }

  lemma PlainNameSettles(pf: Platform, op: Operation)
    requires CleansNames(pf) && NoTrailingSpace(op.path)
    ensures NameSettles(pf, op)
  {
    hide PathNames.Normalize;
    if PathNames.Normalize(op.path).Some? {
      PathNames.FixedIffNoTrailingSpace(op.path);
    }
  }

  /** Over every run without such names, the envelope of every database restores to its state. */
  lemma PlainNamesRoundTrip(pf: Platform, run: seq<Event>)
    requires CleansNames(pf) && Legal(pf, run) && NoTrailingSpaces(run)
    ensures AllRoundTrip(pf, Reach(pf, run))
  {
    hide Reach, Legal;
    forall i | 0 <= i < |run| && run[i].Commit?
      ensures Settles(pf, run[i].entry)
    {
      if run[i].entry.Command? {
        var ops := run[i].entry.mutation.operations;
        forall k | 0 <= k < |ops|
          ensures NameSettles(pf, ops[k])
        {
          PlainNameSettles(pf, ops[k]);
        }
      }
    }
    SnapshotsRoundTrip(pf, run);
  }

  /** One put of such a name leaves a Controller with a state whose snapshot cannot be restored. */
  lemma SpacedNameBlocksRestore(pf: Platform) returns (run: seq<Event>)
    requires CleansNames(pf)
    ensures Legal(pf, run) && PutsOnly(run, PathNames.SPACED) && !AllRoundTrip(pf, Reach(pf, run))
  {
    PathNames.SpacedIsRefusedAgain();
    hide PathNames.Normalize, Reach, Legal;
    assert !IsRoute("control/devices/ ") by { assert "control/devices/ "[8] == 'd' && ROUTES[8] == 'r'; }
    RestoresIffNameSettles(pf, PathNames.SPACED, "control/devices/ ");
    run :| Legal(pf, run) && PutsOnly(run, PathNames.SPACED) && !AllRoundTrip(pf, Reach(pf, run));
  }
}
