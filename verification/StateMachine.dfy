/**
 The state machine and the Controller Node that gates it, as objects that update
 their durable database and their projected files in place. Every method is tied
 to the meaning of a log entry given in Canonical.
 */
module StateMachine {
  import opened Basics
  import opened Canonical
  import RouteValidator

  datatype Envelope = Envelope(version: int, schema: nat, revision: nat, entries: Entries, checksum: string)

  /** The point at which file I/O starts to fail, if it does. */
  type Fault = Option<nat>

  /** Every canonical entry is projected, and every projected canonical file is an entry. */
  ghost predicate Mirrors(pf: Platform, files: Entries, entries: Entries) {
    (forall p :: p in entries ==> p in files && files[p] == entries[p]) &&
    (forall p :: p in files && pf.normalizePath(p) == Some(p) ==> p in entries)
  }

  /** Some file is scanned under this canonical name. */
  ghost predicate Names(pf: Platform, files: Entries, p: string) {
    exists f :: f in files && pf.normalizePath(f) == Some(p)
  }

  function EnvelopeOf(pf: Platform, db: Db): Envelope {
    Envelope(1, db.schema, db.revision, db.entries, pf.checksum(db.schema, db.revision, db.entries))
  }

  predicate Restorable(pf: Platform, env: Envelope) {
    env.version == 1 && env.schema <= 1 && env.checksum == pf.checksum(env.schema, env.revision, env.entries) &&
    forall p :: p in env.entries ==> pf.normalizePath(p).Some?
  }

  /** The database a snapshot replaces the old one with: its content, and no watermark. */
  function Restored(db: Db, env: Envelope): Db {
    Db(env.entries, env.revision, env.schema, 0, db.floor)
  }

  /** A materialised database with no watermark needs a snapshot to replay onto. */
  predicate ReplayUnsafe(db: Db, hasSnapshots: bool) {
    db.applied == 0 && (db.revision != 0 || db.entries != map[]) && !hasSnapshots
  }

  function Floored(db: Db): Db {
    db.(floor := Max(db.floor, db.revision))
  }

  class StateMachine {
    const pf: Platform
    var entries: Entries
    var revision: nat
    var schema: nat
    var applied: nat
    var floor: nat
    var files: Entries

    constructor (pf: Platform, files: Entries)
      ensures this.pf == pf && this.files == files && Database() == EMPTY_DB
    {
      this.pf, this.files := pf, files;
      entries, revision, schema, applied, floor := map[], 0, 0, 0, 0;
    }

    function Database(): Db
      reads this
    {
      Db(entries, revision, schema, applied, floor)
    }

    method NormalizeOperations(ops: seq<Operation>) returns (r: Option<seq<Operation>>)
      ensures r.Some? <==> AllSupported(pf, ops)
      ensures r.Some? ==> r.value == Normalized(pf, ops)
    {
      var normalized := [];
      for n := 0 to |ops|
        invariant AllSupported(pf, ops[..n]) && normalized == Normalized(pf, ops[..n])
      {
        assert ops[..n + 1] == ops[..n] + [ops[n]];
        var path := pf.normalizePath(ops[n].path);
        if path.None? || (ops[n].op != "put" && ops[n].op != "delete") {
          return None;
        }
        normalized := normalized + [ops[n].(path := path.value)];
      }
      assert ops[..|ops|] == ops;
      return Some(normalized);
    }

    method CheckGuards(ops: seq<Operation>) returns (ok: bool)
      ensures ok <==> Guards(pf, entries, ops)
    {
      for n := 0 to |ops|
        invariant Guards(pf, entries, ops[..n])
      {
        var op := ops[n];
        if (op.ifAbsent && op.path in entries) || (op.requirePresent && op.path !in entries) {
          return false;
        }
        if op.expectedSha256 != "" {
          if op.path !in entries || pf.sha256(entries[op.path]) != Lower(op.expectedSha256) {
            return false;
          }
        }
        assert ops[..n + 1] == ops[..n] + [op];
      }
      assert ops[..|ops|] == ops;
      return true;
    }

    /** One committed log entry. A file fault is reported but never rolls the state back. */
    method Apply(index: nat, e: LogEntry, fault: Fault) returns (r: MutationResult)
      modifies this
      ensures Database() == Step(pf, old(Database()), index, e)
      ensures r == Reply(pf, old(Database()), index, e) ||
              (fault.Some? && Reply(pf, old(Database()), index, e).ok && r == MutationResult(false, revision, false))
      ensures r.ok && !Redelivered(old(Database()), index) ==>
                files == Writes(old(files), Admitted(pf, e).value)
      ensures !Reply(pf, old(Database()), index, e).ok || Redelivered(old(Database()), index) ==> files == old(files)
      ensures Reply(pf, old(Database()), index, e).ok && !Redelivered(old(Database()), index) ==>
                FixedByLast(pf, e.mutation.operations, old(entries), entries) &&
                (r.ok ==> FixedByLast(pf, e.mutation.operations, old(files), files))
    {
      hide RoutesOwned, Guards, Writes, Normalized, AllSupported, FixedByLast;
      if e.Malformed? || !WellFormed(e.mutation) {
        return MutationResult(false, 0, false);
      }
      var normalized := NormalizeOperations(e.mutation.operations);
      if normalized.None? {
        return MutationResult(false, 0, false);
      }
      var ops := normalized.value;
      if index != 0 && index <= applied {
        return MutationResult(true, revision, false);
      }
      var ok := CheckGuards(ops);
      if ok {
        ok := RouteValidator.ValidateRouteOwnership(pf, entries, ops);
      }
      if !ok {
        if index != 0 {
          applied := index;
        }
        return MutationResult(false, revision, true);
      }
      var next := revision;
      if e.mutation.kind == RECONCILE {
        if e.mutation.revisionMinimum > next {
          next := e.mutation.revisionMinimum;
        }
      } else {
        if revision == MAX_U64 {
          return MutationResult(false, 0, false);
        }
        next := revision + 1;
      }
      var written := WriteAll(entries, ops);
      entries, revision, schema := written, next, 1;
      if index != 0 {
        applied := index;
      }
      var projected := ProjectOperations(ops, fault);
      WritesAreFixed(pf, e.mutation.operations, old(entries));
      WritesAreFixed(pf, e.mutation.operations, old(files));
      return MutationResult(projected, revision, false);
    }

    static method WriteAll(start: Entries, ops: seq<Operation>) returns (result: Entries)
      ensures result == Writes(start, ops)
    {
      result := start;
      for n := 0 to |ops|
        invariant result == Writes(start, ops[..n])
      {
        assert ops[..n + 1][..n] == ops[..n];
        if ops[n].op == "put" {
          result := result[ops[n].path := ops[n].data];
        } else if ops[n].op == "delete" {
          result := result - {ops[n].path};
        }
      }
      assert ops[..|ops|] == ops;
    }

    method ProjectOperations(ops: seq<Operation>, fault: Fault) returns (ok: bool)
      modifies this`files
      ensures ok ==> files == Writes(old(files), ops)
      ensures !ok ==> fault.Some? && fault.value < |ops| && files == Writes(old(files), ops[..fault.value])
    {
      for n := 0 to |ops|
        invariant files == Writes(old(files), ops[..n])
        invariant fault.Some? ==> n <= fault.value
      {
        if fault == Some(n) {
          return false;
        }
        assert ops[..n + 1][..n] == ops[..n];
        if ops[n].op == "put" {
          files := files[ops[n].path := ops[n].data];
        } else if ops[n].op == "delete" {
          files := files - {ops[n].path};
        }
      }
      assert ops[..|ops|] == ops;
      return true;
    }

    method WriteEntries(fault: Fault) returns (ok: bool, done: nat)
      modifies this`files
      ensures fault.None? ==> ok
      ensures ok ==> files == old(files) + entries
      ensures forall p :: p !in entries ==> Lookup(files, p) == Lookup(old(files), p)
    {
      var pending := entries.Keys;
      done := 0;
      while pending != {}
        invariant pending <= entries.Keys
        invariant files.Keys == old(files).Keys + (entries.Keys - pending)
        invariant forall p :: p in files ==> files[p] == if p in entries && p !in pending then entries[p] else old(files)[p]
        decreases pending
      {
        if fault.Some? && done >= fault.value {
          return false, done;
        }
        var path :| path in pending;
        files := files[path := entries[path]];
        pending, done := pending - {path}, done + 1;
      }
      return true, done;
    }

    method RemoveStale(done: nat, fault: Fault) returns (ok: bool)
      modifies this`files
      ensures fault.None? ==> ok
      ensures forall p :: p in files ==> p in old(files) && files[p] == old(files)[p]
      ensures forall p :: p in old(files) && (p in entries || !Names(pf, old(files), p)) ==> p in files
      ensures ok ==> forall p :: p in files && Names(pf, old(files), p) ==> p in entries
    {
      var existing := set p | p in files && pf.normalizePath(p).Some? :: pf.normalizePath(p).value;
      var count := done;
      while existing != {}
        invariant forall p :: p in files ==> p in old(files) && files[p] == old(files)[p]
        invariant forall p :: p in existing ==> Names(pf, old(files), p)
        invariant forall p :: p in old(files) && (p in entries || !Names(pf, old(files), p)) ==> p in files
        invariant forall p :: p in files && Names(pf, old(files), p) ==> p in entries || p in existing
        decreases existing
      {
        if fault.Some? && count >= fault.value {
          return false;
        }
        var path :| path in existing;
        if path !in entries {
          files := files - {path};
        }
        existing, count := existing - {path}, count + 1;
      }
      return true;
    }

    /** Rewrites the projected files from the canonical entries and removes stale ones. */
    method ReconcileProjection(fault: Fault) returns (ok: bool)
      modifies this`files
      ensures fault.None? ==> ok
      ensures ok ==> Mirrors(pf, files, entries)
      ensures forall p :: p !in entries && !Names(pf, old(files) + entries, p) ==>
                          Lookup(files, p) == Lookup(old(files), p)
    {
      var done;
      ok, done := WriteEntries(fault);
      if ok {
        ok := RemoveStale(done, fault);
      }
    }

    /** A snapshot of the current state, refused below the preserved revision floor. */
    method Snapshot() returns (env: Option<Envelope>)
      ensures env.Some? <==> revision >= floor
      ensures env.Some? ==> env.value == EnvelopeOf(pf, Database())
    {
      if revision < floor {
        return None;
      }
      return Some(Envelope(1, schema, revision, entries, pf.checksum(schema, revision, entries)));
    }

    /** Replaces the durable state with a snapshot and forgets the watermark. */
    method Restore(env: Envelope, fault: Fault) returns (ok: bool)
      modifies this
      ensures Database() == if Restorable(pf, env) then Restored(old(Database()), env) else old(Database())
      ensures ok ==> Restorable(pf, env) && Mirrors(pf, files, entries)
      ensures Restorable(pf, env) && fault.None? ==> ok
    {
      if env.version != 1 || env.schema > 1 || env.checksum != pf.checksum(env.schema, env.revision, env.entries) {
        return false;
      }
      var pending := env.entries.Keys;
      while pending != {}
        invariant pending <= env.entries.Keys
        invariant forall p :: p in env.entries && p !in pending ==> pf.normalizePath(p).Some?
        decreases pending
      {
        var path :| path in pending;
        if pf.normalizePath(path).None? {
          return false;
        }
        pending := pending - {path};
      }
      entries, revision, schema, applied := env.entries, env.revision, env.schema, 0;
      ok := ReconcileProjection(fault);
    }

    /** Records the revision floor before the log library may restore an older snapshot. */
    method PrepareReplay(hasSnapshots: bool) returns (result: Option<nat>)
      modifies this`floor
      ensures result.None? <==> ReplayUnsafe(old(Database()), hasSnapshots)
      ensures Database() == if result.Some? then Floored(old(Database())) else old(Database())
      ensures result.Some? ==> result.value == floor && old(floor) <= floor && revision <= floor
    {
      if applied == 0 && (revision != 0 || entries != map[]) && !hasSnapshots {
        return None;
      }
      if revision > floor {
        floor := revision;
      }
      return Some(floor);
    }
  }

  /** A running Controller: the state machine plus the floor preserved when it started. */
  class Node {
    const fsm: StateMachine
    const revisionFloor: nat

    /** The floor the Controller checks against is the durable one. */
    ghost predicate Valid()
      reads this, fsm
    {
      revisionFloor == fsm.floor
    }

    constructor (fsm: StateMachine, revisionFloor: nat)
      requires revisionFloor == fsm.floor
      ensures this.fsm == fsm && this.revisionFloor == revisionFloor && Valid()
    {
      this.fsm, this.revisionFloor := fsm, revisionFloor;
    }

    /** A restart: the floor is preserved first, and no Controller runs when the replay would be unsafe. */
    static method Start(fsm: StateMachine, hasSnapshots: bool, existing: bool, fault: Fault) returns (node: Option<Node>)
      modifies fsm`floor, fsm`files
      ensures node.Some? ==> node.value.Valid() && node.value.fsm == fsm && old(fsm.floor) <= fsm.floor && fsm.revision <= fsm.floor
      ensures node.Some? && existing ==> Mirrors(fsm.pf, fsm.files, fsm.entries)
      ensures ReplayUnsafe(old(fsm.Database()), hasSnapshots) ==> node.None?
    {
      var floor := fsm.PrepareReplay(hasSnapshots);
      if floor.None? {
        return None;
      }
      if existing {
        var ok := fsm.ReconcileProjection(fault);
        if !ok {
          return None;
        }
      }
      var started := new Node(fsm, floor.value);
      return Some(started);
    }

    /** A linearizable read on the Leader, as one step after its barrier. */
    method StrongRead(leader: bool, barrier: bool, fault: Fault) returns (revision: Option<nat>)
      requires Valid()
      modifies fsm`files
      ensures Valid() && (revision.Some? ==> leader && barrier && revision.value == fsm.revision >= fsm.floor &&
                                             Mirrors(fsm.pf, fsm.files, fsm.entries))
      ensures leader && barrier && fault.None? && fsm.revision >= fsm.floor ==> revision.Some?
    {
      if !leader || !barrier || fsm.revision < revisionFloor {
        return None;
      }
      var ok := fsm.ReconcileProjection(fault);
      if !ok {
        return None;
      }
      return Some(fsm.revision);
    }

    /** Waits, one poll at a time, for the log library to have applied an index. */
    method WaitApplied(index: nat, polls: seq<nat>, fault: Fault) returns (ok: bool)
      requires Valid()
      modifies fsm`files
      ensures Valid() && (ok ==> (exists i :: 0 <= i < |polls| && polls[i] >= index) && fsm.revision >= fsm.floor &&
                                 Mirrors(fsm.pf, fsm.files, fsm.entries))
      ensures fault.None? && fsm.revision >= fsm.floor && (exists i :: 0 <= i < |polls| && polls[i] >= index) ==> ok
    {
      for n := 0 to |polls|
        invariant forall i :: 0 <= i < n ==> polls[i] < index
      {
        if polls[n] >= index {
          if fsm.revision < revisionFloor {
            return false;
          }
          ok := fsm.ReconcileProjection(fault);
          return;
        }
      }
      return false;
    }
  }
}
