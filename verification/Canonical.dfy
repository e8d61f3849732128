/**
 The canonical key/value state of the control plane and the meaning of one
 committed log entry: guarded multi-put/delete, checked against the state before
 the entry, plus the route-ownership rule checked on the state after it.
 */
module Canonical {
  import opened Basics
  import opened Ipv4

  type Entries = map<string, Bytes>

  datatype Operation = Operation(
    op: string,
    path: string,
    data: Bytes,
    ifAbsent: bool,
    requirePresent: bool,
    expectedSha256: string)

  datatype Mutation = Mutation(
    version: int,
    id: string,
    kind: string,
    operations: seq<Operation>,
    revisionMinimum: nat)

  /** A committed log entry; Malformed is one whose payload does not decode. */
  datatype LogEntry = Malformed | Command(mutation: Mutation)

  datatype MutationResult = MutationResult(ok: bool, revision: nat, conflict: bool)

  datatype RouteRecord = RouteRecord(cidr: string, nodeId: string, ownerNodeId: string)

  datatype NodeRecord = NodeRecord(
    authorizedRoutes: Option<seq<string>>,
    advertisedRoutes: seq<string>,
    nodeId: string,
    revoked: bool,
    roles: set<string>)

  /** The parts of the platform the state machine only calls: hashing, path cleaning, parsers and the snapshot checksum. */
  datatype Platform = Platform(
    sha256: Bytes -> string,
    normalizePath: string -> Option<string>,
    decodeRoute: Bytes -> Option<RouteRecord>,
    decodeNode: Bytes -> Option<NodeRecord>,
    parsePrefix: string -> ParsedPrefix,
    checksum: (nat, nat, Entries) -> string)

  /** Everything the state machine keeps in its durable database. */
  datatype Db = Db(entries: Entries, revision: nat, schema: nat, applied: nat, floor: nat)

  const EMPTY_DB := Db(map[], 0, 0, 0, 0)

  const ROUTES := "control/routes/"
  const NODES := "control/nodes/"
  const RECONCILE := "ReconcileRevision"

  // ---------------------------------------------------------------- route ownership

  datatype Claim = Claim(owner: string, net: Net)

  function NodePath(owner: string): string {
    NODES + owner + ".json"
  }

  function OwnerOf(record: RouteRecord): Option<string> {
    var primary := Trim(record.ownerNodeId);
    var owner := if primary == "" then Trim(record.nodeId) else primary;
    if owner == "" || (record.nodeId != "" && Trim(record.nodeId) != owner) then None else Some(owner)
  }

  /** The owner and masked network that a stored route record claims, if it is well formed. */
  function ClaimOf(pf: Platform, raw: Bytes): Option<Claim> {
    match pf.decodeRoute(raw)
    case None => None
    case Some(record) =>
      var owner := OwnerOf(record);
      var net := UsableNet(pf.parsePrefix(Trim(record.cidr)));
      if owner.Some? && net.Some? then Some(Claim(owner.value, net.value)) else None
  }

  function GrantsOf(node: NodeRecord): seq<string> {
    if node.authorizedRoutes.Some? then node.authorizedRoutes.value else node.advertisedRoutes
  }

  predicate GrantCovers(pf: Platform, grant: string, net: Net) {
    var parsed := UsableNet(pf.parsePrefix(grant));
    parsed.Some? && parsed.value <= net
  }

  predicate ActiveSiteRouter(node: NodeRecord, owner: string) {
    Trim(node.nodeId) == owner && !node.revoked && "site_router" in node.roles
  }

  /** An existing, unrevoked site_router owner whose grants cover the claimed network. */
  predicate Backed(pf: Platform, nodes: Entries, claim: Claim) {
    NodePath(claim.owner) in nodes &&
    var node := pf.decodeNode(nodes[NodePath(claim.owner)]);
    node.Some? && ActiveSiteRouter(node.value, claim.owner) &&
    exists i :: 0 <= i < |GrantsOf(node.value)| && GrantCovers(pf, GrantsOf(node.value)[i], claim.net)
  }

  predicate ClaimBacked(pf: Platform, raw: Bytes, nodes: Entries) {
    var claim := ClaimOf(pf, raw);
    claim.Some? && Backed(pf, nodes, claim.value)
  }

  predicate Compatible(a: Claim, b: Claim) {
    a.owner == b.owner || !Overlaps(a.net, b.net)
  }

  predicate IsRoute(path: string) {
    HasPrefix(path, ROUTES)
  }

  /** The route-ownership rule: every route is backed and no two owners' routes overlap. */
  ghost predicate RoutesOwned(pf: Platform, entries: Entries) {
    (forall p :: p in entries && IsRoute(p) ==> ClaimBacked(pf, entries[p], entries)) &&
    (forall p, q :: p in entries && IsRoute(p) && q in entries && IsRoute(q) ==>
       ClaimOf(pf, entries[p]).Some? && ClaimOf(pf, entries[q]).Some? ==>
       Compatible(ClaimOf(pf, entries[p]).value, ClaimOf(pf, entries[q]).value))
  }

  // ---------------------------------------------------------------- one log entry

  predicate WellFormed(m: Mutation) {
    m.version == 1 && m.id != "" && m.kind != "" &&
    (if m.kind == RECONCILE then m.revisionMinimum != 0 && m.operations == [] else m.revisionMinimum == 0)
  }

  predicate Supported(pf: Platform, op: Operation) {
    pf.normalizePath(op.path).Some? && (op.op == "put" || op.op == "delete")
  }

  predicate AllSupported(pf: Platform, ops: seq<Operation>) {
    forall i :: 0 <= i < |ops| ==> Supported(pf, ops[i])
  }

  function Normalized(pf: Platform, ops: seq<Operation>): (r: seq<Operation>)
    requires AllSupported(pf, ops)
    ensures |r| == |ops|
    ensures forall i :: 0 <= i < |ops| ==>
      r[i] == ops[i].(path := pf.normalizePath(ops[i].path).value) && (r[i].op == "put" || r[i].op == "delete")
  {
    seq(|ops|, i requires 0 <= i < |ops| => ops[i].(path := pf.normalizePath(ops[i].path).value))
  }

  predicate Guard(pf: Platform, entries: Entries, op: Operation) {
    (op.ifAbsent ==> op.path !in entries) &&
    (op.requirePresent ==> op.path in entries) &&
    (op.expectedSha256 != "" ==>
       op.path in entries && pf.sha256(entries[op.path]) == Lower(op.expectedSha256))
  }

  predicate Guards(pf: Platform, entries: Entries, ops: seq<Operation>) {
    forall i :: 0 <= i < |ops| ==> Guard(pf, entries, ops[i])
  }

  function Write(entries: Entries, op: Operation): Entries {
    if op.op == "put" then entries[op.path := op.data]
    else if op.op == "delete" then entries - {op.path}
    else entries
  }

  /** The entries after the operations, in order. */
  function Writes(entries: Entries, ops: seq<Operation>): Entries {
    if ops == [] then entries
    else Write(Writes(entries, ops[..|ops| - 1]), ops[|ops| - 1])
  }

  /** The operations of an entry that reaches the transaction, or None if it is rejected before it. */
  function Admitted(pf: Platform, e: LogEntry): Option<seq<Operation>> {
    if e.Command? && WellFormed(e.mutation) && AllSupported(pf, e.mutation.operations)
    then Some(Normalized(pf, e.mutation.operations)) else None
  }

  ghost predicate Accepts(pf: Platform, entries: Entries, ops: seq<Operation>) {
    Guards(pf, entries, ops) && RoutesOwned(pf, Writes(entries, ops))
  }

  /** The revision an accepted entry leaves, or None when the counter is exhausted. */
  function NextRevision(m: Mutation, revision: nat): Option<nat> {
    if m.kind == RECONCILE then Some(if m.revisionMinimum > revision then m.revisionMinimum else revision)
    else if revision == MAX_U64 then None
    else Some(revision + 1)
  }

  predicate Redelivered(db: Db, index: nat) {
    index != 0 && index <= db.applied
  }

  function Mark(db: Db, index: nat): Db {
    if index != 0 then db.(applied := index) else db
  }

  /** The database after the entry at a log index. */
  ghost function Step(pf: Platform, db: Db, index: nat, e: LogEntry): Db {
    var ops := Admitted(pf, e);
    if ops.None? || Redelivered(db, index) then db
    else if !Accepts(pf, db.entries, ops.value) then Mark(db, index)
    else
      match NextRevision(e.mutation, db.revision)
      case None => db
      case Some(revision) =>
        Mark(db, index).(entries := Writes(db.entries, ops.value), revision := revision, schema := 1)
  }

  /** What the entry reports to its submitter. */
  ghost function Reply(pf: Platform, db: Db, index: nat, e: LogEntry): MutationResult {
    var ops := Admitted(pf, e);
    if ops.None? then MutationResult(false, 0, false)
    else if Redelivered(db, index) then MutationResult(true, db.revision, false)
    else if !Accepts(pf, db.entries, ops.value) then MutationResult(false, db.revision, true)
    else
      match NextRevision(e.mutation, db.revision)
      case None => MutationResult(false, 0, false)
      case Some(revision) => MutationResult(true, revision, false)
  }

  // ---------------------------------------------------------------- what an entry leaves at each path

  predicate Targets(pf: Platform, op: Operation, path: string) {
    pf.normalizePath(op.path) == Some(path)
  }

  /** The i-th operation is the last one on the path. */
  predicate LastOn(pf: Platform, ops: seq<Operation>, path: string, i: nat) {
    i < |ops| && Targets(pf, ops[i], path) && forall k :: i < k < |ops| ==> !Targets(pf, ops[k], path)
  }

  /** What is at a path afterwards: the data of the last operation on it if that is a put, nothing if it is a delete, what was there otherwise. */
  ghost predicate FixedAt(pf: Platform, ops: seq<Operation>, path: string, before: Option<Bytes>, after: Option<Bytes>) {
    (forall i: nat :: LastOn(pf, ops, path, i) ==> after == if ops[i].op == "put" then Some(ops[i].data) else None) &&
    ((forall i :: 0 <= i < |ops| ==> !Targets(pf, ops[i], path)) ==> after == before)
  }

  ghost predicate FixedByLast(pf: Platform, ops: seq<Operation>, before: Entries, after: Entries) {
    forall path :: FixedAt(pf, ops, path, Lookup(before, path), Lookup(after, path))
  }

  /** A name that some operation touches has a last operation. */
  lemma {:induction false} SomeLast(pf: Platform, ops: seq<Operation>, path: string, i: nat) returns (last: nat)
    requires i < |ops| && Targets(pf, ops[i], path)
    ensures LastOn(pf, ops, path, last)
    decreases |ops| - i
  {
    if k: nat :| i < k < |ops| && Targets(pf, ops[k], path) {
      last := SomeLast(pf, ops, path, k);
    } else {
      last := i;
    }
  }

  lemma FixedOneMore(pf: Platform, ops: seq<Operation>, path: string, before: Option<Bytes>, middle: Option<Bytes>, after: Option<Bytes>)
    requires ops != [] && FixedAt(pf, ops[..|ops| - 1], path, before, middle)
    requires var last := ops[|ops| - 1];
             after == if !Targets(pf, last, path) then middle else if last.op == "put" then Some(last.data) else None
    ensures FixedAt(pf, ops, path, before, after)
  {
    var n := |ops| - 1;
    var rest := ops[..n];
    assert forall k :: 0 <= k < n ==> rest[k] == ops[k];
    forall i: nat | LastOn(pf, ops, path, i)
      ensures after == if ops[i].op == "put" then Some(ops[i].data) else None
    {
      if i < n {
        assert LastOn(pf, rest, path, i);
      }
    }
  }

  lemma NothingFixed(pf: Platform, path: string, before: Option<Bytes>)
    ensures FixedAt(pf, [], path, before, before)
  {
  }

  lemma WriteAt(entries: Entries, op: Operation, path: string)
    requires op.op == "put" || op.op == "delete"
    ensures Lookup(Write(entries, op), path) ==
      if op.path != path then Lookup(entries, path) else if op.op == "put" then Some(op.data) else None
  {
  }

  lemma {:induction false} WrittenAt(pf: Platform, ops: seq<Operation>, before: Entries, path: string)
    requires AllSupported(pf, ops)
    ensures FixedAt(pf, ops, path, Lookup(before, path), Lookup(Writes(before, Normalized(pf, ops)), path))
  {
    hide FixedAt, Write;
    if ops == [] {
      NothingFixed(pf, path, Lookup(before, path));
    } else {
      var n := |ops| - 1;
      WrittenAt(pf, ops[..n], before, path);
      var normal := Normalized(pf, ops);
      assert normal[..n] == Normalized(pf, ops[..n]);
      assert Supported(pf, ops[n]);
      WriteAt(Writes(before, normal[..n]), normal[n], path);
      FixedOneMore(pf, ops, path, Lookup(before, path), Lookup(Writes(before, normal[..n]), path), Lookup(Writes(before, normal), path));
    }
  }

  lemma WritesAreFixed(pf: Platform, ops: seq<Operation>, before: Entries)
    requires AllSupported(pf, ops)
    ensures FixedByLast(pf, ops, before, Writes(before, Normalized(pf, ops)))
  {
    hide Writes, FixedAt;
    forall path
      ensures FixedAt(pf, ops, path, Lookup(before, path), Lookup(Writes(before, Normalized(pf, ops)), path))
    {
      WrittenAt(pf, ops, before, path);
    }
  }

  /** An entry that is accepted and not redelivered leaves at every path what its last operation on it says. */
  lemma AcceptedFixesPaths(pf: Platform, db: Db, index: nat, e: LogEntry)
    requires Reply(pf, db, index, e).ok && !Redelivered(db, index)
    ensures FixedByLast(pf, e.mutation.operations, db.entries, Step(pf, db, index, e).entries)
  {
    hide Accepts, Writes, FixedByLast;
    WritesAreFixed(pf, e.mutation.operations, db.entries);
  }

  /** The operation is supported, and its guards hold of the state before the entry. */
  predicate GuardHolds(pf: Platform, before: Entries, op: Operation) {
    var path := pf.normalizePath(op.path);
    path.Some? && (op.op == "put" || op.op == "delete") &&
    (op.ifAbsent ==> path.value !in before) && (op.requirePresent ==> path.value in before) &&
    (op.expectedSha256 != "" ==> path.value in before && pf.sha256(before[path.value]) == Lower(op.expectedSha256))
  }

  ghost predicate AllGuardsHold(pf: Platform, before: Entries, ops: seq<Operation>) {
    forall i :: 0 <= i < |ops| ==> GuardHolds(pf, before, ops[i])
  }

  lemma GuardsOfNormalized(pf: Platform, before: Entries, ops: seq<Operation>)
    ensures AllGuardsHold(pf, before, ops) <==> AllSupported(pf, ops) && Guards(pf, before, Normalized(pf, ops))
  {
    if AllSupported(pf, ops) {
      var normal := Normalized(pf, ops);
      forall i | 0 <= i < |ops|
        ensures GuardHolds(pf, before, ops[i]) <==> Guard(pf, before, normal[i])
      {
        assert Supported(pf, ops[i]);
      }
      assert forall i :: 0 <= i < |ops| ==> (GuardHolds(pf, before, ops[i]) <==> Guard(pf, before, normal[i]));
    } else {
      var i :| 0 <= i < |ops| && !Supported(pf, ops[i]);
      assert !GuardHolds(pf, before, ops[i]);
    }
  }

  /** The last operations on all paths leave only one state. */
  lemma FixedIsWritten(pf: Platform, ops: seq<Operation>, before: Entries, after: Entries)
    requires AllSupported(pf, ops) && FixedByLast(pf, ops, before, after)
    ensures after == Writes(before, Normalized(pf, ops))
  {
    hide Writes;
    var written := Writes(before, Normalized(pf, ops));
    forall path
      ensures Lookup(after, path) == Lookup(written, path)
    {
      WrittenAt(pf, ops, before, path);
      if i: nat :| i < |ops| && Targets(pf, ops[i], path) {
        var last := SomeLast(pf, ops, path, i);
      }
    }
    assert forall path :: path in after <==> Lookup(after, path).Some?;
    assert forall path :: path in written <==> Lookup(written, path).Some?;
  }

  /**
   An entry that is not redelivered is accepted if and only if it is well formed,
   the guards of all its operations hold of the state before it, the state that
   it leaves satisfies the ownership rule and the counter is not exhausted.
   */
  lemma AcceptedIff(pf: Platform, db: Db, index: nat, m: Mutation, after: Entries)
    requires !Redelivered(db, index) && FixedByLast(pf, m.operations, db.entries, after)
    ensures Reply(pf, db, index, Command(m)).ok <==>
      WellFormed(m) && AllGuardsHold(pf, db.entries, m.operations) && RoutesOwned(pf, after) &&
      (m.kind == RECONCILE || db.revision != MAX_U64)
  {
    hide RoutesOwned, Guards, AllGuardsHold, FixedByLast, Writes, WellFormed;
    GuardsOfNormalized(pf, db.entries, m.operations);
    if AllSupported(pf, m.operations) {
      FixedIsWritten(pf, m.operations, db.entries, after);
    }
  }

  /** The canonical part of a database: what replicas must agree on. */
  datatype View = View(entries: Entries, revision: nat, schema: nat)

  function ViewOf(db: Db): View {
    View(db.entries, db.revision, db.schema)
  }

  ghost function Once(pf: Platform, v: View, e: LogEntry): View {
    ViewOf(Step(pf, Db(v.entries, v.revision, v.schema, 0, 0), 0, e))
  }

  /** Each entry applied exactly once, in order, to the empty state. */
  ghost function Replay(pf: Platform, log: seq<LogEntry>): View {
    if log == [] then ViewOf(EMPTY_DB)
    else Once(pf, Replay(pf, log[..|log| - 1]), log[|log| - 1])
  }
}
