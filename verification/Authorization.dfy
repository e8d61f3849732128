/**
 Device-to-Device authorization over canonical state. A request reads records
 one at a time from projected files that other Controllers may be changing, and
 then commits a mutation that rewrites nothing but guards every record it read,
 present or absent. Whatever happened in between, a ticket that is returned was
 justified by the canonical state at the revision stamped in it.
 */
module Authorization {
  import opened Basics
  import opened Ipv4
  import opened Canonical
  import Replication
  import SM = StateMachine

  datatype ConfigDoc = ConfigDoc(p2pEnabled: bool)

  datatype ClusterDoc = ClusterDoc(clusterId: string)

  datatype CredentialDoc = CredentialDoc(scope: string, expiresAt: int, userId: string, deviceId: string)

  datatype UserDoc = UserDoc(id: string, enabled: bool)

  /** A Device record; a key or address that does not pass its format check is None. */
  datatype DeviceDoc = DeviceDoc(id: string, userId: string, enabled: bool, revoked: bool,
                                 identityKey: Option<string>, wireguardKey: Option<string>, address: Option<Addr>)

  /** An Access record; a rule list that is not a list is None. */
  datatype AccessDoc = AccessDoc(nonEmpty: bool, version: int, subjectType: string, subjectId: string,
                                 p2pEnabled: bool, allow: Option<seq<string>>, deny: Option<seq<string>>)

  datatype Participant = Participant(deviceId: string, userId: string, identityKey: string, wireguardKey: string, address: Addr)

  datatype Grant = Grant(cluster: string, sessionId: string, revision: nat, issuedAt: int, expiresAt: int,
                         participants: (Participant, Participant))

  /** Decoders of the stored JSON documents and of tickets whose signature verifies, and the strict CIDR parser. */
  datatype Decoders = Decoders(
    config: Bytes -> Option<ConfigDoc>,
    cluster: Bytes -> Option<ClusterDoc>,
    credential: Bytes -> Option<CredentialDoc>,
    user: Bytes -> Option<UserDoc>,
    device: Bytes -> Option<DeviceDoc>,
    access: Bytes -> Option<AccessDoc>,
    network: string -> ParsedPrefix,
    isId: string -> bool,
    ticket: Bytes -> Option<Grant>)

  datatype PolicyEntry = PolicyEntry(sessionId: string, ticketSha256: string)

  datatype Checkpoint = Checkpoint(cluster: string, deviceId: string, revision: nat, issuedAt: int, expiresAt: int,
                                   allowed: seq<PolicyEntry>)

  const MAX_SESSIONS := 16

  const CONFIG := "control/config.json"
  const CLUSTER := "cluster/cluster.json"

  function UserPath(id: string): string { "control/identity/users/" + id + ".json" }

  function DevicePath(id: string): string { "control/devices/" + id + ".json" }

  function AccessPath(kind: string, id: string): string { "control/access/" + kind + "-" + id + ".json" }

  const NO_ACCESS := AccessDoc(false, 0, "", "", false, Some([]), Some([]))

  // ---------------------------------------------------------------- the decision on canonical entries

  /** A Device's record as a participant: it exists, belongs to the owner, is active and has usable keys and address. */
  function ParticipantOf(d: Decoders, owner: string, id: string, raw: Option<Bytes>): Option<Participant> {
    var doc := if raw.Some? then d.device(raw.value) else None;
    if doc.Some? && doc.value.id == id && doc.value.userId == owner && doc.value.enabled && !doc.value.revoked &&
       doc.value.identityKey.Some? && doc.value.wireguardKey.Some? && doc.value.address.Some? && IsPrivate(doc.value.address.value)
    then Some(Participant(id, owner, doc.value.identityKey.value, doc.value.wireguardKey.value, doc.value.address.value))
    else None
  }

  function ParticipantAt(d: Decoders, e: Entries, owner: string, id: string): Option<Participant> {
    ParticipantOf(d, owner, id, Lookup(e, DevicePath(id)))
  }

  function AccessAt(d: Decoders, e: Entries, kind: string, subject: string): Option<AccessDoc> {
    if AccessPath(kind, subject) !in e then Some(NO_ACCESS)
    else
      var doc := d.access(e[AccessPath(kind, subject)]);
      if doc.Some? && (doc.value.nonEmpty ==>
           doc.value.version == 1 && doc.value.subjectType == kind && doc.value.subjectId == subject)
      then doc else None
  }

  predicate ValidRule(d: Decoders, rule: string) {
    UsableNet(d.network(rule)).Some?
  }

  predicate Covers(d: Decoders, rule: string, target: Addr) {
    ValidRule(d, rule) && Contains(UsableNet(d.network(rule)).value, target)
  }

  predicate RulesValid(d: Decoders, policy: AccessDoc) {
    policy.allow.Some? && policy.deny.Some? &&
    (forall i :: 0 <= i < |policy.allow.value| ==> ValidRule(d, policy.allow.value[i])) &&
    (forall i :: 0 <= i < |policy.deny.value| ==> ValidRule(d, policy.deny.value[i]))
  }

  predicate Allows(d: Decoders, policy: AccessDoc, target: Addr) {
    policy.allow.Some? && exists i :: 0 <= i < |policy.allow.value| && Covers(d, policy.allow.value[i], target)
  }

  predicate Denies(d: Decoders, policy: AccessDoc, target: Addr) {
    policy.deny.Some? && exists i :: 0 <= i < |policy.deny.value| && Covers(d, policy.deny.value[i], target)
  }

  predicate Distinct(a: Participant, b: Participant) {
    a.deviceId != b.deviceId && a.identityKey != b.identityKey && a.wireguardKey != b.wireguardKey && a.address != b.address
  }

  /** Active Devices of one owner, distinct in everything. */
  predicate PeersAt(d: Decoders, e: Entries, owner: string, initiator: string, host: string, peers: (Participant, Participant)) {
    ParticipantAt(d, e, owner, initiator) == Some(peers.0) && ParticipantAt(d, e, owner, host) == Some(peers.1) &&
    Distinct(peers.0, peers.1)
  }

  /** Mutual consent, and an allow without a deny for the target. */
  predicate PoliciesPermit(d: Decoders, e: Entries, owner: string, initiator: string, host: string, target: Addr) {
    var a := AccessAt(d, e, "device", initiator);
    var b := AccessAt(d, e, "device", host);
    var u := AccessAt(d, e, "user", owner);
    a.Some? && b.Some? && u.Some? && a.value.p2pEnabled && b.value.p2pEnabled &&
    RulesValid(d, u.value) && RulesValid(d, a.value) && !Denies(d, u.value, target) && !Denies(d, a.value, target) &&
    (Allows(d, u.value, target) || Allows(d, a.value, target))
  }

  /** Same owner, active Devices, mutual consent, and an allow without a deny for the Host's address. */
  predicate PairPermitted(d: Decoders, e: Entries, owner: string, initiator: string, host: string,
                          peers: (Participant, Participant)) {
    PeersAt(d, e, owner, initiator, host, peers) && PoliciesPermit(d, e, owner, initiator, host, peers.1.address)
  }

  /** P2P is switched on in this cluster. */
  predicate SettingsPermit(d: Decoders, e: Entries, cluster: string) {
    (CONFIG in e && var c := d.config(e[CONFIG]); c.Some? && c.value.p2pEnabled) &&
    CLUSTER in e && d.cluster(e[CLUSTER]) == Some(ClusterDoc(cluster))
  }

  predicate CredentialAt(d: Decoders, e: Entries, path: string, owner: string, device: string, expires: int) {
    path in e && d.credential(e[path]) == Some(CredentialDoc("device", expires, owner, device))
  }

  predicate UserEnabled(d: Decoders, e: Entries, owner: string) {
    UserPath(owner) in e && d.user(e[UserPath(owner)]) == Some(UserDoc(owner, true))
  }

  /** The caller's Device credential, its enabled user and its own active Device, with P2P switched on. */
  predicate CallerPermitted(d: Decoders, e: Entries, credentialPath: string, cluster: string,
                            owner: string, device: string, expires: int) {
    SettingsPermit(d, e, cluster) && CredentialAt(d, e, credentialPath, owner, device, expires) &&
    UserEnabled(d, e, owner) && ParticipantAt(d, e, owner, device).Some?
  }

  /** A permitted caller whose credential has not expired, with identifiers of the accepted form. */
  predicate Authentic(d: Decoders, e: Entries, credentialPath: string, started: int, cluster: string, owner: string, device: string, expires: int) {
    CallerPermitted(d, e, credentialPath, cluster, owner, device, expires) && 0 < |cluster| <= 128 && expires > started &&
    d.isId(owner) && d.isId(device)
  }

  lemma AuthenticParts(d: Decoders, e: Entries, credentialPath: string, started: int)
    ensures (exists c, o, x, t :: Authentic(d, e, credentialPath, started, c, o, x, t)) ==>
      (exists c :: SettingsPermit(d, e, c) && 0 < |c| <= 128) &&
      (exists o, x, t :: CredentialAt(d, e, credentialPath, o, x, t) && t > started && d.isId(o) && d.isId(x))
  {
  }

  /** The settings and the credential of a state name one caller. */
  lemma AuthenticIff(d: Decoders, e: Entries, credentialPath: string, started: int, cluster: string, owner: string, device: string, expires: int)
    requires SettingsPermit(d, e, cluster) && 0 < |cluster| <= 128 && CredentialAt(d, e, credentialPath, owner, device, expires)
    requires expires > started && d.isId(owner) && d.isId(device)
    ensures (exists c, o, x, t :: Authentic(d, e, credentialPath, started, c, o, x, t)) <==>
      UserEnabled(d, e, owner) && ParticipantAt(d, e, owner, device).Some?
  {
    hide ParticipantAt, UserEnabled;
    if UserEnabled(d, e, owner) && ParticipantAt(d, e, owner, device).Some? {
      assert Authentic(d, e, credentialPath, started, cluster, owner, device, expires);
    }
  }

  // ---------------------------------------------------------------- reads and their guards

  type Values = map<string, Option<Bytes>>

  /** The entries hold exactly what was read, including what was read as absent. */
  ghost predicate Agrees(e: Entries, values: Values) {
    forall p :: p in values ==> Lookup(e, p) == values[p]
  }

  ghost predicate Extends(before: Values, after: Values) {
    forall p :: p in before ==> p in after && after[p] == before[p]
  }

  function GuardFor(pf: Platform, path: string, raw: Option<Bytes>): Operation {
    if raw.None? then Operation("delete", path, [], true, false, "")
    else Operation("put", path, raw.value, false, false, pf.sha256(raw.value))
  }

  /** No state that agrees with the reads permits the pair as it was signed. */
  ghost predicate PairRefused(d: Decoders, values: Values, owner: string, initiator: string, host: string,
                              peers: (Participant, Participant)) {
    forall e :: Agrees(e, values) ==> !PairPermitted(d, e, owner, initiator, host, peers)
  }

  /** What a read of the path gives: what was read before, or the file at this read. */
  function ReadOf(values: Values, files: nat -> Entries, count: nat, path: string): Option<Bytes> {
    if path in values then values[path] else Lookup(files(count), path)
  }

  function CountAfter(values: Values, count: nat, path: string): nat {
    if path in values then count else count + 1
  }

  /** No file changes while the request reads. */
  ghost predicate Quiet(files: nat -> Entries) {
    forall k :: files(k) == files(0)
  }

  /** Reads of quiet files keep agreeing with them. */
  ghost predicate KeepsQuiet(files: nat -> Entries, before: Values, after: Values) {
    Quiet(files) && Agrees(files(0), before) ==> Agrees(files(0), after)
  }

  /** The Device's record has not been read yet, and its file is missing at the next read. */
  predicate UnreadMissing(values: Values, files: nat -> Entries, count: nat, id: string) {
    DevicePath(id) !in values && DevicePath(id) !in files(count)
  }

  /**
   The file read, made to decide a pair, that finds no Device record: the
   Initiator's, or else the Host's when the Initiator may take part. Such a read
   is not remembered, so nothing fences it.
   */
  function LostRead(d: Decoders, owner: string, values: Values, files: nat -> Entries, count: nat, initiator: string, host: string): Option<nat> {
    var path := DevicePath(initiator);
    if !d.isId(initiator) then None
    else if UnreadMissing(values, files, count, initiator) then Some(count)
    else
      var raw := ReadOf(values, files, count, path);
      if ParticipantOf(d, owner, initiator, raw).Some? && d.isId(host) &&
         UnreadMissing(values[path := raw], files, CountAfter(values, count, path), host)
      then Some(CountAfter(values, count, path)) else None
  }

  /** One guarding operation per record that was read. */
  ghost predicate GuardsAll(pf: Platform, values: Values, ops: seq<Operation>) {
    (forall i :: 0 <= i < |ops| ==> ops[i].path in values && ops[i] == GuardFor(pf, ops[i].path, values[ops[i].path])) &&
    (forall p :: p in values ==> pf.normalizePath(p) == Some(p) && exists i :: 0 <= i < |ops| && ops[i].path == p)
  }

  ghost predicate HashIsInjective(pf: Platform) {
    (forall b: Bytes :: pf.sha256(b) != "" && Lower(pf.sha256(b)) == pf.sha256(b)) &&
    (forall a: Bytes, b: Bytes :: pf.sha256(a) == pf.sha256(b) ==> a == b)
  }

  lemma {:induction false} WritingBackIsIdle(pf: Platform, values: Values, ops: seq<Operation>, e: Entries)
    requires Agrees(e, values)
    requires forall i :: 0 <= i < |ops| ==> ops[i].path in values && ops[i] == GuardFor(pf, ops[i].path, values[ops[i].path])
    ensures Writes(e, ops) == e
  {
    if ops != [] {
      WritingBackIsIdle(pf, values, ops[..|ops| - 1], e);
      var last := ops[|ops| - 1];
      assert Lookup(e, last.path) == values[last.path];
      assert Write(e, last) == e;
    }
  }

  /** Guards hold exactly of the states that agree with the reads, and writing back what was read changes nothing. */
  lemma GuardsFenceReads(pf: Platform, values: Values, ops: seq<Operation>, e: Entries)
    requires HashIsInjective(pf) && GuardsAll(pf, values, ops)
    ensures Guards(pf, e, ops) <==> Agrees(e, values)
    ensures Guards(pf, e, ops) ==> Writes(e, ops) == e
  {
    if Guards(pf, e, ops) {
      forall p | p in values
        ensures Lookup(e, p) == values[p]
      {
        var i :| 0 <= i < |ops| && ops[i].path == p;
        assert Guard(pf, e, ops[i]);
      }
    }
    if Agrees(e, values) {
      forall i | 0 <= i < |ops|
        ensures Guard(pf, e, ops[i])
      {
        assert Lookup(e, ops[i].path) == values[ops[i].path];
      }
      WritingBackIsIdle(pf, values, ops, e);
    }
  }

  lemma GuardsNormalize(pf: Platform, values: Values, ops: seq<Operation>)
    requires GuardsAll(pf, values, ops)
    ensures AllSupported(pf, ops) && Normalized(pf, ops) == ops
  {
    forall i | 0 <= i < |ops|
      ensures Supported(pf, ops[i]) && pf.normalizePath(ops[i].path) == Some(ops[i].path)
    {
    }
  }

  function Fence(kind: string, ops: seq<Operation>): LogEntry {
    Command(Mutation(1, "request", kind, ops, 0))
  }

  /** An accepted fence proves the reads right; accepted or not, it changes no entry. */
  lemma FenceEffect(pf: Platform, db: Db, index: nat, kind: string, values: Values, ops: seq<Operation>)
    requires HashIsInjective(pf) && GuardsAll(pf, values, ops) && kind != "" && kind != RECONCILE && !Redelivered(db, index)
    ensures var next, reply := Step(pf, db, index, Fence(kind, ops)), Reply(pf, db, index, Fence(kind, ops));
            next.entries == db.entries &&
            (reply.ok ==> Agrees(db.entries, values) && reply.revision == next.revision == db.revision + 1)
    ensures Accepts(pf, db.entries, ops) && db.revision < MAX_U64 ==> Reply(pf, db, index, Fence(kind, ops)).ok
    ensures Agrees(db.entries, values) && RoutesOwned(pf, db.entries) && db.revision < MAX_U64 ==> Reply(pf, db, index, Fence(kind, ops)).ok
  {
    hide GuardsAll, HashIsInjective, RoutesOwned;
    GuardsNormalize(pf, values, ops);
    GuardsFenceReads(pf, values, ops, db.entries);
  }

  /** The canonical state agrees with all reads, their paths are canonical, and the fence would be newer than the request. */
  ghost predicate Committable(pf: Platform, values: Values, db: Db, revision: nat) {
    Agrees(db.entries, values) && (forall p :: p in values ==> pf.normalizePath(p) == Some(p)) &&
    RoutesOwned(pf, db.entries) && revision <= db.revision < MAX_U64
  }

  // ---------------------------------------------------------------- the request

  /** How a decision ended: granted, denied (HTTP 403) or failed with another status. */
  datatype Decision<T> = Granted(value: T) | Denied | Failed

  class Snapshot {
    const pf: Platform
    const d: Decoders
    const files: nat -> Entries   // the projected files at the k-th file read
    const started: int
    const revision: nat
    var values: Values
    var readCount: nat
    var cluster: string
    var owner: string
    var device: string
    var expires: int

    constructor (pf: Platform, d: Decoders, files: nat -> Entries, started: int, revision: nat)
      ensures this.pf == pf && this.d == d && this.files == files && this.started == started && this.revision == revision
      ensures values == map[]
    {
      this.pf, this.d, this.files, this.started, this.revision := pf, d, files, started, revision;
      values, readCount, cluster, owner, device, expires := map[], 0, "", "", "", 0;
    }

    /** Reads a file once; a missing mandatory file is refused and not remembered. */
    method Read(path: string, optional: bool) returns (r: Decision<Option<Bytes>>)
      modifies this`values, this`readCount
      ensures Extends(old(values), values) && (r.Granted? ==> path in values && values[path] == r.value)
      ensures readCount == CountAfter(old(values), old(readCount), path)
      ensures var raw := ReadOf(old(values), files, old(readCount), path);
              if !optional && path !in old(values) && raw.None? then r.Denied? && values == old(values)
              else r == Granted(raw) && values == old(values)[path := raw]
      ensures KeepsQuiet(files, old(values), values)
      ensures Quiet(files) && Agrees(files(0), old(values)) && path in files(0) ==> r == Granted(Some(files(0)[path]))
    {
      if path !in values {
        var raw := Lookup(files(readCount), path);
        readCount := readCount + 1;
        if raw.None? && !optional {
          return Denied;
        }
        values := values[path := raw];
      }
      return Granted(values[path]);
    }

    method Access(kind: string, subject: string) returns (r: Decision<AccessDoc>)
      modifies this`values, this`readCount
      ensures Extends(old(values), values)
      ensures r.Granted? ==> forall e :: Agrees(e, values) ==> AccessAt(d, e, kind, subject) == Some(r.value)
      ensures !r.Granted? ==> r.Failed? && forall e :: Agrees(e, values) ==> AccessAt(d, e, kind, subject).None?
      ensures old(readCount) <= readCount && KeepsQuiet(files, old(values), values)
    {
      var raw := Read(AccessPath(kind, subject), true);
      if raw.value.None? {
        return Granted(NO_ACCESS);
      }
      var doc := d.access(raw.value.value);
      if doc.None? || (doc.value.nonEmpty &&
           (doc.value.version != 1 || doc.value.subjectType != kind || doc.value.subjectId != subject)) {
        return Failed;
      }
      return Granted(doc.value);
    }

    method ReadParticipant(id: string) returns (r: Decision<Participant>)
      modifies this`values, this`readCount
      ensures Extends(old(values), values) && old(readCount) <= readCount && KeepsQuiet(files, old(values), values)
      ensures r.Granted? ==> forall e :: Agrees(e, values) ==> ParticipantAt(d, e, owner, id) == Some(r.value)
      ensures var raw := ReadOf(old(values), files, old(readCount), DevicePath(id));
              if !d.isId(id) then r.Failed?
              else readCount == CountAfter(old(values), old(readCount), DevicePath(id)) &&
                   if UnreadMissing(old(values), files, old(readCount), id) then r.Denied? && values == old(values)
                   else values == old(values)[DevicePath(id) := raw] &&
                        if r.Granted? then ParticipantOf(d, owner, id, raw) == Some(r.value)
                        else ParticipantOf(d, owner, id, raw).None?
    {
      if !d.isId(id) {
        return Failed;
      }
      var raw := Read(DevicePath(id), false);
      if raw.Denied? {
        return Denied;
      }
      var doc := if raw.value.None? then None else d.device(raw.value.value);
      if raw.value.Some? && doc.None? {
        return Failed;
      }
      if doc.None? || doc.value.id != id || doc.value.userId != owner || !doc.value.enabled || doc.value.revoked {
        return Denied;
      }
      if doc.value.identityKey.None? || doc.value.wireguardKey.None? || doc.value.address.None? {
        return Failed;
      }
      if !IsPrivate(doc.value.address.value) {
        return Denied;
      }
      return Granted(Participant(id, owner, doc.value.identityKey.value, doc.value.wireguardKey.value, doc.value.address.value));
    }

    /** Deny rules of a policy first, then its allow rules, as one scan. */
    method ScanPolicy(policy: AccessDoc, target: Addr) returns (r: Decision<bool>)
      ensures r.Granted? ==> RulesValid(d, policy) && !Denies(d, policy, target) &&
                             (r.value <==> Allows(d, policy, target))
      ensures r.Denied? ==> Denies(d, policy, target)
      ensures r.Failed? ==> !RulesValid(d, policy)
    {
      if policy.deny.None? {
        return Failed;
      }
      for i := 0 to |policy.deny.value|
        invariant forall k :: 0 <= k < i ==> ValidRule(d, policy.deny.value[k]) && !Covers(d, policy.deny.value[k], target)
      {
        if !ValidRule(d, policy.deny.value[i]) {
          return Failed;
        }
        if Covers(d, policy.deny.value[i], target) {
          return Denied;
        }
      }
      if policy.allow.None? {
        return Failed;
      }
      var allow := false;
      for i := 0 to |policy.allow.value|
        invariant forall k :: 0 <= k < i ==> ValidRule(d, policy.allow.value[k])
        invariant allow <==> exists k :: 0 <= k < i && Covers(d, policy.allow.value[k], target)
      {
        if !ValidRule(d, policy.allow.value[i]) {
          return Failed;
        }
        if Covers(d, policy.allow.value[i], target) {
          allow := true;
        }
      }
      return Granted(allow);
    }

    /** The two distinct participants of a pair; it is lost when a read for it finds no Device record. */
    method ReadPair(initiator: string, host: string) returns (r: Decision<(Participant, Participant)>, ghost lost: Option<nat>)
      modifies this`values, this`readCount
      ensures Extends(old(values), values) && old(readCount) <= readCount
      ensures lost == LostRead(d, owner, old(values), files, old(readCount), initiator, host)
      ensures lost.Some? ==> r.Denied? && old(readCount) <= lost.value < readCount
      ensures lost == Some(old(readCount)) ==> values == old(values)
      ensures r.Granted? ==> forall e :: Agrees(e, values) ==> PeersAt(d, e, owner, initiator, host, r.value)
      ensures r.Denied? && lost.None? ==> forall e, peers :: Agrees(e, values) ==> !PeersAt(d, e, owner, initiator, host, peers)
      ensures r.Failed? && d.isId(initiator) && d.isId(host) ==>
                forall e, peers :: Agrees(e, values) ==> !PeersAt(d, e, owner, initiator, host, peers)
      ensures KeepsQuiet(files, old(values), values)
    {
      lost := LostRead(d, owner, values, files, readCount, initiator, host);
      var p := ReadParticipant(initiator);
      if !p.Granted? {
        return if p.Denied? then Denied else Failed, lost;
      }
      var q := ReadParticipant(host);
      if !q.Granted? {
        return if q.Denied? then Denied else Failed, lost;
      }
      if !Distinct(p.value, q.value) {
        return Denied, lost;
      }
      return Granted((p.value, q.value)), lost;
    }

    /** Mutual consent, and an allow without a deny for the Host's address. */
    method ReadPolicies(initiator: string, host: string, target: Addr) returns (r: Decision<()>)
      modifies this`values, this`readCount
      ensures Extends(old(values), values) && old(readCount) <= readCount
      ensures r.Granted? ==> forall e :: Agrees(e, values) ==> PoliciesPermit(d, e, owner, initiator, host, target)
      ensures !r.Granted? ==> forall e :: Agrees(e, values) ==> !PoliciesPermit(d, e, owner, initiator, host, target)
      ensures KeepsQuiet(files, old(values), values)
    {
      hide AccessAt, RulesValid, Denies, Allows;
      var a := Access("device", initiator);
      if !a.Granted? {
        return Failed;
      }
      var b := Access("device", host);
      if !b.Granted? {
        return Failed;
      }
      if !a.value.p2pEnabled || !b.value.p2pEnabled {
        return Denied;
      }
      var u := Access("user", owner);
      if !u.Granted? {
        return Failed;
      }
      var byUser := ScanPolicy(u.value, target);
      if !byUser.Granted? {
        return if byUser.Denied? then Denied else Failed;
      }
      var byDevice := ScanPolicy(a.value, target);
      if !byDevice.Granted? {
        return if byDevice.Denied? then Denied else Failed;
      }
      if !byUser.value && !byDevice.value {
        return Denied;
      }
      return Granted(());
    }

    /** The authorization decision for an Initiator and a Host, from the records read so far and some more. */
    method Pair(initiator: string, host: string) returns (r: Decision<(Participant, Participant)>, ghost lost: Option<nat>)
      modifies this`values, this`readCount
      ensures Extends(old(values), values) && old(readCount) <= readCount
      ensures lost == LostRead(d, owner, old(values), files, old(readCount), initiator, host)
      ensures lost.Some? ==> r.Denied? && old(readCount) <= lost.value < readCount
      ensures lost == Some(old(readCount)) ==> values == old(values)
      ensures r.Granted? ==> forall e :: Agrees(e, values) ==> PairPermitted(d, e, owner, initiator, host, r.value)
      ensures r.Denied? && lost.None? ==> forall peers :: PairRefused(d, values, owner, initiator, host, peers)
      ensures r.Failed? && d.isId(initiator) && d.isId(host) ==> forall peers :: PairRefused(d, values, owner, initiator, host, peers)
      ensures KeepsQuiet(files, old(values), values)
    {
      var peers;
      peers, lost := ReadPair(initiator, host);
      if !peers.Granted? {
        return if peers.Denied? then Denied else Failed, lost;
      }
      ghost var met := values;
      var allowed := ReadPolicies(initiator, host, peers.value.1.address);
      assert forall e :: Agrees(e, values) ==> Agrees(e, met);
      if !allowed.Granted? {
        return if allowed.Denied? then Denied else Failed, lost;
      }
      return peers, lost;
    }

    method ReadSettings() returns (ok: bool)
      modifies this`values, this`readCount, this`cluster
      ensures Extends(old(values), values)
      ensures ok ==> 0 < |cluster| <= 128 && forall e :: Agrees(e, values) ==> SettingsPermit(d, e, cluster)
      ensures KeepsQuiet(files, old(values), values)
      ensures Quiet(files) && Agrees(files(0), old(values)) ==>
                (ok <==> exists c :: SettingsPermit(d, files(0), c) && 0 < |c| <= 128)
    {
      var c := Read(CONFIG, false);
      if !c.Granted? || c.value.None? || d.config(c.value.value).None? || !d.config(c.value.value).value.p2pEnabled {
        return false;
      }
      var k := Read(CLUSTER, false);
      if !k.Granted? || k.value.None? || d.cluster(k.value.value).None? {
        return false;
      }
      cluster := d.cluster(k.value.value).value.clusterId;
      return cluster != "" && |cluster| <= 128;
    }

    method ReadCredential(path: string) returns (ok: bool)
      modifies this`values, this`readCount, this`owner, this`device, this`expires
      ensures Extends(old(values), values)
      ensures ok ==> expires > started && d.isId(owner) && d.isId(device) &&
                     forall e :: Agrees(e, values) ==> CredentialAt(d, e, path, owner, device, expires)
      ensures KeepsQuiet(files, old(values), values)
      ensures Quiet(files) && Agrees(files(0), old(values)) ==>
                (ok <==> exists o, x, t :: CredentialAt(d, files(0), path, o, x, t) && t > started && d.isId(o) && d.isId(x))
    {
      var t := Read(path, false);
      if !t.Granted? || t.value.None? || d.credential(t.value.value).None? {
        return false;
      }
      var credential := d.credential(t.value.value).value;
      expires := credential.expiresAt;
      if credential.scope != "device" || expires <= started || !d.isId(credential.userId) || !d.isId(credential.deviceId) {
        return false;
      }
      owner, device := credential.userId, credential.deviceId;
      return true;
    }

    /** The caller's enabled user and its own active Device. */
    method ReadCaller() returns (ok: bool)
      requires d.isId(device)
      modifies this`values, this`readCount
      ensures Extends(old(values), values) && KeepsQuiet(files, old(values), values)
      ensures ok ==> forall e :: Agrees(e, values) ==> UserEnabled(d, e, owner) && ParticipantAt(d, e, owner, device).Some?
      ensures Quiet(files) && Agrees(files(0), old(values)) ==>
                (ok <==> UserEnabled(d, files(0), owner) && ParticipantAt(d, files(0), owner, device).Some?)
    {
      var u := Read(UserPath(owner), false);
      if !u.Granted? || u.value.None? || d.user(u.value.value) != Some(UserDoc(owner, true)) {
        return false;
      }
      var self := ReadParticipant(device);
      return self.Granted?;
    }

    /** Authenticates the caller from the records behind its credential. */
    method Open(credentialPath: string) returns (ok: bool)
      modifies this
      ensures Extends(old(values), values)
      ensures ok ==> expires > started &&
                     forall e :: Agrees(e, values) ==> CallerPermitted(d, e, credentialPath, cluster, owner, device, expires)
      ensures KeepsQuiet(files, old(values), values)
      ensures Quiet(files) && Agrees(files(0), old(values)) ==>
                (ok <==> revision != 0 && exists c, o, x, t :: Authentic(d, files(0), credentialPath, started, c, o, x, t))
    {
      hide SettingsPermit, CredentialAt, UserEnabled, ParticipantAt, Authentic;
      if revision == 0 {
        return false;
      }
      AuthenticParts(d, files(0), credentialPath, started);
      ok := ReadSettings();
      if !ok {
        return;
      }
      ok := ReadCredential(credentialPath);
      if !ok {
        return;
      }
      ok := ReadCaller();
      if Quiet(files) && Agrees(files(0), old(values)) {
        AuthenticIff(d, files(0), credentialPath, started, cluster, owner, device, expires);
      }
    }

    method GuardOperations() returns (ops: Option<seq<Operation>>)
      ensures ops.Some? ==> GuardsAll(pf, values, ops.value)
      ensures ops.Some? <==> forall p :: p in values ==> pf.normalizePath(p) == Some(p)
    {
      var result: seq<Operation> := [];
      var pending := values.Keys;
      while pending != {}
        invariant pending <= values.Keys
        invariant forall i :: 0 <= i < |result| ==>
          result[i].path in values && result[i] == GuardFor(pf, result[i].path, values[result[i].path])
        invariant forall p :: p in values && p !in pending ==>
          pf.normalizePath(p) == Some(p) && exists i :: 0 <= i < |result| && result[i].path == p
        decreases pending
      {
        var path :| path in pending;
        if pf.normalizePath(path) != Some(path) {
          return None;
        }
        var before := result;
        result := result + [GuardFor(pf, path, values[path])];
        assert result[|before|].path == path;
        assert forall i :: 0 <= i < |before| ==> result[i] == before[i];
        pending := pending - {path};
      }
      return Some(result);
    }

    /** Commits the fence at a new log index of the canonical state machine, whatever state that is in by now. */
    method Commit(kind: string, server: SM.StateMachine, index: nat, fault: SM.Fault, now: int) returns (r: Option<nat>)
      requires HashIsInjective(pf) && server.pf == pf && server.applied < index && kind != "" && kind != RECONCILE
      modifies server
      ensures r.Some? ==> Agrees(old(server.entries), values) && server.entries == old(server.entries) &&
                          r.value == server.revision == old(server.revision) + 1 && r.value > revision &&
                          now < Min(expires, started + 30)
      ensures server.entries == old(server.entries)
      ensures Committable(pf, values, old(server.Database()), revision) && fault.None? && now < Min(expires, started + 30) ==> r.Some?
    {
      var ops := GuardOperations();
      if ops.None? {
        return None;
      }
      FenceEffect(pf, server.Database(), index, kind, values, ops.value);
      hide GuardsAll, Agrees, Step, Reply;
      var reply := server.Apply(index, Fence(kind, ops.value), fault);
      if !reply.ok || reply.revision <= revision || now >= Min(expires, started + 30) {
        return None;
      }
      return Some(reply.revision);
    }
  }

  /** A caller and a Host that a state permits together, before the credential and the 30 s of the request have run out. */
  ghost predicate Issuable(d: Decoders, e: Entries, credentialPath: string, started: int, now: int, host: string) {
    d.isId(host) &&
    exists c, o, x, t, peers ::
      Authentic(d, e, credentialPath, started, c, o, x, t) && PairPermitted(d, e, o, x, host, peers) && now < Min(t, started + 30)
  }

  /** A permitted pair has the owner and the Device that it was asked for. */
  lemma PeersAreNamed(d: Decoders, e: Entries, owner: string, initiator: string, host: string, peers: (Participant, Participant))
    requires PairPermitted(d, e, owner, initiator, host, peers)
    ensures peers.0.userId == owner && peers.0.deviceId == initiator
  {
    hide PoliciesPermit;
  }

  lemma IssuableInTime(d: Decoders, e: Entries, credentialPath: string, started: int, now: int, cluster: string, owner: string,
                       device: string, expires: int, host: string)
    requires CallerPermitted(d, e, credentialPath, cluster, owner, device, expires) && Issuable(d, e, credentialPath, started, now, host)
    ensures now < Min(expires, started + 30)
  {
    hide PairPermitted, ParticipantAt;
  }

  /** When the files are quiet, no read for a permitted pair is lost, and its refusal would contradict the files. */
  lemma QuietPairIsGranted(d: Decoders, files: nat -> Entries, credentialPath: string, started: int, now: int, cluster: string, owner: string,
                           device: string, expires: int, host: string, before: Values, count: nat, after: Values)
    requires Quiet(files) && Agrees(files(0), before) && Agrees(files(0), after)
    requires CallerPermitted(d, files(0), credentialPath, cluster, owner, device, expires)
    requires Issuable(d, files(0), credentialPath, started, now, host)
    ensures d.isId(device) && d.isId(host) && LostRead(d, owner, before, files, count, device, host).None?
    ensures exists peers :: !PairRefused(d, after, owner, device, host, peers)
  {
    var c, o, x, t, peers :| Authentic(d, files(0), credentialPath, started, c, o, x, t) && PairPermitted(d, files(0), o, x, host, peers) &&
      now < Min(t, started + 30);
    assert o == owner && x == device;
    assert Lookup(files(0), DevicePath(device)).Some? && Lookup(files(0), DevicePath(host)).Some?;
    assert !PairRefused(d, after, owner, device, host, peers);
  }

  /**
   Issues a ticket. If one is returned, the caller and the pair were permitted by
   the canonical entries both just before and just after the committed fence,
   whose revision the ticket carries; the fence itself changed no record. Without
   concurrent changes a ticket is returned whenever the canonical entries permit
   the caller and the pair and the commit can be made in time.
   */
  method Issue(pf: Platform, d: Decoders, files: nat -> Entries, started: int, barrier: nat, credentialPath: string,
               host: string, sessionId: string, server: SM.StateMachine, index: nat, fault: SM.Fault, now: int)
    returns (grant: Option<Grant>, ghost fenced: Values)
    requires HashIsInjective(pf) && server.pf == pf && server.applied < index
    modifies server
    ensures server.entries == old(server.entries)
    ensures Quiet(files) && files(0) == old(server.entries) && Issuable(d, files(0), credentialPath, started, now, host) ==>
      barrier != 0 && Committable(pf, fenced, old(server.Database()), barrier) && fault.None? ==> grant.Some?
    ensures grant.Some? ==>
      var g := grant.value;
      var owner, device := g.participants.0.userId, g.participants.0.deviceId;
      g.sessionId == sessionId && g.revision == server.revision == old(server.revision) + 1 &&
      PairPermitted(d, server.entries, owner, device, host, g.participants) &&
      (exists expires :: CallerPermitted(d, server.entries, credentialPath, g.cluster, owner, device, expires) &&
         started < g.expiresAt == Min(started + 60, expires)) &&
      g.issuedAt == started && now < started + 30
  {
    hide PairPermitted, CallerPermitted, LostRead, Committable;
    var s := new Snapshot(pf, d, files, started, barrier);
    var ok := s.Open(credentialPath);
    fenced := s.values;
    if !ok {
      return None, fenced;
    }
    ghost var identified := s.values;
    ghost var count := s.readCount;
    var peers, lost := s.Pair(s.device, host);
    fenced := s.values;
    if Quiet(files) && Issuable(d, files(0), credentialPath, started, now, host) {
      QuietPairIsGranted(d, files, credentialPath, started, now, s.cluster, s.owner, s.device, s.expires, host, identified, count, fenced);
      IssuableInTime(d, files(0), credentialPath, started, now, s.cluster, s.owner, s.device, s.expires, host);
    }
    if !peers.Granted? {
      return None, fenced;
    }
    var revision := s.Commit("AuthorizeP2PSession", server, index, fault, now);
    if revision.None? {
      return None, fenced;
    }
    assert Agrees(server.entries, s.values) && Agrees(server.entries, identified);
    PeersAreNamed(d, server.entries, s.owner, s.device, host, peers.value);
    return Some(Grant(s.cluster, sessionId, revision.value, started, Min(started + 60, s.expires), peers.value)), fenced;
  }

  /** A ticket the caller may ask to keep: for its cluster and Device, at a known revision and not expired. */
  predicate Presentable(s: Snapshot, g: Grant)
    reads s
  {
    g.cluster == s.cluster && 0 < g.revision <= s.revision && g.issuedAt <= s.started < g.expiresAt &&
    g.expiresAt - g.issuedAt <= 60 && s.d.isId(g.sessionId) &&
    (g.participants.0.deviceId == s.device || g.participants.1.deviceId == s.device)
  }

  predicate EntryNames(pf: Platform, d: Decoders, ticket: Bytes, entry: PolicyEntry) {
    var g := d.ticket(ticket);
    g.Some? && entry == PolicyEntry(g.value.sessionId, pf.sha256(ticket))
  }

  /** The ticket's pair is permitted as it was signed. */
  predicate TicketPermitted(d: Decoders, e: Entries, owner: string, ticket: Bytes) {
    d.ticket(ticket).Some? &&
    var g := d.ticket(ticket).value;
    PairPermitted(d, e, owner, g.participants.0.deviceId, g.participants.1.deviceId, g.participants)
  }

  /** The entry names a presented ticket by its exact hash, and its pair is permitted as it was signed. */
  ghost predicate EntryJustified(pf: Platform, d: Decoders, e: Entries, owner: string, tickets: seq<Bytes>, entry: PolicyEntry) {
    exists i :: 0 <= i < |tickets| && EntryNames(pf, d, tickets[i], entry) && TicketPermitted(d, e, owner, tickets[i])
  }

  /** Every listed entry is justified by every state that agrees with what was read. */
  ghost predicate ListJustified(pf: Platform, d: Decoders, values: Values, owner: string, tickets: seq<Bytes>, list: seq<PolicyEntry>) {
    forall k :: 0 <= k < |list| ==> forall e :: Agrees(e, values) ==> EntryJustified(pf, d, e, owner, tickets, list[k])
  }

  predicate Lists(pf: Platform, d: Decoders, list: seq<PolicyEntry>, ticket: Bytes) {
    exists entry :: entry in list && EntryNames(pf, d, ticket, entry)
  }

  /** One of the ticket's Device records had no file at that file read. */
  predicate MissedAt(d: Decoders, files: nat -> Entries, k: nat, ticket: Bytes) {
    d.ticket(ticket).Some? &&
    var g := d.ticket(ticket).value;
    DevicePath(g.participants.0.deviceId) !in files(k) || DevicePath(g.participants.1.deviceId) !in files(k)
  }

  /** A listed ticket is not lost and permitted by every state that agrees with the reads; any other is lost or permitted by none. */
  ghost predicate Decided(pf: Platform, d: Decoders, values: Values, owner: string, list: seq<PolicyEntry>, ticket: Bytes,
                          lost: Option<nat>) {
    if Lists(pf, d, list, ticket) then lost.None? && forall e :: Agrees(e, values) ==> TicketPermitted(d, e, owner, ticket)
    else lost.Some? || forall e :: Agrees(e, values) ==> !TicketPermitted(d, e, owner, ticket)
  }

  lemma NothingIsJustified(pf: Platform, d: Decoders, values: Values, owner: string, tickets: seq<Bytes>)
    ensures ListJustified(pf, d, values, owner, tickets, [])
  {
  }

  lemma ListStaysJustified(pf: Platform, d: Decoders, earlier: Values, values: Values, owner: string,
                           tickets: seq<Bytes>, list: seq<PolicyEntry>)
    requires ListJustified(pf, d, earlier, owner, tickets, list) && Extends(earlier, values)
    ensures ListJustified(pf, d, values, owner, tickets, list)
  {
    assert forall e :: Agrees(e, values) ==> Agrees(e, earlier);
  }

  lemma StaysDecided(pf: Platform, d: Decoders, earlier: Values, values: Values, owner: string,
                     list: seq<PolicyEntry>, ticket: Bytes, lost: Option<nat>)
    requires Decided(pf, d, earlier, owner, list, ticket, lost) && Extends(earlier, values)
    ensures Decided(pf, d, values, owner, list, ticket, lost)
  {
    assert forall e :: Agrees(e, values) ==> Agrees(e, earlier);
  }

  /** An entry of another session decides nothing about a ticket. */
  lemma OtherEntryDecides(pf: Platform, d: Decoders, values: Values, owner: string, list: seq<PolicyEntry>, ticket: Bytes,
                          lost: Option<nat>, entry: PolicyEntry)
    requires Decided(pf, d, values, owner, list, ticket, lost) && !EntryNames(pf, d, ticket, entry)
    ensures Decided(pf, d, values, owner, list + [entry], ticket, lost)
  {
    assert Lists(pf, d, list + [entry], ticket) <==> Lists(pf, d, list, ticket) by {
      assert forall x :: x in list + [entry] <==> x in list || x == entry;
    }
  }

  /** A ticket of a session that is not listed yet is decided by listing it or not. */
  lemma NewIsDecided(pf: Platform, d: Decoders, values: Values, owner: string, list: seq<PolicyEntry>, ticket: Bytes,
                     lost: Option<nat>, permitted: bool)
    requires d.ticket(ticket).Some? && forall x :: x in list ==> x.sessionId != d.ticket(ticket).value.sessionId
    requires if permitted then lost.None? && forall e :: Agrees(e, values) ==> TicketPermitted(d, e, owner, ticket)
             else lost.Some? || forall e :: Agrees(e, values) ==> !TicketPermitted(d, e, owner, ticket)
    ensures var entry := PolicyEntry(d.ticket(ticket).value.sessionId, pf.sha256(ticket));
            Decided(pf, d, values, owner, if permitted then list + [entry] else list, ticket, lost)
  {
    hide TicketPermitted;
    var entry := PolicyEntry(d.ticket(ticket).value.sessionId, pf.sha256(ticket));
    assert EntryNames(pf, d, ticket, entry) && entry in list + [entry];
  }

  lemma ListGrows(pf: Platform, d: Decoders, values: Values, owner: string, tickets: seq<Bytes>, list: seq<PolicyEntry>,
                  n: nat, entry: PolicyEntry)
    requires ListJustified(pf, d, values, owner, tickets, list) && n < |tickets| && EntryNames(pf, d, tickets[n], entry)
    requires forall e :: Agrees(e, values) ==> TicketPermitted(d, e, owner, tickets[n])
    ensures ListJustified(pf, d, values, owner, tickets, list + [entry])
  {
    hide PairPermitted, EntryNames;
    forall e | Agrees(e, values)
      ensures EntryJustified(pf, d, e, owner, tickets, entry)
    {
      assert EntryNames(pf, d, tickets[n], entry);
    }
  }

  /** One presented ticket, decided again: Some(true) when its pair is permitted as it was signed. */
  method DecideTicket(s: Snapshot, g: Grant) returns (r: Option<bool>, ghost lost: Option<nat>)
    modifies s`values, s`readCount
    ensures Extends(old(s.values), s.values) && old(s.readCount) <= s.readCount
    ensures var i, h := g.participants.0.deviceId, g.participants.1.deviceId;
            lost == LostRead(s.d, s.owner, old(s.values), s.files, old(s.readCount), i, h) &&
            (lost.Some? ==> r == Some(false) && old(s.readCount) <= lost.value < s.readCount &&
                            (DevicePath(i) !in s.files(lost.value) || DevicePath(h) !in s.files(lost.value))) &&
            (lost == Some(old(s.readCount)) ==> s.values == old(s.values)) &&
            (r == Some(true) ==> forall e :: Agrees(e, s.values) ==> PairPermitted(s.d, e, s.owner, i, h, g.participants)) &&
            (r == Some(false) && lost.None? ==> PairRefused(s.d, s.values, s.owner, i, h, g.participants))
  {
    var peers;
    peers, lost := s.Pair(g.participants.0.deviceId, g.participants.1.deviceId);
    if peers.Failed? {
      return None, lost;
    }
    return Some(peers.Granted? && peers.value == g.participants), lost;
  }

  /** The lost reads are reads that missed a record of their ticket, each made for one ticket alone and before the given count. */
  ghost predicate LostInOrder(d: Decoders, files: nat -> Entries, count: nat, tickets: seq<Bytes>, lost: seq<Option<nat>>)
    requires |lost| <= |tickets|
  {
    (forall n :: 0 <= n < |lost| && lost[n].Some? ==> lost[n].value < count && MissedAt(d, files, lost[n].value, tickets[n])) &&
    forall m, n :: 0 <= m < n < |lost| && lost[m].Some? && lost[n].Some? ==> lost[m].value < lost[n].value
  }

  lemma LostGrows(d: Decoders, files: nat -> Entries, count: nat, more: nat, tickets: seq<Bytes>, lost: seq<Option<nat>>, next: Option<nat>)
    requires |lost| < |tickets| && LostInOrder(d, files, count, tickets, lost) && count <= more
    requires next.Some? ==> count <= next.value < more && MissedAt(d, files, next.value, tickets[|lost|])
    ensures LostInOrder(d, files, more, tickets, lost + [next])
  {
  }

  /** The decisions made so far, one per flag, from the sessions seen so far. */
  ghost predicate AllDecided(pf: Platform, d: Decoders, values: Values, owner: string, tickets: seq<Bytes>, seen: set<string>,
                             list: seq<PolicyEntry>, lost: seq<Option<nat>>) {
    |list| <= |lost| <= |tickets| && ListJustified(pf, d, values, owner, tickets, list) &&
    (forall x :: x in list ==> x.sessionId in seen) &&
    (forall j, k :: 0 <= j < k < |list| ==> list[j].sessionId != list[k].sessionId) &&
    (forall k :: 0 <= k < |lost| ==> d.ticket(tickets[k]).Some? && d.ticket(tickets[k]).value.sessionId in seen) &&
    forall k :: 0 <= k < |lost| ==> Decided(pf, d, values, owner, list, tickets[k], lost[k])
  }

  lemma StayDecided(pf: Platform, d: Decoders, earlier: Values, values: Values, owner: string, tickets: seq<Bytes>, seen: set<string>,
                    list: seq<PolicyEntry>, lost: seq<Option<nat>>)
    requires AllDecided(pf, d, earlier, owner, tickets, seen, list, lost) && Extends(earlier, values)
    ensures AllDecided(pf, d, values, owner, tickets, seen, list, lost)
  {
    hide Decided, ListJustified, Extends;
    ListStaysJustified(pf, d, earlier, values, owner, tickets, list);
    forall k | 0 <= k < |lost|
      ensures Decided(pf, d, values, owner, list, tickets[k], lost[k])
    {
      StaysDecided(pf, d, earlier, values, owner, list, tickets[k], lost[k]);
    }
  }

  lemma RefusedIsDecided(pf: Platform, d: Decoders, values: Values, owner: string, tickets: seq<Bytes>, seen: set<string>,
                         list: seq<PolicyEntry>, lost: seq<Option<nat>>, next: Option<nat>)
    requires AllDecided(pf, d, values, owner, tickets, seen, list, lost) && |lost| < |tickets|
    requires var g := d.ticket(tickets[|lost|]); g.Some? && g.value.sessionId !in seen
    requires next.Some? || forall e :: Agrees(e, values) ==> !TicketPermitted(d, e, owner, tickets[|lost|])
    ensures AllDecided(pf, d, values, owner, tickets, seen + {d.ticket(tickets[|lost|]).value.sessionId}, list, lost + [next])
  {
    hide Decided, ListJustified, TicketPermitted;
    NewIsDecided(pf, d, values, owner, list, tickets[|lost|], next, false);
  }

  lemma PermittedIsDecided(pf: Platform, d: Decoders, values: Values, owner: string, tickets: seq<Bytes>, seen: set<string>,
                           list: seq<PolicyEntry>, lost: seq<Option<nat>>, entry: PolicyEntry)
    requires AllDecided(pf, d, values, owner, tickets, seen, list, lost) && |lost| < |tickets|
    requires var g := d.ticket(tickets[|lost|]);
             g.Some? && g.value.sessionId !in seen && entry == PolicyEntry(g.value.sessionId, pf.sha256(tickets[|lost|]))
    requires forall e :: Agrees(e, values) ==> TicketPermitted(d, e, owner, tickets[|lost|])
    ensures AllDecided(pf, d, values, owner, tickets, seen + {entry.sessionId}, list + [entry], lost + [None])
  {
    hide Decided, ListJustified, TicketPermitted;
    var n := |lost|;
    NewIsDecided(pf, d, values, owner, list, tickets[n], None, true);
    ListGrows(pf, d, values, owner, tickets, list, n, entry);
    forall k | 0 <= k < n
      ensures Decided(pf, d, values, owner, list + [entry], tickets[k], lost[k])
    {
      OtherEntryDecides(pf, d, values, owner, list, tickets[k], lost[k], entry);
    }
  }

  /** Decides each presented ticket again; a denied one is simply left out of the complete list. */
  method DecideTickets(s: Snapshot, tickets: seq<Bytes>) returns (allowed: Option<seq<PolicyEntry>>, ghost lost: seq<Option<nat>>)
    modifies s`values, s`readCount
    ensures Extends(old(s.values), s.values)
    ensures allowed.Some? ==>
      |allowed.value| <= |tickets| && ListJustified(s.pf, s.d, s.values, s.owner, tickets, allowed.value) &&
      (forall j, k :: 0 <= j < k < |allowed.value| ==> allowed.value[j].sessionId != allowed.value[k].sessionId)
    ensures allowed.Some? ==>
      |lost| == |tickets| && LostInOrder(s.d, s.files, s.readCount, tickets, lost) &&
      forall n :: 0 <= n < |tickets| ==> Decided(s.pf, s.d, s.values, s.owner, allowed.value, tickets[n], lost[n])
  {
    hide LostRead, PairPermitted, ListJustified, Decided;
    var result: seq<PolicyEntry>, seen := [], {};
    lost := [];
    NothingIsJustified(s.pf, s.d, s.values, s.owner, tickets);
    for n := 0 to |tickets|
      invariant Extends(old(s.values), s.values) && |lost| == n
      invariant AllDecided(s.pf, s.d, s.values, s.owner, tickets, seen, result, lost)
      invariant LostInOrder(s.d, s.files, s.readCount, tickets, lost)
    {
      var g := s.d.ticket(tickets[n]);
      if g.None? || !Presentable(s, g.value) || g.value.sessionId in seen {
        return None, lost;
      }
      ghost var earlier, count := s.values, s.readCount;
      var permitted;
      ghost var next;
      permitted, next := DecideTicket(s, g.value);
      if permitted.None? {
        return None, lost;
      }
      StayDecided(s.pf, s.d, earlier, s.values, s.owner, tickets, seen, result, lost);
      LostGrows(s.d, s.files, count, s.readCount, tickets, lost, next);
      if permitted.value {
        var entry := PolicyEntry(g.value.sessionId, s.pf.sha256(tickets[n]));
        PermittedIsDecided(s.pf, s.d, s.values, s.owner, tickets, seen, result, lost, entry);
        result := result + [entry];
      } else {
        RefusedIsDecided(s.pf, s.d, s.values, s.owner, tickets, seen, result, lost, next);
      }
      seen := seen + {g.value.sessionId};
      lost := lost + [next];
    }
    return Some(result), lost;
  }

  /**
   Issues a policy checkpoint. Every ticket it lists, by exact hash and at most
   once per session, is justified by the canonical entries at the checkpoint's
   revision; and a presented ticket is listed if and only if those entries permit
   it and no read made for it found one of its Device records missing.
   */
  method Sync(pf: Platform, d: Decoders, files: nat -> Entries, started: int, barrier: nat, credentialPath: string,
              tickets: seq<Bytes>, server: SM.StateMachine, index: nat, fault: SM.Fault, now: int)
    returns (checkpoint: Option<Checkpoint>, ghost owner: string, ghost lost: seq<Option<nat>>)
    requires HashIsInjective(pf) && server.pf == pf && server.applied < index
    modifies server
    ensures server.entries == old(server.entries)
    ensures checkpoint.Some? ==>
      var c := checkpoint.value;
      c.revision == server.revision == old(server.revision) + 1 && |c.allowed| <= MAX_SESSIONS &&
      c.issuedAt == started < c.expiresAt && now < c.expiresAt &&
      (exists expires :: CallerPermitted(d, server.entries, credentialPath, c.cluster, owner, c.deviceId, expires) &&
         c.expiresAt == Min(started + 30, expires)) &&
      (forall k :: 0 <= k < |c.allowed| ==> EntryJustified(pf, d, server.entries, owner, tickets, c.allowed[k])) &&
      (forall j, k :: 0 <= j < k < |c.allowed| ==> c.allowed[j].sessionId != c.allowed[k].sessionId)
    ensures checkpoint.Some? ==>
      |lost| == |tickets| && (exists count: nat :: LostInOrder(d, files, count, tickets, lost)) &&
      forall n :: 0 <= n < |tickets| ==>
        (Lists(pf, d, checkpoint.value.allowed, tickets[n]) <==>
         TicketPermitted(d, server.entries, owner, tickets[n]) && lost[n].None?)
  {
    owner, lost := "", [];
    if |tickets| > MAX_SESSIONS {
      return None, owner, lost;
    }
    var s := new Snapshot(pf, d, files, started, barrier);
    var ok := s.Open(credentialPath);
    if !ok {
      return None, owner, lost;
    }
    ghost var identified := s.values;
    owner := s.owner;
    var allowed;
    allowed, lost := DecideTickets(s, tickets);
    if allowed.None? {
      return None, owner, lost;
    }
    var revision := s.Commit("ReconcileP2PPolicy", server, index, fault, now);
    if revision.None? {
      return None, owner, lost;
    }
    assert Agrees(server.entries, s.values) && Agrees(server.entries, identified);
    return Some(Checkpoint(s.cluster, s.device, revision.value, started, Min(started + 30, s.expires), allowed.value)), owner, lost;
  }

  /** A pair that the canonical state permits is lost at the next file read when its unread Device record has no file then. */
  lemma MissingRecordIsLost(d: Decoders, owner: string, values: Values, files: nat -> Entries, count: nat, e: Entries,
                            initiator: string, host: string, peers: (Participant, Participant))
    requires Agrees(e, values) && PairPermitted(d, e, owner, initiator, host, peers) && d.isId(initiator) && d.isId(host)
    ensures UnreadMissing(values, files, count, initiator) ==> LostRead(d, owner, values, files, count, initiator, host) == Some(count)
    ensures DevicePath(initiator) in values && UnreadMissing(values, files, count, host) ==>
              LostRead(d, owner, values, files, count, initiator, host) == Some(count)
  {
    if DevicePath(initiator) in values {
      assert Lookup(e, DevicePath(initiator)) == values[DevicePath(initiator)];
      assert values[DevicePath(initiator) := values[DevicePath(initiator)]] == values;
    }
  }

  /**
   The caller's own record has been read; the peer's has no file at the next file
   read. Whether the caller is the Initiator or the Host, a ticket that the
   canonical state permits is left out, and the reads, which that state still
   agrees with, show no trace of it.
   */
  method MissingPeerIsLeftOut(s: Snapshot, g: Grant, callerIsHost: bool, ghost e: Entries) returns (r: Option<bool>)
    requires Agrees(e, s.values)
    requires var i, h := g.participants.0.deviceId, g.participants.1.deviceId;
             PairPermitted(s.d, e, s.owner, i, h, g.participants) && s.d.isId(i) && s.d.isId(h) &&
             (if callerIsHost then UnreadMissing(s.values, s.files, s.readCount, i)
              else DevicePath(i) in s.values && UnreadMissing(s.values, s.files, s.readCount, h))
    modifies s`values, s`readCount
    ensures r == Some(false) && s.values == old(s.values)
  {
    MissingRecordIsLost(s.d, s.owner, s.values, s.files, s.readCount, e, g.participants.0.deviceId, g.participants.1.deviceId, g.participants);
    ghost var lost;
    r, lost := DecideTicket(s, g);
  }

  lemma FenceIsIdle(pf: Platform, log: seq<LogEntry>, n: nat, kind: string, values: Values, ops: seq<Operation>)
    requires HashIsInjective(pf) && GuardsAll(pf, values, ops) && kind != "" && kind != RECONCILE
    requires n < |log| && log[n] == Fence(kind, ops)
    requires Accepts(pf, Replay(pf, log[..n]).entries, ops) && Replay(pf, log[..n]).revision < MAX_U64
    ensures Agrees(Replay(pf, log[..n + 1]).entries, values) && Replay(pf, log[..n + 1]).revision == Replay(pf, log[..n]).revision + 1
  {
    hide GuardsAll, HashIsInjective, Agrees, Accepts, Step, Reply;
    assert log[..n + 1][..n] == log[..n];
    var v := Replay(pf, log[..n]);
    FenceEffect(pf, Db(v.entries, v.revision, v.schema, 0, 0), 0, kind, values, ops);
  }

  /**
   The stamped revision is not just the position of the fence: in every state the
   log ever has at that revision, on any replica, everything the request read
   still stands, so the decision holds there too.
   */
  lemma StampedRevisionJustifies(pf: Platform, log: seq<LogEntry>, n: nat, kind: string, values: Values,
                                 ops: seq<Operation>, m: nat)
    requires HashIsInjective(pf) && GuardsAll(pf, values, ops) && kind != "" && kind != RECONCILE
    requires n < |log| && log[n] == Fence(kind, ops)
    requires Accepts(pf, Replication.Canon(pf, log, n).entries, ops) && Replication.Canon(pf, log, n).revision < MAX_U64
    requires m <= |log| && Replication.Canon(pf, log, m).revision == Replication.Canon(pf, log, n).revision + 1
    ensures Agrees(Replication.Canon(pf, log, m).entries, values)
  {
    hide Replay, GuardsAll, HashIsInjective, Agrees, Accepts;
    FenceIsIdle(pf, log, n, kind, values, ops);
    if m <= n {
      assert log[..n][..m] == log[..m];
      Replication.RevisionGrows(pf, log[..n], m);
      assert false;
    } else {
      assert log[..m][..n + 1] == log[..n + 1];
      Replication.RevisionNamesEntries(pf, log[..m], n + 1);
    }
  }

  /** A ticket's decision holds in the canonical state at exactly the revision stamped in it. */
  lemma TicketHoldsAtItsRevision(pf: Platform, d: Decoders, log: seq<LogEntry>, n: nat, kind: string, values: Values,
                                 ops: seq<Operation>, owner: string, host: string, g: Grant, m: nat)
    requires HashIsInjective(pf) && GuardsAll(pf, values, ops) && kind != "" && kind != RECONCILE
    requires forall e :: Agrees(e, values) ==> PairPermitted(d, e, owner, g.participants.0.deviceId, host, g.participants)
    requires n < |log| && log[n] == Fence(kind, ops) && Accepts(pf, Replication.Canon(pf, log, n).entries, ops)
    requires Replication.Canon(pf, log, n).revision < MAX_U64 && g.revision == Replication.Canon(pf, log, n).revision + 1
    requires m <= |log| && Replication.Canon(pf, log, m).revision == g.revision
    ensures PairPermitted(d, Replication.Canon(pf, log, m).entries, owner, g.participants.0.deviceId, host, g.participants)
  {
    StampedRevisionJustifies(pf, log, n, kind, values, ops, m);
  }
}
