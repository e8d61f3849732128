/**
 Refresh credentials under concurrent Controllers. Each Controller acts on
 records it read from some earlier canonical state and commits without any lock:
 a rotation is fenced by the hash of the record it read, a revocation is an
 unconditional write of a revoked record.
 */
module RefreshRotation {
  import opened Basics
  import opened Canonical
  import opened Replication
  import Auth = Authorization

  /** A refresh credential; revokedAt 0 stands for a credential that is not revoked. */
  datatype Credential = Credential(userId: string, deviceId: string, familyId: string,
                                   expiresAt: int, revokedAt: int, rotatedAt: int)

  datatype Codec = Codec(encode: Credential -> Bytes, decode: Bytes -> Option<Credential>)

  ghost predicate Faithful(cd: Codec) {
    forall c :: cd.decode(cd.encode(c)) == Some(c)
  }

  const REFRESH := "control/identity/refresh/"

  predicate IsRefresh(path: string) {
    HasPrefix(path, REFRESH)
  }

  function At(cd: Codec, e: Entries, path: string): Option<Credential> {
    if path in e && IsRefresh(path) then cd.decode(e[path]) else None
  }

  predicate Live(cd: Codec, e: Entries, path: string) {
    At(cd, e, path).Some? && At(cd, e, path).value.revokedAt == 0
  }

  predicate Revoked(cd: Codec, e: Entries, path: string) {
    At(cd, e, path).Some? && At(cd, e, path).value.revokedAt != 0
  }

  predicate SameHolder(a: Credential, b: Credential) {
    a.userId == b.userId && a.deviceId == b.deviceId
  }

  predicate SameFamily(a: Credential, b: Credential) {
    a.familyId != "" && a.familyId == b.familyId
  }

  /** Each nonempty family has at most one credential that is not revoked. */
  ghost predicate FamiliesUnique(cd: Codec, e: Entries) {
    forall p, q | Live(cd, e, p) && Live(cd, e, q) && SameFamily(At(cd, e, p).value, At(cd, e, q).value) :: p == q
  }

  // ---------------------------------------------------------------- what Controllers commit

  datatype Intent =
    | Issue(path: string, credential: Credential)
    | Rotate(path: string, raw: Bytes, at: int, accessPath: string, accessData: Bytes, newPath: string, successor: Credential)
    | Revoke(path: string, seen: Credential, at: int)
    | Other(entry: LogEntry)

  function Put(path: string, data: Bytes, ifAbsent: bool, expected: string): Operation {
    Operation("put", path, data, ifAbsent, false, expected)
  }

  function EntryOf(pf: Platform, cd: Codec, intent: Intent): LogEntry {
    match intent
    case Issue(path, c) => Command(Mutation(1, "id", "PutCanonicalRecord", [Put(path, cd.encode(c), false, "")], 0))
    case Revoke(path, seen, at) =>
      Command(Mutation(1, "id", "PutCanonicalRecord", [Put(path, cd.encode(seen.(revokedAt := at)), false, "")], 0))
    case Rotate(path, raw, at, accessPath, accessData, newPath, successor) =>
      var seen := cd.decode(raw);
      var spent := if seen.Some? then cd.encode(seen.value.(revokedAt := at, rotatedAt := at)) else [];
      Command(Mutation(1, "id", "RotateRefreshCredential",
        [Put(path, spent, false, pf.sha256(raw)), Put(accessPath, accessData, true, ""), Put(newPath, cd.encode(successor), true, "")], 0))
    case Other(entry) => entry
  }

  function LogOf(pf: Platform, cd: Codec, intents: seq<Intent>): (log: seq<LogEntry>)
    ensures |log| == |intents|
  {
    seq(|intents|, i requires 0 <= i < |intents| => EntryOf(pf, cd, intents[i]))
  }

  /** The canonical entries after the first n intents. */
  ghost function StateAt(pf: Platform, cd: Codec, intents: seq<Intent>, n: nat): Entries
    requires n <= |intents|
  {
    Replay(pf, LogOf(pf, cd, intents)[..n]).entries
  }

  /** No state up to here has a credential at this path, or of this family. */
  ghost predicate PathUnused(pf: Platform, cd: Codec, intents: seq<Intent>, n: nat, path: string)
    requires n <= |intents|
  {
    forall j :: 0 <= j <= n ==> path !in StateAt(pf, cd, intents, j)
  }

  ghost predicate FamilyUnused(pf: Platform, cd: Codec, intents: seq<Intent>, n: nat, family: string)
    requires n <= |intents|
  {
    forall j, p :: 0 <= j <= n && At(cd, StateAt(pf, cd, intents, j), p).Some? ==>
      At(cd, StateAt(pf, cd, intents, j), p).value.familyId != family
  }

  predicate CanonicalPath(pf: Platform, path: string) {
    pf.normalizePath(path) == Some(path)
  }

  /** The intent at position n is one that Controller code forms from what some earlier state held. */
  ghost predicate Honest(pf: Platform, cd: Codec, intents: seq<Intent>, n: nat)
    requires n < |intents|
  {
    match intents[n]
    case Issue(path, c) =>
      CanonicalPath(pf, path) && IsRefresh(path) && c.revokedAt == 0 && c.familyId != "" &&
      PathUnused(pf, cd, intents, n, path) && FamilyUnused(pf, cd, intents, n, c.familyId)
    case Rotate(path, raw, at, accessPath, _, newPath, successor) =>
      CanonicalPath(pf, path) && CanonicalPath(pf, accessPath) && CanonicalPath(pf, newPath) &&
      IsRefresh(path) && !IsRefresh(accessPath) && IsRefresh(newPath) && at > 0 && successor.revokedAt == 0 &&
      (exists j :: 0 <= j <= n && Lookup(StateAt(pf, cd, intents, j), path) == Some(raw)) &&
      cd.decode(raw).Some? && cd.decode(raw).value.revokedAt == 0 && successor.familyId != "" &&
      SameHolder(successor, cd.decode(raw).value) &&
      (successor.familyId == cd.decode(raw).value.familyId ||
       (cd.decode(raw).value.familyId == "" && FamilyUnused(pf, cd, intents, n, successor.familyId)))
    case Revoke(path, seen, at) =>
      CanonicalPath(pf, path) && IsRefresh(path) && at > 0 &&
      (exists j :: 0 <= j <= n && At(cd, StateAt(pf, cd, intents, j), path) == Some(seen))
    case Other(entry) =>
      Admitted(pf, entry).Some? ==>
        forall i :: 0 <= i < |Admitted(pf, entry).value| ==> !IsRefresh(Admitted(pf, entry).value[i].path)
  }

  ghost predicate AllHonest(pf: Platform, cd: Codec, intents: seq<Intent>) {
    forall n :: 0 <= n < |intents| ==> Honest(pf, cd, intents, n)
  }

  // ---------------------------------------------------------------- one commit

  predicate SameCredentials(a: Entries, b: Entries) {
    (forall p :: p in a && IsRefresh(p) ==> p in b && b[p] == a[p]) &&
    (forall p :: p in b && IsRefresh(p) ==> p in a)
  }

  lemma {:induction false} OtherWritesKeepCredentials(e: Entries, ops: seq<Operation>)
    requires forall i :: 0 <= i < |ops| ==> !IsRefresh(ops[i].path)
    ensures SameCredentials(e, Writes(e, ops))
  {
    if ops != [] {
      OtherWritesKeepCredentials(e, ops[..|ops| - 1]);
    }
  }

  lemma StateStep(pf: Platform, cd: Codec, intents: seq<Intent>, n: nat)
    requires n < |intents|
    ensures var before := Replay(pf, LogOf(pf, cd, intents)[..n]);
            StateAt(pf, cd, intents, n + 1) == Once(pf, before, EntryOf(pf, cd, intents[n])).entries
  {
    var log := LogOf(pf, cd, intents);
    assert log[..n + 1][..n] == log[..n];
  }

  lemma SingleWrite(pf: Platform, e: Entries, op: Operation)
    requires CanonicalPath(pf, op.path) && op.op == "put"
    ensures AllSupported(pf, [op]) && Normalized(pf, [op]) == [op] && Writes(e, [op]) == e[op.path := op.data]
  {
    assert [op][..0] == [];
  }

  lemma TripleWrite(pf: Platform, e: Entries, a: Operation, b: Operation, c: Operation)
    requires CanonicalPath(pf, a.path) && CanonicalPath(pf, b.path) && CanonicalPath(pf, c.path)
    requires a.op == b.op == c.op == "put"
    ensures AllSupported(pf, [a, b, c]) && Normalized(pf, [a, b, c]) == [a, b, c]
    ensures Writes(e, [a, b, c]) == e[a.path := a.data][b.path := b.data][c.path := c.data]
  {
    assert [a, b, c][..2] == [a, b] && [a, b][..1] == [a] && [a][..0] == [];
    assert Writes(e, [a]) == e[a.path := a.data];
    assert Writes(e, [a, b]) == e[a.path := a.data][b.path := b.data];
  }

  /** What a commit does to the refresh credentials: nothing, or exactly the intended change. */
  ghost predicate Effect(pf: Platform, cd: Codec, intent: Intent, e: Entries, e': Entries) {
    SameCredentials(e, e') ||
    match intent
    case Issue(path, c) => e' == e[path := cd.encode(c)]
    case Revoke(path, seen, at) => e' == e[path := cd.encode(seen.(revokedAt := at))]
    case Rotate(path, raw, at, accessPath, accessData, newPath, successor) =>
      Lookup(e, path) == Some(raw) && newPath !in e && cd.decode(raw).Some? &&
      e' == e[path := cd.encode(cd.decode(raw).value.(revokedAt := at, rotatedAt := at))][accessPath := accessData][newPath := cd.encode(successor)]
    case Other(_) => false
  }

  lemma CommitEffect(pf: Platform, cd: Codec, intents: seq<Intent>, n: nat)
    requires Auth.HashIsInjective(pf) && n < |intents| && Honest(pf, cd, intents, n)
    ensures Effect(pf, cd, intents[n], StateAt(pf, cd, intents, n), StateAt(pf, cd, intents, n + 1))
  {
    var e := StateAt(pf, cd, intents, n);
    StateStep(pf, cd, intents, n);
    match intents[n]
    case Issue(path, c) => SingleWrite(pf, e, Put(path, cd.encode(c), false, ""));
    case Revoke(path, seen, at) => SingleWrite(pf, e, Put(path, cd.encode(seen.(revokedAt := at)), false, ""));
    case Rotate(path, raw, at, accessPath, accessData, newPath, successor) =>
      var a := Put(path, cd.encode(cd.decode(raw).value.(revokedAt := at, rotatedAt := at)), false, pf.sha256(raw));
      var b, c := Put(accessPath, accessData, true, ""), Put(newPath, cd.encode(successor), true, "");
      TripleWrite(pf, e, a, b, c);
      if Guards(pf, e, [a, b, c]) {
        assert Guard(pf, e, [a, b, c][0]) && Guard(pf, e, [a, b, c][2]);
      }
    case Other(entry) =>
      if Admitted(pf, entry).Some? {
        OtherWritesKeepCredentials(e, Admitted(pf, entry).value);
      }
  }

  /** A new live credential joins a family that nobody in the state belongs to, or only the one it replaces. */
  lemma SuccessionKeepsFamilies(cd: Codec, e: Entries, e': Entries, path: string, newPath: string, successor: Credential)
    requires FamiliesUnique(cd, e) && At(cd, e', newPath) == Some(successor)
    requires forall p :: p != newPath && Live(cd, e', p) ==> p != path && At(cd, e', p) == At(cd, e, p)
    requires forall p :: Live(cd, e, p) && SameFamily(At(cd, e, p).value, successor) ==> p == path
    ensures FamiliesUnique(cd, e')
  {
  }

  lemma RotateKeepsFamilies(cd: Codec, e: Entries, e': Entries, r: Intent)
    requires Faithful(cd) && r.Rotate? && FamiliesUnique(cd, e)
    requires IsRefresh(r.path) && !IsRefresh(r.accessPath) && IsRefresh(r.newPath) && r.at > 0
    requires Lookup(e, r.path) == Some(r.raw) && cd.decode(r.raw).Some? && cd.decode(r.raw).value.revokedAt == 0
    requires r.newPath !in e
    requires SameFamily(r.successor, cd.decode(r.raw).value) ||
             forall p :: At(cd, e, p).Some? ==> At(cd, e, p).value.familyId != r.successor.familyId
    requires e' == e[r.path := cd.encode(cd.decode(r.raw).value.(revokedAt := r.at, rotatedAt := r.at))]
                    [r.accessPath := r.accessData][r.newPath := cd.encode(r.successor)]
    ensures FamiliesUnique(cd, e')
  {
    assert Live(cd, e, r.path);
    assert Revoked(cd, e', r.path);
    SuccessionKeepsFamilies(cd, e, e', r.path, r.newPath, r.successor);
  }

  lemma EffectKeepsFamilies(pf: Platform, cd: Codec, intents: seq<Intent>, n: nat)
    requires Faithful(cd) && n < |intents| && Honest(pf, cd, intents, n)
    requires FamiliesUnique(cd, StateAt(pf, cd, intents, n))
    requires Effect(pf, cd, intents[n], StateAt(pf, cd, intents, n), StateAt(pf, cd, intents, n + 1))
    ensures FamiliesUnique(cd, StateAt(pf, cd, intents, n + 1))
  {
    hide StateAt;
    var e, e' := StateAt(pf, cd, intents, n), StateAt(pf, cd, intents, n + 1);
    if SameCredentials(e, e') {
      assert forall p :: At(cd, e', p) == At(cd, e, p);
    } else {
      match intents[n]
      case Revoke(path, _, _) => assert forall p :: Live(cd, e', p) ==> At(cd, e', p) == At(cd, e, p);
      case Issue(path, c) => SuccessionKeepsFamilies(cd, e, e', path, path, c);
      case Rotate(path, raw, _, _, _, newPath, successor) => RotateKeepsFamilies(cd, e, e', intents[n]);
    }
  }

  /** A revoked credential stays stored and revoked through any commit. */
  lemma EffectKeepsRevoked(pf: Platform, cd: Codec, intents: seq<Intent>, n: nat, path: string)
    requires Faithful(cd) && n < |intents| && Honest(pf, cd, intents, n)
    requires Effect(pf, cd, intents[n], StateAt(pf, cd, intents, n), StateAt(pf, cd, intents, n + 1))
    requires Revoked(cd, StateAt(pf, cd, intents, n), path)
    ensures Revoked(cd, StateAt(pf, cd, intents, n + 1), path)
  {
  }

  // ---------------------------------------------------------------- whole histories

  /** In every state of every history each nonempty family has at most one live credential. */
  lemma {:induction false} FamiliesStayUnique(pf: Platform, cd: Codec, intents: seq<Intent>, n: nat)
    requires Auth.HashIsInjective(pf) && Faithful(cd) && AllHonest(pf, cd, intents) && n <= |intents|
    ensures FamiliesUnique(cd, StateAt(pf, cd, intents, n))
  {
    if n > 0 {
      FamiliesStayUnique(pf, cd, intents, n - 1);
      CommitEffect(pf, cd, intents, n - 1);
      EffectKeepsFamilies(pf, cd, intents, n - 1);
    } else {
      assert LogOf(pf, cd, intents)[..0] == [];
    }
  }

  lemma RevokedOneMore(pf: Platform, cd: Codec, intents: seq<Intent>, n: nat, path: string)
    requires Auth.HashIsInjective(pf) && Faithful(cd) && AllHonest(pf, cd, intents) && n < |intents|
    requires Revoked(cd, StateAt(pf, cd, intents, n), path)
    ensures Revoked(cd, StateAt(pf, cd, intents, n + 1), path)
  {
    CommitEffect(pf, cd, intents, n);
    EffectKeepsRevoked(pf, cd, intents, n, path);
  }

  /** No write ever turns a revoked credential back. */
  lemma {:induction false} RevocationIsFinal(pf: Platform, cd: Codec, intents: seq<Intent>, n: nat, m: nat, path: string)
    requires Auth.HashIsInjective(pf) && Faithful(cd) && AllHonest(pf, cd, intents) && n <= m <= |intents|
    requires Revoked(cd, StateAt(pf, cd, intents, n), path)
    ensures Revoked(cd, StateAt(pf, cd, intents, m), path)
  {
    if n < m {
      RevocationIsFinal(pf, cd, intents, n, m - 1, path);
      RevokedOneMore(pf, cd, intents, m - 1, path);
    }
  }

  /** A rotation committed: it installed a new credential. */
  ghost predicate Committed(pf: Platform, cd: Codec, intents: seq<Intent>, n: nat) {
    n < |intents| && intents[n].Rotate? &&
    !SameCredentials(StateAt(pf, cd, intents, n), StateAt(pf, cd, intents, n + 1))
  }

  lemma RotationSpends(pf: Platform, cd: Codec, intents: seq<Intent>, n: nat)
    requires Auth.HashIsInjective(pf) && Faithful(cd) && AllHonest(pf, cd, intents) && Committed(pf, cd, intents, n)
    ensures Live(cd, StateAt(pf, cd, intents, n), intents[n].path)
    ensures Revoked(cd, StateAt(pf, cd, intents, n + 1), intents[n].path)
  {
    CommitEffect(pf, cd, intents, n);
    assert Honest(pf, cd, intents, n);
  }

  /** No refresh credential is rotated twice, however many Controllers try. */
  lemma RotatedAtMostOnce(pf: Platform, cd: Codec, intents: seq<Intent>, n: nat, m: nat)
    requires Auth.HashIsInjective(pf) && Faithful(cd) && AllHonest(pf, cd, intents)
    requires Committed(pf, cd, intents, n) && Committed(pf, cd, intents, m)
    requires intents[n].path == intents[m].path
    ensures n == m
  {
    var path := intents[n].path;
    RotationSpends(pf, cd, intents, n);
    RotationSpends(pf, cd, intents, m);
    if n < m {
      RevocationIsFinal(pf, cd, intents, n + 1, m, path);
    } else if m < n {
      RevocationIsFinal(pf, cd, intents, m + 1, n, path);
    }
  }

  // ---------------------------------------------------------------- one holder per family

  /** In some state up to here a credential of this family and holder was stored. */
  ghost predicate Stored(pf: Platform, cd: Codec, intents: seq<Intent>, n: nat, c: Credential)
    requires n <= |intents|
  {
    exists j, p :: 0 <= j <= n && At(cd, StateAt(pf, cd, intents, j), p).Some? &&
      var a := At(cd, StateAt(pf, cd, intents, j), p).value; a.familyId == c.familyId && SameHolder(a, c)
  }

  /** The credential that the n-th intent brings in, if it brings one into a new family. */
  function Newcomer(cd: Codec, intent: Intent): Option<Credential> {
    match intent
    case Issue(_, c) => Some(c)
    case Rotate(_, raw, _, _, _, _, successor) =>
      if cd.decode(raw).Some? && cd.decode(raw).value.familyId == "" then Some(successor) else None
    case _ => None
  }

  lemma StoredHere(pf: Platform, cd: Codec, intents: seq<Intent>, n: nat, j: nat, p: string, c: Credential)
    requires j <= n <= |intents| && At(cd, StateAt(pf, cd, intents, j), p).Some?
    requires var a := At(cd, StateAt(pf, cd, intents, j), p).value; a.familyId == c.familyId && SameHolder(a, c)
    ensures Stored(pf, cd, intents, n, c)
  {
  }

  /** What a commit stores has the family and holder of something stored before, or is the newcomer. */
  lemma CommittedStems(pf: Platform, cd: Codec, intents: seq<Intent>, n: nat, p: string)
    requires Faithful(cd) && n < |intents| && Honest(pf, cd, intents, n)
    requires Effect(pf, cd, intents[n], StateAt(pf, cd, intents, n), StateAt(pf, cd, intents, n + 1))
    requires At(cd, StateAt(pf, cd, intents, n + 1), p).Some?
    ensures var c := At(cd, StateAt(pf, cd, intents, n + 1), p).value;
            Stored(pf, cd, intents, n, c) || Newcomer(cd, intents[n]) == Some(c)
  {
    hide StateAt, Stored;
    var e, e' := StateAt(pf, cd, intents, n), StateAt(pf, cd, intents, n + 1);
    var c := At(cd, e', p).value;
    if At(cd, e, p) == Some(c) {
      StoredHere(pf, cd, intents, n, n, p, c);
    } else {
      match intents[n]
      case Issue(path, issued) => assert c == issued;
      case Revoke(path, seen, at) =>
        var j :| 0 <= j <= n && At(cd, StateAt(pf, cd, intents, j), path) == Some(seen);
        StoredHere(pf, cd, intents, n, j, path, c);
      case Rotate(path, raw, at, accessPath, _, newPath, successor) =>
        assert At(cd, e, path) == cd.decode(raw);
        if p == path || successor.familyId == cd.decode(raw).value.familyId {
          StoredHere(pf, cd, intents, n, n, path, c);
        }
      case Other(_) => assert false;
    }
  }

  /** A newcomer's family has no one in it yet. */
  lemma NewcomerIsAlone(pf: Platform, cd: Codec, intents: seq<Intent>, n: nat, c: Credential)
    requires n < |intents| && Honest(pf, cd, intents, n) && Newcomer(cd, intents[n]).Some?
    requires c.familyId == Newcomer(cd, intents[n]).value.familyId
    ensures !Stored(pf, cd, intents, n, c)
  {
    hide StateAt;
    assert FamilyUnused(pf, cd, intents, n, c.familyId);
  }

  /** All credentials of one nonempty family stored up to here have one holder. */
  ghost predicate OneHolder(pf: Platform, cd: Codec, intents: seq<Intent>, n: nat)
    requires n <= |intents|
  {
    forall a: Credential, b: Credential :: Stored(pf, cd, intents, n, a) && Stored(pf, cd, intents, n, b) && SameFamily(a, b) ==> SameHolder(a, b)
  }

  lemma StoredEarlierOrNew(pf: Platform, cd: Codec, intents: seq<Intent>, n: nat, c: Credential)
    requires Auth.HashIsInjective(pf) && Faithful(cd) && n < |intents| && Honest(pf, cd, intents, n)
    requires Stored(pf, cd, intents, n + 1, c)
    ensures Stored(pf, cd, intents, n, c) ||
      (Newcomer(cd, intents[n]).Some? && Newcomer(cd, intents[n]).value.familyId == c.familyId && SameHolder(Newcomer(cd, intents[n]).value, c))
  {
    hide StateAt, Effect, Honest;
    var j, p :| 0 <= j <= n + 1 && At(cd, StateAt(pf, cd, intents, j), p).Some? &&
      var a := At(cd, StateAt(pf, cd, intents, j), p).value; a.familyId == c.familyId && SameHolder(a, c);
    if j == n + 1 {
      CommitEffect(pf, cd, intents, n);
      CommittedStems(pf, cd, intents, n, p);
    }
  }

  lemma OneHolderStays(pf: Platform, cd: Codec, intents: seq<Intent>, n: nat)
    requires Auth.HashIsInjective(pf) && Faithful(cd) && n < |intents| && Honest(pf, cd, intents, n)
    requires OneHolder(pf, cd, intents, n)
    ensures OneHolder(pf, cd, intents, n + 1)
  {
    hide Honest, Stored, Faithful, Newcomer;
    forall a: Credential, b: Credential | Stored(pf, cd, intents, n + 1, a) && Stored(pf, cd, intents, n + 1, b) && SameFamily(a, b)
      ensures SameHolder(a, b)
    {
      StoredEarlierOrNew(pf, cd, intents, n, a);
      StoredEarlierOrNew(pf, cd, intents, n, b);
      var joined := Newcomer(cd, intents[n]);
      if joined.Some? && joined.value.familyId == a.familyId {
        NewcomerIsAlone(pf, cd, intents, n, a);
        NewcomerIsAlone(pf, cd, intents, n, b);
      }
    }
  }

  lemma NothingStoredAtFirst(pf: Platform, cd: Codec, intents: seq<Intent>)
    ensures OneHolder(pf, cd, intents, 0)
  {
    assert LogOf(pf, cd, intents)[..0] == [];
    assert StateAt(pf, cd, intents, 0) == map[];
  }

  /** Over every interleaving of Controllers a family keeps its user and Device: in all states, at all paths, revoked or not. */
  lemma {:induction false} FamilyHasOneHolder(pf: Platform, cd: Codec, intents: seq<Intent>, n: nat)
    requires Auth.HashIsInjective(pf) && Faithful(cd) && AllHonest(pf, cd, intents) && n <= |intents|
    ensures OneHolder(pf, cd, intents, n)
  {
    hide Honest, OneHolder;
    if n == 0 {
      NothingStoredAtFirst(pf, cd, intents);
    } else {
      FamilyHasOneHolder(pf, cd, intents, n - 1);
      OneHolderStays(pf, cd, intents, n - 1);
    }
  }

  /** The user and Device of any two credentials of one family, wherever and whenever they are stored, are the same. */
  lemma FamilyMembersAgree(pf: Platform, cd: Codec, intents: seq<Intent>, i: nat, j: nat, p: string, q: string)
    requires Auth.HashIsInjective(pf) && Faithful(cd) && AllHonest(pf, cd, intents) && i <= |intents| && j <= |intents|
    requires At(cd, StateAt(pf, cd, intents, i), p).Some? && At(cd, StateAt(pf, cd, intents, j), q).Some?
    requires SameFamily(At(cd, StateAt(pf, cd, intents, i), p).value, At(cd, StateAt(pf, cd, intents, j), q).value)
    ensures SameHolder(At(cd, StateAt(pf, cd, intents, i), p).value, At(cd, StateAt(pf, cd, intents, j), q).value)
  {
    hide StateAt, Stored;
    var n := |intents|;
    FamilyHasOneHolder(pf, cd, intents, n);
    StoredHere(pf, cd, intents, n, i, p, At(cd, StateAt(pf, cd, intents, i), p).value);
    StoredHere(pf, cd, intents, n, j, q, At(cd, StateAt(pf, cd, intents, j), q).value);
  }

  // ---------------------------------------------------------------- how Controllers form their intents

  /** The write revokes a record exactly as some file read of the scan found it. */
  ghost predicate RevokesRead(cd: Codec, files: nat -> Entries, names: seq<string>, now: int, w: Intent) {
    w.Revoke? && w.at == now &&
    exists k :: 0 <= k < |names| && w.path == names[k] && At(cd, files(k), names[k]) == Some(w.seen)
  }

  /** The scanning revocations: by family, by Device or by user, one file read and one write at a time. */
  method RevokeWhere(cd: Codec, files: nat -> Entries, names: seq<string>, selects: Credential -> bool, now: int)
    returns (writes: seq<Intent>)
    requires now > 0 && forall i :: 0 <= i < |names| ==> IsRefresh(names[i])
    ensures forall w :: 0 <= w < |writes| ==> RevokesRead(cd, files, names, now, writes[w])
    ensures forall k :: 0 <= k < |names| && Live(cd, files(k), names[k]) && selects(At(cd, files(k), names[k]).value) ==>
      exists w :: 0 <= w < |writes| && writes[w].Revoke? && writes[w].path == names[k]
    ensures forall w :: 0 <= w < |writes| ==> writes[w].Revoke? && selects(writes[w].seen) && writes[w].seen.revokedAt == 0
  {
    writes := [];
    for n := 0 to |names|
      invariant forall w :: 0 <= w < |writes| ==> RevokesRead(cd, files, names, now, writes[w])
      invariant forall k :: 0 <= k < n && Live(cd, files(k), names[k]) && selects(At(cd, files(k), names[k]).value) ==>
        exists w :: 0 <= w < |writes| && writes[w].Revoke? && writes[w].path == names[k]
      invariant forall w :: 0 <= w < |writes| ==> writes[w].Revoke? && selects(writes[w].seen) && writes[w].seen.revokedAt == 0
    {
      var record := At(cd, files(n), names[n]);
      if record.Some? && selects(record.value) && record.value.revokedAt == 0 {
        ghost var before := writes;
        writes := writes + [Revoke(names[n], record.value, now)];
        assert writes[|before|].path == names[n];
        assert forall w :: 0 <= w < |before| ==> writes[w] == before[w];
      }
    }
  }

  /** A live credential of the same user, Device and family; one without a family gets a new one. */
  predicate Succeeds(successor: Credential, seen: Credential, newFamily: string, expiresAt: int) {
    SameHolder(successor, seen) && successor.expiresAt == expiresAt && successor.revokedAt == 0 && successor.rotatedAt == 0 &&
    successor.familyId == if seen.familyId != "" then seen.familyId else newFamily
  }

  /** What a refresh request leads to. */
  datatype Outcome =
    | Rejected
    | ReplayDetected(family: string)
    | Expired(write: Intent)
    | Rotation(intent: Intent)

  /** A refresh request, up to the commit it asks for. */
  method RefreshDeviceSession(cd: Codec, files: Entries, path: string, now: int, identityActive: bool, proofValid: bool,
                              accessPath: string, accessData: Bytes, newPath: string, newFamily: string, ttl: int)
    returns (outcome: Outcome)
    requires now > 0 && IsRefresh(path) && newFamily != ""
    ensures outcome.ReplayDetected? <==> Revoked(cd, files, path)
    ensures outcome.ReplayDetected? ==> outcome.family == At(cd, files, path).value.familyId
    ensures outcome.Expired? <==> Live(cd, files, path) && At(cd, files, path).value.expiresAt <= now
    ensures outcome.Expired? ==> outcome.write == Revoke(path, At(cd, files, path).value, now)
    ensures outcome.Rotation? <==> Live(cd, files, path) && now < At(cd, files, path).value.expiresAt && identityActive && proofValid
    ensures outcome.Rotation? ==>
      var seen := At(cd, files, path).value;
      outcome.intent.Rotate? && outcome.intent.path == path && outcome.intent.raw == files[path] &&
      outcome.intent.at == now && outcome.intent.newPath == newPath &&
      outcome.intent.accessPath == accessPath && outcome.intent.accessData == accessData &&
      Succeeds(outcome.intent.successor, seen, newFamily, now + ttl)
  {
    if path !in files || cd.decode(files[path]).None? {
      return Rejected;
    }
    var raw := files[path];
    var record := cd.decode(raw).value;
    if record.revokedAt != 0 {
      return ReplayDetected(record.familyId);
    }
    if record.expiresAt <= now {
      return Expired(Revoke(path, record, now));
    }
    if !identityActive || !proofValid {
      return Rejected;
    }
    var family := if record.familyId != "" then record.familyId else newFamily;
    var successor := Credential(record.userId, record.deviceId, family, now + ttl, 0, 0);
    return Rotation(Rotate(path, raw, now, accessPath, accessData, newPath, successor));
  }

  /** The intents that refresh requests and scans form from the files of some earlier state are what the histories are made of. */
  lemma FormedIsHonest(pf: Platform, cd: Codec, intents: seq<Intent>, n: nat, j: nat, newFamily: string, expiresAt: int)
    requires j <= n < |intents| && newFamily != "" && FamilyUnused(pf, cd, intents, n, newFamily)
    requires match intents[n]
             case Revoke(path, seen, at) =>
               CanonicalPath(pf, path) && at > 0 && At(cd, StateAt(pf, cd, intents, j), path) == Some(seen)
             case Rotate(path, raw, at, accessPath, _, newPath, successor) =>
               CanonicalPath(pf, path) && CanonicalPath(pf, accessPath) && CanonicalPath(pf, newPath) &&
               !IsRefresh(accessPath) && IsRefresh(newPath) && at > 0 &&
               Lookup(StateAt(pf, cd, intents, j), path) == Some(raw) && Live(cd, StateAt(pf, cd, intents, j), path) &&
               Succeeds(successor, cd.decode(raw).value, newFamily, expiresAt)
             case _ => false
    ensures Honest(pf, cd, intents, n)
  {
    hide StateAt, FamilyUnused;
  }
}
