# BP Connect, modelled in Dafny

This project models the core of BP Connect: the replicated control plane of the
Controllers, the routed mesh between Nodes, Access enforcement, and the
peer-to-peer sessions between Devices. Each module models one part of the system
and proves what that part keeps over every input, every run or every
interleaving. `dafny verify dfyconfig.toml` checks everything.

Code that changes state appears as classes and methods with loops; each method
is proved equal to a function of its old state, and the theorems are about those
functions and the runs they make up.

## How the parts fit

- `Canonical`, `RouteValidator`, `StateMachine`: one log entry applied to the
  canonical state, the route-ownership validator, snapshots, restores and file
  projection. `Replication` and `SnapshotLabels` put replicas of it through every
  schedule of commits, crashes, redeliveries, snapshots and restores.
  `RouteOwnership` says what the ownership rule means for addresses; `PathNames`
  and `SnapshotRestore` say when a snapshot can be restored.
  `Reconciliation` brings diverged revision counters together.
- `Authorization` reads files optimistically and fences them with a commit;
  `RefreshRotation` does the same for rotating credentials.
- `MeshConfig`, `PathSelection`, `FrameCodec`, `MeshRouter` are the mesh data
  plane of one Node; `SelectionHistory`, `SwitchTiming`, `RecoveryErasure`,
  `MeshDelivery` and `MeshReplies` are its runs.
  `Topology` and `PathDistribution` are how the Controller finds and hands out
  paths.
- `Access` computes a Device's networks; `Firewall` builds the chain that
  enforces them.
- `PolicyStore`, `Relay`, `FlowPolicy`, `Mux` are the peer-to-peer session;
  `PolicyHistory`, `LastingAuthority`, `DenialHistory`, `RelayHistory`,
  `RelayReadmission` and `FlowHistory` are their runs, and `FlowBytes` is the
  packet filter at the bytes of a packet.

IPv4 addresses are 32-bit strings and CIDRs are bit prefixes. SHA-256, Ed25519,
JSON and address parsing are function values; a theorem that needs a hash without
collisions says so. Scores and metrics are reals. Times are integers in
nanoseconds; where Go keeps a wall and a monotonic reading, so does the model.

## Where the code falls short of a promise

Each of these is stated as an if-and-only-if, or as a lemma with a concrete case
next to a lemma with the condition under which the promise holds.

- A snapshot taken while a restarted replica is still being redelivered its log
  is labelled with an index behind its content, and restoring it applies entries
  twice (`MislabelledSnapshotDiverges`). Recovery is exact in every run exactly
  when the watermark has not passed the label (`SnapshotSafeIffCaughtUp`).
- A restore cleans every stored name again. Cleaning drops a "/." at the end
  after it has trimmed spaces, so a put of "control/devices/ /." is stored under a
  name that ends in a space and is refused the second time, and no snapshot of
  that state can be restored (`SpacedNameBlocksRestore`). For a single name the
  snapshots of all runs that put it restore if and only if its cleaned form is
  accepted (`RestoresIffNameSettles`), and without names that end in a space they
  always do (`PlainNamesRoundTrip`, `FixedIffNoTrailingSpace`).
- A configuration update that keeps the current path and drops another erases
  the other's recovery, so a switch to it can follow by less than 10 s. No other
  update does that (`EarlySwitchIffErased`, `SwitchIsDisciplined`).
- Two equal replicas of which exactly one has an exhausted counter can part, and
  no others (`NextEntryAgreesIff`, `EntriesIgnoreCounters`).
- The reverse table has one path per Device, so a reply can travel on a path of
  another CIDR of the same owner, and is then lost (`OtherCidrLosesReply`). It
  lands exactly when the whole way gives its source to the path's owner and CIDR
  (`ReplyReturnsIff`).
- The Controller refuses every Node its routing configuration exactly while a
  public Node owns a route (`RefusedIffPublicOwner`).
- A link known from telemetry alone gives a source a path that others refuse
  (`ReportedLinkIsNotDistributed`); a path is distributed exactly when every hop
  is a link at the moment of the other call (`PathIsDistributedIff`).
- A missing Device record is not remembered among the reads of a checkpoint
  request, so nothing fences it. A presented ticket is listed if and only if the
  canonical state permits it and no read made for it found a Device record
  missing (`Sync`), so a ticket that the canonical state permits can be left out
  (`MissingPeerIsLeftOut`).
- A wall clock set back lets a denied ticket work again after its denial was
  pruned (`RevivedIffSetBack`), and in no other case (`DenialIsPermanent`).
- A revoked ticket can be forwarded again. On clocks that do not go back this
  happens exactly when its tombstone has run out on the monotonic clock and the
  ticket has not expired on the wall clock (`ForwardedIffTombstoneOver`), and so
  never when the wall clock loses no time (`NothingForwardedAfterRevoke`). On a
  wall clock set back it happens under the tombstone too: a room that was found
  dead has left the table, so the revocation does not mark it, and a frame that
  its handler had already read is forwarded once the lease is live again
  (`DroppedRoomForwards`). Under the tombstone there is no other case
  (`ForwardedAfterRevoke`, `ForwardedUnderTombstoneIff`).
- A side is admitted a second time with the same ticket exactly when the lease of
  its first room is dead (`AdmittedAgainIffDead`, `SecondAdmissionFoundDead`). On
  a wall clock set back the ticket can be good again by then; when the wall clock
  loses no time it has expired (`AdmittedAgainOnlyExpired`).
- A gateway call that made its check before a reservation may still hand its
  packet over after it, a read (`CheckedBeforeReserveDelivers`) as well as a write
  (`CheckedBeforeReservePasses`), and no other call does
  (`ReservedNeverReachesGateway`).
- When two Device records share an address, the first one decides outward
  flows, also when it is the inactive one (`SharedAddressIsShadowed`). The chain
  is exact if and only if at every address the first record may reach all that
  any record there may reach (`ExactIffFirstReachesAll`), as with one Device per
  address (`DistinctAddressesAreExact`).

## Model

| member | source | states |
|---|---|---|
| RouteValidator.ResultingPrefixRecords | internal/controlplane/fsm.go:139-161 | The simulated records under a prefix are exactly the records the ordered puts and deletes leave there; Canonical.WrittenAt fixes what they leave at each path |
| RouteValidator.CheckClaim | internal/controlplane/fsm.go:171-219 | A claim is produced if and only if the route record is backed by an existing, unrevoked site_router owner whose grants cover it |
| RouteValidator.CollectClaims | internal/controlplane/fsm.go:169-219 | One backed claim for every simulated route, or a route that is not backed |
| RouteValidator.PairwiseCompatible | internal/controlplane/fsm.go:221-241 | True if and only if no two claims of different owners overlap |
| RouteValidator.CollectedMeansOwned | internal/controlplane/fsm.go:163-241 | Backed claims without conflict, collected from the simulated records alone, mean that the ownership rule holds in the whole resulting state |
| RouteValidator.OwnedMeansNoConflict | internal/controlplane/fsm.go:163-241 | Conversely the rule in the resulting state rules out conflicts among the collected claims |
| RouteValidator.UnbackedBreaksRule | internal/controlplane/fsm.go:163-241 | A route that the Node records do not back breaks the rule in the whole state |
| RouteValidator.ValidateRouteOwnership | internal/controlplane/fsm.go:163-241 | The validator answers yes exactly when the state that the writes will produce satisfies the ownership rule, although it never builds that state |
| RouteOwnership.RuleByAddresses | internal/controlplane/fsm.go:163-241 | The ownership rule holds if and only if every stored route names an owner who is an unrevoked site_router with a grant holding all its addresses, and no address is claimed by routes of two owners |
| Ipv4.OverlapIsSharedAddress | internal/controlplane/fsm.go:224-239 | CIDRs overlap if and only if they share an address, and then one contains the other |
| StateMachine.StateMachine.NormalizeOperations | internal/controlplane/fsm.go:262-273 | Succeeds exactly when every operation is supported and gives the operations with normalised paths |
| StateMachine.StateMachine.CheckGuards | internal/controlplane/fsm.go:296-312 | True exactly when every absence, presence and hash guard holds in the state before the entry |
| StateMachine.StateMachine.Apply | internal/controlplane/fsm.go:243-365 | The database after the call is the canonical step, for malformed, conflicting, redelivered and accepted entries and whatever file write fails; an accepted entry leaves at every path the data of its last put, nothing after a delete and what was there otherwise, in the database and, when the reply is ok, in the files |
| Canonical.WrittenAt | internal/controlplane/fsm.go:320-341 | After ordered operations each path holds the data of the last operation on it if that is a put, nothing if it is a delete, and what was there if there is none |
| Canonical.AcceptedFixesPaths | internal/controlplane/fsm.go:296-365 | The same for every entry that is accepted and not redelivered |
| Canonical.AcceptedIff | internal/controlplane/fsm.go:243-365 | An entry that is not redelivered is accepted if and only if it is well formed, all guards hold of the state before it, the state it leaves satisfies the ownership rule and the counter is not exhausted |
| StateMachine.StateMachine.ProjectOperations | internal/controlplane/fsm.go:367-385 | Projects all operations, or on a fault exactly those before it; Canonical.WrittenAt fixes what they leave at each path |
| StateMachine.StateMachine.ReconcileProjection | internal/controlplane/fsm.go:440-467 | On success the files equal the canonical entries, stale ones are removed and foreign files are left alone |
| StateMachine.StateMachine.Snapshot | internal/controlplane/fsm.go:540-599 | A snapshot is produced exactly when the revision is at or above the durable floor, and holds the canonical state |
| StateMachine.StateMachine.Restore | internal/controlplane/fsm.go:613-670 | The database becomes the envelope's state if it is valid and is untouched otherwise; success means the files mirror it |
| SnapshotRestore.SnapshotsRoundTrip | internal/controlplane/fsm.go:613-670 | Over every run whose put names settle under cleaning, the envelope of every database is restorable and restoring it anywhere gives its state back |
| SnapshotRestore.RestoresIffNameSettles | internal/controlplane/fsm.go:635-641 | All runs that put one name have restorable snapshots if and only if cleaning accepts the cleaned name |
| SnapshotRestore.PlainNamesRoundTrip | internal/controlplane/fsm.go:97-112 | With the real cleaning, snapshots restore in every run without names that are cleaned to one ending in a space |
| SnapshotRestore.SpacedNameBlocksRestore | internal/controlplane/fsm.go:97-112 | A run with one put after which the snapshot cannot be restored |
| PathNames.FixedIffNoTrailingSpace | internal/controlplane/fsm.go:97-112 | A cleaned name is its own cleaned name if and only if it does not end in a space |
| PathNames.SpacedIsRefusedAgain | internal/controlplane/fsm.go:97-112 | A name that is accepted and whose cleaned form is refused |
| StateMachine.StateMachine.PrepareReplay | internal/controlplane/store.go:29-50 | Refuses exactly when a replay would be unsafe; otherwise the floor covers the revision and never goes down |
| StateMachine.Node.Start | internal/controlplane/node.go:140-179 | A Controller starts only after its durable floor covers its revision, not at all when the replay would be unsafe, and checks against exactly that floor |
| StateMachine.Node.StrongRead | internal/controlplane/node.go:259-273 | A successful read was led and fenced, ends at or above the durable floor, and leaves files equal to the canonical entries |
| StateMachine.Node.WaitApplied | internal/controlplane/node.go:275-294 | Success means the index was reached, the durable floor is met and the files mirror the entries |
| Replication.DeliverKeepsExact | internal/controlplane/fsm.go:278-295 | Delivering the next or an already applied entry keeps a replica equal to its log prefix applied once |
| Replication.AfterKeepsExact | internal/controlplane/fsm.go:243-365 | Every event of a cluster keeps every replica equal to its log prefix applied once |
| Replication.RecoveryIsExact | internal/controlplane/fsm.go:613-670 | After any run of commits, crashes, redeliveries, restores and installs, every replica holds its log prefix applied once, if no snapshot was taken in the middle of a redelivery |
| Replication.DeliveredLogIsHeld | internal/controlplane/fsm.go:243-365 | A replica that got the whole log holds the whole log applied once |
| Replication.EveryRunIsSafe | internal/controlplane/fsm.go:163-241 | In every reachable state of every replica every route is owned and no owners overlap, and the replica can be restarted |
| Replication.FloorNeverDecreases | internal/controlplane/store.go:29-50 | The durable floor of a replica never decreases over a run of restarts and restores |
| Replication.FloorsStayWithinLog | internal/controlplane/store.go:29-50 | No floor ever runs ahead of the revision of the committed log |
| Replication.CatchingUpSatisfiesFloor | internal/controlplane/node.go:289-294 | A replica that has caught up always satisfies its floor again |
| Replication.RevisionGrows | internal/controlplane/fsm.go:320-341 | The revision never decreases along a log |
| Replication.RevisionNamesEntries | internal/controlplane/fsm.go:320-341 | Two points of a log with the same revision have the same entries |
| SnapshotLabels.MislabelledSnapshotDiverges | internal/controlplane/fsm.go:540-575 | For every label behind the watermark there is a run in which restoring the snapshot applies an entry twice |
| SnapshotLabels.SnapshotSafeIffCaughtUp | internal/controlplane/fsm.go:540-575 | Every run whose snapshots are taken at given counters recovers exactly if and only if the watermark has not passed the label |
| Reconciliation.EntriesIgnoreCounters | internal/controlplane/fsm.go:320-341 | Replicas with equal entries and any counters stay equal in entries under every common suffix before whose entries either both counters are exhausted or neither is |
| Reconciliation.ExhaustedCounterParts | internal/controlplane/fsm.go:324-341 | For every two equal replicas of which exactly one is exhausted there is a put that parts them |
| Reconciliation.NextEntryAgreesIff | internal/controlplane/fsm.go:320-341 | Equal replicas agree on every next entry if and only if both counters are exhausted or neither is |
| Reconciliation.CountersAlign | internal/controlplane/reconcile.go:98-131 | After the reconciliation entry all counters are equal, at least the minimum, and stay equal under every later log |
| Reconciliation.GatherMembers | cmd/bpc-controld/reconcile.go:153-166 | Succeeds exactly when all members agree in state, and the bound is the largest revision or floor among them |
| Reconciliation.GatherReceipts | cmd/bpc-controld/reconcile.go:167-202 | Succeeds exactly when every Gateway has one verified receipt, and the bound covers and attains the largest |
| Reconciliation.Reconcile | cmd/bpc-controld/reconcile.go:144-228 | An acknowledgement means agreement of all members, complete receipts, a commit at the covering revision and confirmations from all; a refusal names a failed condition |
| Reconciliation.AcknowledgedMeansAligned | cmd/bpc-controld/reconcile.go:203-228 | With an injective digest an acknowledgement means that from the commit on every member equals the Leader at or above the minimum, and so at or above every revision, floor and receipt, from whatever position before the commit it answered |
| Authorization.GuardsFenceReads | deploy/bpc_p2p.py:186-209 | The guards hold in a state if and only if it agrees with everything read, absences included, and then writing back what was read changes nothing |
| Authorization.WritingBackIsIdle | deploy/bpc_p2p.py:186-209 | Putting back what was read changes nothing |
| Authorization.Snapshot.Read | deploy/bpc_p2p.py:100-114 | A file is read once and remembered; a missing mandatory file is refused and leaves no trace |
| Authorization.Snapshot.Access | deploy/bpc_p2p.py:116-125 | The access record is the one of every state that agrees with the reads; a failure means that none of those has a usable one |
| Authorization.Snapshot.ReadParticipant | deploy/bpc_p2p.py:127-153 | A participant is returned exactly for a usable record of the owner and is the one of every state that agrees with the reads; a missing record is refused and leaves no trace |
| Authorization.Snapshot.Pair | deploy/bpc_p2p.py:155-184 | A granted pair is permitted (same owner, active, consenting, allowed and not denied) in every state that agrees with the reads; without a lost read a pair of proper identifiers that any of those states permits is granted |
| Authorization.Snapshot.Open | deploy/bpc_p2p.py:64-98 | An accepted caller is permitted in every state that agrees with the reads, and its credential has not expired; when no file changes meanwhile it is accepted if and only if the files permit it |
| Authorization.Snapshot.Commit | deploy/bpc_p2p.py:186-209 | A successful commit means that the canonical state at that log position agrees with every read, and leaves the entries as they were; when it agrees, its routes are owned and the counter and the time allow it, the commit succeeds |
| Authorization.FenceEffect | deploy/bpc_p2p.py:186-209 | A fence changes no entry, and its acceptance by the state machine proves the reads right and raises the revision by one |
| Authorization.Issue | deploy/bpc_p2p.py:280-295 | A returned ticket's decision held in the canonical state at the commit, whatever was committed between the reads and it; without concurrent changes a ticket is returned whenever that state permits the caller and the pair and the commit can be made in time |
| Authorization.DecideTicket | deploy/bpc_p2p.py:359-371 | A ticket is kept only if its pair is permitted as signed in every state that agrees with the reads, and dropped only if in none or if a read for it found its Initiator's or Host's record missing; such a read always drops it |
| Authorization.DecideTickets | deploy/bpc_p2p.py:351-371 | Every listed entry names a presented ticket by hash and is justified; a presented ticket that is not listed is refused by the reads or had a read of its own that found a Device record missing |
| Authorization.Sync | deploy/bpc_p2p.py:345-383 | Every entry of a returned checkpoint is justified in the canonical state at the commit, and a presented ticket is listed if and only if that state permits it and no read made for it found one of its Device records missing |
| Authorization.MissingRecordIsLost | deploy/bpc_p2p.py:100-128 | A pair that a state agreeing with the reads permits is lost at the next file read when an unread record of its Initiator, or of its Host after the Initiator's, has no file then |
| Authorization.MissingPeerIsLeftOut | deploy/bpc_p2p.py:359-371 | A ticket that a state agreeing with all reads permits is left out when its peer's record has no file at the next read, whichever side the caller is, and the reads stay as they were |
| Authorization.StampedRevisionJustifies | deploy/bpc_p2p.py:186-209 | Every log position with the stamped revision agrees with all reads of the fence |
| Authorization.TicketHoldsAtItsRevision | deploy/bpc_p2p.py:280-295 | The decision behind a ticket holds in the canonical state at exactly the revision stamped in it |
| RefreshRotation.CommitEffect | deploy/bpc_identity.py:563-685 | A credential write either takes exactly its intended effect or leaves all credentials as they were |
| RefreshRotation.EffectKeepsFamilies | deploy/bpc_identity.py:563-685 | Every committed issue, rotation or revocation keeps at most one live credential per family |
| RefreshRotation.FamiliesStayUnique | deploy/bpc_identity.py:563-685 | Over every interleaving of Controllers each nonempty family has at most one unrevoked credential |
| RefreshRotation.RevocationIsFinal | deploy/bpc_identity.py:548-561 | No write ever turns a revoked credential back |
| RefreshRotation.RotatedAtMostOnce | deploy/bpc_identity.py:563-685 | No refresh credential is rotated twice |
| RefreshRotation.FamilyHasOneHolder | deploy/bpc_identity.py:563-685 | Over every interleaving of Controllers all credentials of one nonempty family ever stored have one user and one Device |
| RefreshRotation.FamilyMembersAgree | deploy/bpc_identity.py:613-628 | Any two stored credentials of a family, at any paths in any states, have the same user and Device |
| RefreshRotation.RevokeWhere | deploy/bpc_identity.py:688-727 | The scan writes a revocation for every live selected credential it reads, exactly as read, and for no other |
| RefreshRotation.RefreshDeviceSession | deploy/bpc_identity.py:563-685 | A revoked token is a replay of its family; a live one is revoked if and only if it has expired, and rotated if and only if it has not and identity and proof are good; the successor is live, has the user, Device and family of the credential read and the given lifetime, and the access record is the one given |
| RefreshRotation.FormedIsHonest | deploy/bpc_identity.py:563-727 | What refresh requests and revoking scans form from the files of an earlier state is what the histories are made of |
| MeshConfig.RouteForIsLongestMatch | internal/routed/config.go:226-246 | The lookup finds the longest matching route, first among equals, and fails only when nothing matches |
| MeshConfig.LookupRoute | internal/routed/config.go:226-246 | The loop computes that lookup |
| MeshConfig.SourcePathsOf | internal/routed/config.go:248-265 | Exactly the configured paths from this Node to the owner and CIDR of the route |
| MeshConfig.TransitPath | internal/routed/config.go:267-274 | The first path with the identifier, if there is one |
| PathSelection.Pick | internal/routed/router.go:199-213 | A viable offer of lowest score, and None only when nothing is viable |
| PathSelection.PickIsFirst | internal/routed/router.go:199-213 | No viable offer comes before the picked one, by score and then by identifier |
| PathSelection.ScoreFollowsQuality | internal/routed/router.go:128-142 | A path that is no worse in cost, time, loss and health has no higher score, and a lower one when it is better in one of them |
| PathSelection.ViableIff | internal/routed/router.go:144-158 | A path is usable if and only if it starts here, its first link can send, and neither is reported failed |
| PathSelection.Selector.ChoosePath | internal/routed/router.go:160-253 | Changes only the route's own selection, as the decision function says; answers exactly when some path is viable, and then with the path that is current after the call, which is viable |
| PathSelection.ChosenIsCurrent | internal/routed/router.go:160-253 | A call answers with the path that is current after it, and with none if and only if nothing is viable |
| PathSelection.Selector.ObserveAll | internal/routed/router.go:173-193 | Availability after a call: offered paths are noted in order, unoffered ones become unusable |
| PathSelection.Selector.UpdateConfig | internal/routed/router.go:95-122 | Every selection forgets withdrawn paths, and itself when its current path was withdrawn |
| SelectionHistory.AfterIsSummarized | internal/routed/router.go:160-253 | What one call may do to choice, candidate and recovery records, stated without the decision function |
| SelectionHistory.RecoveryIsOnRecord | internal/routed/router.go:173-193 | A recovery that no update erased stays on record |
| SelectionHistory.LastSwitchIsLast | internal/routed/router.go:205-253 | While a path is current the recorded switch time is at or after every switch so far, also before a reset |
| SelectionHistory.CurrentWithoutSwitch | internal/routed/router.go:95-122 | A path that is current without a switch in between was current all along, and no update ended the selection |
| SelectionHistory.CandidateHasLed | internal/routed/router.go:229-252 | A standing candidate has led the viable current path by 15 in every call since it became candidate |
| SelectionHistory.SwitchIsDisciplined | internal/routed/router.go:160-253 | Over every history a switch from a viable path comes 15 s after every earlier switch, 10 s after every recovery of the new path since which no update kept the current path and dropped the new one, and after a lead of 15 in every call for 5 s |
| SwitchTiming.SwitchesIff | internal/routed/router.go:205-253 | Over every history a call with a viable current path switches if and only if some path has led it by 15 in every call for 5 s, from a call at least 10 s after the last switch on, and every recovery of it that no update took away is 10 s old; the call answers with that path, and with the current one otherwise |
| SwitchTiming.AnswersCurrent | internal/routed/router.go:160-253 | Over every history a call answers with the path that is current after it |
| SwitchTiming.FailsOverAtOnce | internal/routed/router.go:214-221 | A call that finds the current path unusable moves at once to a viable path of lowest score, and keeps its choice when there is none |
| RecoveryErasure.ErasedRecoveryBreaksBound | internal/routed/router.go:95-122 | For every set of paths that keeps the current path and drops the other one, a history in which an update to it lets a switch follow a recovery after 5 s |
| RecoveryErasure.EarlySwitchIffErased | internal/routed/router.go:95-122 | Among histories with updates to one set, or to sets that keep the new path, a switch can come early if and only if the set keeps the current path and drops the new one |
| FrameCodec.DecodeEncode | internal/routed/frame.go:60-153 | Unmarshalling a marshalled frame gives the frame, for every valid frame |
| FrameCodec.EncodeDecode | internal/routed/frame.go:60-153 | Marshalling an unmarshalled frame gives the bytes, for every accepted byte string |
| FrameCodec.EncodeLayout | internal/routed/frame.go:60-87 | The bytes of a frame: magic, flags, hop index, hop count, each name behind its length at its offset, the payload length with the high byte first, and the payload |
| FrameCodec.MarshalFrame | internal/routed/frame.go:60-87 | Succeeds exactly on valid frames with their encoding |
| FrameCodec.UnmarshalFrame | internal/routed/frame.go:89-153 | Computes the decoding of arbitrary bytes within bounds |
| MeshRouter.Router.RememberReverse | internal/routed/router.go:261-270 | Drops stale entries and sets the Device's path and time |
| MeshRouter.Router.ReverseFor | internal/routed/router.go:272-283 | A live entry is returned and refreshed, a stale one is dropped |
| MeshRouter.Router.Transmit | internal/routed/router.go:285-298 | Sends the encoding to the next hop exactly when the index, the link and the frame are good |
| MeshRouter.Router.HandleMeshData | internal/routed/router.go:350-378 | Bytes from a peer are relayed, delivered or dropped, and remembered, exactly as the admission rules say |
| MeshRouter.Router.ChosenPath | internal/routed/router.go:199-213 | A viable path with the chosen identifier and the lowest score |
| MeshRouter.Router.ForwardPacket | internal/routed/router.go:331-348 | A packet goes along the chosen viable path to the owner of its route, or nowhere; only the selection of its route changes, as path selection decides |
| MeshRouter.Router.HandleTunPacket | internal/routed/router.go:300-348 | A site Router answers a Device on the reverse of its last path; any other packet is forwarded; the reverse table and the selections afterwards are stated for every case |
| MeshDelivery.LegAdvances | internal/routed/router.go:350-378 | One handling moves an approved frame one hop on, or lands it at the end |
| MeshDelivery.Delivered | internal/routed/router.go:350-378 | A packet on a passable path lands at its far end byte for byte after exactly one send per hop, in both directions |
| MeshDelivery.ForwardsFirstLeg | internal/routed/router.go:331-348 | What a source sends is the first leg of a configured path that carries the packet's route |
| MeshDelivery.TunnelPacketArrives | internal/routed/router.go:300-378 | A tunnel packet lands unchanged on the owner of its route when the paths from this Node that carry that route are passable |
| MeshDelivery.RelayKeepsFrame | internal/routed/frame.go:193-255 | A Node with a valid configuration relays only the same frame one hop further and delivers forward packets only if it owns the route |
| MeshDelivery.HandledIsOnItsWay | internal/routed/frame.go:193-255 | Bytes that a Node does not drop are a frame on its way along a path of the Node's own configuration, from the hop before, with a packet whose ends belong on that path, under a valid policy |
| MeshDelivery.InjectedFramesAreContained | internal/routed/frame.go:193-255 | Whatever anyone injects: bounded relaying, unchanged payload, and forward packets land only on the route owner |
| MeshReplies.TableRemembersLatest | internal/routed/router.go:261-283 | Over every history of touches the table knows a Device exactly while its uses leave no gap over the lifetime, and then holds the path of its latest packet |
| MeshReplies.ReverseIsTable | internal/routed/router.go:300-378 | After every run of mesh frames and tunnel packets the Router's reverse table is the table of the touches they make |
| MeshReplies.LatestEndsHere | internal/routed/frame.go:193-255 | With valid configurations every learned path ends at this Router, the owner of its route |
| MeshReplies.RouterKnowsLatest | internal/routed/router.go:261-283 | The Router knows a Device exactly while it is in use, and then by its latest path, which ends here |
| MeshReplies.ReplyLandsIff | internal/routed/frame.go:222-237 | When every Node on the way holds the path and reaches the next, a reply lands on the path's first Node if and only if all of them give its source to the path's owner and CIDR, and is lost otherwise |
| MeshReplies.ReplyReturnsIff | internal/routed/router.go:314-330 | After every run of inputs, the reply to a Device in use leaves on the reverse of the path of its latest packet and lands or is lost by that condition, byte for byte |
| MeshReplies.OtherCidrLosesReply | internal/routed/router.go:261-283 | A reply returns after the Device's packet to its sender, and is lost after a further packet to another CIDR of the same owner |
| MeshReplies.SceneExists | internal/routed/router.go:261-283 | Addresses, networks and packets for which that happens |
| Topology.BuildAdjacency | deploy/bpc_topology.py:885-899 | The adjacency lists hold, per Node, exactly its usable links in order |
| Topology.WalkFrom | deploy/bpc_topology.py:904-929 | The recursive walk computes the specified list of hop lists |
| Topology.WalkIsExact | deploy/bpc_topology.py:904-929 | A path is collected from given hops if and only if it grows out of them by admissible steps |
| Topology.FindsSimplePaths | deploy/bpc_topology.py:873-932 | From a source other than the owner the walk collects exactly the simple paths within the hop bound |
| Topology.FindsEachPathOnce | deploy/bpc_topology.py:904-929 | With one link per ordered pair every path is collected once |
| Topology.CandidatePaths | deploy/bpc_topology.py:873-932 | Refused exactly for blank names or a source that is the owner; otherwise exactly the simple paths, each once |
| PathDistribution.OverlayReport | deploy/bpc_topology.py:713-732 | The link map gains exactly the pairs that one Node reports of itself to known Nodes, each as in its last report |
| PathDistribution.OverlayTelemetry | deploy/bpc_topology.py:713-732 | The link map gains exactly the pairs reported by current telemetry, each as in the last current report, and keeps the others |
| PathDistribution.SnapshotLinks | deploy/bpc_topology.py:691-736 | One link per canonical pair in both directions and per currently reported pair, with the health of the last current report and "unknown" without one |
| PathDistribution.PairsAre | deploy/bpc_topology.py:691-732 | The pairs are the canonical links between known Nodes in both directions and what known Nodes with current telemetry report |
| PathDistribution.SourceEdgeIff | deploy/bpc_topology.py:885-899 | A source path may use a pair of different Nodes if and only if the pair is linked and its last current report does not call it failed |
| PathDistribution.RoutingPaths | deploy/bpc_topology.py:378-410 | The source list is exactly the healthy paths from the Node, the transit list exactly the paths of public sources through it whatever their health; refused exactly when some search is |
| PathDistribution.RefusedIffPublicOwner | deploy/bpc_topology.py:401-410 | The configuration is refused to every Node if and only if a public Node owns a route |
| PathDistribution.PathIsDistributedIff | deploy/bpc_topology.py:333-411 | A source path is in the transit list that a Node on it gets at another moment, with the same fields, if and only if every hop is a link at that moment |
| PathDistribution.CanonicalPathsAreDistributed | deploy/bpc_topology.py:333-411 | While telemetry reports only canonical links every source path is in every such list, whatever the health |
| PathDistribution.ReportedLinkIsNotDistributed | deploy/bpc_topology.py:713-732 | A path over a link known from telemetry alone that its owner refuses later |
| Access.AddressExclude | deploy/bpc_access.py:215-217 | The parts cover exactly the addresses of the network outside the excluded one |
| Access.MergeSiblings | deploy/bpc_access.py:221-222 | Merging siblings terminates and keeps the covered addresses |
| Access.EndsLaterUnlessInside | deploy/bpc_access.py:221-222 | In sorted order the broadcast comparison decides containment |
| Access.DropCovered | deploy/bpc_access.py:221-222 | The sweep keeps the covered addresses and leaves sorted, pairwise disjoint networks |
| Access.CollapseAddresses | deploy/bpc_access.py:221-222 | The same addresses as sorted, pairwise disjoint networks |
| Access.SubtractOne | deploy/bpc_access.py:208-220 | One deny is taken out of every fragment, no more and no less |
| Access.SubtractDenies | deploy/bpc_access.py:202-222 | An address is in the result if and only if some allow and no deny holds it; fragments are sorted and disjoint |
| Access.EffectiveNetworks | deploy/bpc_access.py:225-257 | An address is in a Device's networks if and only if the Device is active, something allows the address and nothing denies it |
| Firewall.EvaluateJoin | deploy/bpc_access.py:467-517 | First-match evaluation of a joined list is that of the first part, unless it passes |
| Firewall.OutwardIsFirstGrant | deploy/bpc_access.py:496-500 | Among the outward rules the first grant of the opener's address decides |
| Firewall.InwardIsAnyGrant | deploy/bpc_access.py:506-509 | The inward rules accept exactly flows that some grant of the target covers |
| Firewall.ClosingDropsKnown | deploy/bpc_access.py:510-516 | The end of the chain drops every packet touching a known address; only others reach the accept of established flows |
| Firewall.KnownPacketsNeedGrants | deploy/bpc_access.py:467-517 | A packet touching a known address is accepted if and only if a grant covers its flow and neither end is retired, and is dropped otherwise |
| Firewall.BuildChain | deploy/bpc_access.py:467-517 | The loops build the specified chain |
| Firewall.KnownAddresses | deploy/bpc_access.py:471-486 | Every address of an earlier run, of the mesh or of a Device, each once |
| Firewall.DistinctAddressesAreExact | deploy/bpc_access.py:467-517 | With one Device per address the chain accepts a packet if and only if Access permits its flow and no end is retired |
| Firewall.ShadowedFlowIsDropped | deploy/bpc_access.py:496-500 | A flow that a later record at an address may open and the first may not is dropped although Access permits it |
| Firewall.ExactIffFirstReachesAll | deploy/bpc_access.py:467-517 | The chain accepts exactly what Access permits, of all packets touching a known address, if and only if at every address the first record may reach all that any record there may reach |
| Firewall.SharedAddressIsShadowed | deploy/bpc_access.py:496-500 | An inactive Device record that comes first takes the flows of an active Device at the same address away |
| Firewall.SyncAccessFirewall | deploy/bpc_access.py:467-517 | Of the packets touching a known address only those are accepted whose flow an active Device's Access covers, and none passes through undecided; the chain is exact if and only if the first record of every address reaches all that any record there may reach |
| PolicyStore.Store.TrackTicket | internal/p2p/authority.go:150-208 | The state after tracking a ticket, with its refusals, expiries and capacity limits, and a session exactly when the store then holds that very ticket |
| PolicyStore.Store.StopSession | internal/p2p/authority.go:236-264 | All authorizations end; a denial is persisted exactly when the session is known and there is room |
| PolicyStore.Store.CheckEntries | internal/p2p/authority.go:297-308 | Passes exactly when every entry names a tracked session once, by the hash of its own ticket |
| PolicyStore.Store.AnyListedDenied | internal/p2p/authority.go:324-331 | Found exactly when a listed session is still denied, which refuses the checkpoint |
| PolicyStore.Store.DenyUnlisted | internal/p2p/authority.go:319-331 | The new denials are exactly the unexpired ones and the unlisted sessions |
| PolicyStore.Store.ApplyCheckpoint | internal/p2p/authority.go:271-352 | A checkpoint is accepted exactly under the stated conditions; then floors, denials and authorizations are its own, else everything is closed |
| PolicyStore.Store.Close | internal/p2p/authority.go:354-364 | Ends every authorization and closes the store |
| PolicyHistory.RevisionsStrictlyIncrease | internal/p2p/authority.go:310-338 | Over every run with restarts, accepted checkpoint revisions strictly increase |
| PolicyHistory.AcceptedJustifies | internal/p2p/authority.go:342-349 | An accepted checkpoint authorizes only sessions it lists by hash, for at most 30 s of the monotonic clock |
| PolicyHistory.AuthorityIsTraced | internal/p2p/authority.go:271-352 | In every reachable state every authorization goes back to the last accepted checkpoint |
| PolicyHistory.ActiveMeansRecentlyAllowed | internal/p2p/grant.go:82-90 | An active session was listed by exact hash in the last accepted checkpoint, accepted less than 30 s ago |
| LastingAuthority.AcceptedIsActiveIff | internal/p2p/authority.go:342-349 | Right after an accepted checkpoint a session is active at a moment if and only if it is listed by hash, the wall second is within ticket and checkpoint, and the monotonic time passed is less than what the checkpoint had left and than the session has |
| LastingAuthority.ActiveIff | internal/p2p/grant.go:82-90 | Over every run a session known at the last acceptance is active if and only if that checkpoint lists it, every later call spares it and the moment is in time on both clocks |
| PolicyHistory.SessionsWereTracked | internal/p2p/authority.go:150-208 | In every reachable state every session was tracked by a call with its ticket, and its deadline is when the ticket ends by the clocks of that call |
| PolicyHistory.SessionsAreGenuine | internal/p2p/authority.go:150-208 | Every session has a ticket of this cluster for this Device and another one of the same user, valid when it was tracked |
| PolicyHistory.AcceptedIsGenuine | internal/p2p/authority.go:271-308 | An accepted checkpoint is for this cluster and Device, within its 30 s, and no older than any ticket it lists |
| PolicyHistory.StoreIsBounded | internal/p2p/authority.go:150-208 | Over every run at most 16 sessions are tracked and at most 16 addresses reserved |
| PolicyHistory.PeersAreReserved | internal/p2p/authority.go:150-208 | Over every run each tracked session has its peer's address reserved |
| DenialHistory.ShutStaysShut | internal/p2p/authority.go:150-352 | No call reopens a denied ticket except one that prunes the denials at or past its expiry |
| DenialHistory.DenialLasts | internal/p2p/authority.go:236-352 | A persisted denial stands over restarts and every call until an accepted checkpoint or a successful stop runs at or past the expiry |
| DenialHistory.DenialIsPermanent | internal/p2p/authority.go:236-352 | A ticket with a persisted denial that is active again was pruned at or past its expiry, and the wall clock is back within its lifetime |
| DenialHistory.SetBackClockRevives | internal/p2p/authority.go:249-262 | For every pruning time at or past the expiry and every later time within the lifetime, a run in which the denied ticket is active again |
| DenialHistory.RevivedIffSetBack | internal/p2p/authority.go:236-352 | A denied ticket can be active at one moment after pruning only then and at another if and only if the other is at or past the expiry and the clock is back within the lifetime |
| Relay.Server.RevokeSession | internal/p2p/relay.go:67-91 | A tombstone, or on overflow a ban on all admissions, and the room marked; tombstones stay bounded |
| Relay.Server.AttachPeer | internal/p2p/relay.go:228-261 | Admission exactly under the stated conditions, with dead rooms dropped and one peer added |
| RelayHistory.DeadMeansExpired | internal/p2p/grant.go:82-90 | While the wall clock has lost no time since its verification, a lease is not live exactly when it has expired |
| RelayHistory.EveryRunIsSound | internal/p2p/relay.go:67-261 | On any clocks, in every reachable state a room is in the table or an admission attempt found it dead, its lease was verified in the run, and all its peers hold its ticket's hash |
| RelayHistory.RoomsAreGenuine | internal/p2p/relay.go:155-191 | Every room's ticket was a valid one of this cluster when it was verified, and is live exactly until it ends by the clocks of that moment |
| RelayHistory.RelayIsBounded | internal/p2p/relay.go:67-261 | Over every run at most 64 rooms are in the table and at most 4096 tombstones are kept |
| RelayHistory.DeadForGood | internal/p2p/grant.go:82-90 | On clocks that do not go back a room that was found dead is dead for good |
| RelayHistory.RevocationSilences | internal/p2p/relay.go:67-91 | Whatever the wall clock reads, while the tombstone stands every room under the identifier is revoked or was found dead before the revocation, and none can be admitted, also after overflow |
| RelayHistory.ForwardedAfterRevoke | internal/p2p/relay.go:184-226 | Whatever the wall clock reads, a packet forwarded after a revocation under its identifier means that the tombstone has run out or that an admission attempt before the revocation found the room dead |
| RelayHistory.ForwardedPastTombstone | internal/p2p/relay.go:184-226 | On clocks that do not go back it means that the tombstone has run out and the ticket has not expired |
| RelayHistory.NothingForwardedAfterRevoke | internal/p2p/relay.go:184-226 | When the wall clock loses no time after the revocation, no packet is forwarded under a ticket for its identifier that was issued at or before it |
| RelayHistory.SecondAdmissionFoundDead | internal/p2p/relay.go:228-261 | On any clocks, a side is admitted again with the same ticket only after an admission attempt found its first room dead |
| RelayHistory.AdmittedOncePerSide | internal/p2p/relay.go:228-261 | On clocks that do not go back, a side is admitted again with the same ticket only when the lease of its first room is dead |
| RelayHistory.AdmittedAgainOnlyExpired | internal/p2p/relay.go:228-261 | When the wall clock has lost no time since the verifications either, the ticket of that room has expired |
| RelayHistory.ForwardsToOtherSideOfTicket | internal/p2p/relay.go:199-224 | On any clocks, a packet goes only to the connection admitted to the other side of the room with a byte-identical ticket |
| RelayReadmission.SetBackClockForwards | internal/p2p/relay.go:67-91 | Once the tombstone has run out, both sides of a revoked ticket that is good on the wall clock are admitted and forward |
| RelayReadmission.ReadmittedIffSetBack | internal/p2p/relay.go:184-261 | When everything after the revocation happens at one later moment, a ticket from before it can be forwarded if and only if the tombstone has run out and the wall clock is within its lifetime |
| RelayReadmission.ForwardedIffTombstoneOver | internal/p2p/relay.go:67-261 | Over all runs on clocks that do not go back, a ticket that was good at its revocation can be forwarded afterwards if and only if the tombstone has run out and the ticket has not expired |
| RelayReadmission.DroppedRoomForwards | internal/p2p/relay.go:83-90 | For every ticket that is dead when revoked, after an admission attempt of any ticket dropped its room from the table, a run that forwards it at every moment at which its lease is live again, also under the tombstone |
| RelayReadmission.ForwardedUnderTombstoneIff | internal/p2p/relay.go:67-261 | Under the tombstone a ticket verified at one moment and revoked at a second can be forwarded at a third if and only if its lease is dead at the second and live at the third |
| RelayReadmission.AdmittedAgainIffDead | internal/p2p/relay.go:228-261 | After a first admission the same side is admitted with the same ticket again if and only if the first lease is dead |
| FlowPolicy.Policy.DecideSegment | internal/p2p/policy.go:96-119 | The decision on a parsed segment and the flow table after it |
| FlowPolicy.Policy.Decide | internal/p2p/policy.go:43-120 | The decision on a packet and the state after it, for every byte string; FlowBytes.DecidesByBytes states the decision at the bytes |
| FlowBytes.ParsesBytes | internal/p2p/policy.go:52-95 | Exactly the unfragmented service packets between the two addresses are considered; the flow is the pair of ports at bytes 20 to 23 oriented by the sender, and SYN, ACK and RST are the bits 0x02, 0x10 and 0x04 of byte 33 |
| FlowBytes.DecidesByBytes | internal/p2p/policy.go:43-120 | A packet passes if and only if the filter is live and the packet continues a flow in use, or opens one as the Initiator while there is room |
| FlowBytes.TcpOpensIff | internal/p2p/policy.go:104-113 | With no flow in use a TCP packet of the service passes if and only if the Initiator sends it with SYN set and ACK clear |
| FlowBytes.AllowedKeepsFlowIff | internal/p2p/policy.go:114-118 | An allowed packet leaves its flow in use for 30 s, unless it is TCP with RST set, which removes it |
| FlowBytes.OtherFlowsStay | internal/p2p/policy.go:96-103 | No decision of a live filter touches another flow in use |
| FlowHistory.FlowsAreBounded | internal/p2p/policy.go:110-118 | The flow table never exceeds 4096 flows |
| FlowHistory.NothingAllowedAfterRevoke | internal/p2p/policy.go:41-50 | No packet is allowed after a revocation |
| FlowHistory.EntriesAreRooted | internal/p2p/policy.go:96-119 | A table entry belongs to the flow's last allowed packet, which is no reset and linked to an opening |
| FlowHistory.AllowedIsLinked | internal/p2p/policy.go:43-120 | Every allowed packet is linked by consecutive allowed packets of its flow, less than 30 s apart and without a reset, to an opening packet of the Initiator |
| FlowHistory.HostPacketsContinue | internal/p2p/policy.go:104-109 | An allowed Host packet continues such a chain |
| Mux.ReservationsLast | internal/p2p/mux.go:39-57 | A reservation is never removed, whatever follows |
| Mux.EveryRunIsBounded | internal/p2p/mux.go:39-57 | At most 16 private addresses are reserved and every queue stays within its size |
| Mux.ReservedNeverReachesGateway | internal/p2p/mux.go:159-199 | In every interleaving, a gateway read or write hands over a packet for or from a reserved address only if its check preceded the reservation |
| Mux.CheckedBeforeReserveDelivers | internal/p2p/mux.go:159-175 | An interleaving in which a read's check preceded the reservation and the packet is delivered after it |
| Mux.CheckedBeforeReservePasses | internal/p2p/mux.go:179-199 | The same for a write: its check preceded the reservation of the source, and the packet is passed after it |
| Mux.QueuesAreFifo | internal/p2p/mux.go:94-157 | What a peer read plus what is still queued is exactly what was put into its queue, in order |
| Mux.QueuedPacketsAreForThePeer | internal/p2p/mux.go:94-135 | A packet enters only the queue of its own destination |
| Mux.PeerPacketGoesTo | internal/p2p/mux.go:94-135 | A packet for a reserved address goes to the queue attached to it, unless that is full, and nowhere else |
| Mux.OtherPacketGoesToGateway | internal/p2p/mux.go:94-135 | Any other packet goes to the gateway's queue, unless that is full |
| Mux.GatewayIsFifo | internal/p2p/mux.go:94-175 | What gateway reads took plus what is still queued is exactly what was put into the gateway queue, in order |
| Mux.ClosedGetsNothing | internal/p2p/mux.go:252-260 | Over every run nothing is put into a queue after it was closed, also when the address is attached anew |
| Mux.Adapter.ReservePeer | internal/p2p/mux.go:39-57 | Succeeds exactly for a private address with room on an open adapter, which is then reserved |
| Mux.Adapter.AttachPeer | internal/p2p/mux.go:59-84 | Reserves and attaches a new empty queue, for the bound address only |
| Mux.Adapter.ClosePeerQueue | internal/p2p/mux.go:252-260 | Detaches the queue and keeps the reservation |
| Mux.Adapter.DispatchBatch | internal/p2p/mux.go:94-135 | Every packet of a batch goes to its peer's queue or to the gateway |
| Mux.Adapter.ReadGateway | internal/p2p/mux.go:159-175 | Returns the first queued packet that is not for a reserved address and drops those before it |
| Mux.NextIsFirst | internal/p2p/mux.go:159-175 | A gateway read takes the first queued packet that is not for a reserved address, drops those before it and leaves those behind it |
| Mux.Adapter.WriteGateway | internal/p2p/mux.go:179-199 | Passes the packets that are not from reserved addresses, each once and in order: their positions are exactly the unreserved ones, increasing |
| Mux.NotFromPeersInOrder | internal/p2p/mux.go:179-199 | The passed packets are those at the increasing positions of the unreserved packets |

## Left out

- Raft consensus and bbolt: one agreed log and atomic transactions are taken as given.
- Cryptography, TLS, key formats and JSON: they are predicates or function values.
- File permissions, fsync and rename: files are a map from normalised paths. Path-name cleaning is a function value except in PathNames, which models it for slash-separated names.
- Spaces beyond Latin-1: trimming takes away the ASCII spaces, U+0085 and U+00A0 only.
- The user and Device records that a refresh request loads are taken to carry the identifiers they are stored under.
- HTTP handlers, command lines, systemd units, packet-filter and WireGuard process calls, the Agent's user interface.
- The mesh link runtime: which links can send and what they report is an arbitrary environment.
- Link metrics: round-trip, loss, cost and score of candidate paths, and the order of the path list by score; the hop lists do not depend on them.
- Floating-point rounding and NaN in path scores: scores are reals.
- Ties in path ranking: among offers of one score the first in byte order of identifiers is taken.
- Runs of adjacent single addresses, which the address library summarises before merging: the model feeds them to the merge, which covers the same addresses.
- Creating, consenting to and listing peers in deploy/bpc_p2p.py, and credentials kept in files outside cluster mode.
- Clock readings within one call of the policy store: a call reads the clocks once.
- Relay rooms are values in an arena and not heap objects, so what the model captures of aliasing is that a handler keeps its room after the table has dropped it.
- Closing of connections on revocation and when a dead room is dropped, handshake and framing of the relay: only its forwarding decision is modelled, so what forwards after such a close is a frame that was already read.
- The race between closing the adapter and a waiting read: a read may still take a queued packet.
- MeshRouter.Router.ChosenPath: among paths with one identifier and one score any may be taken, because the source's sort does not order them.
- RelayHistory.NothingForwardedAfterRevoke: is about clocks that do not go back and a wall clock that loses no time after the revocation; the exact conditions on other clocks are RelayReadmission.ForwardedIffTombstoneOver and RelayReadmission.ForwardedUnderTombstoneIff.
- MeshConfig.RouteForIsLongestMatch: among routes for the same network the first is taken, which the source's unstable sort does not promise.
