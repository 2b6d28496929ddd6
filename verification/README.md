# A verified model of the bridge's in-memory protocols

The bridge keeps phones in step with agent sessions through a set of small in-memory protocols: projection
patches delivered along a revision chain, recovery transactions, a bounded event log, catalog snapshots and
cursors, a source ledger, leases, batching, rate limits. Each of them has a simple meaning it is supposed to
keep, such as an unbounded log, a frozen list, a connected component or a sequential ledger. The modules here
state those meanings and prove that the protocols keep them, over every input, every run and every interleaving
of their critical sections.

Check the whole project with `dafny verify dfyconfig.toml` (Dafny 4.11).

## How it is laid out

Where the program updates fields in place there is a class (or methods over arrays and local state) whose every
method is tied to a function on values: its `ensures` equates the new state with that function of the old one.
The promises are then proved about the functions, as lemmas over runs.

| part | modules |
|---|---|
| projection delivery and snapshot fences | `ProjectionTypes`, `ProjectionLane` (one connection and session), `ProjectionReplica` (copies against the authority), `ProjectionLapses` (when agreement is lost), `ProjectionStaleness` (what is tracked over any run), `ProjectionRouting` (who gets a detail commit), `ProjectionPublisher` (the maps) |
| recovery transactions | `RecoveryLane`, `RecoveryPublisher`, `RecoveryReplay` (exactly once across replay and recovery) |
| compaction and fork lineage | `UnionFind`, `Lineage`, `ForkLineage`, `SessionCatalog` |
| replay buffer | `EventLog` (forgets nothing), `EventBuffer` |
| source ledger | `SourceLedger`, `LedgerRuns` (interleavings), `LedgerStore` |
| catalog cursors and wire snapshots | `CatalogCursor`, `CursorWalk` (following cursors), `WirePaging`, `WireCache` (interleavings), `WireFetches` (what fetches bring), `WireCacheStore` |
| keyset paging | `KeysetOrder`, `CatalogFingerprint`, `KeysetPaging`, `KeysetCache` |
| coverage leases | `CoverageLease`, `CoverageRegistry` |
| delta batching | `DeltaBatching`, `DeltaBatcher` |
| pairing gate | `PairingGate`, `PairingAttempts` |
| checkpoint coalescer | `CheckpointCoalescing`, `CheckpointCoalescer` |
| subagent forest | `SidechainForest` |
| session manager | `SessionIds`, `SessionStore`, `SessionManager` |
| shared | `Options`, `Sequences`, `Text` |

One call under a lock is one step. What the environment decides (whether a queue has room, what a filter says,
the clock, the outcome of a build, the order a map is iterated in) is an argument of the step, so the lemmas
hold for every choice.

## Where the obvious claim fails

The model follows the code. These places behave otherwise than one might expect. Each has a lemma that says
exactly when, over all inputs, and where it helps a run that gets there:

- An enqueue refused on the single-connection path, or a patch withheld by the observation filter, changes
  nothing, and a later no-op bridges the missed content. A live patch refused is marked, but a later pull of
  other turns clears the mark. Agreement of copies survives exactly when the missed patch spared the held turns
  (`ProjectionLapses.RefusedCommitKeepsIff`, `FilteredLiveKeepsIff`, `RefusedLiveKeepsIff`, `PullAfterMissIff`).
  Over whole runs the turns missed are tracked, and everything else agrees
  (`ProjectionStaleness.AgreesOutsideStale`, `EntersIff`).
- A turn prepended again after its removal does not reach a connection that holds it, nor one that comes to hold
  it by the page of a snapshot opened before (`ProjectionLapses.PrependKeepsIff` with no snapshot open,
  `PrependBehindFenceIff` with one; `ReturningTurnIsMissed`, `ReturningTurnBehindFence`).
- A prepend tells full connections to pull again without marking them invalidated
  (`ProjectionLane.PrependLeavesFullUnmarked`).
- A snapshot taken at revision 0 leaves a cut of 0, which counts as not synced: the next patch goes out whatever
  it builds on (`ProjectionLane.NextPatchAfterSnapshot`).
- A pull that failed releases its fence like one that succeeded, so patches can go out that build on a revision
  the client never got (`ProjectionLane.FailedPullLinksIff`, `FailedPullNextPatchIff`, `FailedFirstPullStrands`).
- The events of a replay go out one by one while recovery is open. When it is given up on meanwhile, they fall
  behind newer ones (`RecoveryLane.SequenceRises`, `DegradedReplayFallsBack`).
- An event published after the replay was taken and before the recovery began is neither replayed nor held
  (`RecoveryReplay.ReplayThenOwed`).
- Cut maps that differ can compare equal, and an acknowledgement of other cuts can pass, exactly when a zero cut
  is among the recovery's own (`RecoveryLane.SameCutsExactIff`, `OtherCutsCaughtIff`).
- Freezing a recovery snapshot writes to the recovery's cut map even when the recovery began without one; the
  outcome is `NilCutMap` in the model. The shipped caller always begins with cuts
  (`RecoveryLane.NilCutMapIff`, `CutsGivenNoNilCutMap`).
- In a fork group of three or more with a tie at the top an older member can be the survivor
  (`ForkLineage.NewestForkSurvivesIff`).
- The validity check on ledgers alone is not inductive (`SourceLedger.ValidityKeptIff`).
- A replay cursor below zero requires a snapshot once the session is known (`EventBuffer.CoverageDecides`).
- Merged deltas go where the first of them was sent (`DeltaBatching.RouteTakenIff`, `RoutingKeptIff`).
- Fingerprint texts do not escape their separators: an id passes for other rows exactly when it splits into
  rising parts (`CatalogFingerprint.PassesForTwoIff`, `PassesForAnotherIff`).
- A deep subagent disappears without a diagnostic when it, or an agent above it, names no parent, and when the
  root above it is not anchored. One flagged as an orphan or in a cycle appears all the same when the root above
  it is anchored and names a parent (`SidechainForest.AppearsIff`, `UnflaggedAppearsIff`, `FlaggedAppearsIff`).

## Model

| member | source | states |
|---|---|---|
| `ProjectionLane.AppendFenceOk` | go-bridge/event_publisher.go:796-829 | Appending to a fence keeps its pending patches one linked run from the starting revision to the expected one within 128 patches and 2 MiB, or leaves it invalidated and empty |
| `ProjectionLane.StepLaneOk` | go-bridge/event_publisher.go:747-957 | Every call that reaches a connection and session keeps the patches enqueued there one revision chain, the cut at its end, and the fence sound |
| `ProjectionLane.RevisionChain` | go-bridge/event_publisher.go:747-957 | From an unknown connection on, every run of live patches, prepends, commits, snapshots and releases leaves the frames one revision chain and the fence sound |
| `ProjectionLane.NeighbouringPatchesLink` | go-bridge/event_publisher.go:833-957 | In every run two patches with nothing usable between them link: the later starts at the revision the earlier led to and ends above it; behind a response the first patch starts at its cut |
| `ProjectionLane.InvalidatedLaneIsSilent` | go-bridge/event_publisher.go:844-855 | Once a key is marked invalidated no patch follows until a new snapshot begins; only further invalidations do, and the cut stands still |
| `ProjectionLane.CompleteLaneOk` | go-bridge/projection_snapshot_fence.go:185-307 | Completing a snapshot, by a usable or an unusable response or without room, keeps the chain, and a usable one ends at the revision its fence expected |
| `ProjectionLane.ResolveKeepsRun` | go-bridge/projection_snapshot_fence.go:185-307 | Stripping the content of deferred commits at completion changes no revision of the run they form |
| `ProjectionLane.GapTellsToPullAgain` | go-bridge/event_publisher.go:844-853 | Outside a pull a patch above a standing cut that does not build on it marks the lane, forgets its held turns, and puts one invalidation in the queue exactly when it has room; live and single deliveries alike |
| `ProjectionLane.SparedLanesStay` | go-bridge/event_publisher.go:876-902 | A patch the observation filter withholds and a prepend of the connection's own asking change nothing on any lane |
| `ProjectionLane.FenceTakesIff` | go-bridge/event_publisher.go:796-829 | An open fence takes a newer patch exactly when it continues it, is at most its 128th, and brings the encoded total to at most 2 MiB; any other spoils it and drops all that waited |
| `ProjectionLane.CompletionIsWhole` | go-bridge/projection_snapshot_fence.go:185-307 | A completion sends the response and every waiting patch in order, or for a spoilt fence the response and an invalidation with the mark, exactly when all of it fits; else nothing, and the held turns are gone |
| `ProjectionLane.FenceStandsUntilCompleted` | go-bridge/projection_snapshot_fence.go:101-139 | Over any calls but its completion and the connection's end, a pull in flight keeps its id, generation and cut |
| `ProjectionLane.PrependLeavesFullUnmarked` | go-bridge/event_publisher.go:747-774 | Another's prepend forgets a full connection's held turns and tells it to pull, and exactly the patches that would have reached it before still do |
| `ProjectionLane.NextPatchAfterSnapshot` | go-bridge/event_publisher.go:925-936 | Behind a usable response a newer patch goes out exactly when it builds on the response's end revision, or that revision is 0 |
| `ProjectionLane.FailedPullLinksIff` | go-bridge/projection_snapshot_fence.go:176-307 | A failed pull releases its fence like a successful one, and the first of the patches that waited behind it builds on what the client has exactly when the client stood where the fence began |
| `ProjectionLane.FailedPullNextPatchIff` | go-bridge/projection_snapshot_fence.go:176-307 | With nothing waiting, the next patch that continues the session goes out, and builds on what the client has under the same condition |
| `ProjectionLane.FailedFirstPullStrands` | go-bridge/projection_snapshot_fence.go:176-307 | A run in which it does not: a new connection whose first pull fails while a patch waits |
| `ProjectionReplica.ReplicaAgreement` | go-bridge/event_publisher.go:747-774 | Over any clean run (enqueues accepted and observed, prepends asked for by others and of turns neither committed nor remembered by the connection, commits confined to their turns) with no fence open, a synced window connection stands at the head revision and its copy of every held turn equals the authoritative one |
| `ProjectionReplica.StepKeepsAgreement` | go-bridge/event_publisher.go:1781-1830 | Each live patch, prepend, commit and fenced snapshot, failed pulls included, of a clean run keeps the copies of held turns in agreement, although other turns get only no-ops |
| `ProjectionReplica.CompleteKeepsAgreement` | go-bridge/projection_snapshot_fence.go:185-307 | A snapshot completed behind its fence agrees with the authoritative turns at once, including the commits deferred until its turns were known |
| `ProjectionLapses.RefusedCommitKeepsIff` | go-bridge/event_publisher.go:833-855 | From an agreeing lane an enqueue refused on the single-connection path changes nothing, and agreement survives exactly when the patch leaves every held turn as it was |
| `ProjectionLapses.FilteredLiveKeepsIff` | go-bridge/event_publisher.go:891-897 | The same for a live patch that the observation filter withholds |
| `ProjectionLapses.RefusedLiveKeepsIff` | go-bridge/event_publisher.go:935-955 | A live patch refused by the queue marks the lane and leaves cut and held turns; agreement survives under the same condition |
| `ProjectionLapses.MissedPatchIsBridged` | go-bridge/event_publisher.go:747-774 | After a missed patch another connection's prepend carries the lane to the head, unmarked, in agreement exactly when the missed patch spared its held turns |
| `ProjectionLapses.PullAfterMissIff` | go-bridge/projection_snapshot_fence.go:185-307 | A window pull clears the mark and sets the cut at the head, and restores agreement exactly when no held turn outside its page had changed |
| `ProjectionLapses.PrependKeepsIff` | go-bridge/event_publisher.go:747-774 | With no snapshot open, a prepend of turns the session lacks keeps agreement exactly when the connection holds none of them |
| `ProjectionLapses.PrependBehindFenceIff` | go-bridge/projection_snapshot_fence.go:185-307 | Behind an open fence, the completion leaves agreement exactly when none of the prepended turns is held then, those recorded with the page included |
| `ProjectionLapses.RefusedEnqueueIsBridged` | go-bridge/event_publisher.go:845-855 | A run that gets there: a window pull, a commit of the held turn refused, a prepend; the lane stands at the head with the old copy |
| `ProjectionLapses.FilteredPatchIsBridged` | go-bridge/event_publisher.go:891-897 | The same run with a live patch withheld by the filter |
| `ProjectionLapses.RefusedLiveOutlivesPull` | go-bridge/event_publisher.go:935-955 | The same with a live patch refused and then a pull of another turn: the mark is gone, the old copy is not |
| `ProjectionLapses.ReturningTurnIsMissed` | go-bridge/event_publisher.go:747-774 | A held turn removed and prepended again reaches the session and not the connection that still remembers it |
| `ProjectionLapses.ReturningTurnBehindFence` | go-bridge/projection_snapshot_fence.go:185-307 | The same behind the fence of a first pull: the page brings the turn, the removal that waited takes it away, and the connection ends at the head holding a turn it lacks |
| `ProjectionStaleness.AgreesOutsideStale` | go-bridge/event_publisher.go:747-957 | Over every run, with any enqueue refused, patch withheld, fence overflowed or pull failed: while no snapshot is in flight the copy of each held turn is the authoritative one, but for the turns tracked as changed unseen since the page they came with |
| `ProjectionStaleness.StepKeepsSound` | go-bridge/event_publisher.go:747-957 | Each live patch, prepend, commit, opening and closing of a snapshot keeps this, behind an open fence for the snapshot as well |
| `ProjectionStaleness.EntersIff` | go-bridge/event_publisher.go:747-957 | A held turn enters the tracked set by a send exactly when its copy is then out of date |
| `ProjectionRouting.FullAgreement` | go-bridge/event_publisher.go:1781-1830 | Over every run, whatever is refused, withheld or dropped: a full connection that a pull once brought the session, and that stands at the head revision, has every authoritative turn with its value |
| `ProjectionRouting.FullConnectionsKeepUp` | go-bridge/event_publisher.go:1806-1810 | After any run, a full connection that pulls and is then left undisturbed stands at the head, unmarked, with every authoritative turn, whenever no pull is in flight |
| `ProjectionRouting.CommitOutsideFence` | go-bridge/event_publisher.go:1804-1829 | At the head with no pull in flight the requester, a full connection and one holding a turn of the commit are sent the commit itself; any other is sent a no-op of its revisions, or nothing at cut 0 |
| `ProjectionRouting.ContentArrives` | go-bridge/event_publisher.go:1806-1810 | Whoever gets the content, and agreed with the authority on the commit's turns, agrees on them after it |
| `ProjectionRouting.BystanderKeepsCopy` | go-bridge/event_publisher.go:1825-1829 | A window connection that neither asked nor holds a turn of it keeps its copy to the letter, its held turns, and follows the revision |
| `ProjectionRouting.CommitBehindFence` | go-bridge/projection_snapshot_fence.go:204-250 | A commit that meets a pull in flight goes out behind its response: whole to those who asked, are full, or hold a turn of it with the page counted; to others as its revision, with the session scalar exactly when that was negotiated |
| `ProjectionRouting.CopiesBehindFence` | go-bridge/projection_snapshot_fence.go:204-250 | Completing the pull with the commit behind it leaves agreement on the commit's turns where its content is owed, and elsewhere exactly the copy that completing without it leaves |
| `ProjectionTypes.ApplyPatchLocal` | go-bridge/event_publisher.go:1738-1761 | A patch changes a copy of a turn by that turn alone: copies that agree on a turn still agree on it afterwards |
| `ProjectionTypes.ApplyPatchUntouched` | go-bridge/event_publisher.go:1738-1761 | A patch changes no turn that is not among its turn ids |
| `ProjectionPublisher.Publisher.SetConnSyncV2` | go-bridge/projection_delivery.go:39-60 | Declaring or withdrawing session sync changes which connections are targeted and no lane |
| `ProjectionPublisher.Publisher.SetDeliveryMode` | go-bridge/event_publisher.go:703-711 | Takes the mode step on that key alone |
| `ProjectionPublisher.Publisher.RecordWindowTurns` | go-bridge/event_publisher.go:1686-1699 | Adds the non-empty turn ids to the turns that key holds, and changes no other key |
| `ProjectionPublisher.Publisher.ClearWindowTurns` | go-bridge/event_publisher.go:1704-1717 | Forgets the turns of that key alone |
| `ProjectionPublisher.Publisher.UnregisterConnection` | go-bridge/event_publisher.go:482-527 | Every lane of the connection is as if it had never been seen, and no other lane changes |
| `ProjectionPublisher.Publisher.DeliverSinglePatch` | go-bridge/event_publisher.go:833-855 | Takes the single-delivery step on that lane alone |
| `ProjectionPublisher.Publisher.DeliverLivePatch` | go-bridge/event_publisher.go:864-957 | Takes the live step on one lane: filtered, fenced, silent, stale, gap or delivered |
| `ProjectionPublisher.Publisher.DeliverPatch` | go-bridge/event_publisher.go:864-957 | Takes the live step on exactly the session lanes of the targeted synced connections |
| `ProjectionPublisher.Publisher.AppendToFence` | go-bridge/event_publisher.go:796-829 | Appends to the fence of that lane alone |
| `ProjectionPublisher.Publisher.EnqueueInvalidate` | go-bridge/projection_snapshot_fence.go:309-333 | Forgets the lane's held turns and enqueues the invalidation when the queue accepts it |
| `ProjectionPublisher.Publisher.PublishPrepend` | go-bridge/event_publisher.go:747-774 | Takes the prepend step on exactly the targeted lanes: nothing for the requester, an invalidation for full lanes, a no-op from the cut for window lanes |
| `ProjectionPublisher.Publisher.CommitTo` | go-bridge/event_publisher.go:1781-1830 | Takes the commit step on one lane, which `ProjectionRouting` describes by frames and copies: content for requester, full lanes and holders, a deferral behind a fence, a no-op otherwise |
| `ProjectionPublisher.Publisher.RouteCommit` | go-bridge/event_publisher.go:1781-1830 | Takes the commit step on exactly the targeted lanes |
| `ProjectionPublisher.Publisher.PublishDetail` | go-bridge/event_publisher.go:1781-1830 | All patches but the last go live, in order, and the last is routed as the commit, on exactly the targeted lanes |
| `ProjectionPublisher.StagedGoOut` | go-bridge/event_publisher.go:1799-1801 | Staged patches that continue a lane with no pull in flight go out in order, one behind the other, and leave it where the last one ends |
| `ProjectionPublisher.Publisher.BeginProjectionSnapshot` | go-bridge/projection_snapshot_fence.go:101-139 | Succeeds exactly when identity is given, no fence is open and a head exists; then opens an empty fence at the head under a fresh id and the connection's generation and clears the invalidation, and the admission returned is the one that fence answers to |
| `ProjectionPublisher.Publisher.ResolvePending` | go-bridge/projection_snapshot_fence.go:185-307 | Settles every undecided patch against the held turns, in order |
| `ProjectionPublisher.Publisher.ReleaseFence` | go-bridge/projection_snapshot_fence.go:185-307 | Sends the response and what was held behind it in one batch when there is room, else forgets the held turns, on that lane alone |
| `ProjectionPublisher.Publisher.CompleteProjectionSnapshot` | go-bridge/projection_snapshot_fence.go:185-307 | Only the admission the fence was opened for, on the current generation, completes it; the lane then takes the completion step, and no other lane changes |
| `ProjectionPublisher.Publisher.CompleteProjectionSnapshotError` | go-bridge/projection_snapshot_fence.go:176-183 | An admitted pull that failed takes the completion step without a response, on that lane alone |
| `RecoveryLane.SequenceRises` | go-bridge/event_publisher.go:1208-1275 | Over any run, refused frames, lost and abandoned recoveries and replays included: an open recovery holds exactly what was targeted at the connection since it began, within 1000 events and 2 MiB; and when what is replayed was stamped before recovery began, the event frames rise strictly exactly when each event replayed lay above the last event frame sent |
| `RecoveryLane.LiveSequenceRises` | go-bridge/event_publisher.go:1208-1275 | In every run without replays the event frames of a connection carry strictly rising sequence numbers |
| `RecoveryLane.StepKeepsOrderIff` | go-bridge/server.go:1103-1110 | A step leaves the event frames rising exactly when they rose and the event it replays, if any, lies above the last of them |
| `RecoveryLane.DegradedReplayFallsBack` | go-bridge/server.go:1103-1110 | A recovery given up on while its replay is under way: the next event of the replay falls behind what was held |
| `RecoveryLane.StepKeepsInv` | go-bridge/event_publisher.go:531-644 | Each publish, begin, complete, fail, freeze, release and control frame, an event replayed included, keeps held events rising between the stamp recovery began at and the current one, and everything sent meanwhile at or below the former |
| `RecoveryLane.CompletionDeliversHeld` | go-bridge/event_publisher.go:551-609 | After a recovery that completes, what the connection was sent is what it had been sent and then every event held since it began, in order, except those at or below their session's cut; none of these had been sent before; and it all rises exactly when the replays were in order |
| `RecoveryLane.DegradingDeliversHeld` | go-bridge/event_publisher.go:1208-1275 | A recovery given up on with room for the batch enqueues everything it held and then the event that ended it, each once, rising exactly when the replays were in order |
| `RecoveryLane.StaysOpenIff` | go-bridge/event_publisher.go:1220-1256 | Over every run: an event that reaches an open recovery leaves it open exactly when less than 30 seconds have passed since the call that opened it, at most 1000 events reached the connection since, this one included, and they come to at most 2 MiB encoded; what is left open sends nothing |
| `RecoveryLane.OpenAsTheCallsSay` | go-bridge/event_publisher.go:531-617 | In every run a recovery is open exactly when the calls left it so: opened by a begin with an id while none was, ended by an acknowledgement or failure of its id, by forgetting the connection, or by an event beyond its limits; under its id and from its own time |
| `RecoveryLane.AcknowledgementEndsIt` | go-bridge/event_publisher.go:551-609 | An acknowledgement of the open recovery ends it whatever comes of it; the marker and the owed events go out exactly when the cuts compare equal and all of them fit, and it is remembered unless room was missing; any other acknowledgement changes nothing |
| `RecoveryLane.OwedAscends` | go-bridge/event_publisher.go:580-586 | Leaving out the events at or below their cuts keeps the rest in rising order |
| `RecoveryLane.SameCutsExactIff` | go-bridge/event_publisher.go:1517-1533 | For every map on the left: the comparison is equality with every map on the right exactly when the left holds no zero cut |
| `RecoveryLane.SameCutsIsEquality` | go-bridge/event_publisher.go:1517-1533 | One half, for any two maps: without zero cuts on the left the comparison is equality |
| `RecoveryLane.ZeroCutPassesForMissing` | go-bridge/event_publisher.go:1517-1533 | The other half: any map with a zero cut compares equal to a different one, its zero cut exchanged for a cut of a session it does not have |
| `RecoveryLane.OtherCutsCaughtIff` | go-bridge/event_publisher.go:551-609 | A completion reports every acknowledgement of other cuts as a mismatch exactly when the recovery's own cuts hold no zero cut |
| `RecoveryLane.TwoSessionsPass` | go-bridge/event_publisher.go:1517-1533 | The smallest such pair: one session at the zero cut against another session alone |
| `RecoveryLane.FreezeMovesOneCut` | go-bridge/event_publisher.go:622-644 | A frozen snapshot moves exactly its own session's cut: a completion then owes of that session just what is newer, and of the others what it owed before |
| `RecoveryLane.FreezeTakesNewest` | go-bridge/event_publisher.go:622-644 | The outcome of a freeze in every case: mismatch, not affected, the write to a missing cut map, or frozen at the newest stamped event, else at the recorded cut |
| `RecoveryLane.NilCutMapIff` | go-bridge/event_publisher.go:622-644 | Freezing writes to a missing cut map exactly when the open recovery of that id has none and the session has a latest cut |
| `RecoveryLane.NilCutMapReached` | go-bridge/event_publisher.go:531-644 | A recovery begun without cuts gets there |
| `RecoveryLane.CutsGivenNoNilCutMap` | go-bridge/server.go:1055-1088 | No run gets there in which every recovery begins with cuts, as the shipped caller sees to |
| `RecoveryPublisher.Publisher.DeliverTo` | go-bridge/event_publisher.go:1208-1275 | One turn of the delivery loop takes the deliver step on that connection alone; when that gives the recovery up is `RecoveryLane.StaysOpenIff` |
| `RecoveryPublisher.Publisher.DeliverAll` | go-bridge/event_publisher.go:1196-1275 | Every eligible target takes the deliver step once, in whatever order they are visited, and no other connection changes |
| `RecoveryPublisher.Publisher.Publish` | go-bridge/event_publisher.go:1084-1275 | Stamps the next sequence number; each connection passes the event or has it delivered, as it was targeted |
| `RecoveryPublisher.Publisher.BeginRecovery` | go-bridge/event_publisher.go:531-547 | Admitted exactly without an open recovery and with an id; the answer is the stamp at which live delivery stopped |
| `RecoveryPublisher.Publisher.CompleteRecovery` | go-bridge/event_publisher.go:551-609 | Yields the outcome of the acknowledgement and its whole effect on that connection, all of the batch or none of it |
| `RecoveryPublisher.Publisher.EnqueueControl` | go-bridge/event_publisher.go:443-480 | Sends the frame behind what is queued on that connection alone, unless the queue stays full |
| `RecoveryPublisher.Publisher.CollectOwed` | go-bridge/event_publisher.go:580-586 | Collects exactly the held events above their session's cut, in order |
| `RecoveryPublisher.Publisher.FailRecovery` | go-bridge/event_publisher.go:611-617 | Drops the recovery of that id and nothing else |
| `RecoveryPublisher.Publisher.FreezeRecoverySnapshot` | go-bridge/event_publisher.go:622-644 | Freezes the session's cut at the newest buffered event, else the cut the recovery has; the outcomes include the write to a missing cut map |
| `RecoveryPublisher.Publisher.Unregister` | go-bridge/event_publisher.go:482-490 | The connection is as if it had never been seen, and no other changes |
| `RecoveryReplay.ReplayThenOwed` | go-bridge/server.go:1052-1110 | From the replay to the completion of its recovery a connection is sent, of one session, the events above its cursor published before the replay and those published since the recovery began, each once and in order; these are all of them exactly when none was published between the two calls |
| `RecoveryReplay.ReplaySession` | go-bridge/server.go:1064-1084 | What the buffer answers for a session is the replay and the cut that theorem speaks of |
| `RecoveryReplay.WhileOpenSends` | go-bridge/server.go:1103-1110 | While a recovery stays open the connection is sent what is replayed and nothing else |
| `RecoveryReplay.WhileOpenHolds` | go-bridge/event_publisher.go:1208-1240 | Meanwhile every event of a targeted session is held, in order |
| `UnionFind.Find` | go-bridge/claude_session_catalog.go:459-465 | Following parents with path compression ends at the root of the index, and compression changes no index's root |
| `UnionFind.LinkRoots` | go-bridge/claude_session_catalog.go:466-471 | Hanging one root under another merges exactly the two trees and keeps the forest |
| `UnionFind.Union` | go-bridge/claude_session_catalog.go:466-471 | Afterwards the two trees have one root and every other index keeps its own |
| `Lineage.RootsAreComponents` | go-bridge/claude_session_catalog.go:466-491 | After all boundary ids are recorded two entries have one root exactly when a chain of entries sharing a project and a boundary id connects them |
| `Lineage.RecordSharedKey` | go-bridge/claude_session_catalog.go:478-490 | Recording a boundary id somebody carries merges exactly the components it connects |
| `Lineage.OneSurvivorPerSession` | go-bridge/claude_session_catalog.go:493-517 | Each component keeps exactly one entry, and none of the component is newer by time and then session id |
| `Lineage.VisibleKeysStay` | go-bridge/claude_session_catalog.go:504-513 | With distinct keys the keys deleted are exactly those of the hidden entries |
| `Lineage.SurvivorPositions` | go-bridge/claude_session_catalog.go:503-520 | The visible list is the entries at strictly rising positions, which are exactly those of the representatives |
| `Lineage.EachSessionListedOnce` | go-bridge/claude_session_catalog.go:493-520 | Of each component the visible list has exactly one element, at its place, and no member is newer by time and then session id |
| `SessionCatalog.Snapshot.HideCompactContinuationParents` | go-bridge/claude_session_catalog.go:451-527 | The list becomes the survivors in their original order, one of each component (`Lineage.EachSessionListedOnce`), and the index loses exactly the hidden keys |
| `SessionCatalog.JoinByBoundary` | go-bridge/claude_session_catalog.go:455-491 | The parent array ends as a forest whose roots are the components |
| `SessionCatalog.ChoosePrimaries` | go-bridge/claude_session_catalog.go:493-501 | Each root's primary is the member that outranks all of its component |
| `SessionCatalog.DeleteSecondaries` | go-bridge/claude_session_catalog.go:503-513 | Hides and deletes exactly the entries that are no primary |
| `SessionCatalog.Snapshot.HideForkChildren` | go-bridge/claude_session_catalog.go:537-602 | The list becomes the fork survivors in their original order, and the index loses exactly the keys of the others |
| `SessionCatalog.GroupForks` | go-bridge/claude_session_catalog.go:543-552 | Groups exactly the entries with a title and a first message by project, title and that message's time, in list order |
| `SessionCatalog.ChooseForkPrimary` | go-bridge/claude_session_catalog.go:565-574 | The first of the group, or with a tie at the top the first of the members with the largest session id |
| `SessionCatalog.Snapshot.FoldLineage` | go-bridge/claude_session_catalog.go:442-445 | Forks are folded first, compaction parents after, on list and index alike |
| `ForkLineage.OneSurvivorPerFork` | go-bridge/claude_session_catalog.go:537-602 | Every fork group keeps exactly one of its members |
| `ForkLineage.EachForkListedOnce` | go-bridge/claude_session_catalog.go:537-602 | The visible list keeps every entry outside the fork groups at its place, and of each group exactly one |
| `ForkLineage.NewestForkSurvivesIff` | go-bridge/claude_session_catalog.go:565-574 | On a list ordered newest first the survivor is one of the newest exactly unless the top is tied and an older member's session id lies beyond those of all tied |
| `ForkLineage.OldestForkCanSurvive` | go-bridge/claude_session_catalog.go:565-574 | Three forks of which the oldest one is kept |
| `EventBuffer.Buffer.constructor` | go-bridge/event_buffer.go:57-75 | Non-positive limits become the defaults, and the buffer starts empty and valid |
| `EventBuffer.Buffer.EvictOldest` | go-bridge/event_buffer.go:198-210 | Drops exactly the first record, its charge from the total, and raises its session's evicted mark |
| `EventBuffer.Buffer.EvictExpired` | go-bridge/event_buffer.go:192-196 | Drops exactly the leading records that reached the time to live: what is left is the unexpired records |
| `EventBuffer.UnexpiredIsSuffix` | go-bridge/event_buffer.go:192-196 | What the age limit drops all reached the time to live, and the first record left has not |
| `EventBuffer.Buffer.EnforceLimits` | go-bridge/event_buffer.go:186-190 | Ends with both limits holding, on the longest suffix within them |
| `EventBuffer.Buffer.Append` | go-bridge/event_buffer.go:77-109 | The history grows by the message, under its cut; what is retained is the longest suffix within both limits of the unexpired records and the new one, which bears the time of the call and is charged its encoded size, or 96 bytes when it is not replayable |
| `EventBuffer.Buffer.Replay` | go-bridge/event_buffer.go:111-137 | Answers as the history that forgets nothing would: exactly its messages of the session above the cursor, in order, or snapshot required, with its reason: the cursor ahead, something above it gone or it below zero, something above it not replayable; only expired records go |
| `EventBuffer.Buffer.LatestCut` | go-bridge/event_buffer.go:139-145 | The session's latest cut, present exactly when the history knows the session |
| `EventBuffer.Buffer.Rebind` | go-bridge/event_buffer.go:147-172 | The history, retained or not, moves to the other session, and the buffer stays valid for it |
| `EventBuffer.EvictOne` | go-bridge/event_buffer.go:198-210 | The evicted mark of each session stays the highest sequence number of its evicted messages |
| `EventBuffer.EvictedRebound` | go-bridge/event_buffer.go:168-171 | Folding one session's evicted mark into another's gives the mark of the rebound history |
| `EventBuffer.LatestRebound` | go-bridge/event_buffer.go:162-167 | Folding the latest cuts keeps a cut for exactly the sessions of the rebound history |
| `EventBuffer.CoverageDecides` | go-bridge/event_buffer.go:123-125 | The evicted mark is above the cursor exactly when a message above it was evicted or the cursor is below zero |
| `EventBuffer.RetainedPartDecides` | go-bridge/event_buffer.go:126-136 | With nothing above the cursor evicted, the retained records hold all of the answer |
| `EventBuffer.AheadMeansBeyondAll` | go-bridge/event_buffer.go:120-122 | With rising sequence numbers a cursor is ahead exactly when it is beyond every message of its session |
| `EventLog.MaxSeqDecides` | go-bridge/event_buffer.go:198-210 | For a cursor not below zero the highest sequence number of a part tells whether any message of it lies above |
| `SourceLedger.InitialIsSound` | go-bridge/claude_source_state.go:292-310 | A ledger is made exactly for a named segment, a generation and a cut not below zero, and it is sound |
| `SourceLedger.TransitionIsSound` | go-bridge/claude_source_state.go:148-259 | An accepted row keeps the ledger sound, raises the revision by one and stays on its generation; the proposal names the base it was computed from |
| `SourceLedger.ValidityKeptIff` | go-bridge/claude_source_state.go:148-259 | From a valid ledger an accepted row leaves a valid one exactly when it has no uuid, or its uuid is new or was last seen at a revision not beyond the ledger's: why soundness bounds occurrence revisions |
| `SourceLedger.ValidityAloneIsNotInductive` | go-bridge/claude_source_state.go:105-146 | A valid ledger with an occurrence from the future that a row makes invalid |
| `SourceLedger.TransitionMovesOneCursor` | go-bridge/claude_source_state.go:160-179 | An accepted row starts where its segment's cursor stands and moves that cursor, and no other, to its end |
| `SourceLedger.TransitionAppendsBlocks` | go-bridge/claude_source_state.go:209-258 | An accepted row appends its new block ids to its own record's list and leaves all other lists, and only a projected row announces any |
| `SourceLedger.RecordListsBlocks` | go-bridge/claude_source_state.go:209-258 | After a row with content its record lists the row's blocks one by one, each under the id of its uuid, place and canonical text |
| `SourceLedger.TransitionNotesOccurrence` | go-bridge/claude_source_state.go:180-205 | An accepted row with a uuid leaves one occurrence of itself, field by field, at the new revision behind the earlier ones; one without leaves none |
| `SourceLedger.AcceptedIff` | go-bridge/claude_source_state.go:148-259 | For every ledger and row: accepted exactly when it comes next in its segment and is an allowed row without uuid, a row without content, or one whose content is JSON and goes on from its record or founds one |
| `SourceLedger.ReReadAnnouncesNothing` | go-bridge/claude_source_state.go:222-247 | Content read again right after it was committed is accepted, announces nothing and leaves every record |
| `LedgerRuns.SwapBaseIsCurrent` | go-bridge/claude_source_state.go:270-285 | The compare-and-set accepts only a proposal computed from the very state it replaces |
| `LedgerRuns.CommitKeepsInv` | go-bridge/claude_source_state.go:270-285 | A commit extends the history of sound states by one, serially |
| `LedgerRuns.LedgerSafety` | go-bridge/claude_source_state.go:148-285 | In every interleaving of proposals and commits each reachable state is sound, the current one is what the committed rows give in sequence, and no two commits share a base revision |
| `LedgerRuns.BytesConsumedOnce` | go-bridge/claude_source_state.go:160-179 | Between a segment's admission cut and its cursor every byte lies in exactly one committed row, and no row reaches outside |
| `LedgerRuns.BlocksAnnouncedOnce` | go-bridge/claude_source_state.go:229-258 | The block ids announced for a record, end to end, are its block list, and that list only ever grows at its end |
| `LedgerStore.Validate` | go-bridge/claude_source_state.go:105-146 | Accepts exactly the valid states |
| `LedgerStore.HashBlocks` | go-bridge/claude_source_state.go:209-221 | The occurrence ids of the blocks in order, none as soon as one block is not JSON |
| `LedgerStore.ExtendsStrictly` | go-bridge/claude_source_state.go:341-351 | Accepts exactly strict prefixes |
| `LedgerStore.Propose` | go-bridge/claude_source_state.go:148-259 | Computes the transition, error for error |
| `LedgerStore.Ledger.Commit` | go-bridge/claude_source_state.go:270-285 | Replaces the state by the proposal's exactly when generation and revision are those it was computed from, else leaves it |
| `CatalogCursor.CursorAcceptedIff` | go-bridge/catalog_cursor_v2.go:140-154 | A cursor slices exactly a live snapshot of its own epoch |
| `CursorWalk.ChainConcatenates` | go-bridge/catalog_snapshot_cache.go:229-286 | Whatever the rows and the cursors: when each page's cursor leads to the page right behind it, a chain of pages has at most one more than there are rows, and its pages are the rows once no cursor is left |
| `WirePaging.ValidateRows` | go-bridge/catalog_wire_snapshot.go:164-178 | Accepts exactly lists whose rows have ids, no two the same |
| `WirePaging.NextPageContinues` | go-bridge/catalog_wire_snapshot.go:358-398 | A page says more exactly when rows follow, and its cursor then answers with the page right behind it, at any limit |
| `WirePaging.PagesConcatenate` | go-bridge/catalog_wire_snapshot.go:332-430 | With a positive limit, following the cursors takes at most one page more than there are rows, goes on while there is a cursor, and once there is none the pages concatenate to the frozen list |
| `WirePaging.CursorSurvivesOrIsStale` | go-bridge/catalog_wire_snapshot.go:358-398 | With injective epochs a cursor presented to any later snapshot, rebuilt or of another scope, is stale or answered with the row ids of its own next slice |
| `WirePaging.CursorIsAnswered` | go-bridge/catalog_wire_snapshot.go:358-398 | A request with a cursor is malformed, or stale for the first reason that applies of version, absence, age, epoch and missing row, or a page |
| `WirePaging.PageHolds` | go-bridge/catalog_wire_snapshot.go:358-398 | A page has as many rows as the limit allows, all without one, and its cursor names epoch, time and id of the last row exactly when more follow |
| `WirePaging.IdentityTellsScopes` | go-bridge/catalog_wire_snapshot.go:115-129 | Scopes free of the separator have one identity exactly when backend, globality, directory, roots flag and view are the same, the unnamed view being the standard one |
| `WirePaging.Slice` | go-bridge/catalog_wire_snapshot.go:358-398 | Finds the cursor's row and slices behind it, or reports malformed and stale as the verdict demands |
| `WireCache.NextKeepsInv` | go-bridge/catalog_wire_snapshot.go:200-312 | Each critical section of builders, waiters, fences and invalidations keeps the cache current and every caller's build accounted for |
| `WireCache.GenerationFence` | go-bridge/catalog_wire_snapshot.go:200-312 | In every interleaving stored and in-flight entries carry the current generation, one current build at most runs for a scope, and every answer is a snapshot of the generation it was checked against or an error, never neither |
| `WireCache.WaitersAreServed` | go-bridge/catalog_wire_snapshot.go:256-276 | Whoever waits, waits for a build that is done or that some caller is still running |
| `WireFetches.EverySnapshotWasBrought` | go-bridge/catalog_wire_snapshot.go:281-311 | In every interleaving whatever is stored, kept with a build or handed to a caller has exactly the rows some builder of its scope and generation returned, that builder's time, valid rows and the epoch of its identity and rows |
| `WireFetches.FetchedPagesConcatenate` | go-bridge/catalog_wire_snapshot.go:332-398 | Paging over any snapshot of any run, while it lives, ends and yields the rows its builder returned |
| `WireFetches.FetchedCursorSurvivesOrIsStale` | go-bridge/catalog_wire_snapshot.go:358-398 | With injective epochs a cursor from a page of any fetch, presented to what the cache holds for any scope after any run, is stale or goes on with the same rows by id, in the scope it came from |
| `WireFetches.FetchTakes` | go-bridge/catalog_wire_snapshot.go:246-279 | A fetch is refused for no scope, takes what is stored up to ten minutes, waits for the scope's build in flight, and builds only when there is neither |
| `WireFetches.BuildEnds` | go-bridge/catalog_wire_snapshot.go:281-311 | A build that ends is done and out of flight; sound rows under a standing generation are stored and answered, an error or unsound rows answered alone, and behind a fence nothing is, and the caller fetches again |
| `WireFetches.WaiterReads` | go-bridge/catalog_wire_snapshot.go:267-276 | A waiter whose build is done gets what it left, or fetches again when the generation moved on |
| `WireFetches.FenceClears` | go-bridge/catalog_wire_snapshot.go:211-236 | A fence raises one backend's generation, drops what is stored and in flight of its scopes and ends its current builds, and touches nothing of another backend |
| `WireFetches.InvalidateAndCancel` | go-bridge/catalog_wire_snapshot.go:200-207 | Invalidating drops one stored snapshot and nothing else; a waiter whose context ends gets that error, and the cache stays |
| `WireCacheStore.Store.Enter` | go-bridge/catalog_wire_snapshot.go:249-279 | One look at the cache: hit, wait for the current build, or start one |
| `WireCacheStore.Store.Finish` | go-bridge/catalog_wire_snapshot.go:281-311 | Takes the step by which a build ends: stored and answered with its rows while the generation stands (`WireFetches.BuildEnds`), dropped and tried again otherwise |
| `WireCacheStore.Store.Wake` | go-bridge/catalog_wire_snapshot.go:267-276 | A woken waiter takes the build's outcome only if its generation is still current |
| `WireCacheStore.Store.FenceBackend` | go-bridge/catalog_wire_snapshot.go:211-236 | Raises the generation, drops the backend's snapshots and completes and drops its builds in flight |
| `WireCacheStore.Store.Invalidate` | go-bridge/catalog_wire_snapshot.go:200-207 | Drops that scope's snapshot and touches no build |
| `WireCacheStore.Store.PageN` | go-bridge/catalog_wire_snapshot.go:332-353 | A request with a cursor slices what is stored and never builds |
| `CoverageLease.LeaseSafety` | go-bridge/claude_relay_coverage.go:127-181 | In every run stored leases carry their session's current generation, every commit is covered by an issued lease, generations rise, and no queue or start signal is closed twice |
| `CoverageLease.CommitsAreSeparatedByIssue` | go-bridge/claude_relay_coverage.go:276-316 | Between two commits for a session a lease was issued that matches the second in generation, source and cut, and nothing about the session came in between |
| `CoverageLease.NoLeaseAfterRegister` | go-bridge/claude_relay_coverage.go:151-168 | After a registration no lease is stored and no commit succeeds until the new loop issues one |
| `CoverageLease.StepKeepsChannels` | go-bridge/claude_relay_coverage.go:127-181 | No step closes a closed queue or signal or shares an open one |
| `CoverageLease.StandingWasIssued` | go-bridge/claude_relay_coverage.go:276-290 | A standing lease is the last thing that happened to its session |
| `CoverageLease.SessionsFollowTheirCalls` | go-bridge/claude_relay_coverage.go:127-324 | For every run and session the shared registry holds what that session's own calls come to: the loop last registered under its number, the lease last issued under it and neither spent nor dropped, and an announced start |
| `CoverageLease.CommitsAndRequestsIff` | go-bridge/claude_relay_coverage.go:208-316 | A commit goes through exactly when the kernel takes it and such a lease stands for its source and cut; a request is sent to the loop of its source on an open queue, refused by one of another, and waits only for an announced start |
| `CoverageLease.NoChannelIsLost` | go-bridge/claude_relay_coverage.go:127-181 | Every queue and signal ever made is held by its session or was closed |
| `CoverageRegistry.Coverage.MarkRelayStarting` | go-bridge/claude_relay_coverage.go:127-136 | Reuses the signal of a start under way, else makes one |
| `CoverageRegistry.Coverage.FinishStarting` | go-bridge/claude_relay_coverage.go:140-147 | Closes and drops the signal, once |
| `CoverageRegistry.Coverage.Register` | go-bridge/claude_relay_coverage.go:151-168 | New generation, old queue closed, new queue, old lease gone |
| `CoverageRegistry.Coverage.Unregister` | go-bridge/claude_relay_coverage.go:171-181 | Only the loop of the current generation takes itself out |
| `CoverageRegistry.Coverage.Commands` | go-bridge/claude_relay_coverage.go:185-193 | A queue exactly for the current generation |
| `CoverageRegistry.Coverage.RequestCoverage` | go-bridge/claude_relay_coverage.go:208-240 | Fails, waits for a start or sends to the current loop, by registration and source |
| `CoverageRegistry.Coverage.IssueLease` | go-bridge/claude_relay_coverage.go:276-290 | Stores the lease exactly under the current generation |
| `CoverageRegistry.Coverage.ValidateAndCommit` | go-bridge/claude_relay_coverage.go:296-316 | Commits only under a valid lease, and spends it only when the commit succeeds |
| `CoverageRegistry.Coverage.InvalidateLease` | go-bridge/claude_relay_coverage.go:320-324 | Drops the lease |
| `DeltaBatching.Transparency` | go-bridge/delta_batcher.go:107-224 | For every key what was published and what is still buffered spell, character by character with control events in place, exactly what was sent, and every buffer is below 256 KiB |
| `DeltaBatching.SendExtendsStream` | go-bridge/delta_batcher.go:107-166 | A send adds exactly its event to its key's stream, changes no other, and leaves every key under the limit |
| `DeltaBatching.WaitsIff` | go-bridge/delta_batcher.go:107-166 | A delta with text waits exactly while its key's waiting text, its own included, is below 256 KiB, and then all of it goes; anything else goes out at once, last and as it is; no other key's buffer changes |
| `DeltaBatching.FlushKeyKeepsStream` | go-bridge/delta_batcher.go:168-180 | A flush moves what the key buffered to the end of its output |
| `DeltaBatching.NothingIsLost` | go-bridge/delta_batcher.go:93-128 | Once all keys are flushed in any order, the output spells everything sent |
| `DeltaBatching.EmitExpands` | go-bridge/delta_batcher.go:195-224 | The chunks of a key go out as events that spell them under that key only |
| `DeltaBatching.AddChunkExpands` | go-bridge/delta_batcher.go:147-156 | Merging or appending a chunk adds the delta's characters at the end and its bytes to the total |
| `DeltaBatching.RoutingWasSent` | go-bridge/delta_batcher.go:107-224 | In every run each event published or waiting has a routing some event of its key was sent with |
| `DeltaBatching.RouteTakenIff` | go-bridge/delta_batcher.go:141-156 | A send goes where it was sent exactly unless it is a delta joining a buffer of its key opened by another routing |
| `DeltaBatching.SendRouted` | go-bridge/delta_batcher.go:107-166 | A send adds its units to its key's stream by the routing it takes, and changes no other stream |
| `DeltaBatching.RoutingKeptIff` | go-bridge/delta_batcher.go:107-224 | In every run and for each key, what was published and is buffered, unit by unit with its routing, is what was sent exactly when no delta of the key joined a buffer opened by another routing |
| `DeltaBatching.LaterRoutingIsLost` | go-bridge/delta_batcher.go:141-156 | An instance: two deltas merged go where the first of them was sent |
| `DeltaBatcher.Sender.TryAccumulate` | go-bridge/delta_batcher.go:130-166 | Takes exactly text and reasoning deltas with text |
| `DeltaBatcher.Sender.Send` | go-bridge/delta_batcher.go:107-114 | Takes the send step |
| `DeltaBatcher.Sender.FlushKey` | go-bridge/delta_batcher.go:168-180 | Takes the flush step |
| `DeltaBatcher.Sender.EmitChunks` | go-bridge/delta_batcher.go:195-224 | Publishes the chunks with text, in order, with the buffer's routing |
| `DeltaBatcher.Sender.FlushAll` | go-bridge/delta_batcher.go:117-128 | Flushes every key, whatever the order, and leaves nothing buffered |
| `PairingGate.GateSafety` | go-bridge/pairing_hardening.go:85-175 | With a clock that never goes back, each bucket is exactly the part of its key's history inside the window, there are at most 4096 of a kind, and active claims stay between 0 and 16 |
| `PairingGate.SlidingWindow` | go-bridge/pairing_hardening.go:67-81 | Wherever a window lies, at most ten attempts of a source and five failures of a pairing since its reset fall in it, whatever was swept and made again |
| `PairingGate.AdmittedIff` | go-bridge/pairing_hardening.go:112-137 | For every run: an attempt is stamped exactly when its source has fewer than ten stamps in the minute before it, and one there or fewer than 4096 sources do; it gets in exactly when besides fewer than 16 claims are under way |
| `PairingGate.LocksIff` | go-bridge/pairing_hardening.go:153-168 | For every run: a failure ends its session exactly when it is at least the fifth in five minutes since the last reset, and the pairing has one there or fewer than 4096 pairings do |
| `PairingGate.ClaimsAreCounted` | go-bridge/pairing_hardening.go:112-146 | Active claims are those admitted less those released, never below nought |
| `PairingGate.SweepKeepsAgree` | go-bridge/pairing_hardening.go:85-104 | Sweeping forgets nothing that is still inside a window |
| `PairingAttempts.Allow` | go-bridge/pairing_hardening.go:67-81 | Allowed exactly below the limit of what is fresh, and then stamped |
| `PairingAttempts.SweepBuckets` | go-bridge/pairing_hardening.go:85-104 | Keeps exactly the buckets with something fresh, trimmed to it |
| `PairingAttempts.AttemptGate.Acquire` | go-bridge/pairing_hardening.go:112-137 | Takes the acquire step and says whether it admitted |
| `PairingAttempts.AttemptGate.Release` | go-bridge/pairing_hardening.go:139-146 | Gives a slot back, never below none |
| `PairingAttempts.AttemptGate.RecordPairingFailure` | go-bridge/pairing_hardening.go:153-168 | Takes the failure step and says whether it locks |
| `PairingAttempts.AttemptGate.ResetPairingFailures` | go-bridge/pairing_hardening.go:171-175 | Forgets that pairing's failures |
| `KeysetOrder.SortIgnoresOrder` | go-bridge/catalog_snapshot_cache.go:292-299 | Rows with distinct ids sort to one list, whatever order they came in |
| `KeysetOrder.SortedIsUnique` | go-bridge/catalog_snapshot_cache.go:292-299 | Two sorted lists of the same rows are the same list, so the sorting algorithm does not matter |
| `KeysetOrder.CursorLessIsOrdering` | go-bridge/catalog_snapshot_cache.go:292-299 | Newest first with ties by id is a strict total order of rows with distinct ids |
| `CatalogFingerprint.Fingerprint` | go-bridge/catalog_provider.go:108-121 | Builds the text hashed, one line a row by id |
| `CatalogFingerprint.FingerprintIgnoresOrder` | go-bridge/catalog_provider.go:108-121 | The fingerprint does not depend on the order of the upstream rows |
| `CatalogFingerprint.FingerprintTellsApart` | go-bridge/catalog_provider.go:108-121 | When no id splits, at a line end it holds, into two rising parts, fingerprint texts are equal exactly when the catalogs list the same sessions at the same times |
| `CatalogFingerprint.NewlineIdCollides` | go-bridge/catalog_provider.go:113-119 | For any two ids in order and any times: the row whose id is the first id, the end of its line and the second id has the fingerprint of the two rows |
| `CatalogFingerprint.PassesForTwoIff` | go-bridge/catalog_provider.go:113-119 | The fingerprint of one row is that of some two rows exactly when its id splits, at a line end it holds, into two rising parts |
| `CatalogFingerprint.PassesForAnotherIff` | go-bridge/catalog_provider.go:108-121 | And it is that of any other catalog exactly then |
| `KeysetPaging.KeyOfRowStartsNext` | go-bridge/catalog_snapshot_cache.go:247-255 | Slicing strictly after a row's key is slicing at the next index |
| `KeysetPaging.SliceIsAllAfter` | go-bridge/catalog_snapshot_cache.go:247-255 | For any key, a removed row's included, the slice is exactly the rows strictly after it |
| `KeysetPaging.SlicePageN` | go-bridge/catalog_snapshot_cache.go:247-268 | Scans for the first row after the key and slices there |
| `KeysetPaging.ListedNewestFirst` | go-bridge/catalog_snapshot_cache.go:153-199 | A snapshot has the fetched rows, newest first and by rising id at one time, the time of the fetch and the hash of their fingerprint |
| `KeysetPaging.CursorIsAnswered` | go-bridge/catalog_snapshot_cache.go:122-149 | A request with a cursor is malformed, or stale for the first reason that applies of version, absence, age and epoch, or a page |
| `KeysetPaging.PageHolds` | go-bridge/catalog_snapshot_cache.go:229-286 | A page has as many rows as its limit, fifty without one, and its cursor is the key of the last row exactly when more follow |
| `KeysetPaging.PagesConcatenate` | go-bridge/catalog_snapshot_cache.go:229-286 | Following the cursors, each page at its own time, goes on while there is a cursor, ends within one page more than there are rows and returns every row once, in order |
| `KeysetPaging.CursorSurvivesPermutation` | go-bridge/catalog_snapshot_cache.go:153-199 | A snapshot rebuilt from the same rows in another order answers every cursor the same |
| `KeysetPaging.CursorContinuesOrIsStale` | go-bridge/catalog_snapshot_cache.go:122-149 | With an injective hash and no id that splits into rising parts, a cursor meets a rebuilt snapshot as stale or continues with the same sessions at the same times |
| `KeysetCache.SnapshotCache.EvictLocked` | go-bridge/catalog_snapshot_cache.go:214-226 | Leaves at most 32 scopes, as they were, none evicted newer than one kept |
| `KeysetCache.SnapshotCache.Page0` | go-bridge/catalog_snapshot_cache.go:153-199 | Reuses a live snapshot, else stores and slices the fetched one, or reports the fetch's error and keeps the cache |
| `KeysetCache.SnapshotCache.PageN` | go-bridge/catalog_snapshot_cache.go:122-149 | Slices what is stored or reports malformed and stale, and never fetches |
| `CheckpointCoalescing.CoalescerSafety` | go-bridge/checkpoint.go:166-230 | In every interleaving one sweep at most runs, one timer at most is set, never both; pending intents have one of them; and each session's last staged turn is pending, in the sweep or the last attempted |
| `CheckpointCoalescing.QuietIsUpToDate` | go-bridge/checkpoint.go:182-230 | At rest nothing is pending and the last turn attempted for each session is the one its last acceptable call staged |
| `CheckpointCoalescing.CapturesWereStaged` | go-bridge/checkpoint.go:166-230 | In every interleaving whatever is pending, swept or attempted was staged, that turn for that session |
| `CheckpointCoalescing.NeverStalls` | go-bridge/checkpoint.go:166-230 | Unless at rest, a step other than staging is enabled |
| `CheckpointCoalescing.StepsUseUpWork` | go-bridge/checkpoint.go:182-230 | Each such step leaves less to do, so without staging the coalescer comes to rest |
| `CheckpointCoalescer.Coalescer.StageTurn` | go-bridge/checkpoint.go:166-178 | Records the intent and arms the timer only when neither timer nor sweep is there |
| `CheckpointCoalescer.Coalescer.BeginDrain` | go-bridge/checkpoint.go:182-199 | Takes every pending intent once into a sweep, in map order |
| `CheckpointCoalescer.Coalescer.CaptureOne` | go-bridge/checkpoint.go:204-217 | Attempts the next intent of the sweep |
| `CheckpointCoalescer.Coalescer.FinishDrain` | go-bridge/checkpoint.go:219-229 | Ends the sweep and arms the timer again when intents arrived meanwhile |
| `SidechainForest.ForestHoldsAttached` | go-bridge/claude_sidechain_subagents.go:209-255 | Whatever the parent ids, building ends, no agent appears twice, and exactly those appear that hang by parent links from a root anchored in the transcript |
| `SidechainForest.ForestFollowsParents` | go-bridge/claude_sidechain_subagents.go:227-255 | At the top stand anchored roots only; each part carries its node, diagnostic and own blocks first, and below them only parts of agents naming it as parent |
| `SidechainForest.PathFits` | go-bridge/claude_sidechain_subagents.go:227-245 | A way down from a root never meets an agent twice: why the nested build ends on cyclic data |
| `SidechainForest.PathIsUnique` | go-bridge/claude_sidechain_subagents.go:216-225 | There is one way down to an agent at most |
| `SidechainForest.ComputeDiagnostic` | go-bridge/claude_sidechain_subagents.go:179-202 | The climb up the parents computes the diagnostic, within the depth limit |
| `SidechainForest.AttachedDiagnostic` | go-bridge/claude_sidechain_subagents.go:179-202 | An agent below a root is flagged for its depth when it lies deeper than the limit, else for whatever stands above the root, which is nothing when the root names no parent |
| `SidechainForest.AppearsIff` | go-bridge/claude_sidechain_subagents.go:179-255 | Any agent appears exactly when the first root met on its way up is anchored, whatever its diagnostic |
| `SidechainForest.UnflaggedAppearsIff` | go-bridge/claude_sidechain_subagents.go:179-255 | When no root names a parent: a deep agent with an empty diagnostic appears exactly when its parent chain ends at a root whose tool use is anchored |
| `SidechainForest.FlaggedAppearsIff` | go-bridge/claude_sidechain_subagents.go:179-255 | An agent flagged as cycle or orphan appears exactly when the first root above it is anchored and itself names a parent |
| `SidechainForest.FlaggedDoesNotAppear` | go-bridge/claude_sidechain_subagents.go:179-255 | So it does not appear when no root names a parent |
| `SidechainForest.FlaggedChildAppears` | go-bridge/claude_sidechain_subagents.go:179-255 | And it can appear otherwise: the child of an anchored root that names a missing parent is flagged an orphan and appears |
| `SidechainForest.DroppedWithoutDiagnostic` | go-bridge/claude_sidechain_subagents.go:216-225 | A deep agent naming no parent is dropped without a diagnostic |
| `SidechainForest.ChildOfUnanchoredDropped` | go-bridge/claude_sidechain_subagents.go:209-225 | And so is a child of a root whose tool use is not anchored |
| `SessionIds.KnownGrowsByAssigned` | core/session.go:72-152 | An operation on a session adds to its current and past ids exactly the real ids it sets, and forgets none |
| `SessionStore.RunIsValid` | core/session.go:245-349 | In every reachable state the active session is a live one of its user's own repeat-free list |
| `SessionStore.StepKeepsValid` | core/session.go:245-542 | Each operation keeps ids unique, lists live and repeat-free, every session owned by one user, and active sessions listed |
| `SessionStore.StepMakesFreshOnly` | core/session.go:245-305 | A step makes sessions only under an id never given out |
| `SessionStore.DeletedStaysDeleted` | core/session.go:491-542 | No id is given out twice: a session deleted stays deleted however the run goes on |
| `SessionStore.KnownIsEverSet` | core/session.go:72-152 | A live session is known by exactly the real agent session ids ever set on it |
| `SessionStore.OwnedIsEverSet` | core/session.go:445-463 | An agent session counts as owned exactly when it was ever set on a session still alive |
| `SessionStore.InvalidationLeavesNoneStale` | core/session.go:683-707 | Afterwards no session holds an id of another agent type, those of this type keep theirs, and every real id cleared is still known |
| `SessionStore.CutIsWithout` | core/session.go:529-542 | Cutting the first occurrence from a repeat-free list takes the id out |
| `SessionStore.SwitchTakesFirst` | core/session.go:307-320 | Switching makes the first live session of the user's list with that id or name active, or does nothing |
| `SessionStore.CreationMeans` | core/session.go:245-305 | A new session has the next id, its name and no agent, stands last in its user's list, and only the aside one is not active; the default one is made only without a live active session |
| `SessionStore.DroppingKeepsOrder` | core/session.go:529-542 | Dropping sessions from a list acts on each part of it alone, so what is left keeps its order |
| `SessionStore.DeletionMeans` | core/session.go:491-542 | Deleting takes exactly that session out of the store, of the lists and of being active |
| `SessionManager.Session.RecordPastAgentSessionID` | core/session.go:72-82 | Lists the current id as past unless it is listed or not real |
| `SessionManager.Session.SetAgentInfo` | core/session.go:85-97 | Replaces id, type and name, the sentinel counting as no id, and keeps the replaced id |
| `SessionManager.Session.SetAgentSessionID` | core/session.go:124-135 | Ignores the sentinel, else replaces id and type and keeps the replaced id |
| `SessionManager.Session.CompareAndSetAgentSessionID` | core/session.go:140-152 | Sets a real id exactly over none or the sentinel, and says so |
| `SessionManager.Session.StripContinueSessionSentinel` | core/session.go:154-160 | Clears a stored sentinel only |
| `SessionManager.Session.Invalidate` | core/session.go:683-707 | Clears an id of another agent type and keeps it as past |
| `SessionManager.Manager.GetOrCreateActive` | core/session.go:250-262 | The user's live active session, else a new one made active |
| `SessionManager.Manager.NewSession` | core/session.go:264-270 | A new session, listed and active |
| `SessionManager.Manager.NewSideSession` | core/session.go:275-290 | A new session, listed, the active one unchanged |
| `SessionManager.Manager.SwitchSession` | core/session.go:307-320 | The first of the user's sessions of that id or name becomes active; none exactly when there is no such session |
| `SessionManager.Manager.SwitchToAgentSession` | core/session.go:326-349 | The first of the user's sessions mapped to the agent session becomes active, else a new one mapped to it |
| `SessionManager.Manager.DeleteByIDLocked` | core/session.go:529-542 | Removes the session, its place in its user's list and its being active |
| `SessionManager.Manager.DeleteByID` | core/session.go:491-500 | Deletes exactly a live session, and says whether there was one |
| `SessionManager.Manager.DeleteByAgentSessionID` | core/session.go:504-527 | Deletes exactly the sessions mapped to the id, in any order, and counts them |
| `SessionManager.Manager.InvalidateForAgent` | core/session.go:683-707 | Invalidates every session of another agent type and no other |
| `SessionManager.Manager.SessionCallIsStep` | core/session.go:72-160 | Calling an operation on one stored session changes the manager's state by that step alone |
| `SessionIds.UntrackedIff` | core/session.go:581-586 | A session without current and past id is one with no id to filter by |
| `SessionManager.Manager.LoadLegacyData` | core/session.go:637-655 | A current snapshot keeps its legacy flag; an older one is legacy exactly when it did not track past ids or some session has no id |
| `SessionManager.Manager.StripAndMigrate` | core/session.go:556-591 | A save strips every stored sentinel and ends legacy mode exactly when no live session is left without an id; each of them then has one to filter by |
| `SessionManager.Manager.KnownAgentSessionIDs` | core/session.go:445-463 | None in legacy mode, else exactly the current and past ids of the live sessions |

## Left out

- Hashing, JSON and base64url encoding: cursors and payloads are datatypes, digests are functions, and where a
  result needs distinct inputs to have distinct digests that is a hypothesis. The real epoch is 32 bits long.
- Integer widths: revisions, generations, sequence numbers and counters are unbounded.
- Strings are sequences of characters, so ordering is by character; for valid UTF-8 this is the order of bytes.
- Composite map keys built by joining strings are pairs or records here, so collisions of the joined form are
  not modelled.
- The zero-target rebind retry of `publish` and the live-frame flush: both send outside the ordering that the
  other calls keep.
- Goroutines, timers, channels and timeouts as mechanisms: they are steps in any order, with a clock argument.
- The deep copy of a ledger through JSON before a transition is taken to be the identity.
- Closing connections, waiting for delivery, web push candidates, logging and metrics around the modelled calls.
- File walking, git, process control, sockets, HTTP and the RPC handlers.
- Session manager persistence beyond what loads and saves do to the legacy flag and the sentinels, session names
  and user metadata.
- The single flight of the page-0 cache: `KeysetCache` is called by one caller at a time. The wire cache's
  single flight is modelled in `WireCache`.
- The reading of sidechain files, and the reduction of their rows to blocks.
- The projection reducer and kernel: patches come with the authoritative turns they produce.
- Capability derivation, event-to-wire mapping, agent detection, previews, redaction: branch tables without a
  property that spans calls.
- ReplicaAgreement: proved under hypotheses on the run (accepted enqueues, passed filters, prepended turns neither
  committed nor remembered by the connection, detail commits that remove no turn), because the code does not
  promise it otherwise; `ProjectionLapses` says when it holds without them, and `ProjectionStaleness` what holds
  in every run. A turn tracked there as stale may agree again when a change missed is undone.
- FullAgreement: a pull answered with a range of journalled patches instead of the session's turns is not modelled;
  a full response is the snapshot it was opened on.
- SequenceRises: what is replayed is taken to have been stamped before the recovery began, as the shipped caller
  sees to by replaying first.
- ReplayThenOwed: speaks of a recovery that completes, with all of the replay sent and the session's cut not
  moved by a history snapshot in between.
- CompletionDeliversHeld: speaks of the frames put into the connection's queue, not of their arrival.
- Transparency: each call is one step; that the batcher emits outside its lock, so that two emissions could
  cross, is not modelled.
- RequestCoverage: covers the decision under the lock; the send after it may meet a closed queue.
- SlidingWindow: assumes a clock that never goes back. Buckets are values in the map, not
  objects behind pointers.
- CursorContinuesOrIsStale: needs ids that do not split into rising parts, because other ids pass for more rows.
- Page0: the single flight around the fetch is left out.
