/**
 * What becomes of agreement when a patch is missed: refused by the queue, withheld by the observation filter,
 * or overtaken by a turn that comes back. Each lapse comes with the exact condition under which it does no harm.
 */
module ProjectionLapses {
  import opened Options
  import opened ProjectionTypes
  import opened ProjectionLane
  import opened ProjectionReplica

  /** The connection's copy of every turn it holds is the authoritative one. */
  ghost predicate InAgreement(l: Lane, auth: Turns) {
    AgreeOn(Replica(l), auth, l.held)
  }

  /** The patch leaves every turn the connection holds as it is. */
  ghost predicate Spares(l: Lane, auth: Turns, p: Patch) {
    AgreeOn(auth, ApplyPatch(auth, p), l.held)
  }

  /** Agreement survives a change the copy does not see exactly when the change spares the held turns. */
  lemma UnseenChange(copy: Turns, auth: Turns, changed: Turns, held: set<TurnId>)
    requires AgreeOn(copy, auth, held)
    ensures AgreeOn(copy, changed, held) <==> AgreeOn(auth, changed, held)
  {
    forall id | id in held ensures SameTurn(copy, changed, id) <==> SameTurn(auth, changed, id) {
      assert SameTurn(copy, auth, id);
    }
  }

  /** A commit refused on the single-connection path changes nothing on the lane, content or no-op alike. */
  lemma RefusedCommitKeepsIff(w: World, p: Patch, requester: bool, enc: Encoder)
    requires Agree(w) && w.lane.fence.None? && Enabled(w, DetailCommit(p, requester))
    ensures CommitLane(w.lane, p, requester, false, enc) == w.lane
    ensures InAgreement(CommitLane(w.lane, p, requester, false, enc), ApplyPatch(w.auth, p)) <==>
            Spares(w.lane, w.auth, p)
  {
    UnseenChange(Replica(w.lane), w.auth, ApplyPatch(w.auth, p), w.lane.held);
  }

  /** A live patch the observation filter withholds changes nothing on the lane either. */
  lemma FilteredLiveKeepsIff(w: World, p: Patch, accepts: bool, enc: Encoder)
    requires Agree(w) && w.lane.fence.None?
    ensures DeliverLive(w.lane, p, false, accepts, enc) == w.lane
    ensures InAgreement(DeliverLive(w.lane, p, false, accepts, enc), ApplyPatch(w.auth, p)) <==>
            Spares(w.lane, w.auth, p)
  {
    UnseenChange(Replica(w.lane), w.auth, ApplyPatch(w.auth, p), w.lane.held);
  }

  /** A live patch refused by the queue marks the lane, and leaves its cut and its held turns. */
  lemma RefusedLiveKeepsIff(w: World, p: Patch, enc: Encoder)
    requires Agree(w) && w.lane.fence.None? && Enabled(w, LivePatch(p))
    ensures DeliverLive(w.lane, p, true, false, enc) == w.lane.(invalidated := true)
    ensures InAgreement(DeliverLive(w.lane, p, true, false, enc), ApplyPatch(w.auth, p)) <==> Spares(w.lane, w.auth, p)
  {
    UnseenChange(Replica(w.lane), w.auth, ApplyPatch(w.auth, p), w.lane.held);
  }

  lemma NoOpFrame(l: Lane, baseRev: nat, syncRev: nat)
    ensures ApplyFrames(map[], l.frames + [PatchFrame(NoOpPatch(baseRev, syncRev))]) == Replica(l)
  {
    ReplicaAppend(l, PatchFrame(NoOpPatch(baseRev, syncRev)));
    NoOpChangesNothing(Replica(l), baseRev, syncRev);
  }

  /**
   * A patch missed on a synced lane is bridged by the next prepend of another connection: the lane stands at
   * the head, unmarked, and in agreement exactly when the missed patch spared its held turns.
   */
  lemma MissedPatchIsBridged(w: World, p: Patch, turns: Turns, rev: nat, enc: Encoder)
    requires Agree(w) && w.lane.fence.None? && w.lane.cut != 0 && w.headRev < p.syncRev < rev
    requires turns.Keys !! w.lane.held
    ensures var after := PrependLane(w.lane, rev, false, true, enc);
            && after.cut == rev && !after.invalidated && after.held == w.lane.held
            && (InAgreement(after, ApplyPatch(w.auth, p) + turns) <==> Spares(w.lane, w.auth, p))
  {
    var changed := ApplyPatch(w.auth, p);
    NoOpFrame(w.lane, w.lane.cut, rev);
    UnseenChange(Replica(w.lane), w.auth, changed, w.lane.held);
    forall id | id in w.lane.held
      ensures SameTurn(Replica(w.lane), changed + turns, id) <==> SameTurn(Replica(w.lane), changed, id)
    {
      assert id !in turns;
    }
  }

  lemma PullAppends(l: Lane, head: nat, page: Turns, ids: seq<TurnId>, scalar: bool, free: nat)
    requires l.fence.None? && free >= 1
    ensures var after := CompleteLane(BeginLane(l, 1, 1, head), Some(page), ids, scalar, free);
            && after.cut == head && !after.invalidated && after.held == l.held + NonEmptyIds(ids)
            && Replica(after) == Replica(l) + page
  {
    var after := CompleteLane(BeginLane(l, 1, 1, head), Some(page), ids, scalar, free);
    assert after.frames == l.frames + [ResultFrame(head, Some(page), true)];
    ReplicaAppend(l, ResultFrame(head, Some(page), true));
  }

  /** A page laid over a copy brings agreement exactly when no held turn outside the page had changed. */
  lemma PageAgreesIff(copy: Turns, auth: Turns, changed: Turns, held: set<TurnId>, more: set<TurnId>, page: Turns)
    requires AgreeOn(copy, auth, held) && more <= page.Keys <= changed.Keys
    requires forall id | id in page :: page[id] == changed[id]
    ensures AgreeOn(copy + page, changed, held + more) <==> AgreeOn(auth, changed, held - page.Keys)
  {
    forall id | id in held - page.Keys
      ensures SameTurn(copy + page, changed, id) <==> SameTurn(auth, changed, id)
    {
      assert SameTurn(copy, auth, id);
    }
    forall id | id in page.Keys ensures SameTurn(copy + page, changed, id) {}
  }

  /**
   * A window pull after misses clears the mark and sets the cut at the head, but its page brings only the turns
   * it carries: the lane agrees exactly when no held turn outside the page had changed.
   */
  lemma PullAfterMissIff(l: Lane, auth: Turns, changed: Turns, head: nat, page: Turns, ids: seq<TurnId>, scalar: bool,
                         free: nat)
    requires l.fence.None? && InAgreement(l, auth) && free >= 1
    requires page.Keys <= changed.Keys && (forall id | id in page :: page[id] == changed[id])
    requires forall id | id in ids && id != "" :: id in page
    ensures var after := CompleteLane(BeginLane(l, 1, 1, head), Some(page), ids, scalar, free);
            && after.cut == head && !after.invalidated && after.held == l.held + NonEmptyIds(ids)
            && (InAgreement(after, changed) <==> AgreeOn(auth, changed, l.held - page.Keys))
  {
    var after := CompleteLane(BeginLane(l, 1, 1, head), Some(page), ids, scalar, free);
    PullAppends(l, head, page, ids, scalar, free);
    PageAgreesIff(Replica(l), auth, changed, l.held, NonEmptyIds(ids), page);
  }

  /** With no snapshot open, a turn prepended breaks agreement exactly when the connection holds it still. */
  lemma PrependKeepsIff(w: World, turns: Turns, rev: nat, enc: Encoder)
    requires Agree(w) && w.lane.fence.None? && w.headRev < rev && turns.Keys !! w.auth.Keys
    ensures InAgreement(PrependLane(w.lane, rev, false, true, enc), w.auth + turns) <==> turns.Keys !! w.lane.held
  {
    NoOpFrame(w.lane, w.lane.cut, rev);
    NewTurnsAgreeIff(Replica(w.lane), w.auth, turns, w.lane.held);
  }

  /** A prepend that leaves the fence open adds its turns to the authority; but for them agreement stands. */
  lemma PrependAddsTurns(w: World, turns: Turns, rev: nat, enc: Encoder)
    requires Agree(w) && w.lane.fence.Some? && w.headRev < rev
    requires !FenceOverflowed(StepWorld(w, PrependByOther(turns, rev), enc))
    ensures var next := StepWorld(w, PrependByOther(turns, rev), enc);
            && Agree(next.(auth := w.auth)) && next.auth == w.auth + turns && next.lane.held == w.lane.held
  {
    var blank, next := StepWorld(w, PrependByOther(map[], rev), enc), StepWorld(w, PrependByOther(turns, rev), enc);
    assert blank == next.(auth := w.auth) by { assert w.auth + map[] == w.auth; }
    PrependKeepsAgreement(w, map[], rev, enc);
  }

  /**
   * The same behind an open fence: completing it leaves agreement exactly when no prepended turn is held then,
   * whether it was before or comes with the page.
   */
  lemma PrependBehindFenceIff(w: World, turns: Turns, rev: nat, op: WorldOp, enc: Encoder)
    requires Agree(w) && w.lane.fence.Some? && w.headRev < rev && turns.Keys !! w.auth.Keys
    requires var next := StepWorld(w, PrependByOther(turns, rev), enc);
             !FenceOverflowed(next) && op.CompleteSnapshot? && Enabled(next, op)
    ensures var after := StepWorld(StepWorld(w, PrependByOther(turns, rev), enc), op, enc);
            && after.lane.fence.None?
            && (InAgreement(after.lane, after.auth) <==> turns.Keys !! w.lane.held + NonEmptyIds(op.heldIds))
  {
    var next := StepWorld(w, PrependByOther(turns, rev), enc);
    var blank := next.(auth := w.auth);
    PrependAddsTurns(w, turns, rev, enc);
    CompletionAgrees(blank, op, enc);
    CompletionIgnoresAuthority(blank, next, op, enc);
    NewTurnsAgreeIff(Replica(StepWorld(next, op, enc).lane), w.auth, turns, w.lane.held + NonEmptyIds(op.heldIds));
  }

  lemma CompletionAgrees(w: World, op: WorldOp, enc: Encoder)
    requires Agree(w) && op.CompleteSnapshot? && Enabled(w, op)
    ensures var after := StepWorld(w, op, enc);
            && after.lane.fence.None? && after.lane.held == w.lane.held + NonEmptyIds(op.heldIds)
            && InAgreement(after.lane, w.auth)
  {
    CompleteKeepsAgreement(w, op, enc);
  }

  lemma CompletionIgnoresAuthority(a: World, b: World, op: WorldOp, enc: Encoder)
    requires a.lane == b.lane && op.CompleteSnapshot?
    ensures StepWorld(a, op, enc).lane == StepWorld(b, op, enc).lane && StepWorld(b, op, enc).auth == b.auth
  {
  }

  lemma NewTurnsAgreeIff(copy: Turns, auth: Turns, turns: Turns, held: set<TurnId>)
    requires AgreeOn(copy, auth, held) && turns.Keys !! auth.Keys
    ensures AgreeOn(copy, auth + turns, held) <==> turns.Keys !! held
  {
    if id :| id in turns.Keys && id in held {
      assert SameTurn(copy, auth, id) && !SameTurn(auth, auth + turns, id);
    } else {
      AgreeBesideNewTurns(copy, auth, turns, held);
    }
  }

  // ---- Runs that get there ----

  const BEFORE := Turn("summary", [])
  const AFTER := Turn("loaded", [])
  const LOADED := Patch(5, 6, None, [], [], [TurnStateOp("t", "loaded")], [])
  const REMOVED := Patch(5, 6, None, [], [], [], ["t"])

  /** A window connection that pulled one turn at revision 5. */
  const PULL: seq<LaneOp> :=
    [SetMode(true), Begin(1, 1, 5), Complete(Some(map["t" := BEFORE]), ["t"], false, 1)]
  const PULLED := Lane(5, None, false, true, {"t"}, [ResultFrame(5, Some(map["t" := BEFORE]), true)])

  lemma PulledReached(enc: Encoder)
    ensures RunLane(EMPTY_LANE, PULL, enc) == PULLED
    ensures Replica(PULLED) == map["t" := BEFORE]
  {
    RunLaneSnoc(EMPTY_LANE, [], PULL[0], enc);
    RunLaneSnoc(EMPTY_LANE, [PULL[0]], PULL[1], enc);
    RunLaneSnoc(EMPTY_LANE, [PULL[0], PULL[1]], PULL[2], enc);
    assert [] + [PULL[0]] == [PULL[0]] && [PULL[0]] + [PULL[1]] == [PULL[0], PULL[1]];
    assert [PULL[0], PULL[1]] + [PULL[2]] == PULL;
    assert NonEmptyIds(["t"]) == {"t"};
    assert PULLED.frames[..0] == [];
    assert map[] + map["t" := BEFORE] == map["t" := BEFORE];
  }

  lemma TwoMore(x: LaneOp, y: LaneOp, enc: Encoder)
    ensures RunLane(EMPTY_LANE, PULL + [x, y], enc) == StepLane(StepLane(PULLED, x, enc), y, enc)
  {
    PulledReached(enc);
    RunLaneSnoc(EMPTY_LANE, PULL, x, enc);
    RunLaneSnoc(EMPTY_LANE, PULL + [x], y, enc);
    assert PULL + [x] + [y] == PULL + [x, y];
  }

  lemma LoadedChanges()
    ensures ApplyPatch(map["t" := BEFORE], LOADED) == map["t" := AFTER]
  {
    var m: Turns := map["t" := BEFORE];
    var ops := [TurnStateOp("t", "loaded")];
    assert m - (set id | id in LOADED.removedTurnIds) == m;
    assert ApplyUpserts(m, []) == m && ApplyParts(m, []) == m;
    assert ApplyPatch(m, LOADED) == ApplyStates(m, ops);
    assert ops[1..] == [] && m["t" := m["t"].(detailState := "loaded")] == m["t" := AFTER];
    assert ApplyStates(m, ops) == ApplyStates(m["t" := AFTER], []) == m["t" := AFTER];
  }

  /** The lane stands at the head, unmarked, still holding a turn whose copy is the old one. */
  ghost predicate HoldsOldCopy(l: Lane, head: nat) {
    l.cut == head && !l.invalidated && l.fence.None? && "t" in l.held && Lookup(Replica(l), "t") == Some(BEFORE)
  }

  lemma BridgedPull(enc: Encoder)
    ensures HoldsOldCopy(StepLane(PULLED, Prepend(7, false, true), enc), 7)
  {
    PulledReached(enc);
    NoOpFrame(PULLED, 5, 7);
  }

  /** A commit of a held turn refused, then another's prepend: the copy stays old while the session's turn is not. */
  lemma RefusedEnqueueIsBridged(enc: Encoder)
    ensures HoldsOldCopy(RunLane(EMPTY_LANE, PULL + [Commit(LOADED, false, false), Prepend(7, false, true)], enc), 7)
    ensures Lookup(ApplyPatch(map["t" := BEFORE], LOADED), "t") == Some(AFTER)
  {
    LoadedChanges();
    BridgedPull(enc);
    TwoMore(Commit(LOADED, false, false), Prepend(7, false, true), enc);
    assert StepLane(PULLED, Commit(LOADED, false, false), enc) == PULLED;
  }

  /** The same with a live patch that the observation filter withheld. */
  lemma FilteredPatchIsBridged(enc: Encoder)
    ensures HoldsOldCopy(RunLane(EMPTY_LANE, PULL + [Live(LOADED, false, true), Prepend(7, false, true)], enc), 7)
    ensures Lookup(ApplyPatch(map["t" := BEFORE], LOADED), "t") == Some(AFTER)
  {
    LoadedChanges();
    BridgedPull(enc);
    TwoMore(Live(LOADED, false, true), Prepend(7, false, true), enc);
  }

  /** A live patch refused, then a pull of another turn: the mark is gone, the old copy is not. */
  lemma RefusedLiveOutlivesPull(other: Turn, enc: Encoder)
    ensures var pull := [Begin(2, 1, 6), Complete(Some(map["u" := other]), ["u"], false, 1)];
            HoldsOldCopy(RunLane(EMPTY_LANE, PULL + [Live(LOADED, true, false)] + pull, enc), 6)
  {
    var x, y, z := Live(LOADED, true, false), Begin(2, 1, 6), Complete(Some(map["u" := other]), ["u"], false, 1);
    TwoMore(x, y, enc);
    RunLaneSnoc(EMPTY_LANE, PULL + [x, y], z, enc);
    assert PULL + [x, y] + [z] == PULL + [x] + [y, z];
    PulledReached(enc);
    var l := StepLane(StepLane(PULLED, x, enc), y, enc);
    assert l.frames == PULLED.frames && l.held == PULLED.held;
    ReplicaAppend(PULLED, ResultFrame(6, Some(map["u" := other]), true));
    assert StepLane(l, z, enc).frames == PULLED.frames + [ResultFrame(6, Some(map["u" := other]), true)];
  }

  /** The lane stands at the head, unmarked, holding a turn it has no copy of. */
  ghost predicate LacksHeldTurn(l: Lane, head: nat) {
    l.cut == head && !l.invalidated && l.fence.None? && "t" in l.held && Lookup(Replica(l), "t") == None
  }

  lemma RemovedIsGone()
    ensures ApplyPatch(map["t" := BEFORE], REMOVED) == map[]
  {
    var m: Turns := map["t" := BEFORE];
    assert m - (set k | k in ["t"]) == map[];
  }

  lemma RemovedFromPulled(enc: Encoder)
    ensures LacksHeldTurn(StepLane(StepLane(PULLED, Live(REMOVED, true, true), enc), Prepend(7, false, true), enc), 7)
  {
    var l := StepLane(PULLED, Live(REMOVED, true, true), enc);
    PulledReached(enc);
    ReplicaAppend(PULLED, PatchFrame(REMOVED));
    RemovedIsGone();
    NoOpFrame(l, 6, 7);
  }

  /** A held turn removed and then prepended again: the session has it, the connection that holds it does not. */
  lemma ReturningTurnIsMissed(enc: Encoder)
    ensures LacksHeldTurn(RunLane(EMPTY_LANE, PULL + [Live(REMOVED, true, true), Prepend(7, false, true)], enc), 7)
    ensures Lookup(ApplyPatch(map["t" := BEFORE], REMOVED), "t") == None
  {
    RemovedIsGone();
    RemovedFromPulled(enc);
    TwoMore(Live(REMOVED, true, true), Prepend(7, false, true), enc);
  }

  /** The lane of a first pull, one patch and one prepend later. */
  const PULLING: seq<LaneOp> := [SetMode(true), Begin(1, 1, 5), Live(REMOVED, true, true), Prepend(7, false, true)]

  lemma PullingReached(enc: Encoder)
    requires enc(REMOVED) + enc(NoOpPatch(6, 7)) <= FENCE_MAX_BYTES
    ensures var pending := [PendingPatch(REMOVED, false), PendingPatch(NoOpPatch(6, 7), false)];
            var fence := Fence(1, 1, 5, 7, pending, enc(REMOVED) + enc(NoOpPatch(6, 7)), false);
            RunLane(EMPTY_LANE, PULLING, enc) == Lane(0, Some(fence), false, true, {}, [])
  {
    var a, b, c := [PULLING[0]], [PULLING[0], PULLING[1]], [PULLING[0], PULLING[1], PULLING[2]];
    assert [] + [PULLING[0]] == a && a + [PULLING[1]] == b && b + [PULLING[2]] == c && c + [PULLING[3]] == PULLING;
    RunLaneSnoc(EMPTY_LANE, [], PULLING[0], enc);
    RunLaneSnoc(EMPTY_LANE, a, PULLING[1], enc);
    RunLaneSnoc(EMPTY_LANE, b, PULLING[2], enc);
    RunLaneSnoc(EMPTY_LANE, c, PULLING[3], enc);
    var first := Fence(1, 1, 5, 6, [PendingPatch(REMOVED, false)], enc(REMOVED), false);
    assert RunLane(EMPTY_LANE, b, enc) == Lane(0, Some(Fence(1, 1, 5, 5, [], 0, false)), false, true, {}, []);
    assert [] + [PendingPatch(REMOVED, false)] == first.pending;
    assert RunLane(EMPTY_LANE, c, enc) == Lane(0, Some(first), false, true, {}, []);
    assert first.pending + [PendingPatch(NoOpPatch(6, 7), false)] ==
           [PendingPatch(REMOVED, false), PendingPatch(NoOpPatch(6, 7), false)];
  }

  /** A turn removed and prepended again while the first pull is open: the page brings it, the removal takes it away. */
  lemma ReturningTurnBehindFence(enc: Encoder)
    requires enc(REMOVED) + enc(NoOpPatch(6, 7)) <= FENCE_MAX_BYTES
    ensures var pull := Complete(Some(map["t" := BEFORE]), ["t"], false, 3);
            LacksHeldTurn(RunLane(EMPTY_LANE, PULLING + [pull], enc), 7)
  {
    var page: Turns := map["t" := BEFORE];
    var pull := Complete(Some(page), ["t"], false, 3);
    PullingReached(enc);
    RunLaneSnoc(EMPTY_LANE, PULLING, pull, enc);
    var l := RunLane(EMPTY_LANE, PULLING, enc);
    var held := {} + NonEmptyIds(["t"]);
    var pending := [PendingPatch(REMOVED, false), PendingPatch(NoOpPatch(6, 7), false)];
    TwoPendingResolve(REMOVED, NoOpPatch(6, 7), held);
    ReplicaAfterSnapshot(l, 5, Some(page), [REMOVED, NoOpPatch(6, 7)]);
    RemovedIsGone();
    NoOpChangesNothing(map[], 6, 7);
    assert map[] + page == page;
    TwoApplied(page, REMOVED, NoOpPatch(6, 7));
    assert "t" in NonEmptyIds(["t"]);
  }

  lemma TwoPendingResolve(p: Patch, q: Patch, held: set<TurnId>)
    ensures Resolve([PendingPatch(p, false), PendingPatch(q, false)], held, false) == [p, q]
  {
  }

  lemma TwoApplied(m: Turns, p: Patch, q: Patch)
    ensures ApplyPatches(m, [p, q]) == ApplyPatch(ApplyPatch(m, p), q)
  {
    ApplyPatchesSnoc(m, [], p);
    ApplyPatchesSnoc(m, [p], q);
    assert [] + [p] == [p] && [p] + [q] == [p, q];
  }
}
