/**
 * Replica agreement: a window connection that skips the content of turns it does not hold still ends
 * up, at every revision, with an exact copy of every turn it does hold.
 */
module ProjectionReplica {
  import opened Options
  import opened ProjectionTypes
  import opened ProjectionLane

  /** The client's copy after reading its queue: a page overlays turns, a patch applies its content. */
  function ApplyFrames(m: Turns, fs: seq<Frame>): Turns {
    if fs == [] then m
    else
      var before := ApplyFrames(m, fs[..|fs| - 1]);
      match fs[|fs| - 1]
      case PatchFrame(p) => ApplyPatch(before, p)
      case ResultFrame(_, response, _) => before + PageOf(response)
      case InvalidateFrame => before
  }

  function Replica(l: Lane): Turns {
    ApplyFrames(map[], l.frames)
  }

  /** One window lane beside the authoritative session; `snapshot` is what the last fence was opened on. */
  datatype World = World(lane: Lane, auth: Turns, headRev: nat, snapshot: Turns)

  datatype WorldOp =
    | LivePatch(patch: Patch)
    | PrependByOther(turns: Turns, syncRev: nat)
    | DetailCommit(patch: Patch, requester: bool)
    | BeginSnapshot(id: nat, generation: nat)
    | CompleteSnapshot(response: Response, heldIds: seq<TurnId>, scalar: bool, freeSlots: nat)

  /** The turns a prepend may not bring back: those a connection may still take for its own. */
  function Remembered(w: World): set<TurnId> {
    w.lane.held + if w.lane.fence.Some? then w.snapshot.Keys else {}
  }

  /** What the producers guarantee: revisions continue the head, prepended turns are new, pages are cuts. */
  ghost predicate Enabled(w: World, op: WorldOp) {
    match op
    case LivePatch(p) => p.baseRev == w.headRev < p.syncRev
    case PrependByOther(turns, rev) => w.headRev < rev && turns.Keys !! w.auth.Keys && turns.Keys !! Remembered(w)
    case DetailCommit(p, _) => p.baseRev == w.headRev < p.syncRev && p.removedTurnIds == []
    case BeginSnapshot(_, _) => w.lane.fence.None?
    case CompleteSnapshot(response, ids, _, free) =>
      var page := PageOf(response);
      && w.lane.fence.Some? && free >= RequiredSlots(w.lane.fence.value)
      && page.Keys <= w.snapshot.Keys && (forall id | id in page :: page[id] == w.snapshot[id])
      && (forall id | id in ids && id != "" :: id in page)
  }

  /** Enqueues succeed and the observation filter passes. */
  function LaneOpOf(w: World, op: WorldOp): LaneOp {
    match op
    case LivePatch(p) => Live(p, true, true)
    case PrependByOther(_, rev) => Prepend(rev, false, true)
    case DetailCommit(p, requester) => Commit(p, requester, true)
    case BeginSnapshot(id, generation) => Begin(id, generation, w.headRev)
    case CompleteSnapshot(response, ids, scalar, free) => Complete(response, ids, scalar, free)
  }

  function StepWorld(w: World, op: WorldOp, enc: Encoder): World {
    var lane := StepLane(w.lane, LaneOpOf(w, op), enc);
    match op
    case LivePatch(p) => World(lane, ApplyPatch(w.auth, p), p.syncRev, w.snapshot)
    case PrependByOther(turns, rev) => World(lane, w.auth + turns, rev, w.snapshot)
    case DetailCommit(p, _) => World(lane, ApplyPatch(w.auth, p), p.syncRev, w.snapshot)
    case BeginSnapshot(_, _) => World(lane, w.auth, w.headRev, w.auth)
    case CompleteSnapshot(_, _, _, _) => World(lane, w.auth, w.headRev, w.snapshot)
  }

  ghost predicate FenceOverflowed(w: World) {
    w.lane.fence.Some? && w.lane.fence.value.invalidated
  }

  ghost predicate AgreeOn(a: Turns, b: Turns, ids: set<TurnId>) {
    forall id | id in ids :: SameTurn(a, b, id)
  }

  /** The agreement that holds at every step, behind a fence and outside one. */
  ghost predicate Agree(w: World) {
    var l := w.lane;
    && l.window && !l.invalidated && "" !in l.held
    && match l.fence
       case None =>
         && (l.cut == 0 || l.cut == w.headRev)
         && AgreeOn(Replica(l), w.auth, l.held)
       case Some(f) =>
         && !f.invalidated
         && (f.expectedRev == 0 || f.expectedRev == w.headRev)
         && AgreeOn(ApplyPatches(Replica(l), FullPatches(f.pending)), w.auth, l.held)
         && AgreeOn(ApplyPatches(w.snapshot, FullPatches(f.pending)), w.auth, w.snapshot.Keys)
         && forall pp | pp in f.pending && pp.decide :: !HoldsAny(l.held, pp.patch)
  }

  lemma NoOpChangesNothing(m: Turns, baseRev: nat, syncRev: nat)
    ensures ApplyPatch(m, NoOpPatch(baseRev, syncRev)) == m
  {
    assert m - {} == m;
  }

  lemma ReplicaAppend(l: Lane, x: Frame)
    ensures ApplyFrames(map[], l.frames + [x]) ==
            match x
            case PatchFrame(p) => ApplyPatch(Replica(l), p)
            case ResultFrame(_, response, _) => Replica(l) + PageOf(response)
            case InvalidateFrame => Replica(l)
  {
    assert (l.frames + [x])[..|l.frames + [x]| - 1] == l.frames;
  }

  lemma {:induction false} ApplyPatchFrames(m: Turns, fs: seq<Frame>, ps: seq<Patch>)
    ensures ApplyFrames(m, fs + PatchFrames(ps)) == ApplyPatches(ApplyFrames(m, fs), ps)
  {
    if ps == [] {
      assert fs + PatchFrames(ps) == fs;
    } else {
      var front, last := ps[..|ps| - 1], ps[|ps| - 1];
      ApplyPatchFrames(m, fs, front);
      assert fs + PatchFrames(ps) == fs + PatchFrames(front) + [PatchFrame(last)];
      ApplyFramesSnoc(m, fs + PatchFrames(front), PatchFrame(last));
    }
  }

  lemma ApplyFramesSnoc(m: Turns, fs: seq<Frame>, x: Frame)
    ensures x.PatchFrame? ==> ApplyFrames(m, fs + [x]) == ApplyPatch(ApplyFrames(m, fs), x.patch)
  {
    assert (fs + [x])[..|fs|] == fs;
  }

  lemma FullPatchesAppend(pending: seq<PendingPatch>, pp: PendingPatch)
    ensures FullPatches(pending + [pp]) == FullPatches(pending) + [pp.patch]
  {
    assert (pending + [pp])[..|pending + [pp]| - 1] == pending;
  }

  lemma ApplyPatchesSnoc(m: Turns, ps: seq<Patch>, p: Patch)
    ensures ApplyPatches(m, ps + [p]) == ApplyPatch(ApplyPatches(m, ps), p)
  {
    assert (ps + [p])[..|ps + [p]| - 1] == ps;
  }

  /** Applying the same patch to both sides keeps them in agreement. */
  lemma AgreeApply(a: Turns, b: Turns, p: Patch, ids: set<TurnId>)
    requires AgreeOn(a, b, ids)
    ensures AgreeOn(ApplyPatch(a, p), ApplyPatch(b, p), ids)
  {
    forall id | id in ids ensures SameTurn(ApplyPatch(a, p), ApplyPatch(b, p), id) {
      ApplyPatchLocal(a, b, p, id);
    }
  }

  /** A commit that touches none of these turns can be left out on one side. */
  lemma AgreeSkip(a: Turns, b: Turns, p: Patch, ids: set<TurnId>)
    requires AgreeOn(a, b, ids) && "" !in ids && p.removedTurnIds == [] && !HoldsAny(ids, p)
    ensures AgreeOn(a, ApplyPatch(b, p), ids)
  {
    forall id | id in ids ensures SameTurn(a, ApplyPatch(b, p), id) {
      ApplyPatchUntouched(b, p, id);
    }
  }

  lemma AgreeQueued(start: Turns, pending: seq<PendingPatch>, pp: PendingPatch, auth: Turns, ids: set<TurnId>)
    requires AgreeOn(ApplyPatches(start, FullPatches(pending)), auth, ids)
    ensures AgreeOn(ApplyPatches(start, FullPatches(pending + [pp])), ApplyPatch(auth, pp.patch), ids)
  {
    FullPatchesAppend(pending, pp);
    ApplyPatchesSnoc(start, FullPatches(pending), pp.patch);
    AgreeApply(ApplyPatches(start, FullPatches(pending)), auth, pp.patch, ids);
  }

  /** Queueing a commit behind an open fence, decided or not, keeps agreement. */
  lemma QueueKeepsAgreement(w: World, p: Patch, decide: bool, enc: Encoder, w': World)
    requires Agree(w) && w.lane.fence.Some? && p.baseRev == w.headRev < p.syncRev
    requires decide ==> !HoldsAny(w.lane.held, p)
    requires w'.lane == w.lane.(fence := Some(AppendFence(w.lane.fence.value, p, decide, enc)))
    requires w'.auth == ApplyPatch(w.auth, p) && w'.headRev == p.syncRev
    requires w'.snapshot == w.snapshot && !FenceOverflowed(w')
    ensures Agree(w')
  {
    var f, f' := w.lane.fence.value, w'.lane.fence.value;
    assert f'.pending == f.pending + [PendingPatch(p, decide)];
    AgreeQueued(Replica(w.lane), f.pending, PendingPatch(p, decide), w.auth, w.lane.held);
    AgreeQueued(w.snapshot, f.pending, PendingPatch(p, decide), w.auth, w.snapshot.Keys);
  }

  lemma LiveDeliveredAgrees(w: World, p: Patch, enc: Encoder)
    requires Agree(w) && Enabled(w, LivePatch(p)) && w.lane.fence.None?
    ensures Agree(StepWorld(w, LivePatch(p), enc))
  {
    ReplicaAppend(w.lane, PatchFrame(p));
    AgreeApply(Replica(w.lane), w.auth, p, w.lane.held);
  }

  lemma AgreeBesideNewTurns(a: Turns, b: Turns, turns: Turns, ids: set<TurnId>)
    requires AgreeOn(a, b, ids) && turns.Keys !! ids
    ensures AgreeOn(a, b + turns, ids)
  {
    forall id | id in ids ensures SameTurn(a, b + turns, id) {
      assert SameTurn(a, b, id);
    }
  }

  lemma QueuedNoOpChangesNothing(m: Turns, pending: seq<PendingPatch>, baseRev: nat, syncRev: nat)
    ensures ApplyPatches(m, FullPatches(pending + [PendingPatch(NoOpPatch(baseRev, syncRev), false)])) ==
            ApplyPatches(m, FullPatches(pending))
  {
    FullPatchesAppend(pending, PendingPatch(NoOpPatch(baseRev, syncRev), false));
    ApplyPatchesSnoc(m, FullPatches(pending), NoOpPatch(baseRev, syncRev));
    NoOpChangesNothing(ApplyPatches(m, FullPatches(pending)), baseRev, syncRev);
  }

  lemma PrependBehindFence(w: World, turns: Turns, rev: nat, enc: Encoder)
    requires Agree(w) && Enabled(w, PrependByOther(turns, rev)) && w.lane.fence.Some?
    requires !FenceOverflowed(StepWorld(w, PrependByOther(turns, rev), enc))
    ensures Agree(StepWorld(w, PrependByOther(turns, rev), enc))
  {
    var w', f := StepWorld(w, PrependByOther(turns, rev), enc), w.lane.fence.value;
    AgreeBesideNewTurns(ApplyPatches(Replica(w.lane), FullPatches(f.pending)), w.auth, turns, w.lane.held);
    AgreeBesideNewTurns(ApplyPatches(w.snapshot, FullPatches(f.pending)), w.auth, turns, w.snapshot.Keys);
    if f.expectedRev == 0 {
      assert w'.lane == w.lane;
    } else {
      assert w'.lane.fence == Some(AppendFence(f, NoOpPatch(f.expectedRev, rev), false, enc));
      QueuedNoOpChangesNothing(Replica(w.lane), f.pending, f.expectedRev, rev);
      QueuedNoOpChangesNothing(w.snapshot, f.pending, f.expectedRev, rev);
    }
  }

  lemma PrependKeepsAgreement(w: World, turns: Turns, rev: nat, enc: Encoder)
    requires Agree(w) && Enabled(w, PrependByOther(turns, rev))
    requires !FenceOverflowed(StepWorld(w, PrependByOther(turns, rev), enc))
    ensures Agree(StepWorld(w, PrependByOther(turns, rev), enc))
  {
    if w.lane.fence.Some? {
      PrependBehindFence(w, turns, rev, enc);
    } else {
      AgreeBesideNewTurns(Replica(w.lane), w.auth, turns, w.lane.held);
      ReplicaAppend(w.lane, PatchFrame(NoOpPatch(w.lane.cut, rev)));
      NoOpChangesNothing(Replica(w.lane), w.lane.cut, rev);
    }
  }

  lemma CommitKeepsAgreement(w: World, p: Patch, requester: bool, enc: Encoder)
    requires Agree(w) && Enabled(w, DetailCommit(p, requester))
    requires !FenceOverflowed(StepWorld(w, DetailCommit(p, requester), enc))
    ensures Agree(StepWorld(w, DetailCommit(p, requester), enc))
  {
    var w' := StepWorld(w, DetailCommit(p, requester), enc);
    var content := requester || HoldsAny(w.lane.held, p);
    if w.lane.fence.Some? {
      QueueKeepsAgreement(w, p, !content, enc, w');
    } else if content {
      ReplicaAppend(w.lane, PatchFrame(p));
      AgreeApply(Replica(w.lane), w.auth, p, w.lane.held);
    } else {
      ReplicaAppend(w.lane, PatchFrame(NoOpPatch(w.lane.cut, p.syncRev)));
      NoOpChangesNothing(Replica(w.lane), w.lane.cut, p.syncRev);
      AgreeSkip(Replica(w.lane), w.auth, p, w.lane.held);
    }
  }

  // Stripping a deferred commit is invisible on the turns the connection holds.
  lemma {:induction false} ResolveInvisible(m: Turns, pending: seq<PendingPatch>, held: set<TurnId>, scalar: bool,
                                            id: TurnId)
    requires id in held && id != ""
    ensures SameTurn(ApplyPatches(m, Resolve(pending, held, scalar)), ApplyPatches(m, FullPatches(pending)), id)
  {
    if pending != [] {
      var front, last := pending[..|pending| - 1], pending[|pending| - 1];
      ResolveInvisible(m, front, held, scalar, id);
      var a := ApplyPatches(m, Resolve(front, held, scalar));
      var b := ApplyPatches(m, FullPatches(front));
      var p := ResolveOne(last, held, scalar);
      ApplyPatchesSnoc(m, Resolve(front, held, scalar), p);
      ApplyPatchesSnoc(m, FullPatches(front), last.patch);
      ApplyPatchLocal(a, b, p, id);
      if p != last.patch {
        StrippedPatchInvisible(b, last.patch, p, id);
      }
    }
  }

  lemma StrippedPatchInvisible(m: Turns, full: Patch, stripped: Patch, id: TurnId)
    requires id != "" && id !in PatchTurnIds(full)
    requires stripped.upsertTurns == [] && stripped.partOps == [] && stripped.turnStateOps == []
    requires stripped.removedTurnIds == full.removedTurnIds
    ensures SameTurn(ApplyPatch(m, stripped), ApplyPatch(m, full), id)
  {
    var kept := m - (set k | k in full.removedTurnIds);
    var content := full.(removedTurnIds := []);
    assert PatchTurnIds(content) == PatchTurnIds(full);
    ApplyPatchUntouched(kept, content, id);
    assert kept - (set k | k in content.removedTurnIds) == kept;
    assert ApplyPatch(m, full) == ApplyPatch(kept, content);
    assert ApplyPatch(m, stripped) == kept;
  }

  /**
   * A page cut from the snapshot, then the fence's patches: a held turn is current when it was in the snapshot's
   * part that follows the session, or, outside the page, in the copy's.
   */
  lemma PageThenPatchesAgree(replica: Turns, snapshot: Turns, page: Turns, pending: seq<PendingPatch>, auth: Turns,
                             before: set<TurnId>, known: set<TurnId>, held: set<TurnId>, ids: set<TurnId>, scalar: bool)
    requires page.Keys <= snapshot.Keys && forall id | id in page :: page[id] == snapshot[id]
    requires ids <= held && "" !in held && forall id | id in ids :: if id in page then id in known else id in before
    requires AgreeOn(ApplyPatches(replica, FullPatches(pending)), auth, before)
    requires AgreeOn(ApplyPatches(snapshot, FullPatches(pending)), auth, known)
    ensures AgreeOn(ApplyPatches(replica + page, Resolve(pending, held, scalar)), auth, ids)
  {
    var start := replica + page;
    forall id | id in ids ensures SameTurn(ApplyPatches(start, Resolve(pending, held, scalar)), auth, id) {
      ResolveInvisible(start, pending, held, scalar, id);
      if id in page {
        assert SameTurn(start, snapshot, id);
        ApplyPatchesLocal(start, snapshot, FullPatches(pending), id);
      } else {
        assert SameTurn(start, replica, id);
        ApplyPatchesLocal(start, replica, FullPatches(pending), id);
      }
    }
  }

  lemma ReplicaAfterSnapshot(l: Lane, rev: nat, response: Response, ps: seq<Patch>)
    ensures ApplyFrames(map[], l.frames + [ResultFrame(rev, response, true)] + PatchFrames(ps)) ==
            ApplyPatches(Replica(l) + PageOf(response), ps)
  {
    ReplicaAppend(l, ResultFrame(rev, response, true));
    ApplyPatchFrames(map[], l.frames + [ResultFrame(rev, response, true)], ps);
  }

  lemma CompleteKeepsAgreement(w: World, op: WorldOp, enc: Encoder)
    requires Agree(w) && op.CompleteSnapshot? && Enabled(w, op)
    ensures Agree(StepWorld(w, op, enc))
  {
    var l, f, w' := w.lane, w.lane.fence.value, StepWorld(w, op, enc);
    var held := l.held + NonEmptyIds(op.heldIds);
    var ps := Resolve(f.pending, held, op.scalar);
    PageThenPatchesAgree(Replica(l), w.snapshot, PageOf(op.response), f.pending, w.auth, l.held, w.snapshot.Keys, held,
                         held, op.scalar);
    ReplicaAfterSnapshot(l, f.cutRev, op.response, ps);
    assert Replica(w'.lane) == ApplyPatches(Replica(l) + PageOf(op.response), ps);
  }

  lemma StepKeepsAgreement(w: World, op: WorldOp, enc: Encoder)
    requires Agree(w) && Enabled(w, op) && !FenceOverflowed(StepWorld(w, op, enc))
    ensures Agree(StepWorld(w, op, enc))
  {
    match op
    case LivePatch(p) =>
      if w.lane.fence.None? {
        LiveDeliveredAgrees(w, p, enc);
      } else {
        QueueKeepsAgreement(w, p, false, enc, StepWorld(w, op, enc));
      }
    case PrependByOther(turns, rev) => PrependKeepsAgreement(w, turns, rev, enc);
    case DetailCommit(p, requester) => CommitKeepsAgreement(w, p, requester, enc);
    case BeginSnapshot(_, _) =>
    case CompleteSnapshot(_, _, _, _) => CompleteKeepsAgreement(w, op, enc);
  }

  function RunWorld(w: World, ops: seq<WorldOp>, enc: Encoder): World {
    if ops == [] then w else StepWorld(RunWorld(w, ops[..|ops| - 1], enc), ops[|ops| - 1], enc)
  }

  /** Each operation is enabled where it happens and no snapshot fence overflows. */
  ghost predicate CleanRun(w: World, ops: seq<WorldOp>, enc: Encoder) {
    ops != [] ==>
      && CleanRun(w, ops[..|ops| - 1], enc)
      && Enabled(RunWorld(w, ops[..|ops| - 1], enc), ops[|ops| - 1])
      && !FenceOverflowed(RunWorld(w, ops, enc))
  }

  function StartWorld(auth: Turns, headRev: nat): World {
    World(EMPTY_LANE.(window := true), auth, headRev, map[])
  }

  lemma {:induction false} RunKeepsAgreement(auth: Turns, headRev: nat, ops: seq<WorldOp>, enc: Encoder)
    requires CleanRun(StartWorld(auth, headRev), ops, enc)
    ensures Agree(RunWorld(StartWorld(auth, headRev), ops, enc))
  {
    if ops != [] {
      RunKeepsAgreement(auth, headRev, ops[..|ops| - 1], enc);
      StepKeepsAgreement(RunWorld(StartWorld(auth, headRev), ops[..|ops| - 1], enc), ops[|ops| - 1], enc);
    }
  }

  /**
   * Whenever no snapshot is in flight, a synced window connection stands at the head revision and its
   * copy of every held turn is the authoritative one.
   */
  lemma ReplicaAgreement(auth: Turns, headRev: nat, ops: seq<WorldOp>, enc: Encoder)
    requires CleanRun(StartWorld(auth, headRev), ops, enc)
    ensures var w := RunWorld(StartWorld(auth, headRev), ops, enc);
            w.lane.fence.None? ==>
              && (w.lane.cut != 0 ==> w.lane.cut == w.headRev)
              && forall id | id in w.lane.held :: Lookup(Replica(w.lane), id) == Lookup(w.auth, id)
  {
    RunKeepsAgreement(auth, headRev, ops, enc);
  }

}
