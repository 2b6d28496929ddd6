/**
 * Who gets the content of a detail commit: the connection that asked, full connections and those that hold one of
 * its turns. Said of the frames a connection is sent and of the copy it makes of them, over runs and lane by lane.
 */
module ProjectionRouting {
  import opened Options
  import opened ProjectionLane
  import opened ProjectionReplica
  import opened ProjectionStaleness
  import opened ProjectionTypes

  // ---- A full connection comes to have every turn ----

  /** A copy has every turn the session has, with the value it has there. */
  ghost predicate Whole(copy: Turns, auth: Turns) {
    AgreeOn(copy, auth, auth.Keys)
  }

  lemma {:induction false} UpsertedAlike(a: Turns, b: Turns, ops: seq<TurnUpsert>, id: TurnId)
    requires SameTurn(a, b, id) || exists op :: op in ops && op.turnId == id
    ensures SameTurn(ApplyUpserts(a, ops), ApplyUpserts(b, ops), id)
    decreases ops
  {
    if ops != [] {
      UpsertedAlike(a[ops[0].turnId := ops[0].turn], b[ops[0].turnId := ops[0].turn], ops[1..], id);
    }
  }

  lemma {:induction false} UpsertedKeys(m: Turns, ops: seq<TurnUpsert>, id: TurnId)
    requires id in ApplyUpserts(m, ops)
    ensures id in m || exists op :: op in ops && op.turnId == id
    decreases ops
  {
    if ops != [] {
      UpsertedKeys(m[ops[0].turnId := ops[0].turn], ops[1..], id);
      assert ops[0] in ops;
    }
  }

  lemma {:induction false} PartsKeepKeys(m: Turns, ops: seq<PartOp>)
    ensures ApplyParts(m, ops).Keys == m.Keys
  {
    if ops != [] {
      var id := ops[0].turnId;
      PartsKeepKeys(if id in m then m[id := m[id].(parts := m[id].parts + [ops[0].part])] else m, ops[1..]);
    }
  }

  lemma {:induction false} StatesKeepKeys(m: Turns, ops: seq<TurnStateOp>)
    ensures ApplyStates(m, ops).Keys == m.Keys
  {
    if ops != [] {
      var id := ops[0].turnId;
      StatesKeepKeys(if id in m then m[id := m[id].(detailState := ops[0].detailState)] else m, ops[1..]);
    }
  }

  /** A turn a patch brings to one copy it brings to every copy alike: an upsert carries the turn whole. */
  lemma BroughtAlike(a: Turns, b: Turns, p: Patch, id: TurnId)
    requires id in b ==> SameTurn(a, b, id)
    requires id in ApplyPatch(b, p)
    ensures SameTurn(ApplyPatch(a, p), ApplyPatch(b, p), id)
  {
    var removed := set k | k in p.removedTurnIds;
    var a1, b1 := ApplyUpserts(a - removed, p.upsertTurns), ApplyUpserts(b - removed, p.upsertTurns);
    var a2, b2 := ApplyParts(a1, p.partOps), ApplyParts(b1, p.partOps);
    StatesKeepKeys(b2, p.turnStateOps);
    PartsKeepKeys(b1, p.partOps);
    UpsertedKeys(b - removed, p.upsertTurns, id);
    UpsertedAlike(a - removed, b - removed, p.upsertTurns, id);
    ApplyPartsLocal(a1, b1, p.partOps, id);
    ApplyStatesLocal(a2, b2, p.turnStateOps, id);
  }

  lemma WholeApply(a: Turns, b: Turns, p: Patch)
    requires Whole(a, b)
    ensures Whole(ApplyPatch(a, p), ApplyPatch(b, p))
  {
    forall id | id in ApplyPatch(b, p) ensures SameTurn(ApplyPatch(a, p), ApplyPatch(b, p), id) {
      BroughtAlike(a, b, p, id);
    }
  }

  lemma {:induction false} WholeApplies(a: Turns, b: Turns, ps: seq<Patch>)
    requires Whole(a, b)
    ensures Whole(ApplyPatches(a, ps), ApplyPatches(b, ps))
  {
    if ps != [] {
      WholeApplies(a, b, ps[..|ps| - 1]);
      WholeApply(ApplyPatches(a, ps[..|ps| - 1]), ApplyPatches(b, ps[..|ps| - 1]), ps[|ps| - 1]);
    }
  }

  lemma WholeThrough(a: Turns, b: Turns, c: Turns)
    requires Whole(a, b) && Whole(b, c)
    ensures Whole(a, c)
  {
    forall id | id in c ensures SameTurn(a, c, id) {
      assert SameTurn(b, c, id);
    }
  }

  /** A full connection's world, and whether its copy stands on a pull that brought it the session. */
  datatype FullWorld = FullWorld(world: World, pulled: bool)

  /** Patches continue the head, a prepend rises above it, and a full response is the snapshot itself. */
  ghost predicate OfferedWhole(w: World, op: LossyOp) {
    match op
    case SendLive(p, _, _) => p.baseRev == w.headRev < p.syncRev
    case SendPrepend(_, rev, _) => w.headRev < rev
    case SendCommit(p, _, _) => p.baseRev == w.headRev < p.syncRev
    case OpenSnapshot(_, _) => true
    case CloseSnapshot(response, _, _, _) => response.Some? ==> response.value == w.snapshot
  }

  /** A failed pull keeps what there was when it was opened on it; revision 0 counts only while nothing came after. */
  function NextPulled(t: FullWorld, op: LossyOp, next: World): bool {
    var l := t.world.lane;
    var usable := op.CloseSnapshot? && FenceOpen(l) && op.freeSlots > |l.fence.value.pending|;
    && (if usable then op.response.Some? || (t.pulled && l.cut == l.fence.value.cutRev) else t.pulled)
    && (next.lane.cut != 0 || next.headRev == 0)
  }

  function StepFull(t: FullWorld, op: LossyOp, enc: Encoder): FullWorld {
    var next := StepLossy(t.world, op, enc);
    FullWorld(next, NextPulled(t, op, next))
  }

  function RunFull(t: FullWorld, ops: seq<LossyOp>, enc: Encoder): FullWorld {
    if ops == [] then t else StepFull(RunFull(t, ops[..|ops| - 1], enc), ops[|ops| - 1], enc)
  }

  ghost predicate AllOfferedWhole(t: FullWorld, ops: seq<LossyOp>, enc: Encoder) {
    ops != [] ==>
      && AllOfferedWhole(t, ops[..|ops| - 1], enc)
      && OfferedWhole(RunFull(t, ops[..|ops| - 1], enc).world, ops[|ops| - 1])
  }

  function FullStart(auth: Turns, headRev: nat): FullWorld {
    FullWorld(World(EMPTY_LANE, auth, headRev, map[]), false)
  }

  /** What holds behind a fence that keeps up with the head. */
  ghost predicate FenceWhole(t: FullWorld, f: Fence) {
    var w, ps := t.world, FullPatches(f.pending);
    && (forall pp | pp in f.pending :: !pp.decide)
    && (f.expectedRev == w.headRev ==>
          && Whole(ApplyPatches(w.snapshot, ps), w.auth)
          && (t.pulled && w.lane.cut == f.cutRev ==> Whole(ApplyPatches(Replica(w.lane), ps), w.auth)))
  }

  ghost predicate FullSound(t: FullWorld) {
    var w, l := t.world, t.world.lane;
    && !l.window && l.cut <= w.headRev && (t.pulled ==> l.cut != 0 || w.headRev == 0)
    && (t.pulled && l.cut == w.headRev ==> Whole(Replica(l), w.auth))
    && (l.fence.Some? ==>
          var f := l.fence.value;
          && l.cut <= f.cutRev <= f.expectedRev <= w.headRev
          && if f.invalidated then f.expectedRev < w.headRev else FenceWhole(t, f))
  }

  /** A full world after a patch, from the lane it led to. */
  function AfterPatch(t: FullWorld, lane: Lane, p: Patch): FullWorld {
    FullWorld(World(lane, ApplyPatch(t.world.auth, p), p.syncRev, t.world.snapshot), t.pulled && lane.cut != 0)
  }

  lemma WholeQueued(start: Turns, pending: seq<PendingPatch>, p: Patch, auth: Turns)
    requires Whole(ApplyPatches(start, FullPatches(pending)), auth)
    ensures Whole(ApplyPatches(start, FullPatches(pending + [PendingPatch(p, false)])), ApplyPatch(auth, p))
  {
    FullPatchesAppend(pending, PendingPatch(p, false));
    ApplyPatchesSnoc(start, FullPatches(pending), p);
    WholeApply(ApplyPatches(start, FullPatches(pending)), auth, p);
  }

  /** The lane that puts the patch behind its open fence. */
  function Waiting(l: Lane, p: Patch, bytes: nat): Lane
    requires l.fence.Some?
  {
    var f := l.fence.value;
    l.(fence := Some(f.(pending := f.pending + [PendingPatch(p, false)], pendingBytes := bytes,
                        expectedRev := p.syncRev)))
  }

  function Reached(l: Lane, p: Patch): Lane {
    l.(frames := l.frames + [PatchFrame(p)], cut := p.syncRev)
  }

  lemma QueuedKeepsFull(t: FullWorld, p: Patch, bytes: nat)
    requires FullSound(t) && FenceOpen(t.world.lane)
    requires p.baseRev == t.world.headRev == t.world.lane.fence.value.expectedRev < p.syncRev
    ensures FullSound(AfterPatch(t, Waiting(t.world.lane, p, bytes), p))
  {
    var w, l, f := t.world, t.world.lane, t.world.lane.fence.value;
    WholeQueued(w.snapshot, f.pending, p, w.auth);
    if t.pulled && l.cut == f.cutRev { WholeQueued(Replica(l), f.pending, p, w.auth); }
  }

  lemma SentKeepsFull(t: FullWorld, p: Patch)
    requires FullSound(t) && t.world.lane.fence.None? && p.baseRev == t.world.headRev < p.syncRev
    requires t.world.lane.cut != 0 ==> t.world.lane.cut == t.world.headRev
    ensures FullSound(AfterPatch(t, Reached(t.world.lane, p), p))
  {
    var w, l := t.world, t.world.lane;
    ReplicaAppend(l, PatchFrame(p));
    if t.pulled { WholeApply(Replica(l), w.auth, p); }
  }

  /** The lane is left behind the head: nothing went out, and a fence was left or spoilt. */
  predicate Lags(l: Lane, lane: Lane) {
    && lane.window == l.window && lane.cut == l.cut
    && (lane.fence == l.fence || (l.fence.Some? && lane.fence == Some(InvalidatedFence(l.fence.value))))
  }

  lemma LagKeepsFull(t: FullWorld, lane: Lane, p: Patch)
    requires FullSound(t) && Lags(t.world.lane, lane) && t.world.headRev < p.syncRev
    ensures FullSound(AfterPatch(t, lane, p))
  {
  }

  /** A patch on its way to a full connection, live or the commit of a detail, never goes as a no-op. */
  lemma PatchGoesWhole(l: Lane, op: LossyOp, w: World, enc: Encoder)
    requires w.lane == l && OfferedWhole(w, op) && (op.SendLive? || op.SendCommit?) && !l.window && l.cut <= w.headRev
    ensures var lane := StepLossy(w, op, enc).lane;
            || Lags(l, lane)
            || (l.fence.None? && (l.cut == 0 || l.cut == w.headRev) && lane == Reached(l, op.patch))
            || (FenceOpen(l) && l.fence.value.expectedRev == w.headRev
                && lane == Waiting(l, op.patch, l.fence.value.pendingBytes + enc(op.patch)))
  {
  }

  lemma PatchKeepsFull(t: FullWorld, op: LossyOp, enc: Encoder)
    requires FullSound(t) && OfferedWhole(t.world, op) && (op.SendLive? || op.SendCommit?)
    ensures FullSound(StepFull(t, op, enc))
  {
    var l, p, lane := t.world.lane, op.patch, StepLossy(t.world, op, enc).lane;
    PatchGoesWhole(l, op, t.world, enc);
    assert StepFull(t, op, enc) == AfterPatch(t, lane, p);
    if Lags(l, lane) {
      LagKeepsFull(t, lane, p);
    } else if l.fence.None? {
      SentKeepsFull(t, p);
    } else {
      QueuedKeepsFull(t, p, l.fence.value.pendingBytes + enc(p));
    }
  }

  lemma {:induction false} UndecidedNone(pending: seq<PendingPatch>, held: set<TurnId>, scalar: bool)
    requires forall pp | pp in pending :: !pp.decide
    ensures Resolve(pending, held, scalar) == FullPatches(pending)
  {
    var a, b := Resolve(pending, held, scalar), FullPatches(pending);
    forall i | 0 <= i < |a| ensures a[i] == b[i] {
      assert pending[i] in pending;
    }
  }

  /** What a whole response, or none where there was one before, and the patches behind it make of the copy. */
  lemma PageThenPatchesWhole(copy: Turns, snapshot: Turns, response: Response, ps: seq<Patch>, auth: Turns)
    requires Whole(ApplyPatches(snapshot, ps), auth)
    requires if response.Some? then response.value == snapshot else Whole(ApplyPatches(copy, ps), auth)
    ensures Whole(ApplyPatches(copy + PageOf(response), ps), auth)
  {
    var start := copy + PageOf(response);
    if response.Some? {
      WholeApplies(start, snapshot, ps);
      WholeThrough(ApplyPatches(start, ps), ApplyPatches(snapshot, ps), auth);
    } else {
      assert start == copy;
    }
  }

  lemma UndecidedFrames(l: Lane, response: Response, heldIds: seq<TurnId>, scalar: bool, free: nat)
    requires FenceOpen(l) && free > |l.fence.value.pending|
    requires forall pp | pp in l.fence.value.pending :: !pp.decide
    ensures var f := l.fence.value;
            CompleteLane(l, response, heldIds, scalar, free).frames ==
            l.frames + [ResultFrame(f.cutRev, response, true)] + PatchFrames(FullPatches(f.pending))
  {
    UndecidedNone(l.fence.value.pending, l.held + NonEmptyIds(heldIds), scalar);
  }

  /** A usable response puts the lane at its fence's end with everything that waited. */
  lemma UsableReleases(l: Lane, response: Response, heldIds: seq<TurnId>, scalar: bool, free: nat)
    requires FenceOpen(l) && free > |l.fence.value.pending|
    requires forall pp | pp in l.fence.value.pending :: !pp.decide
    ensures var f, lane := l.fence.value, CompleteLane(l, response, heldIds, scalar, free);
            && lane.window == l.window && lane.fence.None? && lane.cut == f.expectedRev
            && Replica(lane) == ApplyPatches(Replica(l) + PageOf(response), FullPatches(f.pending))
  {
    var f, lane := l.fence.value, CompleteLane(l, response, heldIds, scalar, free);
    UndecidedFrames(l, response, heldIds, scalar, free);
    ReplicaAfterSnapshot(l, f.cutRev, response, FullPatches(f.pending));
  }

  lemma ReleasedSound(t: FullWorld, lane: Lane, response: Response)
    requires FullSound(t) && FenceOpen(t.world.lane) && (response.Some? ==> response.value == t.world.snapshot)
    requires !lane.window && lane.fence.None? && lane.cut == t.world.lane.fence.value.expectedRev
    requires Replica(lane) ==
             ApplyPatches(Replica(t.world.lane) + PageOf(response), FullPatches(t.world.lane.fence.value.pending))
    ensures var w, l := t.world, t.world.lane;
            var pulled := response.Some? || (t.pulled && l.cut == l.fence.value.cutRev);
            FullSound(FullWorld(w.(lane := lane), pulled && (lane.cut != 0 || w.headRev == 0)))
  {
    var w, f := t.world, t.world.lane.fence.value;
    if f.expectedRev == w.headRev && (response.Some? || (t.pulled && w.lane.cut == f.cutRev)) {
      PageThenPatchesWhole(Replica(w.lane), w.snapshot, response, FullPatches(f.pending), w.auth);
    }
  }

  /** A completion moves the lane alone. */
  lemma ClosedWorld(t: FullWorld, op: LossyOp, enc: Encoder)
    requires op.CloseSnapshot? && FenceOpen(t.world.lane) && op.freeSlots > |t.world.lane.fence.value.pending|
    ensures var w, l := t.world, t.world.lane;
            var lane := CompleteLane(l, op.response, op.heldIds, op.scalar, op.freeSlots);
            var pulled := op.response.Some? || (t.pulled && l.cut == l.fence.value.cutRev);
            StepFull(t, op, enc) == FullWorld(w.(lane := lane), pulled && (lane.cut != 0 || w.headRev == 0))
  {
  }

  lemma UsableKeepsFull(t: FullWorld, op: LossyOp, enc: Encoder)
    requires FullSound(t) && OfferedWhole(t.world, op) && op.CloseSnapshot? && FenceOpen(t.world.lane)
    requires op.freeSlots > |t.world.lane.fence.value.pending|
    ensures FullSound(StepFull(t, op, enc))
  {
    var lane := CompleteLane(t.world.lane, op.response, op.heldIds, op.scalar, op.freeSlots);
    UsableReleases(t.world.lane, op.response, op.heldIds, op.scalar, op.freeSlots);
    ReleasedSound(t, lane, op.response);
    ClosedWorld(t, op, enc);
  }

  lemma StepKeepsFull(t: FullWorld, op: LossyOp, enc: Encoder)
    requires FullSound(t) && OfferedWhole(t.world, op)
    ensures FullSound(StepFull(t, op, enc))
  {
    match op
    case SendLive(_, _, _) => PatchKeepsFull(t, op, enc);
    case SendPrepend(_, _, _) =>
    case SendCommit(_, _, _) => PatchKeepsFull(t, op, enc);
    case OpenSnapshot(_, _) =>
    case CloseSnapshot(_, _, _, free) =>
      var l := t.world.lane;
      if FenceOpen(l) && free > |l.fence.value.pending| { UsableKeepsFull(t, op, enc); }
  }

  lemma {:induction false} RunKeepsFull(auth: Turns, headRev: nat, ops: seq<LossyOp>, enc: Encoder)
    requires AllOfferedWhole(FullStart(auth, headRev), ops, enc)
    ensures FullSound(RunFull(FullStart(auth, headRev), ops, enc))
  {
    if ops != [] {
      RunKeepsFull(auth, headRev, ops[..|ops| - 1], enc);
      StepKeepsFull(RunFull(FullStart(auth, headRev), ops[..|ops| - 1], enc), ops[|ops| - 1], enc);
    }
  }

  /**
   * Over every run, whatever is refused, withheld or dropped: a full connection that was brought the session once
   * and stands at its revision has every turn of the session as it is.
   */
  lemma FullAgreement(auth: Turns, headRev: nat, ops: seq<LossyOp>, enc: Encoder)
    requires AllOfferedWhole(FullStart(auth, headRev), ops, enc)
    ensures var t := RunFull(FullStart(auth, headRev), ops, enc);
            t.pulled && t.world.lane.cut == t.world.headRev ==>
              forall id | id in t.world.auth :: Lookup(Replica(t.world.lane), id) == Some(t.world.auth[id])
  {
    RunKeepsFull(auth, headRev, ops, enc);
  }

  // ---- Undisturbed, it stays there ----

  /** Nothing is refused or withheld, and a pull succeeds and finds room for all of its batch. */
  ghost predicate Undisturbed(w: World, op: LossyOp) {
    match op
    case SendLive(_, observed, accepts) => observed && accepts
    case SendPrepend(_, _, _) => false
    case SendCommit(_, _, accepts) => accepts
    case OpenSnapshot(_, _) => true
    case CloseSnapshot(response, _, _, free) =>
      response.Some? && (w.lane.fence.Some? ==> free > |w.lane.fence.value.pending|)
  }

  /** Each call is offered and undisturbed where it happens, and what waits behind a fence stays within its limits. */
  ghost predicate CleanFull(t: FullWorld, ops: seq<LossyOp>, enc: Encoder) {
    ops != [] ==>
      var before := RunFull(t, ops[..|ops| - 1], enc);
      && CleanFull(t, ops[..|ops| - 1], enc)
      && OfferedWhole(before.world, ops[|ops| - 1]) && Undisturbed(before.world, ops[|ops| - 1])
      && !FenceOverflowed(RunFull(t, ops, enc).world)
  }

  /** The lane, or the open fence before it, stands at the head. */
  ghost predicate AtHead(w: World) {
    var l := w.lane;
    match l.fence
    case None => !l.invalidated && l.cut == w.headRev
    case Some(f) => !f.invalidated && f.expectedRev == w.headRev
  }

  ghost predicate KeepsUp(t: FullWorld) {
    AtHead(t.world) && (t.world.lane.fence.None? ==> t.pulled)
  }

  lemma StaysAtHead(w: World, op: LossyOp, enc: Encoder)
    requires !w.lane.window && AtHead(w) && OfferedWhole(w, op) && Undisturbed(w, op)
    requires !FenceOverflowed(StepLossy(w, op, enc))
    ensures AtHead(StepLossy(w, op, enc))
  {
    if op.SendLive? || op.SendCommit? {
      if w.lane.fence.Some? {
        var fence := AppendFence(w.lane.fence.value, op.patch, false, enc);
        assert StepLossy(w, op, enc).lane == w.lane.(fence := Some(fence));
      } else {
        assert StepLossy(w, op, enc).lane == Reached(w.lane, op.patch);
      }
    }
  }

  lemma StepKeepsUp(t: FullWorld, op: LossyOp, enc: Encoder)
    requires FullSound(t) && KeepsUp(t) && OfferedWhole(t.world, op) && Undisturbed(t.world, op)
    requires !FenceOverflowed(StepFull(t, op, enc).world)
    ensures KeepsUp(StepFull(t, op, enc))
  {
    StaysAtHead(t.world, op, enc);
  }

  lemma {:induction false} CleanKeepsUp(t: FullWorld, ops: seq<LossyOp>, enc: Encoder)
    requires FullSound(t) && KeepsUp(t) && CleanFull(t, ops, enc)
    ensures FullSound(RunFull(t, ops, enc)) && KeepsUp(RunFull(t, ops, enc))
  {
    if ops != [] {
      CleanKeepsUp(t, ops[..|ops| - 1], enc);
      StepKeepsUp(RunFull(t, ops[..|ops| - 1], enc), ops[|ops| - 1], enc);
      StepKeepsFull(RunFull(t, ops[..|ops| - 1], enc), ops[|ops| - 1], enc);
    }
  }

  /**
   * After any run at all, a full connection that pulls and is then left undisturbed stands at the head, with every
   * turn of the session, whenever no pull is in flight.
   */
  lemma FullConnectionsKeepUp(auth: Turns, headRev: nat, before: seq<LossyOp>, id: nat, generation: nat,
                              ops: seq<LossyOp>, enc: Encoder)
    requires AllOfferedWhole(FullStart(auth, headRev), before, enc)
    requires RunFull(FullStart(auth, headRev), before, enc).world.lane.fence.None?
    requires var pulling := StepFull(RunFull(FullStart(auth, headRev), before, enc), OpenSnapshot(id, generation), enc);
             CleanFull(pulling, ops, enc)
    ensures var pulling := StepFull(RunFull(FullStart(auth, headRev), before, enc), OpenSnapshot(id, generation), enc);
            var w := RunFull(pulling, ops, enc).world;
            w.lane.fence.None? ==>
              && w.lane.cut == w.headRev && !w.lane.invalidated
              && forall turn | turn in w.auth :: Lookup(Replica(w.lane), turn) == Some(w.auth[turn])
  {
    var t := RunFull(FullStart(auth, headRev), before, enc);
    RunKeepsFull(auth, headRev, before, enc);
    StepKeepsFull(t, OpenSnapshot(id, generation), enc);
    CleanKeepsUp(StepFull(t, OpenSnapshot(id, generation), enc), ops, enc);
  }

  // ---- What one commit brings one connection ----

  /** The connection asked for the detail, takes whole sessions, or holds one of the commit's turns. */
  ghost predicate GetsContent(l: Lane, p: Patch, requester: bool, held: set<TurnId>) {
    requester || !l.window || !(held !! PatchTurnIds(p))
  }

  /** A connection at the head with no pull in flight is sent the commit itself, or a no-op along its chain. */
  lemma CommitOutsideFence(w: World, p: Patch, requester: bool, enc: Encoder)
    requires AtHead(w) && w.lane.fence.None? && p.baseRev == w.headRev < p.syncRev
    ensures var l, next := w.lane, StepLossy(w, SendCommit(p, requester, true), enc);
            var content := GetsContent(l, p, requester, l.held);
            next.lane ==
            if !content && l.cut == 0 then l
            else l.(cut := p.syncRev,
                    frames := l.frames + [PatchFrame(if content then p else NoOpPatch(w.headRev, p.syncRev))])
  {
    assert HoldsAny(w.lane.held, p) <==> !(w.lane.held !! PatchTurnIds(p));
  }

  lemma ContentOverCopy(l: Lane, after: Lane, p: Patch, auth: Turns)
    requires after.frames == l.frames + [PatchFrame(p)] && AgreeOn(Replica(l), auth, PatchTurnIds(p))
    ensures AgreeOn(Replica(after), ApplyPatch(auth, p), PatchTurnIds(p))
  {
    ReplicaAppend(l, PatchFrame(p));
    AgreeApply(Replica(l), auth, p, PatchTurnIds(p));
  }

  /** Whoever gets the content has the commit's turns as the session has them, if it had before. */
  lemma ContentArrives(w: World, p: Patch, requester: bool, enc: Encoder)
    requires AtHead(w) && w.lane.fence.None? && p.baseRev == w.headRev < p.syncRev
    requires GetsContent(w.lane, p, requester, w.lane.held) && AgreeOn(Replica(w.lane), w.auth, PatchTurnIds(p))
    ensures var next := StepLossy(w, SendCommit(p, requester, true), enc);
            next.lane.cut == p.syncRev && AgreeOn(Replica(next.lane), next.auth, PatchTurnIds(p))
  {
    CommitOutsideFence(w, p, requester, enc);
    ContentOverCopy(w.lane, StepLossy(w, SendCommit(p, requester, true), enc).lane, p, w.auth);
  }

  /** Anyone else keeps the copy it has, to the letter, and still follows the session's revision. */
  lemma BystanderKeepsCopy(w: World, p: Patch, enc: Encoder)
    requires AtHead(w) && w.lane.fence.None? && p.baseRev == w.headRev < p.syncRev
    requires w.lane.window && w.lane.held !! PatchTurnIds(p)
    ensures var next := StepLossy(w, SendCommit(p, false, true), enc);
            && Replica(next.lane) == Replica(w.lane) && next.lane.held == w.lane.held
            && next.lane.cut == if w.lane.cut == 0 then 0 else p.syncRev
  {
    CommitOutsideFence(w, p, false, enc);
    ReplicaAppend(w.lane, PatchFrame(NoOpPatch(w.headRev, p.syncRev)));
    NoOpChangesNothing(Replica(w.lane), w.headRev, p.syncRev);
  }

  /** What is left of a commit for a connection without its turns: the revision, and the scalar when negotiated. */
  function RevisionOnly(p: Patch, scalar: bool): Patch {
    Patch(p.baseRev, p.syncRev, if scalar then p.execution else None, [], [], [], p.removedTurnIds)
  }

  /** The open fence stands where the commit builds, with room for it among its 128 patches and its 2 MiB. */
  ghost predicate RoomBehindFence(l: Lane, p: Patch, enc: Encoder) {
    && FenceOpen(l) && l.fence.value.expectedRev == p.baseRev < p.syncRev
    && |l.fence.value.pending| < 128 && l.fence.value.pendingBytes + enc(p) <= 2_097_152
  }

  lemma CommitWaits(l: Lane, p: Patch, requester: bool, accepts: bool, enc: Encoder) returns (decide: bool)
    requires RoomBehindFence(l, p, enc)
    ensures var f, next := l.fence.value, CommitLane(l, p, requester, accepts, enc);
            next == l.(fence := Some(f.(pending := f.pending + [PendingPatch(p, decide)],
                                        pendingBytes := f.pendingBytes + enc(p), expectedRev := p.syncRev)))
    ensures decide <==> !GetsContent(l, p, requester, l.held)
  {
    decide := !GetsContent(l, p, requester, l.held);
    assert HoldsAny(l.held, p) <==> !(l.held !! PatchTurnIds(p));
  }

  lemma ResolveSnoc(pending: seq<PendingPatch>, pp: PendingPatch, held: set<TurnId>, scalar: bool)
    ensures Resolve(pending + [pp], held, scalar) == Resolve(pending, held, scalar) + [ResolveOne(pp, held, scalar)]
  {
    assert (pending + [pp])[..|pending|] == pending;
  }

  lemma PatchFramesSnoc(fs: seq<Frame>, ps: seq<Patch>, p: Patch)
    ensures fs + PatchFrames(ps + [p]) == (fs + PatchFrames(ps)) + [PatchFrame(p)]
  {
    assert (ps + [p])[..|ps|] == ps;
  }

  /** What completing a pull sends, with the commit behind its fence and without. */
  lemma WaitedFrames(l: Lane, p: Patch, requester: bool, accepts: bool, response: Response, heldIds: seq<TurnId>,
                     scalar: bool, free: nat, enc: Encoder)
    requires RoomBehindFence(l, p, enc) && free > |l.fence.value.pending| + 1
    ensures var with := CompleteLane(CommitLane(l, p, requester, accepts, enc), response, heldIds, scalar, free);
            var without := CompleteLane(l, response, heldIds, scalar, free);
            var content := GetsContent(l, p, requester, l.held + NonEmptyIds(heldIds));
            && with.fence.None? && with.cut == p.syncRev
            && with.frames == without.frames + [PatchFrame(if content then p else RevisionOnly(p, scalar))]
  {
    var f, held := l.fence.value, l.held + NonEmptyIds(heldIds);
    var decide := CommitWaits(l, p, requester, accepts, enc);
    var pp := PendingPatch(p, decide);
    assert HoldsAny(held, p) <==> !(held !! PatchTurnIds(p));
    ResolveSnoc(f.pending, pp, held, scalar);
    PatchFramesSnoc(l.frames + [ResultFrame(f.cutRev, response, true)], Resolve(f.pending, held, scalar),
                    ResolveOne(pp, held, scalar));
  }

  /** The world once a pull in flight has completed, after a commit behind it or without one. */
  function Completed(w: World, response: Response, heldIds: seq<TurnId>, scalar: bool, free: nat, enc: Encoder): World {
    StepLossy(w, CloseSnapshot(response, heldIds, scalar, free), enc)
  }

  lemma LanesCompleted(w: World, p: Patch, requester: bool, accepts: bool, response: Response, heldIds: seq<TurnId>,
                       scalar: bool, free: nat, enc: Encoder)
    ensures Completed(w, response, heldIds, scalar, free, enc).lane ==
            CompleteLane(w.lane, response, heldIds, scalar, free)
    ensures var next := StepLossy(w, SendCommit(p, requester, accepts), enc);
            Completed(next, response, heldIds, scalar, free, enc).lane ==
            CompleteLane(CommitLane(w.lane, p, requester, accepts, enc), response, heldIds, scalar, free)
  {
  }

  /**
   * A commit that meets a pull in flight waits behind its response; completing the pull then sends it whole to
   * those that get its content, those that hold a turn only since that page included, and as a revision to others.
   */
  lemma CommitBehindFence(w: World, p: Patch, requester: bool, accepts: bool, response: Response, heldIds: seq<TurnId>,
                          scalar: bool, free: nat, enc: Encoder)
    requires RoomBehindFence(w.lane, p, enc) && free > |w.lane.fence.value.pending| + 1
    ensures var next := StepLossy(w, SendCommit(p, requester, accepts), enc);
            var with := Completed(next, response, heldIds, scalar, free, enc).lane;
            var without := Completed(w, response, heldIds, scalar, free, enc).lane;
            var content := GetsContent(w.lane, p, requester, w.lane.held + NonEmptyIds(heldIds));
            && with.fence.None? && with.cut == p.syncRev
            && with.frames == without.frames + [PatchFrame(if content then p else RevisionOnly(p, scalar))]
  {
    LanesCompleted(w, p, requester, accepts, response, heldIds, scalar, free, enc);
    WaitedFrames(w.lane, p, requester, accepts, response, heldIds, scalar, free, enc);
  }

  lemma RevisionOverCopy(l: Lane, p: Patch, scalar: bool)
    requires p.removedTurnIds == []
    ensures ApplyFrames(map[], l.frames + [PatchFrame(RevisionOnly(p, scalar))]) == Replica(l)
  {
    ReplicaAppend(l, PatchFrame(RevisionOnly(p, scalar)));
    assert Replica(l) - {} == Replica(l);
  }

  /** So it is with the copies: behind a pull too, the content arrives where it is owed and nowhere else. */
  lemma CopiesBehindFence(w: World, p: Patch, requester: bool, accepts: bool, response: Response, heldIds: seq<TurnId>,
                          scalar: bool, free: nat, enc: Encoder)
    requires RoomBehindFence(w.lane, p, enc) && free > |w.lane.fence.value.pending| + 1 && p.removedTurnIds == []
    ensures var next := StepLossy(w, SendCommit(p, requester, accepts), enc);
            var with := Completed(next, response, heldIds, scalar, free, enc);
            var without := Completed(w, response, heldIds, scalar, free, enc);
            if GetsContent(w.lane, p, requester, w.lane.held + NonEmptyIds(heldIds)) then
              AgreeOn(Replica(without.lane), without.auth, PatchTurnIds(p)) ==>
                AgreeOn(Replica(with.lane), with.auth, PatchTurnIds(p))
            else Replica(with.lane) == Replica(without.lane)
  {
    var next := StepLossy(w, SendCommit(p, requester, accepts), enc);
    var without := Completed(w, response, heldIds, scalar, free, enc);
    var with := Completed(next, response, heldIds, scalar, free, enc);
    CommitBehindFence(w, p, requester, accepts, response, heldIds, scalar, free, enc);
    if GetsContent(w.lane, p, requester, w.lane.held + NonEmptyIds(heldIds)) {
      if AgreeOn(Replica(without.lane), without.auth, PatchTurnIds(p)) {
        ContentOverCopy(without.lane, with.lane, p, without.auth);
      }
    } else {
      RevisionOverCopy(without.lane, p, scalar);
    }
  }
}
