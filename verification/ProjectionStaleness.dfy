/**
 * Replica agreement over every run, whatever is refused, withheld or dropped: the turns whose authority changed
 * unseen since their last page are tracked, and the copy of every other held turn is the authoritative one.
 */
module ProjectionStaleness {
  import opened Options
  import opened ProjectionTypes
  import opened ProjectionLane
  import opened ProjectionReplica

  /** The calls that reach a window connection, with what queue and filter make of them. */
  datatype LossyOp =
    | SendLive(patch: Patch, observed: bool, accepts: bool)
    | SendPrepend(turns: Turns, syncRev: nat, accepts: bool)
    | SendCommit(patch: Patch, requester: bool, accepts: bool)
    | OpenSnapshot(id: nat, generation: nat)
    | CloseSnapshot(response: Response, heldIds: seq<TurnId>, scalar: bool, freeSlots: nat)

  /** Detail commits remove no turn, and a page is cut from the snapshot and carries the turns it records. */
  ghost predicate Offered(w: World, op: LossyOp) {
    match op
    case SendCommit(p, _, _) => p.removedTurnIds == []
    case CloseSnapshot(response, ids, _, _) =>
      var page := PageOf(response);
      && page.Keys <= w.snapshot.Keys && (forall id | id in page :: page[id] == w.snapshot[id])
      && (forall id | id in ids && id != "" :: id in page)
    case _ => true
  }

  function LaneOpFor(w: World, op: LossyOp): LaneOp {
    match op
    case SendLive(p, observed, accepts) => Live(p, observed, accepts)
    case SendPrepend(_, rev, accepts) => Prepend(rev, false, accepts)
    case SendCommit(p, requester, accepts) => Commit(p, requester, accepts)
    case OpenSnapshot(id, generation) => Begin(id, generation, w.headRev)
    case CloseSnapshot(response, ids, scalar, free) => Complete(response, ids, scalar, free)
  }

  function NextAuth(auth: Turns, op: LossyOp): Turns {
    match op
    case SendLive(p, _, _) => ApplyPatch(auth, p)
    case SendPrepend(turns, _, _) => auth + turns
    case SendCommit(p, _, _) => ApplyPatch(auth, p)
    case _ => auth
  }

  function NextRev(rev: nat, op: LossyOp): nat {
    match op
    case SendLive(p, _, _) => p.syncRev
    case SendPrepend(_, syncRev, _) => syncRev
    case SendCommit(p, _, _) => p.syncRev
    case _ => rev
  }

  function StepLossy(w: World, op: LossyOp, enc: Encoder): World {
    World(StepLane(w.lane, LaneOpFor(w, op), enc), NextAuth(w.auth, op), NextRev(w.headRev, op),
          if op.OpenSnapshot? && w.lane.fence.None? then w.auth else w.snapshot)
  }

  // ---- What is tracked ----

  predicate FenceOpen(l: Lane) {
    l.fence.Some? && !l.fence.value.invalidated
  }

  /** The copy as it will be once what waits behind an open fence has gone out. */
  function Copy(l: Lane): Turns {
    if FenceOpen(l) then ApplyPatches(Replica(l), FullPatches(l.fence.value.pending)) else Replica(l)
  }

  /** The open fence's snapshot with the same applied. */
  function View(w: World): Turns {
    if FenceOpen(w.lane) then ApplyPatches(w.snapshot, FullPatches(w.lane.fence.value.pending)) else w.snapshot
  }

  function Changed(a: Turns, b: Turns, ids: set<TurnId>): set<TurnId> {
    set id | id in ids && !SameTurn(a, b, id)
  }

  /** `stale` are the held turns changed unseen since their last page, `behind` those of the open fence's snapshot. */
  datatype Tracked = Tracked(world: World, stale: set<TurnId>, behind: set<TurnId>)

  /** Whether the call put its patch behind the open fence or in the queue. */
  predicate Took(l: Lane, after: Lane, op: LossyOp) {
    && (op.SendLive? || op.SendCommit?)
    && if FenceOpen(l) then FenceOpen(after) && |after.fence.value.pending| > |l.fence.value.pending|
       else |after.frames| > |l.frames| && after.frames[|after.frames| - 1] == PatchFrame(op.patch)
  }

  predicate Dropped(l: Lane, after: Lane) {
    FenceOpen(l) && !FenceOpen(after)
  }

  /** What a page leaves stale: an unusable one what changed since its snapshot, a usable one what changed unseen. */
  function AfterPage(t: Tracked, page: Turns): set<TurnId> {
    (t.stale - page.Keys)
    + if FenceOpen(t.world.lane) then page.Keys * t.behind else Changed(t.world.snapshot, t.world.auth, page.Keys)
  }

  function NextStale(t: Tracked, op: LossyOp, next: World): set<TurnId> {
    var w, l, held := t.world, t.world.lane, next.lane.held;
    if op.CloseSnapshot? then (if l.fence.None? then t.stale else AfterPage(t, PageOf(op.response)) * held)
    else if Took(l, next.lane, op) then t.stale * held
    else (t.stale + Changed(if Dropped(l, next.lane) then w.snapshot else w.auth, next.auth, l.held)) * held
  }

  function NextBehind(t: Tracked, op: LossyOp, next: World): set<TurnId> {
    if op.OpenSnapshot? && t.world.lane.fence.None? then {}
    else if Took(t.world.lane, next.lane, op) then t.behind
    else t.behind + Changed(t.world.auth, next.auth, t.world.snapshot.Keys)
  }

  function Track(t: Tracked, op: LossyOp, enc: Encoder): Tracked {
    var next := StepLossy(t.world, op, enc);
    Tracked(next, NextStale(t, op, next), NextBehind(t, op, next))
  }

  function TrackAll(t: Tracked, ops: seq<LossyOp>, enc: Encoder): Tracked {
    if ops == [] then t else Track(TrackAll(t, ops[..|ops| - 1], enc), ops[|ops| - 1], enc)
  }

  ghost predicate AllOffered(t: Tracked, ops: seq<LossyOp>, enc: Encoder) {
    ops != [] ==>
      AllOffered(t, ops[..|ops| - 1], enc) && Offered(TrackAll(t, ops[..|ops| - 1], enc).world, ops[|ops| - 1])
  }

  /** Outside the tracked sets everything agrees. */
  ghost predicate Sound(t: Tracked) {
    var w, l := t.world, t.world.lane;
    && l.window && "" !in l.held && t.stale <= l.held
    && AgreeOn(Copy(l), w.auth, l.held - t.stale)
    && (FenceOpen(l) ==>
          && AgreeOn(View(w), w.auth, w.snapshot.Keys - t.behind)
          && AgreeOn(Replica(l), w.snapshot, l.held - t.stale)
          && forall pp | pp in l.fence.value.pending && pp.decide :: !HoldsAny(l.held, pp.patch))
  }

  // ---- What a send does to a lane ----

  /** Nothing on its way changed; the marks may have. */
  predicate Still(l: Lane, after: Lane) {
    after.window == l.window && after.held == l.held && after.fence == l.fence && after.frames == l.frames
  }

  predicate Queued(l: Lane, after: Lane, pp: PendingPatch) {
    && after.window == l.window && after.held == l.held && after.frames == l.frames
    && FenceOpen(l) && FenceOpen(after) && after.fence.value.pending == l.fence.value.pending + [pp]
  }

  predicate Sent(l: Lane, after: Lane, p: Patch) {
    && after.window == l.window && after.held == l.held && after.frames == l.frames + [PatchFrame(p)]
    && l.fence.None? && after.fence.None?
  }

  predicate Spoilt(l: Lane, after: Lane) {
    && after.window == l.window && after.held == l.held && after.frames == l.frames
    && Dropped(l, after)
  }

  predicate Forgotten(l: Lane, after: Lane) {
    after.window == l.window && after.held == {} && after.fence == l.fence && l.fence.None?
  }

  /** A patch sent to a lane goes out, waits, spoils the fence, clears the lane, or has no effect. */
  predicate Outcome(l: Lane, after: Lane, p: Patch, decide: bool) {
    || Still(l, after) || Queued(l, after, PendingPatch(p, decide)) || Sent(l, after, p) || Spoilt(l, after)
    || Forgotten(l, after)
  }

  lemma SingleOutcome(l: Lane, p: Patch, accepts: bool, enc: Encoder)
    ensures Outcome(l, DeliverSingle(l, p, accepts, enc), p, false)
  {
  }

  lemma LiveOutcome(l: Lane, p: Patch, observed: bool, accepts: bool, enc: Encoder)
    ensures Outcome(l, DeliverLive(l, p, observed, accepts, enc), p, false)
  {
  }

  lemma PrependOutcome(l: Lane, rev: nat, accepts: bool, enc: Encoder) returns (p: Patch)
    requires l.window
    ensures p == NoOpPatch(p.baseRev, p.syncRev) && Outcome(l, PrependLane(l, rev, false, accepts, enc), p, false)
  {
    var base := if FenceOpen(l) then l.fence.value.expectedRev else l.cut;
    p := NoOpPatch(base, rev);
    SingleOutcome(l, p, accepts, enc);
  }

  lemma CommitOutcome(l: Lane, p: Patch, requester: bool, accepts: bool, enc: Encoder)
    returns (q: Patch, decide: bool)
    requires l.window
    ensures Outcome(l, CommitLane(l, p, requester, accepts, enc), q, decide)
    ensures q == p || (!FenceOpen(l) && q == NoOpPatch(q.baseRev, q.syncRev) && !decide)
    ensures decide ==> !HoldsAny(l.held, q)
  {
    q, decide := p, false;
    if requester || HoldsAny(l.held, p) {
      SingleOutcome(l, p, accepts, enc);
    } else if FenceOpen(l) {
      decide := true;
    } else if l.cut != 0 && l.cut < p.syncRev {
      q := NoOpPatch(l.cut, p.syncRev);
      SingleOutcome(l, q, accepts, enc);
    }
  }

  // ---- Each outcome keeps the sets sound ----

  /** A change the copy does not see spoils agreement on the changed turns only. */
  lemma MissAgrees(copy: Turns, auth: Turns, changed: Turns, ids: set<TurnId>, stale: set<TurnId>)
    requires AgreeOn(copy, auth, ids - stale)
    ensures AgreeOn(copy, changed, ids - (stale + Changed(auth, changed, ids)))
  {
    forall id | id in ids - (stale + Changed(auth, changed, ids)) ensures SameTurn(copy, changed, id) {
      assert SameTurn(copy, auth, id);
    }
  }

  /** The tracked state after a send, from the lane, the authority and the revision it led to. */
  function Missed(t: Tracked, lane: Lane, auth: Turns, rev: nat): Tracked {
    var w := t.world;
    Tracked(World(lane, auth, rev, w.snapshot), (t.stale + Changed(w.auth, auth, w.lane.held)) * lane.held,
            t.behind + Changed(w.auth, auth, w.snapshot.Keys))
  }

  function Taken(t: Tracked, lane: Lane, auth: Turns, rev: nat): Tracked {
    Tracked(World(lane, auth, rev, t.world.snapshot), t.stale * lane.held, t.behind)
  }

  lemma StillSound(t: Tracked, lane: Lane, auth: Turns, rev: nat)
    requires Sound(t) && Still(t.world.lane, lane)
    ensures Sound(Missed(t, lane, auth, rev))
  {
    var w, l := t.world, t.world.lane;
    MissAgrees(Copy(l), w.auth, auth, l.held, t.stale);
    if FenceOpen(l) { MissAgrees(View(w), w.auth, auth, w.snapshot.Keys, t.behind); }
  }

  lemma QueuedNoOpSound(t: Tracked, lane: Lane, q: Patch, auth: Turns, rev: nat)
    requires Sound(t) && Queued(t.world.lane, lane, PendingPatch(q, false)) && q == NoOpPatch(q.baseRev, q.syncRev)
    ensures Sound(Missed(t, lane, auth, rev))
  {
    var w, l := t.world, t.world.lane;
    QueuedNoOpChangesNothing(Replica(l), l.fence.value.pending, q.baseRev, q.syncRev);
    QueuedNoOpChangesNothing(w.snapshot, l.fence.value.pending, q.baseRev, q.syncRev);
    MissAgrees(Copy(l), w.auth, auth, l.held, t.stale);
    MissAgrees(View(w), w.auth, auth, w.snapshot.Keys, t.behind);
  }

  lemma QueuedPatchSound(t: Tracked, lane: Lane, p: Patch, decide: bool, rev: nat)
    requires Sound(t) && Queued(t.world.lane, lane, PendingPatch(p, decide))
    requires decide ==> !HoldsAny(t.world.lane.held, p)
    ensures Sound(Taken(t, lane, ApplyPatch(t.world.auth, p), rev))
  {
    var w, l, f := t.world, t.world.lane, t.world.lane.fence.value;
    assert t.stale * lane.held == t.stale;
    AgreeQueued(Replica(l), f.pending, PendingPatch(p, decide), w.auth, l.held - t.stale);
    AgreeQueued(w.snapshot, f.pending, PendingPatch(p, decide), w.auth, w.snapshot.Keys - t.behind);
  }

  lemma SentNoOpSound(t: Tracked, lane: Lane, q: Patch, auth: Turns, rev: nat)
    requires Sound(t) && Sent(t.world.lane, lane, q) && q == NoOpPatch(q.baseRev, q.syncRev)
    ensures Sound(Missed(t, lane, auth, rev))
  {
    var w, l := t.world, t.world.lane;
    ReplicaAppend(l, PatchFrame(q));
    NoOpChangesNothing(Replica(l), q.baseRev, q.syncRev);
    MissAgrees(Copy(l), w.auth, auth, l.held, t.stale);
  }

  lemma SentPatchSound(t: Tracked, lane: Lane, p: Patch, rev: nat)
    requires Sound(t) && Sent(t.world.lane, lane, p)
    ensures Sound(Taken(t, lane, ApplyPatch(t.world.auth, p), rev))
  {
    var w, l := t.world, t.world.lane;
    assert t.stale * lane.held == t.stale;
    ReplicaAppend(l, PatchFrame(p));
    AgreeApply(Replica(l), w.auth, p, l.held - t.stale);
  }

  /** A fence spoilt drops what waited: the copy is back at the snapshot, outside the stale turns. */
  lemma SpoiltSound(t: Tracked, lane: Lane, auth: Turns, rev: nat, behind: set<TurnId>)
    requires Sound(t) && Spoilt(t.world.lane, lane)
    ensures var w := t.world;
            Sound(Tracked(World(lane, auth, rev, w.snapshot),
                          (t.stale + Changed(w.snapshot, auth, w.lane.held)) * lane.held, behind))
  {
    MissAgrees(Replica(t.world.lane), t.world.snapshot, auth, t.world.lane.held, t.stale);
  }

  /** Any send keeps the sets sound. */
  lemma SendSound(t: Tracked, op: LossyOp, q: Patch, decide: bool, enc: Encoder)
    requires Sound(t) && !op.OpenSnapshot? && !op.CloseSnapshot?
    requires Outcome(t.world.lane, StepLossy(t.world, op, enc).lane, q, decide)
    requires decide ==> !HoldsAny(t.world.lane.held, q)
    requires var noOp := q == NoOpPatch(q.baseRev, q.syncRev);
             if op.SendPrepend? then noOp && !decide else q == op.patch || (!FenceOpen(t.world.lane) && noOp && !decide)
    ensures Sound(Track(t, op, enc))
  {
    var next := StepLossy(t.world, op, enc);
    var l, lane := t.world.lane, next.lane;
    if Still(l, lane) {
      StillSound(t, lane, next.auth, next.headRev);
    } else if Queued(l, lane, PendingPatch(q, decide)) {
      if op.SendPrepend? {
        QueuedNoOpSound(t, lane, q, next.auth, next.headRev);
      } else {
        QueuedPatchSound(t, lane, q, decide, next.headRev);
      }
    } else if Sent(l, lane, q) {
      if !op.SendPrepend? && q == op.patch {
        SentPatchSound(t, lane, q, next.headRev);
      } else {
        SentNoOpSound(t, lane, q, next.auth, next.headRev);
      }
    } else if Spoilt(l, lane) {
      SpoiltSound(t, lane, next.auth, next.headRev, Track(t, op, enc).behind);
    }
  }

  lemma OpenSound(t: Tracked, op: LossyOp, enc: Encoder)
    requires Sound(t) && op.OpenSnapshot?
    ensures Sound(Track(t, op, enc))
  {
    var w, l := t.world, t.world.lane;
    assert NextAuth(w.auth, op) == w.auth && Changed(w.auth, w.auth, l.held) == {};
    assert Changed(w.auth, w.auth, w.snapshot.Keys) == {};
  }

  /** A fence that fails, or completes without room, leaves what it found or nothing. */
  lemma UnusableCloseSound(t: Tracked, op: LossyOp, enc: Encoder)
    requires Sound(t) && op.CloseSnapshot? && Offered(t.world, op) && !FenceOpen(t.world.lane)
    ensures Sound(Track(t, op, enc))
  {
    var w, l, page := t.world, t.world.lane, PageOf(op.response);
    var lane := StepLossy(w, op, enc).lane;
    if l.fence.Some? && lane.held != {} {
      ReplicaAfterUnusable(l, l.fence.value.cutRev, op.response);
      PageOverCopy(Replica(l), w.snapshot, w.auth, page, l.held, t.stale);
    }
  }

  lemma ReplicaAfterUnusable(l: Lane, rev: nat, response: Response)
    ensures ApplyFrames(map[], l.frames + [ResultFrame(rev, response, false), InvalidateFrame]) ==
            Replica(l) + PageOf(response)
  {
    var sent := l.(frames := l.frames + [ResultFrame(rev, response, false)]);
    ReplicaAppend(l, ResultFrame(rev, response, false));
    ReplicaAppend(sent, InvalidateFrame);
    assert sent.frames + [InvalidateFrame] == l.frames + [ResultFrame(rev, response, false), InvalidateFrame];
  }

  lemma PageOverCopy(copy: Turns, snapshot: Turns, auth: Turns, page: Turns, held: set<TurnId>, stale: set<TurnId>)
    requires AgreeOn(copy, auth, held - stale) && forall id | id in page :: id in snapshot && page[id] == snapshot[id]
    ensures AgreeOn(copy + page, auth, held - ((stale - page.Keys) + Changed(snapshot, auth, page.Keys)))
  {
    forall id | id in held - ((stale - page.Keys) + Changed(snapshot, auth, page.Keys))
      ensures SameTurn(copy + page, auth, id)
    {
      if id in page {
        assert SameTurn(snapshot, auth, id);
      } else {
        assert SameTurn(copy, auth, id);
      }
    }
  }

  lemma UsableCloseSound(t: Tracked, op: LossyOp, enc: Encoder)
    requires Sound(t) && op.CloseSnapshot? && Offered(t.world, op) && FenceOpen(t.world.lane)
    requires op.freeSlots >= RequiredSlots(t.world.lane.fence.value)
    ensures Sound(Track(t, op, enc))
  {
    var w, l, f, page := t.world, t.world.lane, t.world.lane.fence.value, PageOf(op.response);
    var held := l.held + NonEmptyIds(op.heldIds);
    var ids := held - AfterPage(t, page) * held;
    var ps := Resolve(f.pending, held, op.scalar);
    PageThenPatchesAgree(Replica(l), w.snapshot, page, f.pending, w.auth, l.held - t.stale, w.snapshot.Keys - t.behind,
                         held, ids, op.scalar);
    ReplicaAfterSnapshot(l, f.cutRev, op.response, ps);
  }

  lemma CloseSound(t: Tracked, op: LossyOp, enc: Encoder)
    requires Sound(t) && op.CloseSnapshot? && Offered(t.world, op)
    ensures Sound(Track(t, op, enc))
  {
    if !FenceOpen(t.world.lane) {
      UnusableCloseSound(t, op, enc);
    } else if op.freeSlots >= RequiredSlots(t.world.lane.fence.value) {
      UsableCloseSound(t, op, enc);
    }
  }

  /** Every call, whatever is refused, withheld or dropped, keeps the sets sound. */
  lemma StepKeepsSound(t: Tracked, op: LossyOp, enc: Encoder)
    requires Sound(t) && Offered(t.world, op)
    ensures Sound(Track(t, op, enc))
  {
    var l := t.world.lane;
    match op
    case SendLive(p, observed, accepts) =>
      LiveOutcome(l, p, observed, accepts, enc);
      SendSound(t, op, p, false, enc);
    case SendPrepend(turns, rev, accepts) =>
      var q := PrependOutcome(l, rev, accepts, enc);
      SendSound(t, op, q, false, enc);
    case SendCommit(p, requester, accepts) =>
      var q, decide := CommitOutcome(l, p, requester, accepts, enc);
      SendSound(t, op, q, decide, enc);
    case OpenSnapshot(_, _) => OpenSound(t, op, enc);
    case CloseSnapshot(_, _, _, _) => CloseSound(t, op, enc);
  }

  // ---- Only what is out of date enters ----

  lemma NoOpKeepsCopy(l: Lane, lane: Lane, q: Patch)
    requires q == NoOpPatch(q.baseRev, q.syncRev) && (Queued(l, lane, PendingPatch(q, false)) || Sent(l, lane, q))
    ensures Copy(lane) == Copy(l)
  {
    if Sent(l, lane, q) {
      ReplicaAppend(l, PatchFrame(q));
      NoOpChangesNothing(Replica(l), q.baseRev, q.syncRev);
    } else {
      QueuedNoOpChangesNothing(Replica(l), l.fence.value.pending, q.baseRev, q.syncRev);
    }
  }

  lemma TookIff(l: Lane, lane: Lane, op: LossyOp)
    requires op.SendLive? || op.SendCommit?
    ensures forall decide :: Queued(l, lane, PendingPatch(op.patch, decide)) ==> Took(l, lane, op)
    ensures Sent(l, lane, op.patch) ==> Took(l, lane, op)
  {
  }

  /** A send whose patch is not taken leaves the copy as it was, or back at the snapshot's. */
  lemma MissedCopy(l: Lane, lane: Lane, op: LossyOp, q: Patch, decide: bool)
    requires !op.OpenSnapshot? && !op.CloseSnapshot? && Outcome(l, lane, q, decide) && !Took(l, lane, op)
    requires var noOp := q == NoOpPatch(q.baseRev, q.syncRev);
             if op.SendPrepend? then noOp && !decide else q == op.patch || (!FenceOpen(l) && noOp && !decide)
    ensures Forgotten(l, lane) || Copy(lane) == if Dropped(l, lane) then Replica(l) else Copy(l)
  {
    if !op.SendPrepend? { TookIff(l, lane, op); }
    if Queued(l, lane, PendingPatch(q, decide)) || Sent(l, lane, q) { NoOpKeepsCopy(l, lane, q); }
  }

  lemma SendMissedCopy(t: Tracked, op: LossyOp, enc: Encoder)
    requires t.world.lane.window && !op.OpenSnapshot? && !op.CloseSnapshot?
    requires !Took(t.world.lane, StepLossy(t.world, op, enc).lane, op)
    ensures var l, lane := t.world.lane, StepLossy(t.world, op, enc).lane;
            Forgotten(l, lane) || Copy(lane) == if Dropped(l, lane) then Replica(l) else Copy(l)
  {
    var l, lane := t.world.lane, StepLossy(t.world, op, enc).lane;
    match op
    case SendLive(p, observed, accepts) =>
      LiveOutcome(l, p, observed, accepts, enc);
      MissedCopy(l, lane, op, p, false);
    case SendPrepend(turns, rev, accepts) =>
      var q := PrependOutcome(l, rev, accepts, enc);
      MissedCopy(l, lane, op, q, false);
    case SendCommit(p, requester, accepts) =>
      var q, decide := CommitOutcome(l, p, requester, accepts, enc);
      MissedCopy(l, lane, op, q, decide);
  }

  /** A held turn enters the stale set by a send exactly when its copy is then out of date. */
  lemma EntersIff(t: Tracked, op: LossyOp, id: TurnId, enc: Encoder)
    requires Sound(t) && Offered(t.world, op) && !op.OpenSnapshot? && !op.CloseSnapshot?
    requires id in t.world.lane.held && id !in t.stale && id in StepLossy(t.world, op, enc).lane.held
    ensures var next := Track(t, op, enc);
            id in next.stale <==> !SameTurn(Copy(next.world.lane), next.world.auth, id)
  {
    var w, l, next := t.world, t.world.lane, Track(t, op, enc);
    StepKeepsSound(t, op, enc);
    assert SameTurn(Copy(l), w.auth, id) && (FenceOpen(l) ==> SameTurn(Replica(l), w.snapshot, id));
    if id in next.stale {
      SendMissedCopy(t, op, enc);
    } else {
      assert SameTurn(Copy(next.world.lane), next.world.auth, id);
    }
  }

  function Start(auth: Turns, headRev: nat): Tracked {
    Tracked(StartWorld(auth, headRev), {}, {})
  }

  lemma {:induction false} RunKeepsSound(auth: Turns, headRev: nat, ops: seq<LossyOp>, enc: Encoder)
    requires AllOffered(Start(auth, headRev), ops, enc)
    ensures Sound(TrackAll(Start(auth, headRev), ops, enc))
  {
    if ops != [] {
      RunKeepsSound(auth, headRev, ops[..|ops| - 1], enc);
      StepKeepsSound(TrackAll(Start(auth, headRev), ops[..|ops| - 1], enc), ops[|ops| - 1], enc);
    }
  }

  /**
   * Over every run, while no snapshot is in flight, a window connection's copy of each turn it holds is the
   * authoritative one, but for those whose authority changed unseen since the page they last came with.
   */
  lemma AgreesOutsideStale(auth: Turns, headRev: nat, ops: seq<LossyOp>, enc: Encoder)
    requires AllOffered(Start(auth, headRev), ops, enc)
    ensures var t := TrackAll(Start(auth, headRev), ops, enc);
            t.world.lane.fence.None? ==>
              forall id | id in t.world.lane.held - t.stale ::
                Lookup(Replica(t.world.lane), id) == Lookup(t.world.auth, id)
  {
    RunKeepsSound(auth, headRev, ops, enc);
    var t := TrackAll(Start(auth, headRev), ops, enc);
    if t.world.lane.fence.None? {
      forall id | id in t.world.lane.held - t.stale
        ensures Lookup(Replica(t.world.lane), id) == Lookup(t.world.auth, id)
      {
        assert SameTurn(Copy(t.world.lane), t.world.auth, id);
      }
    }
  }
}
