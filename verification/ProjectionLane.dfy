/**
 * Delivery of projection patches to one connection for one session. Every map the publisher keeps is
 * keyed by connection and session, so all it knows about such a pair is one `Lane`, and every
 * publisher call is one step on each lane it targets.
 */
module ProjectionLane {
  import opened Options
  import opened ProjectionTypes

  const FENCE_MAX_PATCHES: nat := 128
  const FENCE_MAX_BYTES: nat := 2 * 1024 * 1024

  /** A patch queued behind a snapshot response; `decide` leaves content or no-op open until completion. */
  datatype PendingPatch = PendingPatch(patch: Patch, decide: bool)

  datatype Fence = Fence(
    id: nat,
    generation: nat,
    cutRev: nat,
    expectedRev: nat,
    pending: seq<PendingPatch>,
    pendingBytes: nat,
    invalidated: bool)

  /** What the publisher puts in a connection's outbound queue for one session. */
  datatype Frame =
    | PatchFrame(patch: Patch)
    | InvalidateFrame
    // `usable` is false when the response is immediately followed by an invalidation.
    | ResultFrame(cutRev: nat, response: Response, usable: bool)

  datatype Lane = Lane(
    cut: nat,
    fence: Option<Fence>,
    invalidated: bool,
    window: bool,
    held: set<TurnId>,
    frames: seq<Frame>)

  const EMPTY_LANE := Lane(0, None, false, false, {}, [])

  /** The length of a patch's encoding, as a function the program's JSON encoder supplies. */
  type Encoder = Patch -> nat

  function NonEmptyIds(ids: seq<TurnId>): set<TurnId> {
    set id | id in ids && id != ""
  }

  predicate HoldsAny(held: set<TurnId>, p: Patch) {
    exists id :: id in held && id in PatchTurnIds(p)
  }

  function InvalidatedFence(f: Fence): Fence {
    f.(pending := [], pendingBytes := 0, invalidated := true)
  }

  function AppendFence(f: Fence, p: Patch, decide: bool, enc: Encoder): Fence {
    if p.syncRev <= f.expectedRev || f.invalidated then f
    else if p.baseRev != f.expectedRev then InvalidatedFence(f)
    else if |f.pending| + 1 > FENCE_MAX_PATCHES || f.pendingBytes + enc(p) > FENCE_MAX_BYTES then InvalidatedFence(f)
    else
      f.(pending := f.pending + [PendingPatch(p, decide)], pendingBytes := f.pendingBytes + enc(p),
         expectedRev := p.syncRev)
  }

  /** Tells the connection to pull again; its held turns are forgotten even when the queue refuses the frame. */
  function InvalidateLane(l: Lane, accepts: bool): Lane {
    l.(held := {}, frames := if accepts then l.frames + [InvalidateFrame] else l.frames)
  }

  function DeliverSingle(l: Lane, p: Patch, accepts: bool, enc: Encoder): Lane {
    if l.fence.Some? then l.(fence := Some(AppendFence(l.fence.value, p, false, enc)))
    else if l.invalidated then l
    else if p.syncRev <= l.cut then l
    else if l.cut != 0 && p.baseRev != l.cut then InvalidateLane(l, accepts).(invalidated := true)
    else if accepts then l.(frames := l.frames + [PatchFrame(p)], cut := p.syncRev)
    else l
  }

  function DeliverLive(l: Lane, p: Patch, observed: bool, accepts: bool, enc: Encoder): Lane {
    if !observed then l
    else if l.fence.Some? then l.(fence := Some(AppendFence(l.fence.value, p, false, enc)))
    else if l.invalidated then l
    else if p.syncRev <= l.cut then l
    else if l.cut != 0 && p.baseRev != l.cut then InvalidateLane(l, accepts).(invalidated := true)
    else if accepts then l.(frames := l.frames + [PatchFrame(p)], cut := p.syncRev)
    else l.(invalidated := true)
  }

  function PrependLane(l: Lane, syncRev: nat, requester: bool, accepts: bool, enc: Encoder): Lane {
    if requester then l
    else if !l.window then InvalidateLane(l, accepts)
    else
      var base := if l.fence.Some? && !l.fence.value.invalidated then l.fence.value.expectedRev else l.cut;
      if base == 0 || base >= syncRev then l else DeliverSingle(l, NoOpPatch(base, syncRev), accepts, enc)
  }

  function CommitLane(l: Lane, commit: Patch, requester: bool, accepts: bool, enc: Encoder): Lane {
    if requester || !l.window || HoldsAny(l.held, commit) then DeliverSingle(l, commit, accepts, enc)
    else if l.fence.Some? && !l.fence.value.invalidated then
      l.(fence := Some(AppendFence(l.fence.value, commit, true, enc)))
    else if l.cut == 0 || l.cut >= commit.syncRev then l
    else DeliverSingle(l, NoOpPatch(l.cut, commit.syncRev), accepts, enc)
  }

  function BeginLane(l: Lane, id: nat, generation: nat, headRev: nat): Lane {
    if l.fence.Some? then l
    else l.(fence := Some(Fence(id, generation, headRev, headRev, [], 0, false)), invalidated := false)
  }

  /** A deferred commit keeps its content when the connection now holds one of its turns. */
  function ResolveOne(pp: PendingPatch, held: set<TurnId>, scalar: bool): Patch {
    if !pp.decide || HoldsAny(held, pp.patch) then pp.patch
    else
      pp.patch.(upsertTurns := [], partOps := [], turnStateOps := [],
                execution := if scalar then pp.patch.execution else None)
  }

  function Resolve(pending: seq<PendingPatch>, held: set<TurnId>, scalar: bool): (ps: seq<Patch>)
    ensures |ps| == |pending|
    ensures forall i | 0 <= i < |ps| :: ps[i] == ResolveOne(pending[i], held, scalar)
  {
    if pending == [] then []
    else Resolve(pending[..|pending| - 1], held, scalar) + [ResolveOne(pending[|pending| - 1], held, scalar)]
  }

  function PatchFrames(ps: seq<Patch>): seq<Frame> {
    if ps == [] then [] else PatchFrames(ps[..|ps| - 1]) + [PatchFrame(ps[|ps| - 1])]
  }

  /** The batch a completion must be able to enqueue at once: the response and what follows it. */
  function RequiredSlots(f: Fence): nat {
    if f.invalidated then 2 else 1 + |f.pending|
  }

  function CompleteLane(l: Lane, response: Response, heldIds: seq<TurnId>, scalar: bool, freeSlots: nat): Lane {
    if l.fence.None? then l
    else
      var f := l.fence.value;
      var held := if f.invalidated then l.held else l.held + NonEmptyIds(heldIds);
      if freeSlots < RequiredSlots(f) then l.(fence := None, held := {})
      else if f.invalidated then
        l.(fence := None, invalidated := true, held := held,
           frames := l.frames + [ResultFrame(f.cutRev, response, false), InvalidateFrame])
      else
        l.(fence := None, invalidated := false, held := held, cut := f.expectedRev,
           frames := l.frames + [ResultFrame(f.cutRev, response, true)] + PatchFrames(Resolve(f.pending, held, scalar)))
  }

  /** The calls that reach a lane. The environment's choices (queue room, filters) are their arguments. */
  datatype LaneOp =
    | Live(patch: Patch, observed: bool, accepts: bool)
    | Single(patch: Patch, accepts: bool)
    | Prepend(syncRev: nat, requester: bool, accepts: bool)
    | Commit(patch: Patch, requester: bool, accepts: bool)
    | Begin(id: nat, generation: nat, headRev: nat)
    | Complete(response: Response, heldIds: seq<TurnId>, scalar: bool, freeSlots: nat)
    | SetMode(window: bool)
    | RecordTurns(heldIds: seq<TurnId>)
    | ClearTurns
    | Unregister

  function StepLane(l: Lane, op: LaneOp, enc: Encoder): Lane {
    match op
    case Live(p, observed, accepts) => DeliverLive(l, p, observed, accepts, enc)
    case Single(p, accepts) => DeliverSingle(l, p, accepts, enc)
    case Prepend(rev, requester, accepts) => PrependLane(l, rev, requester, accepts, enc)
    case Commit(p, requester, accepts) => CommitLane(l, p, requester, accepts, enc)
    case Begin(id, generation, headRev) => BeginLane(l, id, generation, headRev)
    case Complete(response, ids, scalar, free) => CompleteLane(l, response, ids, scalar, free)
    case SetMode(window) => l.(window := window)
    case RecordTurns(ids) => l.(held := l.held + NonEmptyIds(ids))
    case ClearTurns => l.(held := {})
    case Unregister => EMPTY_LANE
  }

  function RunLane(l: Lane, ops: seq<LaneOp>, enc: Encoder): Lane {
    if ops == [] then l else StepLane(RunLane(l, ops[..|ops| - 1], enc), ops[|ops| - 1], enc)
  }

  // ---- The revision chain ----

  /**
   * The revision the frames put the connection at, as the publisher counts it; 0 while there is none to build
   * on. A failed pull counts too: its fence ends at the revision it expected.
   */
  function Expect(fs: seq<Frame>): nat {
    if fs == [] then 0
    else
      var last := fs[|fs| - 1];
      match last
      case PatchFrame(p) => p.syncRev
      case ResultFrame(rev, _, usable) => if usable then rev else Expect(fs[..|fs| - 1])
      case InvalidateFrame => Expect(fs[..|fs| - 1])
  }

  /** Every patch moves the connection strictly forward and builds on the revision it stands at. */
  ghost predicate Chained(fs: seq<Frame>) {
    fs != [] ==>
      && Chained(fs[..|fs| - 1])
      && (fs[|fs| - 1].PatchFrame? ==>
            var e := Expect(fs[..|fs| - 1]);
            fs[|fs| - 1].patch.syncRev > e && (e != 0 ==> fs[|fs| - 1].patch.baseRev == e))
  }

  ghost predicate LinkedRun(from: nat, ps: seq<Patch>, to: nat) {
    if ps == [] then from == to
    else
      var last := ps[|ps| - 1];
      last.syncRev == to && last.baseRev < last.syncRev && LinkedRun(from, ps[..|ps| - 1], last.baseRev)
  }

  function FullPatches(pending: seq<PendingPatch>): (ps: seq<Patch>)
    ensures |ps| == |pending|
    ensures forall i | 0 <= i < |ps| :: ps[i] == pending[i].patch
  {
    if pending == [] then [] else FullPatches(pending[..|pending| - 1]) + [pending[|pending| - 1].patch]
  }

  function EncodedTotal(ps: seq<Patch>, enc: Encoder): nat {
    if ps == [] then 0 else EncodedTotal(ps[..|ps| - 1], enc) + enc(ps[|ps| - 1])
  }

  /** An open fence holds one linked run within both limits; an invalidated one holds nothing. */
  ghost predicate FenceOk(f: Fence, enc: Encoder) {
    if f.invalidated then f.pending == [] && f.pendingBytes == 0
    else
      && LinkedRun(f.cutRev, FullPatches(f.pending), f.expectedRev)
      && f.pendingBytes == EncodedTotal(FullPatches(f.pending), enc)
      && |f.pending| <= FENCE_MAX_PATCHES
      && f.pendingBytes <= FENCE_MAX_BYTES
  }

  ghost predicate LaneOk(l: Lane, enc: Encoder) {
    && Chained(l.frames)
    && Expect(l.frames) == l.cut
    && (l.fence.Some? ==> FenceOk(l.fence.value, enc) && !l.invalidated)
  }

  lemma FullPatchesSnoc(pending: seq<PendingPatch>, pp: PendingPatch)
    ensures FullPatches(pending + [pp]) == FullPatches(pending) + [pp.patch]
  {
    assert (pending + [pp])[..|pending|] == pending;
  }

  lemma LinkedRunSnoc(from: nat, ps: seq<Patch>, p: Patch)
    requires LinkedRun(from, ps, p.baseRev) && p.baseRev < p.syncRev
    ensures LinkedRun(from, ps + [p], p.syncRev)
  {
    assert (ps + [p])[..|ps|] == ps;
  }

  lemma EncodedTotalSnoc(ps: seq<Patch>, p: Patch, enc: Encoder)
    ensures EncodedTotal(ps + [p], enc) == EncodedTotal(ps, enc) + enc(p)
  {
    assert (ps + [p])[..|ps|] == ps;
  }

  lemma AppendFenceOk(f: Fence, p: Patch, decide: bool, enc: Encoder)
    requires FenceOk(f, enc)
    ensures FenceOk(AppendFence(f, p, decide, enc), enc)
  {
    var f' := AppendFence(f, p, decide, enc);
    if f' != f && !f'.invalidated {
      FullPatchesSnoc(f.pending, PendingPatch(p, decide));
      LinkedRunSnoc(f.cutRev, FullPatches(f.pending), p);
      EncodedTotalSnoc(FullPatches(f.pending), p, enc);
    }
  }

  lemma ChainedAppend(fs: seq<Frame>, x: Frame)
    requires Chained(fs)
    requires x.PatchFrame? ==> x.patch.syncRev > Expect(fs) && (Expect(fs) != 0 ==> x.patch.baseRev == Expect(fs))
    ensures Chained(fs + [x])
    ensures x.PatchFrame? ==> Expect(fs + [x]) == x.patch.syncRev
    ensures x.InvalidateFrame? ==> Expect(fs + [x]) == Expect(fs)
    ensures x.ResultFrame? ==> Expect(fs + [x]) == if x.usable then x.cutRev else Expect(fs)
  {
    assert (fs + [x])[..|fs + [x]| - 1] == fs;
  }

  lemma {:induction false} ChainedAppendRun(fs: seq<Frame>, ps: seq<Patch>, to: nat)
    requires Chained(fs) && LinkedRun(Expect(fs), ps, to)
    ensures Chained(fs + PatchFrames(ps)) && Expect(fs + PatchFrames(ps)) == to
  {
    if ps == [] {
      assert fs + PatchFrames(ps) == fs;
    } else {
      var front, last := ps[..|ps| - 1], ps[|ps| - 1];
      ChainedAppendRun(fs, front, last.baseRev);
      ChainedAppend(fs + PatchFrames(front), PatchFrame(last));
      assert fs + PatchFrames(ps) == fs + PatchFrames(front) + [PatchFrame(last)];
    }
  }

  // Resolving a deferral changes content only, never revisions.
  lemma {:induction false} ResolveKeepsRun(from: nat, pending: seq<PendingPatch>, to: nat, held: set<TurnId>,
                                           scalar: bool)
    requires LinkedRun(from, FullPatches(pending), to)
    ensures LinkedRun(from, Resolve(pending, held, scalar), to)
  {
    if pending != [] {
      var front := pending[..|pending| - 1];
      var last := pending[|pending| - 1];
      assert FullPatches(pending)[..|pending| - 1] == FullPatches(front);
      assert Resolve(pending, held, scalar)[..|pending| - 1] == Resolve(front, held, scalar);
      ResolveKeepsRun(from, front, last.patch.baseRev, held, scalar);
    }
  }

  lemma DeliverSingleOk(l: Lane, p: Patch, accepts: bool, enc: Encoder)
    requires LaneOk(l, enc)
    ensures LaneOk(DeliverSingle(l, p, accepts, enc), enc)
  {
    if l.fence.Some? {
      AppendFenceOk(l.fence.value, p, false, enc);
    } else if l.invalidated || p.syncRev <= l.cut {
    } else if l.cut != 0 && p.baseRev != l.cut {
      ChainedAppend(l.frames, InvalidateFrame);
    } else {
      ChainedAppend(l.frames, PatchFrame(p));
    }
  }

  /** The response of an invalidated fence and the invalidation behind it leave the chain where it was. */
  lemma UnusableResultChained(fs: seq<Frame>, rev: nat, response: Response)
    requires Chained(fs)
    ensures var after := fs + [ResultFrame(rev, response, false), InvalidateFrame];
            Chained(after) && Expect(after) == Expect(fs)
  {
    var result := ResultFrame(rev, response, false);
    ChainedAppend(fs, result);
    ChainedAppend(fs + [result], InvalidateFrame);
    assert fs + [result, InvalidateFrame] == fs + [result] + [InvalidateFrame];
  }

  /** The response of a sound fence and its pending patches carry the chain to the fence's end. */
  lemma {:induction false} UsableResultChained(fs: seq<Frame>, f: Fence, response: Response, held: set<TurnId>,
                                               scalar: bool)
    requires Chained(fs) && LinkedRun(f.cutRev, FullPatches(f.pending), f.expectedRev)
    ensures var after := fs + [ResultFrame(f.cutRev, response, true)] + PatchFrames(Resolve(f.pending, held, scalar));
            Chained(after) && Expect(after) == f.expectedRev
  {
    var result := ResultFrame(f.cutRev, response, true);
    ChainedAppend(fs, result);
    ResolveKeepsRun(f.cutRev, f.pending, f.expectedRev, held, scalar);
    ChainedAppendRun(fs + [result], Resolve(f.pending, held, scalar), f.expectedRev);
  }

  lemma CompleteLaneOk(l: Lane, response: Response, heldIds: seq<TurnId>, scalar: bool, freeSlots: nat, enc: Encoder)
    requires LaneOk(l, enc)
    ensures LaneOk(CompleteLane(l, response, heldIds, scalar, freeSlots), enc)
  {
    if l.fence.Some? {
      var f := l.fence.value;
      if f.invalidated {
        UnusableResultChained(l.frames, f.cutRev, response);
      } else {
        UsableResultChained(l.frames, f, response, l.held + NonEmptyIds(heldIds), scalar);
      }
    }
  }

  lemma StepLaneOk(l: Lane, op: LaneOp, enc: Encoder)
    requires LaneOk(l, enc)
    ensures LaneOk(StepLane(l, op, enc), enc)
  {
    match op
    case Live(p, observed, accepts) =>
      DeliverSingleOk(l, p, accepts, enc);
    case Single(p, accepts) =>
      DeliverSingleOk(l, p, accepts, enc);
    case Prepend(rev, requester, accepts) =>
      ChainedAppend(l.frames, InvalidateFrame);
      var base := if l.fence.Some? && !l.fence.value.invalidated then l.fence.value.expectedRev else l.cut;
      DeliverSingleOk(l, NoOpPatch(base, rev), accepts, enc);
    case Commit(p, requester, accepts) =>
      DeliverSingleOk(l, p, accepts, enc);
      DeliverSingleOk(l, NoOpPatch(l.cut, p.syncRev), accepts, enc);
      if l.fence.Some? { AppendFenceOk(l.fence.value, p, true, enc); }
    case Complete(response, ids, scalar, free) =>
      CompleteLaneOk(l, response, ids, scalar, free, enc);
    case _ =>
  }

  /** In every run the frames of a lane form one revision chain and its fence stays within its limits. */
  lemma {:induction false} RevisionChain(ops: seq<LaneOp>, enc: Encoder)
    ensures LaneOk(RunLane(EMPTY_LANE, ops, enc), enc)
  {
    if ops != [] {
      RevisionChain(ops[..|ops| - 1], enc);
      StepLaneOk(RunLane(EMPTY_LANE, ops[..|ops| - 1], enc), ops[|ops| - 1], enc);
    }
  }

  // ---- Gaps, limits and completions, call by call ----

  /**
   * A patch above a revision the connection stands at that does not build on it marks the lane, forgets its held
   * turns, and tells the connection to pull again when the queue has room.
   */
  lemma GapTellsToPullAgain(l: Lane, p: Patch, accepts: bool, enc: Encoder)
    requires l.fence.None? && !l.invalidated && 0 < l.cut < p.syncRev && p.baseRev != l.cut
    ensures var told := l.(invalidated := true, held := {},
                           frames := l.frames + if accepts then [InvalidateFrame] else []);
            && StepLane(l, Single(p, accepts), enc) == told
            && StepLane(l, Live(p, true, accepts), enc) == told
  {
    assert l.frames + [] == l.frames;
  }

  /** A patch the filter withholds and a prepend a connection asked for itself change nothing on any lane. */
  lemma SparedLanesStay(l: Lane, p: Patch, syncRev: nat, accepts: bool, enc: Encoder)
    ensures StepLane(l, Live(p, false, accepts), enc) == l
    ensures StepLane(l, Prepend(syncRev, true, accepts), enc) == l
  {
  }

  /**
   * An open fence takes a newer patch exactly when it continues it, is at most its 128th, and brings what waits to
   * at most 2 MiB as encoded; any other spoils it, and what waited with it.
   */
  lemma FenceTakesIff(l: Lane, p: Patch, accepts: bool, enc: Encoder)
    requires LaneOk(l, enc) && l.fence.Some? && !l.fence.value.invalidated && l.fence.value.expectedRev < p.syncRev
    ensures var f, next := l.fence.value, StepLane(l, Single(p, accepts), enc);
            var takes := p.baseRev == f.expectedRev && |f.pending| < 128
                         && EncodedTotal(FullPatches(f.pending) + [p], enc) <= 2_097_152;
            && next == StepLane(l, Live(p, true, accepts), enc)
            && next.fence.Some? && next == l.(fence := next.fence)
            && next.fence.value.invalidated == !takes && next.fence.value.cutRev == f.cutRev
            && FullPatches(next.fence.value.pending) == if takes then FullPatches(f.pending) + [p] else []
  {
    EncodedTotalSnoc(FullPatches(l.fence.value.pending), p, enc);
    FullPatchesSnoc(l.fence.value.pending, PendingPatch(p, false));
  }

  /** The frames carry the patches that waited, revision by revision. */
  ghost predicate Carries(fs: seq<Frame>, pending: seq<PendingPatch>) {
    && |fs| == |pending|
    && forall k | 0 <= k < |fs| ::
         && fs[k].PatchFrame? && fs[k].patch.baseRev == pending[k].patch.baseRev
         && fs[k].patch.syncRev == pending[k].patch.syncRev
  }

  lemma {:induction false} ResolvedCarries(pending: seq<PendingPatch>, held: set<TurnId>, scalar: bool)
    ensures Carries(PatchFrames(Resolve(pending, held, scalar)), pending)
  {
    if pending != [] {
      var front, n := pending[..|pending| - 1], |pending| - 1;
      ResolvedCarries(front, held, scalar);
      assert Resolve(pending, held, scalar)[..n] == Resolve(front, held, scalar);
    }
  }

  lemma UsableBatch(l: Lane, f: Fence, response: Response, patches: seq<Frame>) returns (sent: seq<Frame>)
    ensures l.frames + [ResultFrame(f.cutRev, response, true)] + patches == l.frames + sent
    ensures sent != [] && sent[0] == ResultFrame(f.cutRev, response, true) && sent[1..] == patches
  {
    sent := [ResultFrame(f.cutRev, response, true)] + patches;
  }

  /**
   * A completion sends its whole batch or none of it: the response and an invalidation for a spoilt fence, else the
   * response and every patch that waited, revision by revision. Without room for it the lane loses its held turns.
   */
  lemma CompletionIsWhole(l: Lane, response: Response, heldIds: seq<TurnId>, scalar: bool, free: nat, enc: Encoder)
    returns (sent: seq<Frame>)
    requires l.fence.Some?
    ensures var f, next := l.fence.value, StepLane(l, Complete(response, heldIds, scalar, free), enc);
            var closed := l.(fence := None, frames := l.frames + sent);
            if free < (if f.invalidated then 2 else 1 + |f.pending|) then
              sent == [] && next == closed.(held := {})
            else if f.invalidated then
              && sent == [ResultFrame(f.cutRev, response, false), InvalidateFrame]
              && next == closed.(invalidated := true)
            else
              && sent != [] && sent[0] == ResultFrame(f.cutRev, response, true) && Carries(sent[1..], f.pending)
              && next == closed.(invalidated := false, cut := f.expectedRev,
                                 held := l.held + set id | id in heldIds && id != "")
  {
    var f, held := l.fence.value, l.held + NonEmptyIds(heldIds);
    if free < RequiredSlots(f) {
      sent := [];
      assert l.frames + sent == l.frames;
    } else if f.invalidated {
      sent := [ResultFrame(f.cutRev, response, false), InvalidateFrame];
    } else {
      ResolvedCarries(f.pending, held, scalar);
      sent := UsableBatch(l, f, response, PatchFrames(Resolve(f.pending, held, scalar)));
    }
  }

  /**
   * A pull in flight stays the one it is, whatever reaches the lane, until it is completed or the connection is
   * forgotten: the admission it was opened with goes on naming it, and a second one is not opened over it.
   */
  lemma {:induction false} FenceStandsUntilCompleted(l: Lane, ops: seq<LaneOp>, enc: Encoder)
    requires l.fence.Some?
    requires forall op | op in ops :: !op.Complete? && !op.Unregister?
    ensures var fence := RunLane(l, ops, enc).fence;
            && fence.Some? && fence.value.id == l.fence.value.id && fence.value.generation == l.fence.value.generation
            && fence.value.cutRev == l.fence.value.cutRev
  {
    if ops != [] {
      FenceStandsUntilCompleted(l, ops[..|ops| - 1], enc);
      FenceStands(RunLane(l, ops[..|ops| - 1], enc), ops[|ops| - 1], enc);
    }
  }

  lemma FenceStands(l: Lane, op: LaneOp, enc: Encoder)
    requires l.fence.Some? && !op.Complete? && !op.Unregister?
    ensures var fence := StepLane(l, op, enc).fence;
            && fence.Some? && fence.value.id == l.fence.value.id && fence.value.generation == l.fence.value.generation
            && fence.value.cutRev == l.fence.value.cutRev
  {
  }

  lemma {:induction false} ChainedPrefix(fs: seq<Frame>, n: nat)
    requires Chained(fs) && n <= |fs|
    ensures Chained(fs[..n])
    decreases |fs|
  {
    if n < |fs| {
      ChainedPrefix(fs[..|fs| - 1], n);
      assert fs[..|fs| - 1][..n] == fs[..n];
    } else {
      assert fs[..n] == fs;
    }
  }

  /** Nothing between positions i and j of a queue moves the client's revision. */
  ghost predicate QuietBetween(fs: seq<Frame>, i: int, j: int) {
    forall k | 0 <= k < |fs| && i < k < j :: fs[k].InvalidateFrame? || (fs[k].ResultFrame? && !fs[k].usable)
  }

  lemma {:induction false} ExpectAcrossQuiet(fs: seq<Frame>, i: nat, j: nat)
    requires i < j <= |fs| && QuietBetween(fs, i, j)
    ensures Expect(fs[..j]) == Expect(fs[..i + 1])
    decreases j
  {
    if i + 1 < j {
      assert fs[..j][..j - 1] == fs[..j - 1];
      assert fs[..j][j - 1] == fs[j - 1];
      ExpectAcrossQuiet(fs, i, j - 1);
    }
  }

  lemma ChainedAt(fs: seq<Frame>, k: nat)
    requires Chained(fs) && k < |fs| && fs[k].PatchFrame?
    ensures fs[k].patch.syncRev > Expect(fs[..k])
    ensures Expect(fs[..k]) != 0 ==> fs[k].patch.baseRev == Expect(fs[..k])
    ensures Expect(fs[..k + 1]) == fs[k].patch.syncRev
  {
    ChainedPrefix(fs, k + 1);
    assert fs[..k + 1][..k] == fs[..k];
  }

  /**
   * What a client relies on: two neighbouring patches of one snapshot link up and rise, and the first
   * patch after a snapshot response builds on that snapshot's revision.
   */
  ghost predicate NeighboursLink(fs: seq<Frame>, i: nat, j: nat)
    requires i < j < |fs| && fs[j].PatchFrame?
  {
    && (fs[i].PatchFrame? ==>
          fs[j].patch.baseRev == fs[i].patch.syncRev && fs[j].patch.syncRev > fs[i].patch.syncRev)
    && (fs[i].ResultFrame? && fs[i].usable && fs[i].cutRev != 0 ==>
          fs[j].patch.baseRev == fs[i].cutRev && fs[j].patch.syncRev > fs[i].cutRev)
  }

  lemma ChainLinksNeighbours(fs: seq<Frame>, i: nat, j: nat)
    requires Chained(fs) && i < j < |fs| && fs[j].PatchFrame? && QuietBetween(fs, i, j)
    ensures NeighboursLink(fs, i, j)
  {
    ChainedAt(fs, j);
    ExpectAcrossQuiet(fs, i, j);
    assert fs[..i + 1][i] == fs[i];
    if fs[i].PatchFrame? {
      ChainedAt(fs, i);
    }
  }

  /**
   * In every run, patches with nothing usable between them link up, and the first behind a response starts at
   * its cut.
   */
  lemma NeighbouringPatchesLink(ops: seq<LaneOp>, enc: Encoder)
    ensures var fs := RunLane(EMPTY_LANE, ops, enc).frames;
            forall i: nat, j: nat | i < j < |fs| && fs[j].PatchFrame? && QuietBetween(fs, i, j) ::
              NeighboursLink(fs, i, j)
  {
    var fs := RunLane(EMPTY_LANE, ops, enc).frames;
    RevisionChain(ops, enc);
    forall i: nat, j: nat | i < j < |fs| && fs[j].PatchFrame? && QuietBetween(fs, i, j)
      ensures NeighboursLink(fs, i, j)
    {
      ChainLinksNeighbours(fs, i, j);
    }
  }

  lemma MarkedStep(l: Lane, op: LaneOp, enc: Encoder)
    requires l.invalidated && l.fence.None? && !op.Begin? && !op.Unregister?
    ensures var l' := StepLane(l, op, enc);
            && l'.invalidated && l'.fence.None? && l'.cut == l.cut
            && (l'.frames == l.frames || l'.frames == l.frames + [InvalidateFrame])
  {
  }

  /** Once a lane is marked invalidated, only a new snapshot lets a patch through again. */
  lemma {:induction false} InvalidatedLaneIsSilent(l: Lane, ops: seq<LaneOp>, enc: Encoder)
    requires l.invalidated && l.fence.None?
    requires forall op | op in ops :: !op.Begin? && !op.Unregister?
    ensures var l' := RunLane(l, ops, enc);
            && l'.invalidated && l'.fence.None? && l'.cut == l.cut
            && |l'.frames| >= |l.frames| && l'.frames[..|l.frames|] == l.frames
            && forall k | |l.frames| <= k < |l'.frames| :: l'.frames[k] == InvalidateFrame
  {
    if ops != [] {
      InvalidatedLaneIsSilent(l, ops[..|ops| - 1], enc);
      MarkedStep(RunLane(l, ops[..|ops| - 1], enc), ops[|ops| - 1], enc);
    }
  }

  // ---- Where the frames say less than one might expect ----

  /** Whether a patch accepted by queue and filter reaches the connection as a patch. */
  ghost predicate Delivers(l: Lane, p: Patch, enc: Encoder) {
    DeliverLive(l, p, true, true, enc).frames == l.frames + [PatchFrame(p)]
  }

  /**
   * A prepend by another tells a full connection to pull again, forgets its held turns and marks nothing:
   * exactly the patches that would have reached it before still do.
   */
  lemma PrependLeavesFullUnmarked(l: Lane, syncRev: nat, accepts: bool, p: Patch, enc: Encoder)
    requires !l.window
    ensures var after := PrependLane(l, syncRev, false, accepts, enc);
            && after == l.(held := {}, frames := if accepts then l.frames + [InvalidateFrame] else l.frames)
            && (Delivers(after, p, enc) <==> Delivers(l, p, enc))
  {
    var after := PrependLane(l, syncRev, false, accepts, enc);
    if l.fence.None? && !l.invalidated && p.syncRev > l.cut && l.cut != 0 && p.baseRev != l.cut {
      LastFrame(l.frames, InvalidateFrame, PatchFrame(p));
      LastFrame(after.frames, InvalidateFrame, PatchFrame(p));
    }
    NoFrame(l.frames, PatchFrame(p));
    NoFrame(after.frames, PatchFrame(p));
  }

  lemma LastFrame(fs: seq<Frame>, x: Frame, y: Frame)
    requires x != y
    ensures fs + [x] != fs + [y]
  {
    assert (fs + [x])[|fs|] == x && (fs + [y])[|fs|] == y;
  }

  lemma NoFrame(fs: seq<Frame>, x: Frame)
    ensures fs != fs + [x]
  {
    assert |fs + [x]| == |fs| + 1;
  }

  /**
   * A usable response lets a newer patch through that builds on its revision; at revision 0, one that builds on
   * any.
   */
  lemma NextPatchAfterSnapshot(l: Lane, response: Response, ids: seq<TurnId>, scalar: bool, free: nat, p: Patch,
                               enc: Encoder)
    requires l.fence.Some? && !l.fence.value.invalidated && free >= RequiredSlots(l.fence.value)
    requires p.syncRev > l.fence.value.expectedRev
    ensures Delivers(CompleteLane(l, response, ids, scalar, free), p, enc) <==>
            l.fence.value.expectedRev == 0 || p.baseRev == l.fence.value.expectedRev
  {
    var after := CompleteLane(l, response, ids, scalar, free);
    LastFrame(after.frames, InvalidateFrame, PatchFrame(p));
  }

  /** The revision the client itself stands at: a failed pull gives it nothing to stand on. */
  function ClientRev(fs: seq<Frame>): nat {
    if fs == [] then 0
    else
      var last := fs[|fs| - 1];
      match last
      case PatchFrame(p) => p.syncRev
      case ResultFrame(rev, response, usable) => if usable && response.Some? then rev else ClientRev(fs[..|fs| - 1])
      case InvalidateFrame => ClientRev(fs[..|fs| - 1])
  }

  lemma {:induction false} RunStartsAt(from: nat, ps: seq<Patch>, to: nat)
    requires LinkedRun(from, ps, to) && ps != []
    ensures ps[0].baseRev == from
  {
    if |ps| > 1 { RunStartsAt(from, ps[..|ps| - 1], ps[|ps| - 1].baseRev); }
  }

  lemma {:induction false} FirstPatchFrame(ps: seq<Patch>)
    requires ps != []
    ensures |PatchFrames(ps)| == |ps| && PatchFrames(ps)[0] == PatchFrame(ps[0])
  {
    if |ps| > 1 { FirstPatchFrame(ps[..|ps| - 1]); }
  }

  /**
   * A failed pull releases its fence as a successful one does: cut at the fence's end, no mark. The patches
   * behind it build on the fence's start, so they build on what the client has exactly when it stood there.
   */
  lemma FailedPullLinksIff(l: Lane, scalar: bool, free: nat, enc: Encoder)
    requires LaneOk(l, enc) && l.fence.Some? && !l.fence.value.invalidated && free >= RequiredSlots(l.fence.value)
    ensures var f, n := l.fence.value, |l.frames|;
            var after := CompleteLane(l, None, [], scalar, free);
            && after.cut == f.expectedRev && !after.invalidated
            && |after.frames| > n && ClientRev(after.frames[..n + 1]) == ClientRev(l.frames)
            && (f.pending != [] ==>
                  && |after.frames| > n + 1 && after.frames[n + 1].PatchFrame?
                  && (after.frames[n + 1].patch.baseRev == ClientRev(after.frames[..n + 1]) <==>
                     f.cutRev == ClientRev(l.frames)))
  {
    var f, n := l.fence.value, |l.frames|;
    var held := l.held + NonEmptyIds([]);
    var patches := Resolve(f.pending, held, scalar);
    var result := ResultFrame(f.cutRev, None, true);
    var after := CompleteLane(l, None, [], scalar, free);
    assert after.frames[..n + 1] == l.frames + [result] && (l.frames + [result])[..n] == l.frames;
    if f.pending != [] {
      ResolveKeepsRun(f.cutRev, f.pending, f.expectedRev, held, scalar);
      RunStartsAt(f.cutRev, patches, f.expectedRev);
      FirstPatchFrame(patches);
      assert after.frames[n + 1] == PatchFrames(patches)[0];
    }
  }

  /** With nothing waiting, the same decides whether the next patch to go out builds on what the client has. */
  lemma FailedPullNextPatchIff(l: Lane, scalar: bool, free: nat, p: Patch, enc: Encoder)
    requires LaneOk(l, enc) && l.fence.Some? && !l.fence.value.invalidated && l.fence.value.pending == [] && free >= 1
    requires l.fence.value.cutRev == 0 ==> p.baseRev == 0
    ensures var f, after := l.fence.value, CompleteLane(l, None, [], scalar, free);
            && after.frames == l.frames + [ResultFrame(f.cutRev, None, true)]
            && (Delivers(after, p, enc) <==> p.baseRev == f.cutRev < p.syncRev)
            && (Delivers(after, p, enc) ==> (p.baseRev == ClientRev(after.frames) <==> f.cutRev == ClientRev(l.frames)))
  {
    var f, after := l.fence.value, CompleteLane(l, None, [], scalar, free);
    assert after.frames[..|l.frames|] == l.frames;
    LastFrame(after.frames, InvalidateFrame, PatchFrame(p));
    NoFrame(after.frames, PatchFrame(p));
  }

  lemma RunLaneSnoc(l: Lane, ops: seq<LaneOp>, op: LaneOp, enc: Encoder)
    ensures RunLane(l, ops + [op], enc) == StepLane(RunLane(l, ops, enc), op, enc)
  {
    assert (ops + [op])[..|ops|] == ops;
  }

  /** A new connection whose first pull is under way, with one patch waiting behind it. */
  function FirstPull(p: Patch, enc: Encoder): Lane {
    EMPTY_LANE.(fence := Some(Fence(1, 1, p.baseRev, p.syncRev, [PendingPatch(p, false)], enc(p), false)))
  }

  lemma FirstPullReached(p: Patch, enc: Encoder)
    requires 0 < p.baseRev < p.syncRev && enc(p) <= FENCE_MAX_BYTES
    ensures RunLane(EMPTY_LANE, [Begin(1, 1, p.baseRev), Live(p, true, true)], enc) == FirstPull(p, enc)
  {
    var a, b := Begin(1, 1, p.baseRev), Live(p, true, true);
    RunLaneSnoc(EMPTY_LANE, [], a, enc);
    RunLaneSnoc(EMPTY_LANE, [a], b, enc);
    assert [] + [a] == [a] && [a] + [b] == [a, b];
    assert [] + [PendingPatch(p, false)] == [PendingPatch(p, false)];
  }

  lemma OnePendingResolves(p: Patch, held: set<TurnId>)
    ensures PatchFrames(Resolve([PendingPatch(p, false)], held, false)) == [PatchFrame(p)]
  {
    var pending := [PendingPatch(p, false)];
    assert pending[..0] == [] && [p][..0] == [];
    assert Resolve(pending, held, false) == Resolve([], held, false) + [p] == [p];
    assert PatchFrames([p]) == PatchFrames([]) + [PatchFrame(p)];
  }

  lemma FirstPullFails(p: Patch, enc: Encoder)
    ensures CompleteLane(FirstPull(p, enc), None, [], false, 2).frames ==
            [ResultFrame(p.baseRev, None, true), PatchFrame(p)]
  {
    OnePendingResolves(p, {} + NonEmptyIds([]));
    assert [] + [ResultFrame(p.baseRev, None, true)] + [PatchFrame(p)] ==
           [ResultFrame(p.baseRev, None, true), PatchFrame(p)];
  }

  /** Such a run: a new connection's first pull fails while a patch waits, which then builds on a revision it lacks. */
  lemma FailedFirstPullStrands(p: Patch, enc: Encoder)
    requires 0 < p.baseRev < p.syncRev && enc(p) <= FENCE_MAX_BYTES
    ensures var ops := [Begin(1, 1, p.baseRev), Live(p, true, true), Complete(None, [], false, 2)];
            var fs := RunLane(EMPTY_LANE, ops, enc).frames;
            fs == [ResultFrame(p.baseRev, None, true), PatchFrame(p)] && ClientRev(fs[..1]) == 0 != p.baseRev
  {
    var ops, c := [Begin(1, 1, p.baseRev), Live(p, true, true)], Complete(None, [], false, 2);
    FirstPullReached(p, enc);
    RunLaneSnoc(EMPTY_LANE, ops, c, enc);
    assert ops + [c] == [Begin(1, 1, p.baseRev), Live(p, true, true), c];
    FirstPullFails(p, enc);
    var result := ResultFrame(p.baseRev, None, true);
    assert [result, PatchFrame(p)][..1] == [result] && [result][..0] == [];
  }
}
