/**
 * The projection side of the event publisher: maps of cuts, fences, invalidations, modes and held turns
 * updated in place. Each method is tied to the lane functions: it takes the step on exactly the lanes it
 * targets and leaves every other lane alone.
 */
module ProjectionPublisher {
  import opened Options
  import opened ProjectionTypes
  import opened ProjectionLane

  /** A connection, by identity. */
  datatype Conn = Conn(id: nat)

  datatype LaneKey = LaneKey(conn: Conn, backendId: string, sessionId: string)

  datatype DeliveryMode = Window | Full

  datatype Admission = Admission(generation: nat, backendId: string, sessionId: string, cutRev: nat, fenceId: nat)

  datatype BeginError = IdentityRequired | AlreadyPending | NotReady

  datatype CompleteOutcome = Completed | GenerationChanged | NoRoom

  /** A per-lane map without one connection's lanes. */
  function Without<V>(m: map<LaneKey, V>, conn: Conn): (r: map<LaneKey, V>)
    ensures forall j :: j in r <==> j in m && j.conn != conn
    ensures forall j | j in r :: r[j] == m[j]
  {
    map j | j in m && j.conn != conn :: m[j]
  }

  function WithoutLanes(lanes: set<LaneKey>, conn: Conn): (r: set<LaneKey>)
    ensures forall j :: j in r <==> j in lanes && j.conn != conn
  {
    set j | j in lanes && j.conn != conn
  }

  class Publisher {
    // The JSON encoder's length function, and the outbound queues as the frames put in them.
    const encodedBytes: Encoder
    var outbox: map<LaneKey, seq<Frame>>

    var syncV2: set<Conn>
    var snapshotCuts: map<LaneKey, nat>
    var fences: map<LaneKey, Fence>
    var invalidatedLanes: set<LaneKey>
    var deliveryModes: map<LaneKey, DeliveryMode>
    var heldTurns: map<LaneKey, set<TurnId>>
    var connectionGenerations: map<Conn, nat>
    var nextConnectionGeneration: nat
    var nextFenceId: nat

    ghost function LaneOf(k: LaneKey): Lane
      reads this
    {
      Lane(GetOr(snapshotCuts, k, 0), Lookup(fences, k), k in invalidatedLanes,
           GetOr(deliveryModes, k, Full) == Window, GetOr(heldTurns, k, {}), GetOr(outbox, k, []))
    }

    constructor (encodedBytes: Encoder)
      ensures this.encodedBytes == encodedBytes && syncV2 == {}
      ensures forall k :: LaneOf(k) == EMPTY_LANE
    {
      this.encodedBytes := encodedBytes;
      outbox, syncV2, snapshotCuts, fences := map[], {}, map[], map[];
      invalidatedLanes, deliveryModes, heldTurns := {}, map[], map[];
      connectionGenerations, nextConnectionGeneration, nextFenceId := map[], 0, 0;
    }

    /** The lanes of one session on the targeted connections that declared session sync. */
    predicate Targeted(k: LaneKey, targets: set<Conn>, backendId: string, sessionId: string)
      reads this`syncV2
    {
      k.conn in targets && k.conn in syncV2 && k.backendId == backendId && k.sessionId == sessionId
    }

    /** Whether the connection declared session sync; its lanes stay as they are. */
    method SetConnSyncV2(conn: Conn, enabled: bool)
      modifies this`syncV2
      ensures forall c :: c in syncV2 <==> if c == conn then enabled else c in old(syncV2)
      ensures forall j :: LaneOf(j) == old(LaneOf(j))
    {
      if enabled {
        syncV2 := syncV2 + {conn};
      } else {
        syncV2 := syncV2 - {conn};
      }
    }

    method SetDeliveryMode(k: LaneKey, mode: DeliveryMode)
      modifies this`deliveryModes
      ensures forall j ::
                LaneOf(j) == if j == k then StepLane(old(LaneOf(j)), SetMode(mode == Window), encodedBytes)
                else old(LaneOf(j))
      ensures LaneOf(k) == old(LaneOf(k)).(window := mode == Window)
    {
      deliveryModes := deliveryModes[k := mode];
    }

    method RecordWindowTurns(k: LaneKey, turnIds: seq<TurnId>)
      modifies this`heldTurns
      ensures forall j ::
                LaneOf(j) == if j == k then StepLane(old(LaneOf(j)), RecordTurns(turnIds), encodedBytes)
                else old(LaneOf(j))
      ensures LaneOf(k) == old(LaneOf(k)).(held := old(LaneOf(k)).held + set id | id in turnIds && id != "")
    {
      var held := GetOr(heldTurns, k, {});
      for i := 0 to |turnIds|
        invariant held == GetOr(old(heldTurns), k, {}) + NonEmptyIds(turnIds[..i])
      {
        assert turnIds[..i + 1] == turnIds[..i] + [turnIds[i]];
        if turnIds[i] != "" {
          held := held + {turnIds[i]};
        }
      }
      assert turnIds[..|turnIds|] == turnIds;
      heldTurns := heldTurns[k := held];
    }

    method ClearWindowTurns(k: LaneKey)
      modifies this`heldTurns
      ensures forall j ::
                LaneOf(j) == if j == k then StepLane(old(LaneOf(j)), ClearTurns, encodedBytes) else old(LaneOf(j))
      ensures LaneOf(k) == old(LaneOf(k)).(held := {})
    {
      heldTurns := heldTurns - {k};
    }

    method UnregisterConnection(conn: Conn)
      modifies this
      ensures forall j :: LaneOf(j) == if j.conn == conn then EMPTY_LANE else old(LaneOf(j))
      ensures syncV2 == old(syncV2) - {conn} && conn !in connectionGenerations
    {
      DropLanes(conn);
      syncV2 := syncV2 - {conn};
      connectionGenerations := connectionGenerations - {conn};
    }

    method DropLanes(conn: Conn)
      modifies this`outbox, this`snapshotCuts, this`fences, this`invalidatedLanes, this`deliveryModes, this`heldTurns
      ensures forall j :: LaneOf(j) == if j.conn == conn then EMPTY_LANE else old(LaneOf(j))
    {
      outbox, snapshotCuts, fences, invalidatedLanes, deliveryModes, heldTurns :=
        Without(outbox, conn), Without(snapshotCuts, conn), Without(fences, conn),
        WithoutLanes(invalidatedLanes, conn), Without(deliveryModes, conn), Without(heldTurns, conn);
    }

    method Enqueue(k: LaneKey, frame: Frame, accepts: bool)
      modifies this`outbox
      ensures forall j ::
                LaneOf(j) == if j == k && accepts then old(LaneOf(j)).(frames := old(LaneOf(j)).frames + [frame])
                else old(LaneOf(j))
    {
      if accepts {
        outbox := outbox[k := GetOr(outbox, k, []) + [frame]];
      }
    }

    method EnqueueInvalidate(k: LaneKey, accepts: bool)
      modifies this`outbox, this`heldTurns
      ensures forall j :: LaneOf(j) == if j == k then InvalidateLane(old(LaneOf(j)), accepts) else old(LaneOf(j))
    {
      heldTurns := heldTurns - {k};
      Enqueue(k, InvalidateFrame, accepts);
    }

    method AppendToFence(k: LaneKey, patch: Patch, decide: bool)
      requires k in fences
      modifies this`fences
      ensures forall j ::
        LaneOf(j) ==
          if j == k then old(LaneOf(j)).(fence := Some(AppendFence(old(fences[k]), patch, decide, encodedBytes)))
          else old(LaneOf(j))
    {
      var fence := fences[k];
      if patch.syncRev <= fence.expectedRev || fence.invalidated {
        return;
      }
      if patch.baseRev != fence.expectedRev {
        fences := fences[k := InvalidatedFence(fence)];
        return;
      }
      var size := encodedBytes(patch);
      if |fence.pending| + 1 > FENCE_MAX_PATCHES || fence.pendingBytes + size > FENCE_MAX_BYTES {
        fences := fences[k := InvalidatedFence(fence)];
        return;
      }
      fences := fences[k := fence.(pending := fence.pending + [PendingPatch(patch, decide)],
                                   pendingBytes := fence.pendingBytes + size,
                                   expectedRev := patch.syncRev)];
    }

    method DeliverSinglePatch(k: LaneKey, patch: Patch, accepts: bool)
      modifies this`outbox, this`snapshotCuts, this`fences, this`invalidatedLanes, this`heldTurns
      ensures forall j ::
                LaneOf(j) == if j == k then DeliverSingle(old(LaneOf(j)), patch, accepts, encodedBytes)
                else old(LaneOf(j))
    {
      if k in fences {
        AppendToFence(k, patch, false);
        return;
      }
      if k in invalidatedLanes {
        return;
      }
      var cut := GetOr(snapshotCuts, k, 0);
      if patch.syncRev <= cut {
        return;
      }
      if cut != 0 && patch.baseRev != cut {
        EnqueueInvalidate(k, accepts);
        invalidatedLanes := invalidatedLanes + {k};
        return;
      }
      if accepts {
        Enqueue(k, PatchFrame(patch), accepts);
        snapshotCuts := snapshotCuts[k := patch.syncRev];
      }
    }

    /** One target of the live fan-out: like a single delivery, but a refused patch invalidates the lane. */
    method DeliverLivePatch(k: LaneKey, patch: Patch, accepts: bool)
      modifies this`outbox, this`snapshotCuts, this`fences, this`invalidatedLanes, this`heldTurns
      ensures forall j ::
                LaneOf(j) == if j == k then DeliverLive(old(LaneOf(j)), patch, true, accepts, encodedBytes)
                else old(LaneOf(j))
    {
      if k in fences {
        var fence := fences[k];
        if patch.syncRev <= fence.expectedRev || fence.invalidated {
          return;
        }
        AppendToFence(k, patch, false);
        return;
      }
      if k in invalidatedLanes {
        return;
      }
      var cut := GetOr(snapshotCuts, k, 0);
      if patch.syncRev <= cut {
        return;
      }
      if cut != 0 && patch.baseRev != cut {
        EnqueueInvalidate(k, accepts);
        invalidatedLanes := invalidatedLanes + {k};
        return;
      }
      if accepts {
        Enqueue(k, PatchFrame(patch), accepts);
        snapshotCuts := snapshotCuts[k := patch.syncRev];
      } else {
        invalidatedLanes := invalidatedLanes + {k};
      }
    }

    method DeliverPatch(targets: set<Conn>, backendId: string, sessionId: string, patch: Patch,
                        observed: Conn -> bool, accepts: Conn -> bool)
      modifies this`outbox, this`snapshotCuts, this`fences, this`invalidatedLanes, this`heldTurns
      ensures forall j ::
        LaneOf(j) ==
          if Targeted(j, targets, backendId, sessionId)
          then DeliverLive(old(LaneOf(j)), patch, observed(j.conn), accepts(j.conn), encodedBytes)
          else old(LaneOf(j))
    {
      var todo := targets;
      while todo != {}
        invariant todo <= targets
        invariant forall j ::
          LaneOf(j) ==
            if Targeted(j, targets - todo, backendId, sessionId)
            then DeliverLive(old(LaneOf(j)), patch, observed(j.conn), accepts(j.conn), encodedBytes)
            else old(LaneOf(j))
        decreases todo
      {
        var conn :| conn in todo;
        todo := todo - {conn};
        if conn in syncV2 && observed(conn) {
          DeliverLivePatch(LaneKey(conn, backendId, sessionId), patch, accepts(conn));
        }
      }
    }

    method PublishPrepend(targets: set<Conn>, backendId: string, sessionId: string, syncRev: nat,
                          requester: Option<Conn>, accepts: Conn -> bool)
      modifies this`outbox, this`snapshotCuts, this`fences, this`invalidatedLanes, this`heldTurns
      ensures forall j ::
        LaneOf(j) ==
          if Targeted(j, targets, backendId, sessionId)
          then PrependLane(old(LaneOf(j)), syncRev, requester == Some(j.conn), accepts(j.conn), encodedBytes)
          else old(LaneOf(j))
    {
      var todo := targets;
      while todo != {}
        invariant todo <= targets
        invariant forall j ::
          LaneOf(j) ==
            if Targeted(j, targets - todo, backendId, sessionId)
            then PrependLane(old(LaneOf(j)), syncRev, requester == Some(j.conn), accepts(j.conn), encodedBytes)
            else old(LaneOf(j))
        decreases todo
      {
        var conn :| conn in todo;
        todo := todo - {conn};
        if conn !in syncV2 || requester == Some(conn) {
          continue;
        }
        var k := LaneKey(conn, backendId, sessionId);
        if GetOr(deliveryModes, k, Full) == Window {
          var base := GetOr(snapshotCuts, k, 0);
          if k in fences && !fences[k].invalidated {
            base := fences[k].expectedRev;
          }
          if base == 0 || base >= syncRev {
            continue;
          }
          DeliverSinglePatch(k, NoOpPatch(base, syncRev), accepts(conn));
          continue;
        }
        EnqueueInvalidate(k, accepts(conn));
      }
    }

    /** Content for the requester, full connections and holders; a deferral behind a fence; else a no-op. */
    method CommitTo(k: LaneKey, commit: Patch, requester: bool, accepts: bool)
      modifies this`outbox, this`snapshotCuts, this`fences, this`invalidatedLanes, this`heldTurns
      ensures forall j ::
        LaneOf(j) == if j == k then CommitLane(old(LaneOf(j)), commit, requester, accepts, encodedBytes)
        else old(LaneOf(j))
    {
      var held := GetOr(heldTurns, k, {});
      var turnIds := PatchTurnIds(commit);
      if requester || GetOr(deliveryModes, k, Full) != Window || exists id :: id in held && id in turnIds {
        DeliverSinglePatch(k, commit, accepts);
        return;
      }
      if k in fences && !fences[k].invalidated {
        AppendToFence(k, commit, true);
        return;
      }
      var base := GetOr(snapshotCuts, k, 0);
      if base == 0 || base >= commit.syncRev {
        return;
      }
      DeliverSinglePatch(k, NoOpPatch(base, commit.syncRev), accepts);
    }

    /** Routes the last patch of a detail commit by requester, mode and held turns. */
    method RouteCommit(targets: set<Conn>, backendId: string, sessionId: string, commit: Patch,
                       requester: Option<Conn>, accepts: Conn -> bool)
      modifies this`outbox, this`snapshotCuts, this`fences, this`invalidatedLanes, this`heldTurns
      ensures forall j ::
        LaneOf(j) ==
          if Targeted(j, targets, backendId, sessionId)
          then CommitLane(old(LaneOf(j)), commit, requester == Some(j.conn), accepts(j.conn), encodedBytes)
          else old(LaneOf(j))
    {
      var todo := targets;
      while todo != {}
        invariant todo <= targets
        invariant forall j ::
          LaneOf(j) ==
            if Targeted(j, targets - todo, backendId, sessionId)
            then CommitLane(old(LaneOf(j)), commit, requester == Some(j.conn), accepts(j.conn), encodedBytes)
            else old(LaneOf(j))
        decreases todo
      {
        var conn :| conn in todo;
        todo := todo - {conn};
        if conn !in syncV2 {
          continue;
        }
        CommitTo(LaneKey(conn, backendId, sessionId), commit, requester == Some(conn), accepts(conn));
      }
    }

    /** A lane after the staged live patches of a detail commit, the i-th one meeting the i-th queue answer. */
    static function AfterLivePatches(l: Lane, lives: seq<Patch>, observed: bool, accepts: int -> bool,
                                     enc: Encoder): Lane {
      if lives == [] then l
      else
        var n := |lives| - 1;
        DeliverLive(AfterLivePatches(l, lives[..n], observed, accepts, enc), lives[n], observed, accepts(n), enc)
    }

    method PublishDetail(targets: set<Conn>, backendId: string, sessionId: string, patches: seq<Patch>,
                         requester: Option<Conn>, observed: Conn -> bool, accepts: (Conn, int) -> bool)
      modifies this`outbox, this`snapshotCuts, this`fences, this`invalidatedLanes, this`heldTurns
      ensures forall j ::
        LaneOf(j) ==
          if Targeted(j, targets, backendId, sessionId) && patches != []
            && patches[|patches| - 1].baseRev < patches[|patches| - 1].syncRev
          then
          CommitLane(
            AfterLivePatches(old(LaneOf(j)), patches[..|patches| - 1], observed(j.conn), n => accepts(j.conn, n),
                             encodedBytes),
            patches[|patches| - 1], requester == Some(j.conn), accepts(j.conn, |patches| - 1), encodedBytes)
          else old(LaneOf(j))
    {
      if syncV2 == {} || patches == [] {
        return;
      }
      var commit := patches[|patches| - 1];
      if commit.syncRev <= commit.baseRev {
        return;
      }
      var lives := patches[..|patches| - 1];
      for i := 0 to |lives|
        invariant forall j ::
          LaneOf(j) ==
            if Targeted(j, targets, backendId, sessionId)
            then AfterLivePatches(old(LaneOf(j)), lives[..i], observed(j.conn), n => accepts(j.conn, n), encodedBytes)
            else old(LaneOf(j))
      {
        assert lives[..i + 1][..i] == lives[..i];
        DeliverPatch(targets, backendId, sessionId, lives[i], observed, c => accepts(c, i));
      }
      assert lives[..|lives|] == lives;
      RouteCommit(targets, backendId, sessionId, commit, requester, c => accepts(c, |patches| - 1));
    }

    /** Whether the admission is the one the lane's fence was opened for, on the connection's current generation. */
    ghost predicate Admitted(conn: Conn, admission: Admission)
      reads this`fences, this`connectionGenerations
    {
      var k := LaneKey(conn, admission.backendId, admission.sessionId);
      && k in fences && fences[k].id == admission.fenceId && fences[k].generation == admission.generation
      && Lookup(connectionGenerations, conn) == Some(admission.generation)
    }

    /** Takes the committed head (none when the session is not ready) and installs the fence at it. */
    method BeginProjectionSnapshot(k: LaneKey, head: Option<nat>) returns (r: Result<Admission, BeginError>)
      modifies this
      ensures r.Ok? <==> k.backendId != "" && k.sessionId != "" && old(LaneOf(k)).fence.None? && head.Some?
      ensures k.conn in connectionGenerations || r.Err?
      ensures r.Ok? ==>
        && r.value == Admission(connectionGenerations[k.conn], k.backendId, k.sessionId, head.value, nextFenceId)
        && nextFenceId == old(nextFenceId) + 1
        && LaneOf(k) ==
           StepLane(old(LaneOf(k)), Begin(nextFenceId, connectionGenerations[k.conn], head.value), encodedBytes)
      // The admission is the one the fence it opened answers to, and the fence starts empty at the head.
      ensures r.Ok? ==>
        && Admitted(k.conn, r.value) && k !in invalidatedLanes
        && fences[k] == Fence(r.value.fenceId, r.value.generation, head.value, head.value, [], 0, false)
      ensures forall j :: j != k || r.Err? ==> LaneOf(j) == old(LaneOf(j))
      ensures syncV2 == old(syncV2)
    {
      if k.backendId == "" || k.sessionId == "" {
        return Err(IdentityRequired);
      }
      if k in fences {
        return Err(AlreadyPending);
      }
      if head.None? {
        return Err(NotReady);
      }
      if k.conn !in connectionGenerations {
        nextConnectionGeneration := nextConnectionGeneration + 1;
        connectionGenerations := connectionGenerations[k.conn := nextConnectionGeneration];
      }
      nextFenceId := nextFenceId + 1;
      var generation := connectionGenerations[k.conn];
      fences := fences[k := Fence(nextFenceId, generation, head.value, head.value, [], 0, false)];
      invalidatedLanes := invalidatedLanes - {k};
      r := Ok(Admission(generation, k.backendId, k.sessionId, head.value, nextFenceId));
    }

    /** Settles every undecided patch of a fence against the turns the connection now holds. */
    method ResolvePending(pending: seq<PendingPatch>, held: set<TurnId>, scalar: bool) returns (ps: seq<Patch>)
      ensures ps == Resolve(pending, held, scalar)
    {
      ps := [];
      for i := 0 to |pending|
        invariant ps == Resolve(pending[..i], held, scalar)
      {
        assert pending[..i + 1][..i] == pending[..i];
        var p := pending[i].patch;
        if pending[i].decide && !(exists id :: id in held && id in PatchTurnIds(p)) {
          p := p.(upsertTurns := [], partOps := [], turnStateOps := []);
          if !scalar {
            p := p.(execution := None);
          }
        }
        ps := ps + [p];
      }
      assert pending[..|pending|] == pending;
    }

    method EnqueuePatches(k: LaneKey, patches: seq<Patch>)
      modifies this`outbox
      ensures forall j ::
        LaneOf(j) == if j == k then old(LaneOf(j)).(frames := old(LaneOf(j)).frames + PatchFrames(patches))
        else old(LaneOf(j))
    {
      for i := 0 to |patches|
        invariant forall j ::
          LaneOf(j) ==
            if j == k then old(LaneOf(j)).(frames := old(LaneOf(j)).frames + PatchFrames(patches[..i]))
            else old(LaneOf(j))
      {
        assert patches[..i + 1][..i] == patches[..i];
        Enqueue(k, PatchFrame(patches[i]), true);
      }
      assert patches[..|patches|] == patches;
    }

    /** The response of an invalidated fence tells the connection to pull again. */
    method SendUnusable(k: LaneKey, rev: nat, response: Response)
      modifies this`outbox, this`invalidatedLanes
      ensures forall j ::
        LaneOf(j) ==
          if j == k then
            old(LaneOf(j)).(
              invalidated := true,
              frames := old(LaneOf(j)).frames + [ResultFrame(rev, response, false), InvalidateFrame])
          else old(LaneOf(j))
    {
      TwoFrames(GetOr(outbox, k, []), ResultFrame(rev, response, false), InvalidateFrame);
      Enqueue(k, ResultFrame(rev, response, false), true);
      Enqueue(k, InvalidateFrame, true);
      invalidatedLanes := invalidatedLanes + {k};
    }

    /** The response of a usable fence, the patches held behind it, and the cut they lead to. */
    method SendUsable(k: LaneKey, rev: nat, response: Response, patches: seq<Patch>, cut: nat)
      modifies this`outbox, this`invalidatedLanes, this`snapshotCuts
      ensures forall j ::
        LaneOf(j) ==
          if j == k then
            old(LaneOf(j)).(invalidated := false, cut := cut,
                            frames := old(LaneOf(j)).frames + [ResultFrame(rev, response, true)] + PatchFrames(patches))
          else old(LaneOf(j))
    {
      Enqueue(k, ResultFrame(rev, response, true), true);
      EnqueuePatches(k, patches);
      snapshotCuts := snapshotCuts[k := cut];
      invalidatedLanes := invalidatedLanes - {k};
    }

    /** Empties the fence of a lane whose response turns are already recorded. */
    method ReleaseFence(k: LaneKey, response: Response, scalar: bool, freeSlots: nat) returns (outcome: CompleteOutcome)
      requires k in fences
      modifies this`outbox, this`snapshotCuts, this`fences, this`invalidatedLanes, this`heldTurns
      ensures outcome == if freeSlots < RequiredSlots(old(fences[k])) then NoRoom else Completed
      ensures forall j ::
        LaneOf(j) == if j == k then CompleteLane(old(LaneOf(j)), response, [], scalar, freeSlots) else old(LaneOf(j))
    {
      var fence := fences[k];
      var patches := ResolvePending(fence.pending, GetOr(heldTurns, k, {}), scalar);
      var required := if fence.invalidated then 2 else 1 + |fence.pending|;
      CompletesWith(LaneOf(k), response, scalar, freeSlots);
      fences := fences - {k};
      if freeSlots < required {
        ClearWindowTurns(k);
        return NoRoom;
      }
      if fence.invalidated {
        SendUnusable(k, fence.cutRev, response);
      } else {
        SendUsable(k, fence.cutRev, response, patches, fence.expectedRev);
      }
      outcome := Completed;
    }

    /** The response first, then everything held behind it, in one batch; else the connection is closed. */
    method CompleteProjectionSnapshot(conn: Conn, admission: Admission, response: Response, heldIds: seq<TurnId>,
                                      scalar: bool, freeSlots: nat) returns (outcome: CompleteOutcome)
      modifies this
      ensures var k := LaneKey(conn, admission.backendId, admission.sessionId);
        outcome == if !old(Admitted(conn, admission)) then GenerationChanged
                   else if freeSlots < RequiredSlots(old(fences)[k]) then NoRoom
                   else Completed
      ensures var k := LaneKey(conn, admission.backendId, admission.sessionId);
        forall j ::
          LaneOf(j) ==
            if j == k && old(Admitted(conn, admission)) then
              StepLane(old(LaneOf(j)), Complete(response, heldIds, scalar, freeSlots), encodedBytes)
            else old(LaneOf(j))
      ensures syncV2 == old(syncV2)
    {
      var k := LaneKey(conn, admission.backendId, admission.sessionId);
      if k !in fences || fences[k].id != admission.fenceId || fences[k].generation != admission.generation
         || Lookup(connectionGenerations, conn) != Some(admission.generation) {
        return GenerationChanged;
      }
      outcome := CompleteFence(k, response, heldIds, scalar, freeSlots);
    }

    /** A pull that failed after admission releases its fence the same way, with an error for a response. */
    method CompleteProjectionSnapshotError(conn: Conn, admission: Admission, scalar: bool, freeSlots: nat)
      returns (outcome: CompleteOutcome)
      modifies this
      ensures var k := LaneKey(conn, admission.backendId, admission.sessionId);
        forall j ::
          LaneOf(j) ==
            if j == k && old(Admitted(conn, admission)) then
              StepLane(old(LaneOf(j)), Complete(None, [], scalar, freeSlots), encodedBytes)
            else old(LaneOf(j))
    {
      outcome := CompleteProjectionSnapshot(conn, admission, None, [], scalar, freeSlots);
    }

    /** Records the turns of a usable response and empties the fence. */
    method CompleteFence(k: LaneKey, response: Response, heldIds: seq<TurnId>, scalar: bool, freeSlots: nat)
      returns (outcome: CompleteOutcome)
      requires k in fences
      modifies this`outbox, this`snapshotCuts, this`fences, this`invalidatedLanes, this`heldTurns
      ensures outcome == if freeSlots < RequiredSlots(old(fences)[k]) then NoRoom else Completed
      ensures forall j ::
        LaneOf(j) == if j == k then CompleteLane(old(LaneOf(j)), response, heldIds, scalar, freeSlots)
        else old(LaneOf(j))
    {
      RecordThenComplete(LaneOf(k), response, heldIds, scalar, freeSlots);
      if heldIds != [] && !fences[k].invalidated {
        RecordWindowTurns(k, heldIds);
      }
      outcome := ReleaseFence(k, response, scalar, freeSlots);
    }
  }

  /** The staged patches of a detail go out ahead of its commit, one behind the other, to a lane that stands there. */
  lemma {:induction false} StagedGoOut(l: Lane, lives: seq<Patch>, to: nat, accepts: int -> bool, enc: Encoder)
    requires l.fence.None? && !l.invalidated && LinkedRun(l.cut, lives, to)
    requires forall i | 0 <= i < |lives| :: accepts(i)
    ensures Publisher.AfterLivePatches(l, lives, true, accepts, enc) ==
            l.(cut := to, frames := l.frames + PatchFrames(lives))
  {
    if lives == [] {
      assert l.frames + [] == l.frames;
    } else {
      var n := |lives| - 1;
      StagedGoOut(l, lives[..n], lives[n].baseRev, accepts, enc);
      assert l.frames + PatchFrames(lives) == l.frames + PatchFrames(lives[..n]) + [PatchFrame(lives[n])];
    }
  }

  /** What a completion without turns of its own comes to, outcome by outcome. */
  lemma CompletesWith(l: Lane, response: Response, scalar: bool, free: nat)
    requires l.fence.Some?
    ensures var f := l.fence.value;
            CompleteLane(l, response, [], scalar, free) ==
            if free < RequiredSlots(f) then l.(fence := None, held := {})
            else if f.invalidated then
              l.(fence := None, invalidated := true,
                 frames := l.frames + [ResultFrame(f.cutRev, response, false), InvalidateFrame])
            else
              l.(fence := None, invalidated := false, cut := f.expectedRev,
                 frames := l.frames + [ResultFrame(f.cutRev, response, true)]
                           + PatchFrames(Resolve(f.pending, l.held, scalar)))
  {
    assert l.held + NonEmptyIds([]) == l.held;
  }

  lemma TwoFrames(fs: seq<Frame>, x: Frame, y: Frame)
    ensures fs + [x] + [y] == fs + [x, y]
  {
  }

  // Recording the response's turns first and completing without any is completing with them.
  lemma RecordThenComplete(l: Lane, response: Response, ids: seq<TurnId>, scalar: bool, free: nat)
    requires l.fence.Some?
    ensures CompleteLane(l, response, ids, scalar, free) ==
            var marked := if l.fence.value.invalidated || ids == [] then l else l.(held := l.held + NonEmptyIds(ids));
            CompleteLane(marked, response, [], scalar, free)
  {
    assert l.held + NonEmptyIds(ids) + NonEmptyIds([]) == l.held + NonEmptyIds(ids);
  }
}
